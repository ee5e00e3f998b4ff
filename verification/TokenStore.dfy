/**
 * The token store of the auth service: two browser storages behave as one register, while
 * any number of authenticated requests refresh, retry and log out in between.
 */
module TokenStore {
  import opened Optional

  // ---------- the storages ----------

  datatype Key = AuthToken | RefreshToken

  type Storage = map<Key, string>

  datatype Stores = Stores(local: Storage, session: Storage)

  /** An access token and the refresh token issued with it. */
  datatype Pair = Pair(access: string, refresh: string)

  predicate Issued(p: Pair) {
    p.access != "" && p.refresh != ""
  }

  function GetItem(s: Storage, k: Key): Option<string> {
    if k in s then Some(s[k]) else None
  }

  /** JavaScript's `a || b`: the empty string counts as absent. */
  function Or(a: Option<string>, b: Option<string>): Option<string> {
    if a.Some? && a.value != "" then a else b
  }

  function GetAuthToken(s: Stores): Option<string> {
    Or(GetItem(s.local, AuthToken), GetItem(s.session, AuthToken))
  }

  function GetRefreshToken(s: Stores): Option<string> {
    Or(GetItem(s.local, RefreshToken), GetItem(s.session, RefreshToken))
  }

  /** What the authorization header of a request carries: nothing for a missing or empty token. */
  function AuthHeader(s: Stores): Option<string> {
    Or(GetAuthToken(s), None)
  }

  function StoreTokens(s: Stores, p: Pair): Stores {
    s.(local := s.local[AuthToken := p.access][RefreshToken := p.refresh])
  }

  function MoveTokens(s: Stores): Stores {
    var auth, refresh := GetItem(s.local, AuthToken), GetItem(s.local, RefreshToken);
    if Or(auth, None).Some? && Or(refresh, None).Some? && auth.value != "" && refresh.value != "" then
      Stores(s.local - {AuthToken, RefreshToken},
             s.session[AuthToken := auth.value][RefreshToken := refresh.value])
    else s
  }

  function Logout(s: Stores): Stores {
    Stores(s.local - {AuthToken, RefreshToken}, s.session - {AuthToken, RefreshToken})
  }

  // ---------- the service, between two awaits ----------

  /** Where an authenticated request stands; a finished one is forgotten. */
  datatype Phase =
    | Sent
    | Refreshing
    | Refreshed
    | RefreshFailed

  /** What goes over the wire: a call with its authorization, or a refresh with its token. */
  datatype Request = Call(f: nat, accessToken: Option<string>) | Refresh(f: nat, refreshToken: string)

  /** `log` lists what was sent, oldest first. */
  datatype State = State(stores: Stores, requests: map<nat, Phase>, log: seq<Request>)

  class AuthService {
    var localStorage: Storage
    var sessionStorage: Storage
    var requests: map<nat, Phase>
    var log: seq<Request>

    function View(): State
      reads this
    {
      State(Stores(localStorage, sessionStorage), requests, log)
    }

    constructor (stores: Stores)
      ensures View() == State(stores, map[], [])
    {
      localStorage, sessionStorage, requests, log := stores.local, stores.session, map[], [];
    }

    /** The answer of a signup or a login. */
    method Store(p: Pair)
      modifies this`localStorage
      ensures View() == old(View()).(stores := StoreTokens(old(View()).stores, p))
    {
      localStorage := localStorage[AuthToken := p.access];
      localStorage := localStorage[RefreshToken := p.refresh];
    }

    method MoveTokensToSessionStorage()
      modifies this`localStorage, this`sessionStorage
      ensures View() == old(View()).(stores := MoveTokens(old(View()).stores))
    {
      var authToken := GetItem(localStorage, AuthToken);
      var refreshToken := GetItem(localStorage, RefreshToken);
      if authToken.Some? && authToken.value != "" && refreshToken.Some? && refreshToken.value != "" {
        sessionStorage := sessionStorage[AuthToken := authToken.value];
        sessionStorage := sessionStorage[RefreshToken := refreshToken.value];
        localStorage := localStorage - {AuthToken};
        localStorage := localStorage - {RefreshToken};
        assert localStorage == old(localStorage) - {AuthToken, RefreshToken};
      }
    }

    method LogOut()
      modifies this`localStorage, this`sessionStorage
      ensures View() == old(View()).(stores := Logout(old(View()).stores))
    {
      localStorage := localStorage - {AuthToken};
      localStorage := localStorage - {RefreshToken};
      sessionStorage := sessionStorage - {AuthToken};
      sessionStorage := sessionStorage - {RefreshToken};
      assert localStorage == old(localStorage) - {AuthToken, RefreshToken};
      assert sessionStorage == old(sessionStorage) - {AuthToken, RefreshToken};
    }

    /** Sends a request with the current access token, if there is one. */
    method Send(f: nat)
      requires f !in requests
      modifies this`requests, this`log
      ensures View() == Next(old(View()), Event.Send(f))
    {
      log := log + [Call(f, AuthHeader(Stores(localStorage, sessionStorage)))];
      requests := requests[f := Sent];
    }

    /** The answer arrives: only a 401 goes on, with a refresh if a refresh token is there. */
    method Receive(f: nat, unauthorized: bool)
      requires f in requests && requests[f] == Sent
      modifies this`requests, this`log
      ensures View() == Next(old(View()), Event.Answer(f, unauthorized))
    {
      if !unauthorized {
        requests := requests - {f};
      } else {
        var refreshToken := GetRefreshToken(Stores(localStorage, sessionStorage));
        if refreshToken.None? || refreshToken.value == "" {
          requests := requests[f := RefreshFailed];
        } else {
          log := log + [Request.Refresh(f, refreshToken.value)];
          requests := requests[f := Refreshing];
        }
      }
    }

    /** The refresh ends: with a new pair, or refused, failed or thrown. */
    method ReceiveRefresh(f: nat, result: Option<Pair>)
      requires f in requests && requests[f].Refreshing?
      modifies this`requests, this`localStorage
      ensures View() == Next(old(View()), Event.RefreshAnswer(f, result))
    {
      if result.Some? {
        Store(result.value);
        requests := requests[f := Refreshed];
      } else {
        requests := requests[f := RefreshFailed];
      }
    }

    /** Retries once, with whatever access token is stored by now. */
    method Retry(f: nat)
      requires f in requests && requests[f] == Refreshed
      modifies this`requests, this`log
      ensures View() == Next(old(View()), Event.Retry(f))
    {
      log := log + [Call(f, AuthHeader(Stores(localStorage, sessionStorage)))];
      requests := requests - {f};
    }

    /** Gives up: logs out and throws. */
    method GiveUp(f: nat)
      requires f in requests && requests[f] == RefreshFailed
      modifies this`requests, this`localStorage, this`sessionStorage
      ensures View() == Next(old(View()), Event.GiveUp(f))
    {
      LogOut();
      requests := requests - {f};
    }
  }

  // ---------- runs ----------

  datatype Event =
    | SignIn(pair: Pair)
    | MoveToSession
    | SignOut
    | Send(f: nat)
    | Answer(f: nat, unauthorized: bool)
    | RefreshAnswer(f: nat, result: Option<Pair>)
    | Retry(f: nat)
    | GiveUp(f: nat)

  predicate Enabled(s: State, e: Event) {
    match e
    case SignIn(p) => Issued(p)
    case MoveToSession => true
    case SignOut => true
    case Send(f) => f !in s.requests
    case Answer(f, _) => f in s.requests && s.requests[f] == Sent
    case RefreshAnswer(f, result) =>
      f in s.requests && s.requests[f].Refreshing? && (result.Some? ==> Issued(result.value))
    case Retry(f) => f in s.requests && s.requests[f] == Refreshed
    case GiveUp(f) => f in s.requests && s.requests[f] == RefreshFailed
  }

  function Next(s: State, e: Event): State {
    match e
    case SignIn(p) => s.(stores := StoreTokens(s.stores, p))
    case MoveToSession => s.(stores := MoveTokens(s.stores))
    case SignOut => s.(stores := Logout(s.stores))
    case Send(f) => s.(requests := s.requests[f := Sent], log := s.log + [Call(f, AuthHeader(s.stores))])
    case Answer(f, unauthorized) =>
      var token := GetRefreshToken(s.stores);
      if !unauthorized then s.(requests := s.requests - {f})
      else if token.None? || token.value == "" then s.(requests := s.requests[f := RefreshFailed])
      else s.(requests := s.requests[f := Refreshing], log := s.log + [Request.Refresh(f, token.value)])
    case RefreshAnswer(f, None) => s.(requests := s.requests[f := RefreshFailed])
    case RefreshAnswer(f, Some(p)) => s.(stores := StoreTokens(s.stores, p), requests := s.requests[f := Refreshed])
    case Retry(f) => s.(requests := s.requests - {f}, log := s.log + [Call(f, AuthHeader(s.stores))])
    case GiveUp(f) => s.(stores := Logout(s.stores), requests := s.requests - {f})
  }

  /** `es` can happen from `s` and leads to `t`. */
  ghost predicate Run(s: State, es: seq<Event>, t: State)
    decreases |es|
  {
    if es == [] then s == t
    else
      var n := |es| - 1;
      exists u :: Run(s, es[..n], u) && Enabled(u, es[n]) && t == Next(u, es[n])
  }

  // ---------- the register ----------

  function Holding(p: Pair): Storage {
    map[AuthToken := p.access, RefreshToken := p.refresh]
  }

  /** The storage holds one whole issued pair, or nothing. */
  ghost predicate Whole(s: Storage) {
    s == map[] || exists p :: Issued(p) && s == Holding(p)
  }

  /** What the two storages hold as one register: local storage hides session storage. */
  function Held(s: Stores): Option<Pair> {
    if Full(s.local) then Some(Pair(s.local[AuthToken], s.local[RefreshToken]))
    else if Full(s.session) then Some(Pair(s.session[AuthToken], s.session[RefreshToken]))
    else None
  }

  predicate Full(s: Storage) {
    AuthToken in s && RefreshToken in s
  }

  /** The register by the history alone: the pair stored last since the last logout. */
  function LastStored(es: seq<Event>, before: Option<Pair>): Option<Pair> {
    if es == [] then before
    else
      match es[|es| - 1]
      case SignIn(p) => Some(p)
      case RefreshAnswer(_, Some(p)) => Some(p)
      case SignOut => None
      case GiveUp(_) => None
      case _ => LastStored(es[..|es| - 1], before)
  }

  /** What was sent, by the history alone: each request with a token of the register at that moment. */
  function SentTokens(es: seq<Event>, before: Option<Pair>): seq<Request> {
    if es == [] then []
    else
      var past := es[..|es| - 1];
      match es[|es| - 1]
      case Send(f) => SentTokens(past, before) + [Call(f, Access(LastStored(past, before)))]
      case Retry(f) => SentTokens(past, before) + [Call(f, Access(LastStored(past, before)))]
      case Answer(f, true) =>
        var held := LastStored(past, before);
        SentTokens(past, before) + if held.Some? then [Request.Refresh(f, held.value.refresh)] else []
      case _ => SentTokens(past, before)
  }

  function Access(p: Option<Pair>): Option<string> {
    if p.Some? then Some(p.value.access) else None
  }

  function RefreshOf(p: Option<Pair>): Option<string> {
    if p.Some? then Some(p.value.refresh) else None
  }

  ghost predicate WholeStores(s: Stores) {
    Whole(s.local) && Whole(s.session)
  }

  lemma StoreKeeps(s: Stores, p: Pair)
    requires WholeStores(s) && Issued(p)
    ensures WholeStores(StoreTokens(s, p)) && Held(StoreTokens(s, p)) == Some(p)
  {
    assert StoreTokens(s, p).local == Holding(p);
  }

  lemma MoveKeeps(s: Stores)
    requires WholeStores(s)
    ensures WholeStores(MoveTokens(s)) && Held(MoveTokens(s)) == Held(s)
  {
    if s.local != map[] {
      var p :| Issued(p) && s.local == Holding(p);
      assert MoveTokens(s).session == Holding(p);
      assert MoveTokens(s).local == map[];
    }
  }

  lemma LogoutKeeps(s: Stores)
    requires WholeStores(s)
    ensures Logout(s) == Stores(map[], map[]) && WholeStores(Logout(s)) && Held(Logout(s)) == None
  {
  }

  /** The two getters never mix pairs: they return the halves of the one pair held. */
  lemma GettersReadRegister(s: Stores)
    requires WholeStores(s)
    ensures GetAuthToken(s) == AuthHeader(s) == Access(Held(s)) && GetRefreshToken(s) == RefreshOf(Held(s))
    ensures Held(s).Some? ==> Issued(Held(s).value)
  {
    if s.local != map[] {
      var p :| Issued(p) && s.local == Holding(p);
    } else if s.session != map[] {
      var p :| Issued(p) && s.session == Holding(p);
    }
  }

  /**
   * Over every interleaving, each storage holds one whole issued pair or nothing, the
   * storages together hold the pair stored last since the last logout, and every request sent
   * carried a token of that pair: calls and retries its access token, refreshes the other.
   */
  lemma {:induction false} StoresRefineRegister(s: State, es: seq<Event>, t: State)
    requires WholeStores(s.stores) && Run(s, es, t)
    ensures WholeStores(t.stores)
    ensures Held(t.stores) == LastStored(es, Held(s.stores))
    ensures t.log == s.log + SentTokens(es, Held(s.stores))
    decreases |es|
  {
    hide Next, Enabled, WholeStores, Held;
    if es == [] {
      assert s.log + [] == s.log;
    } else {
      var n := |es| - 1;
      var u :| Run(s, es[..n], u) && Enabled(u, es[n]) && t == Next(u, es[n]);
      StoresRefineRegister(s, es[..n], u);
      StepRefinesRegister(u, es[n]);
      assert [es[n]][..0] == [];
    }
  }

  lemma StepRefinesRegister(u: State, e: Event)
    requires WholeStores(u.stores) && Enabled(u, e)
    ensures WholeStores(Next(u, e).stores)
    ensures Held(Next(u, e).stores) == LastStored([e], Held(u.stores))
    ensures Next(u, e).log == u.log + SentTokens([e], Held(u.stores))
  {
    hide WholeStores, Held;
    assert [e][..0] == [] && u.log + [] == u.log;
    GettersReadRegister(u.stores);
    match e {
      case SignIn(p) => StoreKeeps(u.stores, p);
      case RefreshAnswer(_, Some(p)) => StoreKeeps(u.stores, p);
      case MoveToSession => MoveKeeps(u.stores);
      case SignOut => LogoutKeeps(u.stores);
      case GiveUp(_) => LogoutKeeps(u.stores);
      case _ =>
    }
  }

  /** After any run, both getters return halves of the pair stored last since the last logout. */
  lemma GettersAfterRun(s: State, es: seq<Event>, t: State)
    requires WholeStores(s.stores) && Run(s, es, t)
    ensures GetAuthToken(t.stores) == Access(LastStored(es, Held(s.stores)))
    ensures GetRefreshToken(t.stores) == RefreshOf(LastStored(es, Held(s.stores)))
  {
    StoresRefineRegister(s, es, t);
    GettersReadRegister(t.stores);
  }

  /** By the history alone: whether a pair was stored since the last move or logout. */
  predicate StoredSinceMove(es: seq<Event>, before: bool) {
    if es == [] then before
    else
      match es[|es| - 1]
      case SignIn(_) => true
      case RefreshAnswer(_, Some(_)) => true
      case MoveToSession => false
      case SignOut => false
      case GiveUp(_) => false
      case _ => StoredSinceMove(es[..|es| - 1], before)
  }

  /**
   * Moving the tokens keeps local storage empty only until the next refresh: it is in use
   * exactly when a pair was stored since the last move or logout.
   */
  lemma {:induction false} LocalStorageInUse(s: State, es: seq<Event>, t: State)
    requires WholeStores(s.stores) && Run(s, es, t)
    ensures t.stores.local != map[] <==> StoredSinceMove(es, s.stores.local != map[])
    decreases |es|
  {
    hide Next, WholeStores, SentTokens, LastStored, Enabled;
    if es != [] {
      var n := |es| - 1;
      assert [es[n]][..0] == [];
      var u :| Run(s, es[..n], u) && Enabled(u, es[n]) && t == Next(u, es[n]);
      LocalStorageInUse(s, es[..n], u);
      StoresRefineRegister(s, es[..n], u);
      LocalAfter(u, es[n]);
    }
  }

  lemma LocalAfter(u: State, e: Event)
    requires WholeStores(u.stores)
    ensures Next(u, e).stores.local != map[] <==> StoredSinceMove([e], u.stores.local != map[])
  {
    assert [e][..0] == [];
    match e {
      case SignIn(p) => assert AuthToken in StoreTokens(u.stores, p).local;
      case RefreshAnswer(_, Some(p)) => assert AuthToken in StoreTokens(u.stores, p).local;
      case MoveToSession => MoveEmptiesLocal(u.stores);
      case SignOut => LogoutKeeps(u.stores);
      case GiveUp(_) => LogoutKeeps(u.stores);
      case _ =>
    }
  }

  lemma MoveEmptiesLocal(s: Stores)
    requires WholeStores(s)
    ensures MoveTokens(s).local == map[]
  {
    if s.local != map[] {
      var p :| Issued(p) && s.local == Holding(p);
      assert MoveTokens(s).local == map[];
    }
  }

  /** A run of a new service that undoes a move: one refresh puts tokens back into local storage. */
  lemma RefreshUndoesMove(p: Pair, q: Pair) returns (s: State, es: seq<Event>, u: State, late: seq<Event>, t: State)
    requires Issued(p) && Issued(q)
    ensures s == State(Stores(map[], map[]), map[], []) && Run(s, es + [MoveToSession], u)
    ensures u.stores == Stores(map[], Holding(p))
    ensures Run(u, late, t) && MoveToSession !in late && t.stores == Stores(Holding(q), Holding(p))
  {
    hide Run;
    s := State(Stores(map[], map[]), map[], []);
    es, u := Start(s);
    es, u := Extend(s, es, u, SignIn(p));
    assert u.stores.local == Holding(p);
    var moved, v := Extend(s, es, u, MoveToSession);
    assert v.stores.local == map[] && v.stores.session == Holding(p);
    u := v;
    late, t := Start(u);
    late, t := Extend(u, late, t, Event.Send(0));
    late, t := Extend(u, late, t, Answer(0, true));
    late, t := Extend(u, late, t, RefreshAnswer(0, Some(q)));
    assert t.stores.local == Holding(q);
  }

  /** The events that write the register. */
  predicate Writes(e: Event) {
    e.SignIn? || e.SignOut? || e.GiveUp? || (e.RefreshAnswer? && e.result.Some?)
  }

  lemma {:induction false} QuietKeepsRegister(es: seq<Event>, quiet: seq<Event>, before: Option<Pair>)
    requires forall e :: e in quiet ==> !Writes(e)
    ensures LastStored(es + quiet, before) == LastStored(es, before)
  {
    if quiet == [] {
      assert es + quiet == es;
    } else {
      var n := |quiet| - 1;
      assert (es + quiet)[..|es| + n] == es + quiet[..n];
      assert (es + quiet)[|es + quiet| - 1] == quiet[n] && !Writes(quiet[n]);
      QuietKeepsRegister(es, quiet[..n], before);
    }
  }

  /**
   * A retry carries the pair its own refresh brought, as long as nobody signed in, logged
   * out, gave up or refreshed in between; moving the tokens does not matter.
   */
  lemma {:induction false} RetryCarriesRefreshedToken(s: State, es: seq<Event>, f: nat, p: Pair, quiet: seq<Event>,
                                                      t: State)
    requires WholeStores(s.stores)
    requires forall e :: e in quiet ==> !Writes(e)
    requires Run(s, es + [RefreshAnswer(f, Some(p))] + quiet + [Event.Retry(f)], t)
    ensures |t.log| > 0 && t.log[|t.log| - 1] == Call(f, Some(p.access))
  {
    var past := es + [RefreshAnswer(f, Some(p))];
    var all := past + quiet + [Event.Retry(f)];
    StoresRefineRegister(s, all, t);
    QuietKeepsRegister(past, quiet, Held(s.stores));
    assert all[..|all| - 1] == past + quiet;
  }

  // ---------- what becomes of a request ----------

  /** The event is a step of request `f`. */
  predicate Concerns(e: Event, f: nat) {
    match e
    case Send(g) => g == f
    case Answer(g, _) => g == f
    case RefreshAnswer(g, _) => g == f
    case Retry(g) => g == f
    case GiveUp(g) => g == f
    case _ => false
  }

  /** The position of the last step of request `f`. */
  function LastStep(es: seq<Event>, f: nat): (i: Option<nat>)
    ensures i.Some? ==> i.value < |es| && Concerns(es[i.value], f)
    ensures forall j :: (if i.Some? then i.value + 1 else 0) <= j < |es| ==> !Concerns(es[j], f)
  {
    if es == [] then None
    else if Concerns(es[|es| - 1], f) then Some(|es| - 1)
    else LastStep(es[..|es| - 1], f)
  }

  /**
   * What can happen to a request next, by its own history: it was sent and awaits its answer; it
   * was refused while a pair was held, and awaits its refresh; its refresh brought a pair, and it
   * is retried; it was refused while no pair was held, or its refresh failed, and it gives up; or
   * it is over, after an answer that is no refusal, after the retry, or after giving up.
   */
  ghost predicate StandsByHistory(t: State, es: seq<Event>, before: Option<Pair>, f: nat) {
    match LastStep(es, f)
    case None => f !in t.requests
    case Some(i) =>
      var refused := es[i] == Answer(f, true);
      var held := LastStored(es[..i], before).Some?;
      && (Enabled(t, Event.Send(f)) <==> es[i] in {Answer(f, false), Event.Retry(f), Event.GiveUp(f)})
      && (Enabled(t, Answer(f, true)) <==> es[i] == Event.Send(f))
      && (Enabled(t, Answer(f, false)) <==> es[i] == Event.Send(f))
      && (Enabled(t, RefreshAnswer(f, None)) <==> refused && held)
      && (Enabled(t, Event.Retry(f)) <==> es[i].RefreshAnswer? && es[i].result.Some?)
      && (Enabled(t, Event.GiveUp(f)) <==> (refused && !held) || es[i] == RefreshAnswer(f, None))
  }

  lemma StepStands(u: State, es: seq<Event>, before: Option<Pair>, e: Event, f: nat)
    requires WholeStores(u.stores) && Held(u.stores) == LastStored(es, before) && Enabled(u, e)
    requires Concerns(e, f)
    ensures StandsByHistory(Next(u, e), es + [e], before, f)
  {
    assert (es + [e])[..|es|] == es && LastStep(es + [e], f) == Some(|es|);
    GettersReadRegister(u.stores);
    hide WholeStores, Held, LastStored;
  }

  lemma OthersStand(u: State, es: seq<Event>, before: Option<Pair>, e: Event, f: nat)
    requires StandsByHistory(u, es, before, f) && Enabled(u, e) && !Concerns(e, f)
    ensures StandsByHistory(Next(u, e), es + [e], before, f)
  {
    hide LastStored;
    assert (es + [e])[..|es|] == es && LastStep(es + [e], f) == LastStep(es, f);
    if LastStep(es, f).Some? {
      var i := LastStep(es, f).value;
      assert (es + [e])[i] == es[i] && (es + [e])[..i] == es[..i];
    }
    var t := Next(u, e);
    assert f in t.requests <==> f in u.requests;
    assert f in t.requests ==> t.requests[f] == u.requests[f];
  }

  /**
   * In every run of a service that starts without requests, what a request can do next follows
   * from its own last step. So only a refusal ever leads to a refresh, a retry or a logout, and
   * each refusal leads to at most one of the last two.
   */
  lemma {:induction false} RequestByHistory(s: State, es: seq<Event>, t: State, f: nat)
    requires s.requests == map[] && WholeStores(s.stores) && Run(s, es, t)
    ensures StandsByHistory(t, es, Held(s.stores), f)
    decreases |es|
  {
    hide Next, Enabled, WholeStores, Held, StandsByHistory, LastStored, SentTokens;
    if es == [] {
      NoRequestStands(s, Held(s.stores), f);
    } else {
      var n := |es| - 1;
      var u :| Run(s, es[..n], u) && Enabled(u, es[n]) && t == Next(u, es[n]);
      RequestByHistory(s, es[..n], u, f);
      StoresRefineRegister(s, es[..n], u);
      assert es == es[..n] + [es[n]];
      if Concerns(es[n], f) {
        StepStands(u, es[..n], Held(s.stores), es[n], f);
      } else {
        OthersStand(u, es[..n], Held(s.stores), es[n], f);
      }
    }
  }

  lemma NoRequestStands(s: State, before: Option<Pair>, f: nat)
    requires s.requests == map[]
    ensures StandsByHistory(s, [], before, f)
  {
  }

  /** A request that was answered without a refusal never logs out, until it is sent anew. */
  lemma {:induction false} AcceptedNeverLogsOut(s: State, es: seq<Event>, f: nat, later: seq<Event>, t: State)
    requires s.requests == map[] && WholeStores(s.stores)
    requires Run(s, es + [Answer(f, false)] + later, t) && Event.Send(f) !in later
    ensures f !in t.requests && Event.GiveUp(f) !in later
    decreases |later|
  {
    var past := es + [Answer(f, false)];
    var all := past + later;
    if later == [] {
      assert all == past && LastStep(all, f) == Some(|es|);
      RequestByHistory(s, all, t, f);
    } else {
      var n := |later| - 1;
      assert all[..|all| - 1] == past + later[..n] && all[|all| - 1] == later[n] && later == later[..n] + [later[n]];
      var v :| Run(s, all[..|all| - 1], v) && Enabled(v, later[n]) && t == Next(v, later[n]);
      AcceptedNeverLogsOut(s, es, f, later[..n], v);
    }
  }

  // ---------- stores in any state ----------

  /**
   * Whatever the two storages hold, half pairs and empty tokens included: moving changes neither
   * what the getters return nor a local storage that has not both tokens; storing a pair makes
   * the getters return it; and after a logout they return nothing.
   */
  lemma GettersOnAnyStores(s: Stores, p: Pair)
    ensures GetAuthToken(MoveTokens(s)) == GetAuthToken(s) && GetRefreshToken(MoveTokens(s)) == GetRefreshToken(s)
    ensures MoveTokens(s).local
            == if Or(GetItem(s.local, AuthToken), None).Some? && Or(GetItem(s.local, RefreshToken), None).Some?
               then map[] else s.local
    ensures Issued(p) ==> GetAuthToken(StoreTokens(s, p)) == Some(p.access)
    ensures Issued(p) ==> GetRefreshToken(StoreTokens(s, p)) == Some(p.refresh)
    ensures GetAuthToken(Logout(s)) == None && GetRefreshToken(Logout(s)) == None
  {
    assert s.local - {AuthToken, RefreshToken} == map[] by {
      forall k | k in s.local ensures k in {AuthToken, RefreshToken} {
        match k {
          case AuthToken =>
          case RefreshToken =>
        }
      }
    }
  }

  /** No request ever carries an empty token. */
  predicate CarriesToken(r: Request) {
    match r
    case Call(_, accessToken) => accessToken != Some("")
    case Refresh(_, refreshToken) => refreshToken != ""
  }

  lemma {:induction false} NoEmptyTokenIsSent(s: State, es: seq<Event>, t: State)
    requires Run(s, es, t) && forall r :: r in s.log ==> CarriesToken(r)
    ensures forall r :: r in t.log ==> CarriesToken(r)
    decreases |es|
  {
    if es != [] {
      var n := |es| - 1;
      var u :| Run(s, es[..n], u) && Enabled(u, es[n]) && t == Next(u, es[n]);
      NoEmptyTokenIsSent(s, es[..n], u);
    }
  }

  // ---------- when a held pair can be lost ----------

  /** What happens without the user: answers, their consequences, and moving the tokens. */
  predicate Unprompted(e: Event) {
    !e.SignIn? && !e.SignOut? && !e.Send?
  }

  /** The requests under way can empty the register by themselves. */
  ghost predicate CanBeLost(s: State) {
    exists es, t :: Run(s, es, t) && (forall e :: e in es ==> Unprompted(e)) && Held(t.stores) == None
  }

  predicate Pending(s: State, f: nat) {
    f in s.requests && s.requests[f] != Refreshed
  }

  lemma {:induction false} NothingPendingIsSafe(s: State, es: seq<Event>, t: State)
    requires WholeStores(s.stores) && Held(s.stores).Some? && forall f :: !Pending(s, f)
    requires Run(s, es, t) && forall e :: e in es ==> Unprompted(e)
    ensures WholeStores(t.stores) && Held(t.stores) == Held(s.stores) && forall f :: !Pending(t, f)
    decreases |es|
  {
    hide WholeStores, Held, LastStored, SentTokens;
    if es != [] {
      var n := |es| - 1;
      var u :| Run(s, es[..n], u) && Enabled(u, es[n]) && t == Next(u, es[n]);
      NothingPendingIsSafe(s, es[..n], u);
      assert Unprompted(es[n]) && forall f :: f in u.requests ==> !Pending(u, f);
      if es[n] == MoveToSession {
        MoveKeeps(u.stores);
      } else {
        assert es[n].Retry?;
      }
      assert forall f :: Pending(t, f) ==> Pending(u, f);
    }
  }

  /** The request fails for good: it is refused, cannot refresh, and logs out. */
  lemma PendingCanLogOut(s: State, f: nat) returns (es: seq<Event>, t: State)
    requires Pending(s, f)
    ensures Run(s, es, t) && (forall e :: e in es ==> Unprompted(e)) && t.stores == Logout(t.stores)
  {
    hide Run;
    es, t := Start(s);
    if t.requests[f] == Sent {
      es, t := Extend(s, es, t, Answer(f, true));
    }
    if t.requests[f] == Refreshing {
      es, t := Extend(s, es, t, RefreshAnswer(f, None));
    }
    es, t := Extend(s, es, t, Event.GiveUp(f));
  }

  /**
   * A held pair can be lost without the user doing anything if and only if some request under
   * way has not had its own refresh succeed. So a pair that a refresh has just brought is safe
   * from that request but not from the others.
   */
  lemma {:induction false} PairCanBeLostIff(s: State)
    requires WholeStores(s.stores) && Held(s.stores).Some?
    ensures CanBeLost(s) <==> exists f :: Pending(s, f)
  {
    hide Pending, Held, WholeStores, Run;
    if CanBeLost(s) && forall f :: !Pending(s, f) {
      var es, t :| Run(s, es, t) && (forall e :: e in es ==> Unprompted(e)) && Held(t.stores) == None;
      NothingPendingIsSafe(s, es, t);
      assert false;
    }
    if f :| Pending(s, f) {
      var es, t := PendingCanLogOut(s, f);
      StoresRefineRegister(s, es, t);
      LogoutKeeps(t.stores);
    }
  }

  /**
   * Such a loss, from a new service on: two requests refresh with one token, only the first
   * refresh succeeds, and the failure of the second drops the pair that the first brought.
   */
  lemma LateFailureDropsNewPair(p: Pair, q: Pair)
    returns (s: State, es: seq<Event>, u: State, late: seq<Event>, t: State)
    requires Issued(p) && Issued(q)
    ensures s == State(Stores(Holding(p), map[]), map[], []) && Run(s, es + [RefreshAnswer(0, Some(q))], u)
    ensures Held(u.stores) == Some(q)
    ensures Run(u, late, t) && (forall e :: e in late ==> Unprompted(e)) && Held(t.stores) == None
  {
    hide Run;
    s := State(Stores(Holding(p), map[]), map[], []);
    es, u := Start(s);
    es, u := Extend(s, es, u, Event.Send(0));
    es, u := Extend(s, es, u, Event.Send(1));
    es, u := Extend(s, es, u, Answer(0, true));
    es, u := Extend(s, es, u, Answer(1, true));
    var all, v := Extend(s, es, u, RefreshAnswer(0, Some(q)));
    u := v;
    late, t := Start(u);
    late, t := Extend(u, late, t, RefreshAnswer(1, None));
    late, t := Extend(u, late, t, Event.GiveUp(1));
  }

  lemma Start(s: State) returns (es: seq<Event>, t: State)
    ensures es == [] && t == s && Run(s, es, t)
  {
    es, t := [], s;
  }

  lemma Extend(s: State, es: seq<Event>, t: State, e: Event) returns (es': seq<Event>, t': State)
    requires Run(s, es, t) && Enabled(t, e)
    ensures es' == es + [e] && t' == Next(t, e) && Run(s, es', t')
  {
    es', t' := es + [e], Next(t, e);
    assert es'[..|es'| - 1] == es;
  }
}

/**
 * The optimistic-update protocol of the response hooks: one cached list of responses, any
 * number of create and reply mutations in flight on it, refetches that race with them, and
 * a server that other users write to as well.
 */
module OptimisticResponses {
  import opened Optional
  import opened Responses
  import opened ThreadForest
  import opened ThreadRoundTrip

  // ---------- the drafts ----------

  /** The draft of a new response; an empty parent id becomes no parent at all. */
  function CreateDraft(tempId: Id, parentResponseId: Option<Id>, content: string): Response {
    Response(tempId, if parentResponseId == Some("") then None else parentResponseId, content)
  }

  function ReplyDraft(tempId: Id, parentResponseId: Id, content: string): Response {
    Response(tempId, Some(parentResponseId), content)
  }

  /**
   * Threading the optimistic list shows the thread as it was, plus the reply: at once, before the
   * server has answered. It is the last one below its parent, if that is in the list, and the
   * last tree otherwise. It is not shown exactly when its parent is in the list but not in the
   * thread, and then the thread stays as it was.
   */
  lemma {:induction false} ReplyShowsUnderParent(list: seq<Response>, tempId: Id, parent: Id, content: string)
    requires UniqueIds(list) && Fresh(list, ReplyDraft(tempId, parent, content))
    ensures ShowsUnder(list, ReplyDraft(tempId, parent, content), Some(parent))
    ensures ReplyDraft(tempId, parent, content) == Response(tempId, Some(parent), content)
  {
    DraftShows(list, ReplyDraft(tempId, parent, content), Some(parent));
  }

  /** A created response shows in the same way, an empty parent id counting as none. */
  lemma {:induction false} CreateShowsInPlace(list: seq<Response>, tempId: Id, parent: Option<Id>, content: string)
    requires UniqueIds(list) && Fresh(list, CreateDraft(tempId, parent, content))
    ensures ShowsUnder(list, CreateDraft(tempId, parent, content), parent)
    ensures CreateDraft(tempId, parent, content).id == tempId && CreateDraft(tempId, parent, content).body == content
    ensures forall x: Id :: CreateDraft(tempId, parent, content).parent == Some(x) <==> parent == Some(x) && x != ""
  {
    DraftShows(list, CreateDraft(tempId, parent, content), parent);
  }

  /** The thread with the draft, its parent being named by the caller as `parent`. */
  ghost predicate ShowsUnder(list: seq<Response>, draft: Response, parent: Option<Id>) {
    var listed := parent.Some? && parent.value != "" && (parent.value in Ids(list) || parent.value == draft.id);
    && Forest(list + [draft])
       == (if listed then AddLastReply(Forest(list), parent.value, Node(draft, []))
           else Forest(list) + [Node(draft, [])])
    && (draft in Flatten(Forest(list + [draft])) <==> (listed ==> InThread(list, parent.value)))
    && (listed && !InThread(list, parent.value) ==> Forest(list + [draft]) == Forest(list))
  }

  lemma {:induction false} DraftShows(list: seq<Response>, draft: Response, parent: Option<Id>)
    requires UniqueIds(list) && Fresh(list, draft)
    requires draft.parent == if parent == Some("") && draft.parent == None then None else parent
    ensures ShowsUnder(list, draft, parent)
  {
    hide Forest, AddLastReply, InThread;
    AppendAddsOneNode(list, draft);
    AppendIsShownIff(list, draft);
    UnderAppend(list, draft, None);
  }

  // ---------- the client ----------

  /** A refetch of the list: not running, sent to the server, or answered but not yet delivered. */
  datatype Fetch = Idle | Started | Read(list: seq<Response>)

  /** Awaiting the cancellation, awaiting the server, or awaiting onSettled. */
  datatype Phase = Cancelling | Sent | Handled

  /** One mutation and its context: `snapshot` is what onMutate returned for the rollback. */
  datatype Mutation = Mutation(optimistic: bool, draft: Response, snapshot: Option<seq<Response>>, phase: Phase)

  datatype Client = Client(cache: Option<seq<Response>>, fetch: Fetch, mutations: map<nat, Mutation>)

  /** The first half of onMutate, up to the await; there is none without optimistic updates. */
  function OnMutate(c: Client, m: nat, optimistic: bool, draft: Response): Client {
    if optimistic then
      c.(fetch := Idle, mutations := c.mutations[m := Mutation(true, draft, None, Cancelling)])
    else
      c.(mutations := c.mutations[m := Mutation(false, draft, None, Sent)])
  }

  /** The second half of onMutate: snapshot, and append to a list that is there. */
  function OnMutateResumed(c: Client, m: nat): Client
    requires m in c.mutations
  {
    var mu := c.mutations[m];
    c.(cache := if c.cache.Some? then Some(c.cache.value + [mu.draft]) else None,
       mutations := c.mutations[m := mu.(snapshot := c.cache, phase := Sent)])
  }

  function OnError(c: Client, m: nat): Client
    requires m in c.mutations
  {
    var mu := c.mutations[m];
    Answered(if mu.snapshot.Some? then c.(cache := mu.snapshot) else c, m)
  }

  function OnSuccess(c: Client, m: nat): Client
    requires m in c.mutations
  {
    Answered(Invalidate(c), m)
  }

  function OnSettled(c: Client, m: nat): Client {
    Invalidate(c).(mutations := c.mutations - {m})
  }

  /** Invalidation restarts the refetch, so that it reads the server from now on. */
  function Invalidate(c: Client): Client {
    c.(fetch := Started)
  }

  /** Only an optimistic mutation has an onSettled step left after its answer. */
  function Answered(c: Client, m: nat): Client
    requires m in c.mutations
  {
    var mu := c.mutations[m];
    c.(mutations := if mu.optimistic then c.mutations[m := mu.(phase := Handled)] else c.mutations - {m})
  }

  // ---------- the client as the hooks run it ----------

  class ResponseHooks {
    var cache: Option<seq<Response>>
    var fetch: Fetch
    var mutations: map<nat, Mutation>

    function View(): Client
      reads this
    {
      Client(cache, fetch, mutations)
    }

    constructor ()
      ensures View() == Client(None, Idle, map[])
    {
      cache, fetch, mutations := None, Idle, map[];
    }

    method CancelQueries()
      modifies this`fetch
      ensures fetch == Idle
    {
      fetch := Idle;
    }

    method SetQueryData(list: seq<Response>)
      modifies this`cache
      ensures cache == Some(list)
    {
      cache := Some(list);
    }

    method InvalidateQueries()
      modifies this`fetch
      ensures fetch == Started
    {
      fetch := Started;
    }

    method Mutate(m: nat, optimistic: bool, draft: Response)
      requires m !in mutations
      modifies this
      ensures View() == OnMutate(old(View()), m, optimistic, draft)
    {
      if optimistic {
        CancelQueries();
        mutations := mutations[m := Mutation(true, draft, None, Cancelling)];
      } else {
        mutations := mutations[m := Mutation(false, draft, None, Sent)];
      }
    }

    method Resume(m: nat)
      requires m in mutations && mutations[m].phase == Cancelling
      modifies this
      ensures View() == OnMutateResumed(old(View()), m)
    {
      var previousResponses := cache;
      if previousResponses.Some? {
        SetQueryData(previousResponses.value + [mutations[m].draft]);
      }
      mutations := mutations[m := mutations[m].(snapshot := previousResponses, phase := Sent)];
    }

    method Error(m: nat)
      requires m in mutations && mutations[m].phase == Sent
      modifies this
      ensures View() == OnError(old(View()), m)
    {
      if mutations[m].snapshot.Some? {
        SetQueryData(mutations[m].snapshot.value);
      }
      Await(m);
    }

    method Success(m: nat)
      requires m in mutations && mutations[m].phase == Sent
      modifies this
      ensures View() == OnSuccess(old(View()), m)
    {
      InvalidateQueries();
      Await(m);
    }

    method Settle(m: nat)
      requires m in mutations && mutations[m].phase == Handled
      modifies this
      ensures View() == OnSettled(old(View()), m)
    {
      InvalidateQueries();
      mutations := mutations - {m};
    }

    /** After its answer a mutation waits for onSettled, if it has one. */
    method Await(m: nat)
      requires m in mutations
      modifies this`mutations
      ensures View() == Answered(old(View()), m)
    {
      if mutations[m].optimistic {
        mutations := mutations[m := mutations[m].(phase := Handled)];
      } else {
        mutations := mutations - {m};
      }
    }
  }

  // ---------- client and server together ----------

  /**
   * `history` lists the server's contents from the first to the present one; the last write
   * of this client made `history[lastOwn]`. The last four fields record what the run did, and
   * no step depends on them: `version` is the entry of the history that the cached list is,
   * if nothing edited it since; `readAt` is the entry that the last refetch read, and `kept`
   * holds the version of each snapshot. `failed` says that a refetch failed and none was
   * started since.
   */
  datatype State = State(client: Client, history: seq<seq<Response>>, lastOwn: nat,
                         begun: set<nat>, committed: set<nat>,
                         version: Option<nat>, readAt: nat, kept: map<nat, Option<nat>>, failed: bool)

  /** The cached list is, unedited, one that was read from the server since the last own write. */
  predicate Synced(s: State) {
    s.version.Some? && s.version.value >= s.lastOwn
  }

  datatype Event =
    | Begin(m: nat, optimistic: bool, draft: Response)
    | Resume(m: nat)
    | Commit(m: nat, after: seq<Response>)
    | Fail(m: nat)
    | Succeed(m: nat)
    | Settle(m: nat)
    | StartFetch
    | ServerReads
    | Arrive
    | FetchFails
    | OtherWrite(after: seq<Response>)
    | Evict

  predicate InPhase(c: Client, m: nat, phase: Phase) {
    m in c.mutations && c.mutations[m].phase == phase
  }

  /** A mutation may be reported as failed whether or not the server committed it. */
  predicate Enabled(s: State, e: Event) {
    match e
    case Begin(m, _, _) => m !in s.begun
    case Resume(m) => InPhase(s.client, m, Cancelling)
    case Commit(m, _) => InPhase(s.client, m, Sent) && m !in s.committed
    case Fail(m) => InPhase(s.client, m, Sent)
    case Succeed(m) => InPhase(s.client, m, Sent) && m in s.committed
    case Settle(m) => InPhase(s.client, m, Handled)
    case StartFetch => s.client.fetch.Idle?
    case ServerReads => s.client.fetch.Started? && s.history != []
    case Arrive => s.client.fetch.Read?
    case FetchFails => !s.client.fetch.Idle?
    case OtherWrite(_) => true
    case Evict => true
  }

  function Next(s: State, e: Event): State
    requires Enabled(s, e)
  {
    var c := s.client;
    match e
    case Begin(m, optimistic, draft) => s.(client := OnMutate(c, m, optimistic, draft), begun := s.begun + {m})
    case Resume(m) =>
      s.(client := OnMutateResumed(c, m), version := None, kept := s.kept[m := s.version])
    case Commit(m, after) =>
      s.(history := s.history + [after], lastOwn := |s.history|, committed := s.committed + {m})
    case Fail(m) =>
      var mu := c.mutations[m];
      s.(client := OnError(c, m),
         version := if mu.snapshot.Some? && m in s.kept then s.kept[m] else s.version)
    case Succeed(m) => s.(client := OnSuccess(c, m), failed := false)
    case Settle(m) => s.(client := OnSettled(c, m), failed := false)
    case StartFetch => s.(client := c.(fetch := Started), failed := false)
    case ServerReads => s.(client := c.(fetch := Read(s.history[|s.history| - 1])), readAt := |s.history| - 1)
    case Arrive =>
      s.(client := c.(cache := Some(c.fetch.list), fetch := Idle), version := Some(s.readAt))
    case FetchFails => s.(client := c.(fetch := Idle), failed := true)
    case OtherWrite(after) => s.(history := s.history + [after])
    case Evict => s.(client := c.(cache := None), version := None)
  }

  /** `es` can happen from `s`, one event after the other, and ends in `t`. */
  ghost predicate Run(s: State, es: seq<Event>, t: State)
    decreases |es|
  {
    if es == [] then s == t
    else Enabled(s, es[0]) && Run(Next(s, es[0]), es[1..], t)
  }

  /** A client that has just started, with nothing cached, against any server. */
  predicate Initial(s: State) {
    && s.client == Client(None, Idle, map[])
    && |s.history| == 1 && s.lastOwn == 0
    && s.begun == {} && s.committed == {}
    && s.version == None && s.readAt == 0 && s.kept == map[] && !s.failed
  }

  // ---------- cancellation ----------

  predicate StartsRefetch(e: Event) {
    e.StartFetch? || e.Succeed? || e.Settle?
  }

  /**
   * A refetch under way when an optimistic mutation begins never reaches the cache: until
   * somebody starts another one, no list arrives to overwrite the optimistic one.
   */
  lemma {:induction false} CancelledRefetchNeverArrives(s: State, m: nat, draft: Response, es: seq<Event>, t: State)
    requires Enabled(s, Begin(m, true, draft)) && Run(Next(s, Begin(m, true, draft)), es, t)
    requires forall e :: e in es ==> !StartsRefetch(e)
    ensures Arrive !in es && t.client.fetch == Idle
  {
    IdleStaysIdle(Next(s, Begin(m, true, draft)), es, t);
  }

  lemma {:induction false} IdleStaysIdle(s: State, es: seq<Event>, t: State)
    requires s.client.fetch == Idle && Run(s, es, t) && forall e :: e in es ==> !StartsRefetch(e)
    ensures Arrive !in es && t.client.fetch == Idle
    decreases |es|
  {
    if es != [] {
      assert es[0] in es && es == [es[0]] + es[1..];
      IdleStaysIdle(Next(s, es[0]), es[1..], t);
    }
  }

  // ---------- convergence ----------

  /** The list is one the server held at or after the last write of this client. */
  ghost predicate Current(s: State, list: seq<Response>) {
    exists i :: s.lastOwn <= i < |s.history| && s.history[i] == list
  }

  /** A mutation without optimistic updates has neither the await nor the snapshot of onMutate. */
  ghost predicate WellPhased(s: State) {
    && s.client.mutations.Keys <= s.begun
    && forall m :: m in s.client.mutations && !s.client.mutations[m].optimistic ==>
         s.client.mutations[m].phase == Sent && s.client.mutations[m].snapshot == None
  }

  /** The latest entry of the history that the cache can hold by now. */
  function Horizon(s: State): int {
    if s.client.fetch.Read? then s.readAt else |s.history| - 1
  }

  /** `version` tells truly which entry of the history `list` is, and is within the horizon. */
  predicate IsVersion(s: State, list: Option<seq<Response>>, version: Option<nat>) {
    version.Some? ==> version.value <= Horizon(s) < |s.history| && list == Some(s.history[version.value])
  }

  /** The recorded versions of the cache, of the running refetch and of the snapshots are true. */
  ghost predicate Traced(s: State) {
    && s.lastOwn < |s.history|
    && (s.client.fetch.Read? ==> s.readAt < |s.history| && s.client.fetch.list == s.history[s.readAt])
    && IsVersion(s, s.client.cache, s.version)
    && forall m :: m in s.client.mutations && s.client.mutations[m].snapshot.Some? ==>
         m in s.kept && IsVersion(s, s.client.mutations[m].snapshot, s.kept[m])
  }

  /**
   * A list that is not the one read last is about to be replaced: by a refetch under way, or by
   * the one that an optimistic mutation in flight will start. Otherwise a refetch has failed.
   */
  ghost predicate Replacing(s: State) {
    || s.client.cache == None
    || s.version == Some(s.readAt)
    || !s.client.fetch.Idle?
    || s.failed
    || exists m :: m in s.client.mutations && s.client.mutations[m].optimistic
  }

  ghost predicate Invariant(s: State) {
    WellPhased(s) && Traced(s) && Replacing(s)
  }

  lemma NextKeepsWellPhased(s: State, e: Event)
    requires WellPhased(s) && Enabled(s, e)
    ensures WellPhased(Next(s, e))
  {
    hide Synced;
  }

  lemma NextKeepsTraced(s: State, e: Event)
    requires WellPhased(s) && Traced(s) && Enabled(s, e)
    ensures Traced(Next(s, e))
  {
    hide Synced;
    var t := Next(s, e);
    assert |t.history| >= |s.history| && forall i :: 0 <= i < |s.history| ==> t.history[i] == s.history[i];
    forall m | m in t.client.mutations && t.client.mutations[m].snapshot.Some?
      ensures m in t.kept && IsVersion(t, t.client.mutations[m].snapshot, t.kept[m])
    {
      if m in s.client.mutations && s.client.mutations[m].snapshot.Some? {
        assert IsVersion(s, s.client.mutations[m].snapshot, s.kept[m]);
      }
    }
    if e.Fail? && s.client.mutations[e.m].snapshot.Some? {
      assert IsVersion(s, s.client.mutations[e.m].snapshot, s.kept[e.m]);
    }
  }

  lemma NextKeepsReplacing(s: State, e: Event)
    requires WellPhased(s) && Replacing(s) && Enabled(s, e)
    ensures Replacing(Next(s, e))
  {
    var t := Next(s, e);
    if m :| m in s.client.mutations && s.client.mutations[m].optimistic {
      assert e != Settle(m) ==> m in t.client.mutations && t.client.mutations[m].optimistic;
    }
    if e.Begin? || e.Resume? {
      assert e.m in t.client.mutations;
    }
  }

  lemma {:induction false} NextKeepsInvariant(s: State, e: Event)
    requires Invariant(s) && Enabled(s, e)
    ensures Invariant(Next(s, e))
  {
    hide WellPhased, Traced, Replacing;
    NextKeepsWellPhased(s, e);
    NextKeepsTraced(s, e);
    NextKeepsReplacing(s, e);
  }

  lemma {:induction false} RunKeepsInvariant(s: State, es: seq<Event>, t: State)
    requires Invariant(s) && Run(s, es, t)
    ensures Invariant(t)
    decreases |es|
  {
    hide Next, Enabled, Invariant;
    if es != [] {
      NextKeepsInvariant(s, es[0]);
      RunKeepsInvariant(Next(s, es[0]), es[1..], t);
    }
  }

  /** No mutation in flight and no refetch running. */
  predicate Quiet(s: State) {
    s.client.mutations == map[] && s.client.fetch.Idle?
  }

  /**
   * Convergence, exactly: whatever the interleaving, once everything has come to rest and the
   * last refetch did not fail, the cached list is just the one that the last refetch read. So it
   * is up to date if and only if this client wrote nothing since that read. Refetches may have
   * been cancelled at any time, and rollbacks may have come in any order.
   */
  lemma {:induction false} QuietCacheIsLastRead(s: State, es: seq<Event>, t: State)
    requires Initial(s) && Run(s, es, t) && Quiet(t) && t.client.cache.Some? && !t.failed
    ensures t.version == Some(t.readAt) && t.readAt < |t.history| && t.client.cache.value == t.history[t.readAt]
    ensures Synced(t) <==> t.readAt >= t.lastOwn
  {
    RunKeepsInvariant(s, es, t);
  }

  lemma {:induction false} FailureStands(s: State, es: seq<Event>, t: State)
    returns (before: seq<Event>, u: State, after: seq<Event>)
    requires Run(s, es, t) && t.failed && (s.failed ==> exists e :: e in es && StartsRefetch(e))
    ensures es == before + [FetchFails] + after
    ensures Run(s, before, u) && Enabled(u, FetchFails) && Run(Next(u, FetchFails), after, t)
    ensures forall e :: e in after ==> !StartsRefetch(e)
    decreases |es|
  {
    assert es == [es[0]] + es[1..];
    if es[0] == FetchFails && forall e :: e in es[1..] ==> !StartsRefetch(e) {
      before, u, after := [], s, es[1..];
    } else {
      before, u, after := FailureStands(Next(s, es[0]), es[1..], t);
      RunCons(s, es[0], before, u);
      before := [es[0]] + before;
    }
  }

  /** Where no refetch is started any more and all comes to rest, no optimistic mutation is in flight. */
  lemma {:induction false} NoneIsOptimistic(s: State, es: seq<Event>, t: State, m: nat)
    requires WellPhased(s) && Run(s, es, t) && Quiet(t) && forall e :: e in es ==> !StartsRefetch(e)
    requires m in s.client.mutations
    ensures !s.client.mutations[m].optimistic
    decreases |es|
  {
    if es != [] {
      assert es[0] in es && forall e :: e in es[1..] ==> e in es;
      if s.client.mutations[m].optimistic {
        NextKeepsWellPhased(s, es[0]);
        NoneIsOptimistic(Next(s, es[0]), es[1..], t, m);
      }
    }
  }

  lemma {:induction false} ListStays(s: State, es: seq<Event>, t: State)
    requires WellPhased(s) && Traced(s) && Run(s, es, t)
    requires s.client.fetch.Idle? && Quiet(t) && t.client.cache.Some? && forall e :: e in es ==> !StartsRefetch(e)
    ensures t.client.cache == s.client.cache && t.version == s.version
    ensures Synced(t) <==> Synced(s) && forall e :: e in es ==> !e.Commit?
    decreases |es|
  {
    if es != [] {
      var e, s1 := es[0], Next(s, es[0]);
      assert e in es && es == [e] + es[1..];
      NextKeepsWellPhased(s, e);
      NextKeepsTraced(s, e);
      ListStays(s1, es[1..], t);
      if e.Begin? {
        NoneIsOptimistic(s1, es[1..], t, e.m);
      } else if e.Resume? || e.Fail? {
        NoneIsOptimistic(s, es, t, e.m);
      }
    }
  }

  /**
   * The other case: when the last refetch failed, the list at rest is the one that it failed to
   * replace. It is up to date if and only if it was when that refetch failed and this client
   * wrote nothing since.
   */
  lemma {:induction false} FailedRefetchKeepsList(s: State, es: seq<Event>, t: State)
    returns (before: seq<Event>, u: State, after: seq<Event>)
    requires Initial(s) && Run(s, es, t) && Quiet(t) && t.client.cache.Some? && t.failed
    ensures es == before + [FetchFails] + after && Run(s, before, u) && Enabled(u, FetchFails)
    ensures Run(Next(u, FetchFails), after, t) && forall e :: e in after ==> !StartsRefetch(e)
    ensures t.client.cache == u.client.cache && t.version == u.version
    ensures Synced(t) <==> Synced(u) && forall e :: e in after ==> !e.Commit?
  {
    before, u, after := FailureStands(s, es, t);
    RunKeepsInvariant(s, before, u);
    NextKeepsInvariant(u, FetchFails);
    ListStays(Next(u, FetchFails), after, t);
  }

  /** At every moment of every run, a synced list is one the server held at or after the last own write. */
  lemma {:induction false} SyncedIsCurrent(s: State, es: seq<Event>, t: State)
    requires Initial(s) && Run(s, es, t) && Synced(t)
    ensures t.client.cache.Some? && Current(t, t.client.cache.value)
    ensures t.lastOwn == |t.history| - 1 ==> t.client.cache.value == t.history[|t.history| - 1]
  {
    RunKeepsInvariant(s, es, t);
    assert t.history[t.version.value] == t.client.cache.value;
  }

  // ---------- runs that lose no answer ----------

  /** The mutation still owes an invalidation, or is bound to be reported without one. */
  predicate Owes(s: State, m: nat) {
    m in s.client.mutations && (s.client.mutations[m].optimistic || m in s.committed)
  }

  /** Unless an invalidation is owed, the last read was late enough, or the next one is on its way. */
  ghost predicate Converging(s: State) {
    s.readAt >= s.lastOwn || s.client.fetch.Started? || s.failed || exists m :: Owes(s, m)
  }

  /** A committed write is reported as failed, and no onSettled follows. */
  predicate LosesAnswer(s: State, e: Event)
    requires Enabled(s, e)
  {
    e.Fail? && !s.client.mutations[e.m].optimistic && e.m in s.committed
  }

  ghost predicate LosesNoAnswer(s: State, es: seq<Event>, t: State)
    requires Run(s, es, t)
    decreases |es|
  {
    es == [] || (!LosesAnswer(s, es[0]) && LosesNoAnswer(Next(s, es[0]), es[1..], t))
  }

  lemma NextKeepsConverging(s: State, e: Event)
    requires WellPhased(s) && s.lastOwn < |s.history| && Converging(s) && Enabled(s, e) && !LosesAnswer(s, e)
    ensures Next(s, e).lastOwn < |Next(s, e).history| && Converging(Next(s, e))
  {
    var t := Next(s, e);
    if e.Commit? || e.Begin? || e.Resume? || e.Fail? {
      assert e.m in t.client.mutations ==> (Owes(t, e.m) <==> t.client.mutations[e.m].optimistic || e.m in t.committed);
    }
    if m :| Owes(s, m) {
      assert e != Settle(m) && e != Succeed(m) && e != Fail(m) ==> Owes(t, m);
    }
  }

  lemma {:induction false} RunKeepsConverging(s: State, es: seq<Event>, t: State)
    requires WellPhased(s) && s.lastOwn < |s.history| && Converging(s) && Run(s, es, t) && LosesNoAnswer(s, es, t)
    ensures Converging(t)
    decreases |es|
  {
    hide Next, Enabled, Converging, LosesAnswer, WellPhased;
    if es != [] {
      NextKeepsWellPhased(s, es[0]);
      NextKeepsConverging(s, es[0]);
      RunKeepsConverging(Next(s, es[0]), es[1..], t);
    }
  }

  /**
   * A run that loses no answer, and whose last refetch does not fail, comes to rest with a list
   * that is up to date, whichever of its mutations are optimistic.
   */
  lemma {:induction false} AnsweredRunsConverge(s: State, es: seq<Event>, t: State)
    requires Initial(s) && Run(s, es, t) && LosesNoAnswer(s, es, t)
    requires Quiet(t) && t.client.cache.Some? && !t.failed
    ensures Synced(t)
  {
    QuietCacheIsLastRead(s, es, t);
    RunKeepsConverging(s, es, t);
  }

  predicate AlwaysOptimistic(es: seq<Event>) {
    forall e :: e in es && e.Begin? ==> e.optimistic
  }

  lemma {:induction false} OptimisticLosesNoAnswer(s: State, es: seq<Event>, t: State)
    requires Run(s, es, t) && AlwaysOptimistic(es)
    requires forall m :: m in s.client.mutations ==> s.client.mutations[m].optimistic
    ensures LosesNoAnswer(s, es, t)
    decreases |es|
  {
    if es != [] {
      assert es[0] in es && forall e :: e in es[1..] ==> e in es;
      OptimisticLosesNoAnswer(Next(s, es[0]), es[1..], t);
    }
  }

  /**
   * With optimistic updates on, as they are by default, every run whose last refetch does not
   * fail converges, even when answers are lost after a commit.
   */
  lemma {:induction false} OptimisticRunsConverge(s: State, es: seq<Event>, t: State)
    requires Initial(s) && Run(s, es, t) && AlwaysOptimistic(es)
    requires Quiet(t) && t.client.cache.Some? && !t.failed
    ensures Synced(t)
  {
    OptimisticLosesNoAnswer(s, es, t);
    AnsweredRunsConverge(s, es, t);
  }

  /** An outdated list is not outdated for good: any refetch that goes through brings it up to date. */
  lemma RefetchCatchesUp(s: State, es: seq<Event>, t: State) returns (t': State)
    requires Initial(s) && Run(s, es, t) && Quiet(t)
    ensures Run(t, [StartFetch, ServerReads, Arrive], t') && Quiet(t') && Synced(t')
  {
    RunKeepsInvariant(s, es, t);
    var t1 := Next(t, StartFetch);
    var t2 := Next(t1, ServerReads);
    t' := Next(t2, Arrive);
    RunThree(t, StartFetch, ServerReads, Arrive);
  }

  lemma RunOne(s: State, e: Event)
    requires Enabled(s, e)
    ensures Run(s, [e], Next(s, e))
  {
    assert [e][1..] == [];
    assert Run(Next(s, e), [], Next(s, e));
  }

  lemma RunThree(s: State, e: Event, f: Event, g: Event)
    requires Enabled(s, e) && Enabled(Next(s, e), f) && Enabled(Next(Next(s, e), f), g)
    ensures Run(s, [e, f, g], Next(Next(Next(s, e), f), g))
  {
    hide Next, Enabled;
    var t := Next(Next(Next(s, e), f), g);
    RunCons(Next(Next(s, e), f), g, [], t);
    RunCons(Next(s, e), f, [g], t);
    RunCons(s, e, [f, g], t);
    assert [f] + [g] == [f, g] && [e] + [f, g] == [e, f, g];
  }

  /**
   * Without optimistic updates there is no onSettled: from any list at rest, a commit whose
   * answer is lost ends at rest with that list, which is then current if and only if the
   * write did not change it.
   */
  lemma LostAnswerOutdatesIff(s: State, m: nat, draft: Response, after: seq<Response>) returns (t: State)
    requires Traced(s) && Quiet(s) && s.client.cache.Some? && m !in s.begun && m !in s.committed
    ensures Run(s, [Begin(m, false, draft), Commit(m, after), Fail(m)], t)
    ensures Quiet(t) && !Synced(t) && t.failed == s.failed && t.client.cache == s.client.cache
    ensures Current(t, t.client.cache.value) <==> after == s.client.cache.value
  {
    var s1 := Next(s, Begin(m, false, draft));
    var s2 := Next(s1, Commit(m, after));
    t := Next(s2, Fail(m));
    RunThree(s, Begin(m, false, draft), Commit(m, after), Fail(m));
    assert t.client.mutations == map[];
    assert t.lastOwn == |t.history| - 1 && t.history[|t.history| - 1] == after;
  }

  /**
   * With optimistic updates a failing refetch does the same: from any list at rest, a mutation
   * that succeeds but whose refetches fail ends at rest with its draft in the list, which is
   * then current if and only if the server stored just that.
   */
  lemma FailedRefetchOutdatesIff(s: State, m: nat, draft: Response, after: seq<Response>) returns (t: State)
    requires Traced(s) && Quiet(s) && s.client.cache.Some? && m !in s.begun && m !in s.committed
    ensures Run(s, [Begin(m, true, draft), Resume(m), Commit(m, after),
                    Succeed(m), FetchFails, Settle(m), FetchFails], t)
    ensures Quiet(t) && !Synced(t) && t.failed && t.client.cache == Some(s.client.cache.value + [draft])
    ensures Current(t, t.client.cache.value) <==> after == s.client.cache.value + [draft]
  {
    hide Run, Traced;
    var s1 := Next(s, Begin(m, true, draft));
    var s2 := Next(s1, Resume(m));
    var s3 := Next(s2, Commit(m, after));
    var s4 := Next(s3, Succeed(m));
    var s5 := Next(s4, FetchFails);
    var s6 := Next(s5, Settle(m));
    t := Next(s6, FetchFails);
    RunThree(s, Begin(m, true, draft), Resume(m), Commit(m, after));
    RunThree(s3, Succeed(m), FetchFails, Settle(m));
    RunOne(s6, FetchFails);
    var es, fs := [Begin(m, true, draft), Resume(m), Commit(m, after)], [Succeed(m), FetchFails, Settle(m)];
    RunConcat(s3, fs, s6, [FetchFails], t);
    RunConcat(s, es, s3, fs + [FetchFails], t);
    assert es + (fs + [FetchFails])
        == [Begin(m, true, draft), Resume(m), Commit(m, after), Succeed(m), FetchFails, Settle(m), FetchFails];
    assert t.client.mutations == map[];
    assert t.lastOwn == |t.history| - 1 && t.history[|t.history| - 1] == after;
  }

  /** A client that has loaded its first list. */
  lemma LoadedClient(list: seq<Response>) returns (s: State, t: State)
    ensures Initial(s) && Run(s, [StartFetch, ServerReads, Arrive], t)
    ensures Traced(t) && Quiet(t) && t.begun == {} && t.committed == {}
    ensures t.client.cache == Some(list)
  {
    s := State(Client(None, Idle, map[]), [list], 0, {}, {}, None, 0, map[], false);
    t := Next(Next(Next(s, StartFetch), ServerReads), Arrive);
    RunThree(s, StartFetch, ServerReads, Arrive);
  }

  /** A run that a new client can make, in which the server changes the list and the answer is lost. */
  lemma LostAnswerWitness(first: Response, draft: Response) returns (s: State, es: seq<Event>, t: State)
    ensures Initial(s) && Run(s, es, t) && Quiet(t)
    ensures t.client.cache.Some? && !Current(t, t.client.cache.value)
  {
    hide Run, Traced, Current;
    var u: State;
    s, u := LoadedClient([first]);
    t := LostAnswerOutdatesIff(u, 0, draft, [first, draft]);
    es := [StartFetch, ServerReads, Arrive] + [Begin(0, false, draft), Commit(0, [first, draft]), Fail(0)];
    RunConcat(s, [StartFetch, ServerReads, Arrive], u, [Begin(0, false, draft), Commit(0, [first, draft]), Fail(0)], t);
  }

  /** A run that a new client can make, in which the server stores another id and refetches fail. */
  lemma FailedRefetchWitness(first: Response, draft: Response, stored: Response)
    returns (s: State, es: seq<Event>, t: State)
    requires stored != draft
    ensures Initial(s) && Run(s, es, t) && AlwaysOptimistic(es) && Quiet(t)
    ensures t.client.cache == Some([first, draft]) && !Current(t, [first, draft])
  {
    hide Run, Traced, Current;
    var u: State;
    s, u := LoadedClient([first]);
    t := FailedRefetchOutdatesIff(u, 0, draft, [first, stored]);
    assert [first] + [draft] == [first, draft] && [first, stored][1] != [first, draft][1];
    var fs := [Begin(0, true, draft), Resume(0), Commit(0, [first, stored]),
               Succeed(0), FetchFails, Settle(0), FetchFails];
    es := [StartFetch, ServerReads, Arrive] + fs;
    RunConcat(s, [StartFetch, ServerReads, Arrive], u, fs, t);
  }

  lemma {:induction false} RunConcat(s: State, es: seq<Event>, u: State, fs: seq<Event>, t: State)
    requires Run(s, es, u) && Run(u, fs, t)
    ensures Run(s, es + fs, t)
    decreases |es|
  {
    hide Next, Enabled;
    if es == [] {
      assert es + fs == fs;
    } else {
      RunConcat(Next(s, es[0]), es[1..], u, fs, t);
      assert (es + fs)[1..] == es[1..] + fs;
    }
  }

  lemma RunCons(s: State, e: Event, es: seq<Event>, t: State)
    requires Enabled(s, e) && Run(Next(s, e), es, t)
    ensures Run(s, [e] + es, t)
  {
    assert ([e] + es)[1..] == es;
  }
}

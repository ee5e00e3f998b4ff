/**
 * Session expiry: the poll that reads the time left from the token every minute, and the
 * countdown of the warning dialog. Times are in seconds.
 */
module SessionExpiry {
  import opened Optional
  import opened Base64
  import opened Jwt

  const PERIOD := 60.0
  const WARNING := 300.0

  /** What one poll does. */
  datatype Action = Nothing | Warn(secondsLeft: int) | LogOut

  function CheckTokenExpiry(timeLeft: real): Action {
    if timeLeft > 0.0 && timeLeft <= WARNING then Warn(timeLeft.Floor)
    else if timeLeft == 0.0 then LogOut
    else Nothing
  }

  /** The time of poll `k`: the first is immediate, the others follow once a minute. */
  function PollTime(start: real, k: nat): real {
    start + PERIOD * k as real
  }

  function PollAction(payload: Option<Payload>, start: real, k: nat): Action {
    CheckTokenExpiry(TimeUntilExpiry(payload, PollTime(start, k)))
  }

  function TimeLeft(exp: real, start: real, k: nat): real {
    exp - PollTime(start, k)
  }

  lemma ActionByTimeLeft(payload: Option<Payload>, exp: real, start: real, k: nat)
    requires payload == Some(Payload(Some(exp))) && exp != 0.0
    ensures PollAction(payload, start, k).LogOut? <==> TimeLeft(exp, start, k) <= 0.0
    ensures PollAction(payload, start, k).Warn? <==> 0.0 < TimeLeft(exp, start, k) <= WARNING
  {
  }

  lemma OnePeriod(exp: real, start: real, k: nat)
    ensures TimeLeft(exp, start, k + 1) == TimeLeft(exp, start, k) - PERIOD
  {
    assert (k + 1) as real == k as real + 1.0;
  }

  lemma {:induction false} TimeLeftFalls(exp: real, start: real, j: nat, k: nat)
    requires j <= k
    ensures TimeLeft(exp, start, k) <= TimeLeft(exp, start, j)
  {
    if j < k {
      TimeLeftFalls(exp, start, j, k - 1);
      OnePeriod(exp, start, k - 1);
    }
  }

  /**
   * The session of a whole token: poll `k`, which comes 60 seconds times `k` after the start, logs
   * out exactly when the claim's moment has come, and warns exactly in the last 300 seconds
   * before it, with the whole seconds left.
   */
  lemma TokenSession(header: string, bytes: seq<Byte>, signature: string, parse: seq<Byte> -> Option<Payload>,
                     exp: real, start: real, k: nat)
    requires Free(header, '.') && Free(signature, '.')
    requires bytes != [] && parse(bytes) == Some(Payload(Some(exp))) && exp != 0.0
    ensures var payload := DecodeJwt(Token(header, EncodeUrl(bytes), signature), parse);
            var left := exp - (start + 60.0 * k as real);
            && (PollAction(payload, start, k) == LogOut <==> left <= 0.0)
            && (forall n :: PollAction(payload, start, k) == Warn(n) <==> 0.0 < left <= 300.0 && n == left.Floor)
  {
    PayloadIsRecovered(header, bytes, signature, parse);
    ClaimDecides(parse(bytes), PollTime(start, k));
  }

  /** A token that cannot be read, or whose claim is missing or zero, logs out at the first poll. */
  lemma UnreadableLogsOut(payload: Option<Payload>, start: real)
    requires payload in {None, Some(Payload(None)), Some(Payload(Some(0.0)))}
    ensures PollAction(payload, start, 0) == LogOut
  {
    ClaimDecides(payload, PollTime(start, 0));
  }

  /** The first warning of a session that began with more than five minutes left. */
  lemma FirstWarning(payload: Option<Payload>, exp: real, start: real, k: nat)
    requires payload == Some(Payload(Some(exp))) && exp != 0.0 && exp - start > 300.0
    requires PollAction(payload, start, k).Warn?
    requires forall j: nat :: j < k ==> !PollAction(payload, start, j).Warn?
    ensures k > 0 && 240.0 < exp - (start + 60.0 * k as real) <= 300.0
  {
    ActionByTimeLeft(payload, exp, start, k);
    if k > 0 {
      ActionByTimeLeft(payload, exp, start, k - 1);
      OnePeriod(exp, start, k - 1);
      assert !PollAction(payload, start, k - 1).Warn?;
    }
  }

  /** The first poll that logs out comes less than a period after expiry. */
  lemma LogOutInTime(payload: Option<Payload>, exp: real, start: real, k: nat)
    requires payload == Some(Payload(Some(exp))) && exp != 0.0 && exp > start
    requires PollAction(payload, start, k).LogOut?
    requires forall j: nat :: j < k ==> !PollAction(payload, start, j).LogOut?
    ensures exp <= start + 60.0 * k as real < exp + 60.0
  {
    ActionByTimeLeft(payload, exp, start, k);
    if k > 0 {
      ActionByTimeLeft(payload, exp, start, k - 1);
      OnePeriod(exp, start, k - 1);
      assert !PollAction(payload, start, k - 1).LogOut?;
    }
  }

  /**
   * Nobody is logged out by a poll without an earlier warning, however little time the
   * session began with, unless the token had already expired at the first poll.
   */
  lemma WarnedBeforeLogOutIff(payload: Option<Payload>, exp: real, start: real, k: nat)
    requires payload == Some(Payload(Some(exp))) && exp != 0.0
    requires PollAction(payload, start, k).LogOut?
    ensures (exists j: nat :: j < k && PollAction(payload, start, j).Warn?) <==> exp > start
  {
    ActionByTimeLeft(payload, exp, start, k);
    if exp > start {
      var j := LastPollBefore(exp, start, k);
      ActionByTimeLeft(payload, exp, start, j);
      assert PollAction(payload, start, j).Warn?;
    } else {
      forall j: nat | j < k ensures !PollAction(payload, start, j).Warn? {
        TimeLeftFalls(exp, start, 0, j);
        ActionByTimeLeft(payload, exp, start, j);
      }
    }
  }

  /** The last poll with time left falls in the last minute, well inside the warning window. */
  lemma {:induction false} LastPollBefore(exp: real, start: real, k: nat) returns (j: nat)
    requires exp > start && TimeLeft(exp, start, k) <= 0.0
    ensures j < k && 0.0 < TimeLeft(exp, start, j) <= PERIOD
  {
    OnePeriod(exp, start, k - 1);
    if TimeLeft(exp, start, k - 1) > 0.0 {
      j := k - 1;
    } else {
      j := LastPollBefore(exp, start, k - 1);
    }
  }

  /** Polls from `start` on until one logs out; `warnings` lists the polls that warned. */
  method PollUntilLogOut(payload: Option<Payload>, start: real) returns (warnings: seq<nat>, last: nat)
    ensures PollAction(payload, start, last).LogOut?
    ensures forall j: nat :: j < last ==> !PollAction(payload, start, j).LogOut?
    ensures forall j: nat :: j in warnings <==> j < last && PollAction(payload, start, j).Warn?
    ensures forall exp :: payload == Some(Payload(Some(exp))) && exp != 0.0 && exp > start ==> warnings != []
  {
    warnings, last := [], 0;
    ghost var exp := Expiry(payload).GetOr(start);
    while PollAction(payload, start, last) != LogOut
      invariant forall j: nat :: j < last ==> !PollAction(payload, start, j).LogOut?
      invariant forall j: nat :: j in warnings <==> j < last && PollAction(payload, start, j).Warn?
      decreases if TimeLeft(exp, start, last) > 0.0 then TimeLeft(exp, start, last).Floor + 1 else 0
    {
      if PollAction(payload, start, last).Warn? {
        warnings := warnings + [last];
      }
      OnePeriod(exp, start, last);
      last := last + 1;
    }
    if Expiry(payload).Some? {
      WarnedBeforeLogOutIff(payload, exp, start, last);
    }
  }

  // ---------- the countdown ----------

  /** The dialog's interval: one second at a time, logging out when the next value is not positive. */
  method Countdown(secondsLeft: int) returns (elapsed: nat)
    ensures elapsed == if secondsLeft > 1 then secondsLeft else 1
  {
    var timeRemaining := secondsLeft;
    elapsed := 0;
    while true
      invariant timeRemaining == secondsLeft - elapsed && (elapsed == 0 || timeRemaining > 0)
      decreases timeRemaining
    {
      elapsed := elapsed + 1;
      var next := timeRemaining - 1;
      if next <= 0 {
        return;
      }
      timeRemaining := next;
    }
  }

  /**
   * A countdown that a warning starts logs out within the last second before expiry, if and
   * only if a whole second was left; a later start logs out after expiry, by under a second.
   */
  lemma CountdownInTimeIff(payload: Option<Payload>, exp: real, start: real, k: nat, elapsed: nat)
    requires payload == Some(Payload(Some(exp))) && exp != 0.0 && PollAction(payload, start, k).Warn?
    requires var n := PollAction(payload, start, k).secondsLeft; elapsed == if n > 1 then n else 1
    ensures var end := start + 60.0 * k as real + elapsed as real;
            (end <= exp <==> exp - (start + 60.0 * k as real) >= 1.0) && exp - 1.0 < end < exp + 1.0
  {
    ActionByTimeLeft(payload, exp, start, k);
    var left := TimeLeft(exp, start, k);
    assert left.Floor as real <= left < left.Floor as real + 1.0;
  }

  /**
   * Such a late countdown: the page is opened half a second before expiry, warns with zero
   * seconds left, and logs out half a second after expiry.
   */
  lemma LateCountdown() returns (payload: Option<Payload>, exp: real, start: real)
    ensures payload == Some(Payload(Some(exp))) && exp != 0.0 && PollAction(payload, start, 0) == Warn(0)
    ensures start + 1.0 > exp
  {
    payload, exp, start := Some(Payload(Some(60.5))), 60.5, 60.0;
    var left := TimeUntilExpiry(payload, PollTime(start, 0));
    assert left == 0.5 && left.Floor == 0;
  }
}

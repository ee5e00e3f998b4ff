/**
 * The debounced value: a single timer that each change of the value clears and re-arms,
 * against a specification over the whole trace of values; and two of them, with different
 * delays, on one stream of content.
 */
module Debounce {
  import opened Optional

  /** The component renders at time `at` with this value; renders may repeat the value. */
  datatype Render<T> = Render(at: real, value: T)

  /**
   * The hook's state. The armed timer's callback closes over `value`; `adopted` lists every
   * value that a timer made the debounced one, oldest first.
   */
  datatype Timer<T> = Timer(value: T, debounced: T, deadline: Option<real>, adopted: seq<T>)

  // ---------- the hook ----------

  function Mount<T>(r: Render<T>, delay: real): Timer<T> {
    Timer(r.value, r.value, Some(r.at + delay), [])
  }

  /** The timer fires once its deadline has come. */
  function Elapse<T>(m: Timer<T>, now: real): Timer<T> {
    if m.deadline.Some? && m.deadline.value <= now
    then m.(debounced := m.value, deadline := None, adopted := m.adopted + [m.value])
    else m
  }

  /** A render with a new value clears the timer and arms a new one; with the same value it does nothing. */
  function Rerender<T(==)>(m: Timer<T>, r: Render<T>, delay: real): Timer<T> {
    if r.value == m.value then m else m.(value := r.value, deadline := Some(r.at + delay))
  }

  class DebouncedValue<T(==)> {
    const delay: real
    var value: T
    var debouncedValue: T
    var deadline: Option<real>
    ghost var adopted: seq<T>

    ghost function View(): Timer<T>
      reads this
    {
      Timer(value, debouncedValue, deadline, adopted)
    }

    constructor (first: Render<T>, delay: real)
      ensures this.delay == delay && View() == Mount(first, delay)
    {
      this.delay := delay;
      value, debouncedValue := first.value, first.value;
      deadline := Some(first.at + delay);
      adopted := [];
    }

    method FireIfDue(now: real)
      modifies this
      ensures View() == Elapse(old(View()), now)
    {
      if deadline.Some? && deadline.value <= now {
        debouncedValue := value;
        deadline := None;
        adopted := adopted + [value];
      }
    }

    method Update(r: Render<T>)
      modifies this
      ensures View() == Rerender(old(View()), r, delay)
    {
      if r.value != value {
        deadline := None;
        value := r.value;
        deadline := Some(r.at + delay);
      }
    }
  }

  /** The state right after the last render of the trace, every timer due before it having fired. */
  function After<T(==)>(trace: seq<Render<T>>, delay: real): Timer<T>
    requires trace != []
  {
    var n := |trace| - 1;
    if n == 0 then Mount(trace[0], delay)
    else Rerender(Elapse(After(trace[..n], delay), trace[n].at), trace[n], delay)
  }

  /** Runs the hook over a whole trace and up to `now`. */
  method Play<T(==)>(trace: seq<Render<T>>, delay: real, now: real) returns (debounced: T)
    requires trace != []
    ensures debounced == Elapse(After(trace, delay), now).debounced
  {
    var hook := new DebouncedValue(trace[0], delay);
    for i := 1 to |trace|
      invariant hook.delay == delay && hook.View() == After(trace[..i], delay)
    {
      hook.FireIfDue(trace[i].at);
      hook.Update(trace[i]);
      assert trace[..i + 1][..i] == trace[..i];
    }
    assert trace[..|trace|] == trace;
    hook.FireIfDue(now);
    debounced := hook.debouncedValue;
  }

  // ---------- the specification ----------

  /** Renders come in time order, and `now` is not before the last one. */
  ghost predicate Ordered<T>(trace: seq<Render<T>>, now: real) {
    && trace != []
    && (forall i, j :: 0 <= i < j < |trace| ==> trace[i].at <= trace[j].at)
    && trace[|trace| - 1].at <= now
  }

  /** When the value of render `i` was superseded, or `now` for the last one. */
  function Until<T>(trace: seq<Render<T>>, i: nat, now: real): real
    requires i < |trace|
  {
    if i + 1 < |trace| then trace[i + 1].at else now
  }

  /** Renders s..i all show the value of render i. */
  ghost predicate SameValue<T>(trace: seq<Render<T>>, s: nat, i: nat)
    requires i < |trace|
  {
    s <= i && forall k :: s <= k <= i ==> trace[k].value == trace[i].value
  }

  /** Up to the end of render `i`, its value had stayed unchanged for the full delay. */
  ghost predicate Settled<T>(trace: seq<Render<T>>, i: nat, delay: real, now: real)
    requires i < |trace|
  {
    exists s: nat :: SameValue(trace, s, i) && trace[s].at + delay <= Until(trace, i, now)
  }

  /** `out` is the latest value that stayed unchanged for the full delay, or else the first value. */
  ghost predicate Specified<T>(trace: seq<Render<T>>, delay: real, now: real, out: T)
    requires trace != []
  {
    if exists i: nat :: i < |trace| && Settled(trace, i, delay, now)
    then exists i: nat :: i < |trace| && Settled(trace, i, delay, now) && out == trace[i].value
                          && forall j: nat :: i < j < |trace| ==> !Settled(trace, j, delay, now)
    else out == trace[0].value
  }

  // ---------- the hook meets the specification ----------

  /** The first render of the last stretch of equal values. */
  function StretchStart<T(==)>(trace: seq<Render<T>>): (s: nat)
    requires trace != []
    ensures s < |trace|
  {
    var n := |trace| - 1;
    if n == 0 || trace[n].value != trace[n - 1].value then n else StretchStart(trace[..n])
  }

  lemma {:induction false} StretchIsMaximal<T>(trace: seq<Render<T>>, s: nat)
    requires trace != []
    ensures SameValue(trace, StretchStart(trace), |trace| - 1)
    ensures SameValue(trace, s, |trace| - 1) ==> StretchStart(trace) <= s
  {
    var n := |trace| - 1;
    if n > 0 && trace[n].value == trace[n - 1].value {
      if s < n {
        StretchIsMaximal(trace[..n], s);
      } else {
        StretchIsMaximal(trace[..n], 0);
      }
    }
  }

  /** Whether the last render has settled depends on where its stretch started. */
  lemma SettledFromStart<T>(trace: seq<Render<T>>, delay: real, now: real)
    requires Ordered(trace, now)
    ensures Settled(trace, |trace| - 1, delay, now) <==> trace[StretchStart(trace)].at + delay <= now
  {
    var n := |trace| - 1;
    StretchIsMaximal(trace, 0);
    if Settled(trace, n, delay, now) {
      var s: nat :| SameValue(trace, s, n) && trace[s].at + delay <= Until(trace, n, now);
      StretchIsMaximal(trace, s);
    }
  }

  /** The armed timer belongs to the last stretch; it is gone once that stretch has settled. */
  lemma {:induction false} TimerOfStretch<T>(trace: seq<Render<T>>, delay: real)
    requires trace != [] && Ordered(trace, trace[|trace| - 1].at)
    ensures var m, n := After(trace, delay), |trace| - 1;
            && m.value == trace[n].value
            && (m.deadline == None || m.deadline == Some(trace[StretchStart(trace)].at + delay))
            && (m.deadline == None ==> m.debounced == m.value && trace[StretchStart(trace)].at + delay <= trace[n].at)
  {
    var n := |trace| - 1;
    if n > 0 {
      assert Ordered(trace[..n], trace[n - 1].at);
      TimerOfStretch(trace[..n], delay);
    }
  }

  /** Earlier renders settle by the same times in a longer trace. */
  lemma SettledInPrefix<T>(trace: seq<Render<T>>, i: nat, delay: real, now: real)
    requires i + 1 < |trace|
    ensures Settled(trace[..|trace| - 1], i, delay, trace[|trace| - 1].at) <==> Settled(trace, i, delay, now)
  {
    var p := trace[..|trace| - 1];
    assert forall k :: 0 <= k <= i ==> p[k] == trace[k];
    assert Until(p, i, trace[|trace| - 1].at) == Until(trace, i, now);
    hide Until;
    if Settled(p, i, delay, trace[|trace| - 1].at) {
      var s: nat :| SameValue(p, s, i) && p[s].at + delay <= Until(p, i, trace[|trace| - 1].at);
      assert SameValue(trace, s, i);
    }
    if Settled(trace, i, delay, now) {
      var s: nat :| SameValue(trace, s, i) && trace[s].at + delay <= Until(trace, i, now);
      assert SameValue(p, s, i);
    }
  }

  /**
   * At every moment of every trace, whatever the delay, the hook returns the latest value
   * that stayed unchanged for the full delay, or the first value if none has.
   */
  lemma {:induction false} HookMeetsSpecification<T>(trace: seq<Render<T>>, delay: real, now: real)
    requires Ordered(trace, now)
    ensures Specified(trace, delay, now, Elapse(After(trace, delay), now).debounced)
  {
    var n, out := |trace| - 1, Elapse(After(trace, delay), now).debounced;
    OutputOfLast(trace, delay, now);
    hide After, Settled, Elapse, StretchStart;
    if Settled(trace, n, delay, now) {
      assert out == trace[n].value;
    } else if n > 0 {
      HookMeetsSpecification(trace[..n], delay, trace[n].at);
      SpecifiedLater(trace, delay, now, out);
    }
  }

  /** The output is the last value if that has settled, and otherwise what it was before. */
  lemma OutputOfLast<T>(trace: seq<Render<T>>, delay: real, now: real)
    requires Ordered(trace, now)
    ensures var n, out := |trace| - 1, Elapse(After(trace, delay), now).debounced;
            if Settled(trace, n, delay, now) then out == trace[n].value
            else if n == 0 then out == trace[0].value
            else && Ordered(trace[..n], trace[n].at)
                 && out == Elapse(After(trace[..n], delay), trace[n].at).debounced
  {
    hide Settled;
    TimerOfStretch(trace, delay);
    SettledFromStart(trace, delay, now);
  }

  lemma SpecifiedLater<T>(trace: seq<Render<T>>, delay: real, now: real, out: T)
    requires |trace| > 1 && !Settled(trace, |trace| - 1, delay, now)
    requires Specified(trace[..|trace| - 1], delay, trace[|trace| - 1].at, out)
    ensures Specified(trace, delay, now, out)
  {
    var n := |trace| - 1;
    var past, at := trace[..n], trace[n].at;
    forall i: nat | i < n ensures Settled(past, i, delay, at) <==> Settled(trace, i, delay, now) {
      SettledInPrefix(trace, i, delay, now);
    }
    hide Settled;
  }

  // ---------- what the timers adopt ----------

  /** Render `i` is the last one of its stretch of equal values. */
  predicate EndsStretch<T(==)>(trace: seq<Render<T>>, i: nat)
    requires i < |trace|
  {
    i == |trace| - 1 || trace[i + 1].value != trace[i].value
  }

  /** The values among the first `k` renders that stayed unchanged for the full delay, one for each stretch. */
  ghost function SettledValues<T>(trace: seq<Render<T>>, delay: real, now: real, k: nat): seq<T>
    requires k <= |trace|
  {
    if k == 0 then []
    else
      SettledValues(trace, delay, now, k - 1)
      + if EndsStretch(trace, k - 1) && Settled(trace, k - 1, delay, now) then [trace[k - 1].value] else []
  }

  lemma {:induction false} SettledValuesInPrefix<T>(trace: seq<Render<T>>, delay: real, now: real, before: real, k: nat)
    requires k < |trace| - 1
             || (k == |trace| - 1 && before == trace[k].at && k > 0 && trace[k].value != trace[k - 1].value)
    ensures SettledValues(trace[..|trace| - 1], delay, before, k) == SettledValues(trace, delay, now, k)
    decreases k
  {
    hide Settled;
    if k > 0 {
      var p := trace[..|trace| - 1];
      SettledValuesInPrefix(trace, delay, now, before, k - 1);
      assert EndsStretch(p, k - 1) <==> EndsStretch(trace, k - 1);
      SettledEarlier(trace, k - 1, delay, now, before);
    }
  }

  /** A superseded render settles in a trace and in its prefix alike. */
  lemma SettledEarlier<T>(trace: seq<Render<T>>, i: nat, delay: real, now: real, before: real)
    requires i + 1 < |trace| && (i + 2 == |trace| ==> before == trace[i + 1].at)
    ensures Settled(trace[..|trace| - 1], i, delay, before) <==> Settled(trace, i, delay, now)
  {
    SettledInPrefix(trace, i, delay, now);
    var p := trace[..|trace| - 1];
    assert Until(p, i, before) == Until(p, i, trace[|trace| - 1].at);
  }

  /** A timer that fires in between has adopted the same by the later time. */
  lemma ElapseTwice<T>(m: Timer<T>, now: real, later: real)
    requires now <= later
    ensures Elapse(Elapse(m, now), later) == Elapse(m, later)
  {
  }

  lemma AdoptedByNew<T>(m: Timer<T>, r: Render<T>, delay: real, now: real)
    requires r.value != m.value
    ensures Elapse(Rerender(m, r, delay), now).adopted == m.adopted + if r.at + delay <= now then [r.value] else []
  {
  }

  lemma ElapseKeepsValue<T>(m: Timer<T>, now: real)
    ensures Elapse(m, now).value == m.value
  {
  }

  /** What the last render adds to the adopted values, by `now`. */
  lemma AdoptedByLast<T>(trace: seq<Render<T>>, delay: real, now: real)
    requires Ordered(trace, now)
    ensures var n, m := |trace| - 1, Elapse(After(trace, delay), now);
            var last := if trace[n].at + delay <= now then [trace[n].value] else [];
            m.adopted
            == if n == 0 then last
               else if trace[n].value != trace[n - 1].value
               then Elapse(After(trace[..n], delay), trace[n].at).adopted + last
               else Elapse(After(trace[..n], delay), now).adopted
  {
    var n := |trace| - 1;
    if n > 0 {
      hide Elapse, StretchStart;
      var past, at := After(trace[..n], delay), trace[n].at;
      assert Ordered(trace[..n], trace[n - 1].at);
      TimerOfStretch(trace[..n], delay);
      ElapseKeepsValue(past, at);
      if trace[n].value != trace[n - 1].value {
        AdoptedByNew(Elapse(past, at), trace[n], delay, now);
      } else {
        ElapseTwice(past, at, now);
      }
    }
  }

  /**
   * At every moment of every trace, what the timers have adopted is the list of the values that
   * stayed unchanged for the full delay, in order, each stretch of equal values counting once.
   */
  lemma {:induction false} AdoptsSettledValues<T>(trace: seq<Render<T>>, delay: real, now: real)
    requires Ordered(trace, now)
    ensures Elapse(After(trace, delay), now).adopted == SettledValues(trace, delay, now, |trace|)
    decreases |trace|
  {
    hide Elapse, After, Settled, StretchStart;
    var n := |trace| - 1;
    AdoptedByLast(trace, delay, now);
    SettledFromStart(trace, delay, now);
    if n == 0 {
      FirstStretch(trace);
    } else {
      var past := trace[..n];
      assert Ordered(past, trace[n].at) && Ordered(past, now);
      if trace[n].value != trace[n - 1].value {
        AdoptsSettledValues(past, delay, trace[n].at);
        SettledValuesInPrefix(trace, delay, now, trace[n].at, n);
        StartsAnew(trace);
      } else {
        AdoptsSettledValues(past, delay, now);
        SettledFromStart(past, delay, now);
        SettledValuesInPrefix(trace, delay, now, now, n - 1);
        GoesOn(trace);
      }
    }
  }

  lemma FirstStretch<T>(trace: seq<Render<T>>)
    requires |trace| == 1
    ensures StretchStart(trace) == 0
  {
  }

  lemma StartsAnew<T>(trace: seq<Render<T>>)
    requires |trace| > 1 && trace[|trace| - 1].value != trace[|trace| - 2].value
    ensures StretchStart(trace) == |trace| - 1
  {
  }

  lemma GoesOn<T>(trace: seq<Render<T>>)
    requires |trace| > 1 && trace[|trace| - 1].value == trace[|trace| - 2].value
    ensures StretchStart(trace) == StretchStart(trace[..|trace| - 1])
  {
  }

  // ---------- two delays on one stream ----------

  /** `a` is obtained from `b` by leaving elements out. */
  ghost predicate Subsequence<T>(a: seq<T>, b: seq<T>)
    decreases |b|
  {
    a == [] ||
    (b != [] &&
     var a', b' := a[..|a| - 1], b[..|b| - 1];
     (Subsequence(a, b') || (a[|a| - 1] == b[|b| - 1] && Subsequence(a', b'))))
  }

  lemma SubsequenceAppendBoth<T>(a: seq<T>, b: seq<T>, x: T)
    requires Subsequence(a, b)
    ensures Subsequence(a + [x], b + [x])
  {
    assert (a + [x])[..|a|] == a && (b + [x])[..|b|] == b;
  }

  lemma {:induction false} SubsequenceDropLast<T>(a: seq<T>, b: seq<T>, x: T)
    requires Subsequence(a + [x], b)
    ensures Subsequence(a, b)
    decreases |b|
  {
    assert (a + [x])[..|a|] == a;
    if a != [] {
      var b' := b[..|b| - 1];
      if Subsequence(a + [x], b') {
        SubsequenceDropLast(a, b', x);
      }
    }
  }

  /**
   * The quick and the slow debouncer of the same content: they track the same value, the
   * slow deadline is the later one, and whatever the slow one adopts the quick one has.
   */
  ghost predicate Coupled<T>(quick: Timer<T>, slow: Timer<T>, d1: real, d2: real) {
    && quick.value == slow.value
    && (slow.deadline == None ==> quick.deadline == None)
    && (quick.deadline == None ==> quick.debounced == quick.value)
    && (quick.deadline.Some? ==>
          slow.deadline.Some? && quick.deadline.value - d1 == slow.deadline.value - d2)
    && Subsequence(if quick.deadline == None && slow.deadline.Some? then slow.adopted + [slow.value] else slow.adopted,
                   quick.adopted)
  }

  lemma ElapseKeepsCoupled<T>(quick: Timer<T>, slow: Timer<T>, d1: real, d2: real, now: real)
    requires d1 <= d2 && Coupled(quick, slow, d1, d2)
    ensures Coupled(Elapse(quick, now), Elapse(slow, now), d1, d2)
  {
    if quick.deadline.Some? {
      SubsequenceAppendBoth(slow.adopted, quick.adopted, quick.value);
    }
  }

  lemma RerenderKeepsCoupled<T>(quick: Timer<T>, slow: Timer<T>, d1: real, d2: real, r: Render<T>)
    requires Coupled(quick, slow, d1, d2)
    ensures Coupled(Rerender(quick, r, d1), Rerender(slow, r, d2), d1, d2)
  {
    if r.value != slow.value && quick.deadline == None && slow.deadline.Some? {
      SubsequenceDropLast(slow.adopted, quick.adopted, slow.value);
    }
  }

  lemma {:induction false} HooksStayCoupled<T>(trace: seq<Render<T>>, d1: real, d2: real)
    requires trace != [] && d1 <= d2
    ensures Coupled(After(trace, d1), After(trace, d2), d1, d2)
  {
    var n := |trace| - 1;
    if n > 0 {
      var past := trace[..n];
      HooksStayCoupled(past, d1, d2);
      ElapseKeepsCoupled(After(past, d1), After(past, d2), d1, d2, trace[n].at);
      RerenderKeepsCoupled(Elapse(After(past, d1), trace[n].at), Elapse(After(past, d2), trace[n].at),
                           d1, d2, trace[n]);
    }
  }

  /**
   * The AI stage never runs ahead of the regex stage: whenever it adopts a value, the raw
   * content and the regex stage already show that value.
   */
  lemma SlowAdoptsWhatQuickShows<T>(trace: seq<Render<T>>, d1: real, d2: real, now: real)
    requires trace != [] && d1 <= d2
    requires var slow := After(trace, d2); slow.deadline.Some? && slow.deadline.value <= now
    ensures Elapse(After(trace, d2), now).debounced == trace[|trace| - 1].value
    ensures Elapse(After(trace, d1), now).debounced == trace[|trace| - 1].value
  {
    HooksStayCoupled(trace, d1, d2);
    assert After(trace, d2).value == trace[|trace| - 1].value;
  }

  /** The values the AI stage adopts are a subsequence of those the regex stage adopts. */
  lemma SlowAdoptsSubsequence<T>(trace: seq<Render<T>>, d1: real, d2: real, now: real)
    requires trace != [] && d1 <= d2
    ensures Subsequence(Elapse(After(trace, d2), now).adopted, Elapse(After(trace, d1), now).adopted)
  {
    var quick, slow := Elapse(After(trace, d1), now), Elapse(After(trace, d2), now);
    HooksStayCoupled(trace, d1, d2);
    ElapseKeepsCoupled(After(trace, d1), After(trace, d2), d1, d2, now);
    if quick.deadline == None && slow.deadline.Some? {
      SubsequenceDropLast(slow.adopted, quick.adopted, slow.value);
    }
  }
}

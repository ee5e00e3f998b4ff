/** What rollbacks do to the cached list, in every interleaving with refetches and with each other. */
module OptimisticRollback {
  import opened Optional
  import opened Responses
  import opened OptimisticResponses

  // ---------- the list in layers ----------

  /** A list that arrived or was put back, and the drafts appended since, with their mutations. */
  datatype Layout = Layout(base: Option<seq<Response>>, stack: seq<(nat, Response)>)

  /** The base list with the drafts on top, oldest first. */
  function List(l: Layout): Option<seq<Response>> {
    if l.base.None? then None else Some(l.base.value + Drafts(l.stack))
  }

  function Drafts(stack: seq<(nat, Response)>): (drafts: seq<Response>)
    ensures |drafts| == |stack| && forall i :: 0 <= i < |stack| ==> drafts[i] == stack[i].1
  {
    seq(|stack|, i requires 0 <= i < |stack| => stack[i].1)
  }

  /** The layer of mutation `m`, or the height of the stack if there is none. */
  function LayerOf(stack: seq<(nat, Response)>, m: nat): (k: nat)
    ensures k <= |stack| && (k < |stack| ==> stack[k].0 == m)
    ensures forall i :: 0 <= i < k ==> stack[i].0 != m
  {
    if stack == [] || stack[0].0 == m then 0 else 1 + LayerOf(stack[1..], m)
  }

  /** The layers without that of `m`: what an exact rollback would leave. */
  function Without(stack: seq<(nat, Response)>, m: nat): seq<(nat, Response)> {
    var k := LayerOf(stack, m);
    if k < |stack| then stack[..k] + stack[k + 1..] else stack
  }

  /**
   * The layers after one event. A rollback takes the layers above its own away as well; once its
   * own layer is gone, it makes its snapshot the base.
   */
  function Relaid(s: State, l: Layout, e: Event): Layout
    requires Enabled(s, e)
  {
    match e
    case Resume(m) => l.(stack := l.stack + [(m, s.client.mutations[m].draft)])
    case Fail(m) =>
      var mu, k := s.client.mutations[m], LayerOf(l.stack, m);
      if !mu.optimistic then l
      else if k < |l.stack| then l.(stack := l.stack[..k])
      else if mu.snapshot.Some? then Layout(mu.snapshot, [])
      else l
    case Arrive => Layout(Some(s.client.fetch.list), [])
    case Evict => Layout(None, [])
    case _ => l
  }

  function LayoutAfter(s: State, l: Layout, es: seq<Event>, t: State): Layout
    requires Run(s, es, t)
    decreases |es|
  {
    if es == [] then l else LayoutAfter(Next(s, es[0]), Relaid(s, l, es[0]), es[1..], t)
  }

  /**
   * The cache is the list of the layout, and each mutation that awaits its answer and has a layer
   * snapshotted the layers below its own.
   */
  ghost predicate Layered(s: State, l: Layout) {
    && WellPhased(s)
    && s.client.cache == List(l)
    && (forall i, j :: 0 <= i < j < |l.stack| ==> l.stack[i].0 != l.stack[j].0)
    && (forall i :: 0 <= i < |l.stack| ==> LayerFits(s, l, i))
  }

  ghost predicate LayerFits(s: State, l: Layout, i: nat)
    requires i < |l.stack|
  {
    var m := l.stack[i].0;
    && m in s.begun
    && (m in s.client.mutations ==> s.client.mutations[m].optimistic && s.client.mutations[m].phase != Cancelling)
    && (InPhase(s.client, m, Sent) ==> s.client.mutations[m].snapshot == List(l.(stack := l.stack[..i])))
  }

  lemma DraftOnTop(l: Layout, m: nat, draft: Response)
    ensures List(l.(stack := l.stack + [(m, draft)])) == if l.base.None? then None else Some(List(l).value + [draft])
  {
    assert Drafts(l.stack + [(m, draft)]) == Drafts(l.stack) + [draft];
    if l.base.Some? {
      assert l.base.value + (Drafts(l.stack) + [draft]) == (l.base.value + Drafts(l.stack)) + [draft];
    }
  }

  lemma NoDrafts(base: Option<seq<Response>>)
    ensures List(Layout(base, [])) == base
  {
    if base.Some? {
      assert base.value + Drafts([]) == base.value;
    }
  }

  lemma {:induction false} ResumeKeepsLayers(s: State, l: Layout, m: nat)
    requires Layered(s, l) && InPhase(s.client, m, Cancelling)
    ensures Layered(Next(s, Resume(m)), Relaid(s, l, Resume(m)))
  {
    hide WellPhased, List;
    var t, l' := Next(s, Resume(m)), Relaid(s, l, Resume(m));
    NextKeepsWellPhased(s, Resume(m));
    DraftOnTop(l, m, s.client.mutations[m].draft);
    BaseThere(l);
    forall i | 0 <= i < |l.stack| ensures l.stack[i].0 != m {
      assert LayerFits(s, l, i);
    }
    PhasedIsBegun(s, m);
    forall i | 0 <= i < |l'.stack| ensures LayerFits(t, l', i) {
      assert l'.stack[..i] == l.stack[..i];
      if i < |l.stack| {
        assert LayerFits(s, l, i);
      } else {
        assert l'.(stack := l'.stack[..i]) == l;
      }
    }
  }

  lemma BaseThere(l: Layout)
    ensures l.base.Some? <==> List(l).Some?
  {
  }

  lemma PhasedIsBegun(s: State, m: nat)
    requires WellPhased(s) && m in s.client.mutations
    ensures m in s.begun && (s.client.mutations[m].phase != Sent ==> s.client.mutations[m].optimistic)
  {
  }

  lemma {:induction false} FailKeepsLayers(s: State, l: Layout, m: nat)
    requires Layered(s, l) && InPhase(s.client, m, Sent) && s.client.mutations[m].optimistic
    ensures Layered(Next(s, Fail(m)), Relaid(s, l, Fail(m)))
  {
    hide WellPhased;
    var t, l', k := Next(s, Fail(m)), Relaid(s, l, Fail(m)), LayerOf(l.stack, m);
    NextKeepsWellPhased(s, Fail(m));
    if k < |l.stack| {
      assert LayerFits(s, l, k);
      forall i | 0 <= i < k ensures LayerFits(t, l', i) {
        assert LayerFits(s, l, i);
        assert l'.stack[..i] == l.stack[..i];
      }
    } else {
      NoDrafts(s.client.mutations[m].snapshot);
      forall i | 0 <= i < |l'.stack| ensures LayerFits(t, l', i) {
        assert LayerFits(s, l, i);
      }
    }
  }

  lemma {:induction false} NextKeepsLayers(s: State, l: Layout, e: Event)
    requires Layered(s, l) && Enabled(s, e)
    ensures Layered(Next(s, e), Relaid(s, l, e))
  {
    if e.Resume? {
      ResumeKeepsLayers(s, l, e.m);
    } else if e.Fail? && s.client.mutations[e.m].optimistic {
      FailKeepsLayers(s, l, e.m);
    } else {
      hide WellPhased, List;
      NextKeepsWellPhased(s, e);
      NoDrafts(Relaid(s, l, e).base);
      OthersKeepLayers(s, l, e);
    }
  }

  lemma OthersKeepLayers(s: State, l: Layout, e: Event)
    requires Layered(s, l) && Enabled(s, e) && !e.Resume? && (e.Fail? ==> !s.client.mutations[e.m].optimistic)
    ensures forall i :: 0 <= i < |Relaid(s, l, e).stack| ==> LayerFits(Next(s, e), Relaid(s, l, e), i)
    ensures !e.Arrive? && !e.Evict? ==> Next(s, e).client.cache == s.client.cache
  {
    hide List;
    var t, l' := Next(s, e), Relaid(s, l, e);
    forall i | 0 <= i < |l'.stack| ensures LayerFits(t, l', i) {
      assert LayerFits(s, l, i);
    }
  }

  lemma {:induction false} RunKeepsLayers(s: State, l: Layout, es: seq<Event>, t: State)
    requires Layered(s, l) && Run(s, es, t)
    ensures Layered(t, LayoutAfter(s, l, es, t))
    decreases |es|
  {
    hide Next, Enabled, Layered, Relaid;
    if es != [] {
      NextKeepsLayers(s, l, es[0]);
      RunKeepsLayers(Next(s, es[0]), Relaid(s, l, es[0]), es[1..], t);
    }
  }

  const NO_LAYERS := Layout(None, [])

  /**
   * In every run of a new client, at every moment, the cached list is the base with the drafts of
   * the standing layers on top: nothing else is ever added, lost or reordered.
   */
  lemma {:induction false} CacheIsLayered(s: State, es: seq<Event>, t: State)
    requires Initial(s) && Run(s, es, t)
    ensures Layered(t, LayoutAfter(s, NO_LAYERS, es, t))
    ensures t.client.cache == List(LayoutAfter(s, NO_LAYERS, es, t))
  {
    RunKeepsLayers(s, NO_LAYERS, es, t);
  }

  // ---------- exact rollbacks ----------

  lemma RollbackOnLayers(t: State, l: Layout, m: nat)
    requires Layered(t, l) && InPhase(t.client, m, Sent) && t.client.mutations[m].optimistic
    requires t.client.cache.Some?
    ensures Next(t, Fail(m)).client.cache == List(l.(stack := Without(l.stack, m)))
            <==> if LayerOf(l.stack, m) < |l.stack| then LayerOf(l.stack, m) == |l.stack| - 1
                 else t.client.mutations[m].snapshot in {None, t.client.cache}
  {
    var k := LayerOf(l.stack, m);
    if k < |l.stack| {
      assert LayerFits(t, l, k);
      var below, others := List(l.(stack := l.stack[..k])), List(l.(stack := Without(l.stack, m)));
      assert |below.value| == |l.base.value| + k && |others.value| == |l.base.value| + |l.stack| - 1;
      if k == |l.stack| - 1 {
        assert l.stack[..k] + l.stack[k + 1..] == l.stack[..k];
      }
    }
  }

  /**
   * When a rollback is exact, in every run of a new client: it keeps the cached list and all drafts
   * but its own if and only if its layer is the top one or, when its layer is gone, because a
   * list has arrived, the entry was evicted or an older mutation was rolled back since its
   * snapshot, there was no list to snapshot or the snapshot equals the cached list.
   */
  lemma {:induction false} RollbackExactIff(s: State, es: seq<Event>, t: State, m: nat)
    requires Initial(s) && Run(s, es, t)
    requires InPhase(t.client, m, Sent) && t.client.mutations[m].optimistic && t.client.cache.Some?
    ensures var l := LayoutAfter(s, NO_LAYERS, es, t);
            Next(t, Fail(m)).client.cache == List(l.(stack := Without(l.stack, m)))
            <==> if LayerOf(l.stack, m) < |l.stack| then LayerOf(l.stack, m) == |l.stack| - 1
                 else t.client.mutations[m].snapshot in {None, t.client.cache}
  {
    hide Next, Layered, List, LayerOf, Without;
    CacheIsLayered(s, es, t);
    RollbackOnLayers(t, LayoutAfter(s, NO_LAYERS, es, t), m);
  }

  // ---------- runs of exact rollbacks ----------

  /** The drafts that should stand: each failure takes away its own draft and nothing else. */
  function Standing(s: State, stack: seq<(nat, Response)>, e: Event): seq<(nat, Response)>
    requires Enabled(s, e)
  {
    match e
    case Resume(m) => stack + [(m, s.client.mutations[m].draft)]
    case Fail(m) => if s.client.mutations[m].optimistic then Without(stack, m) else stack
    case _ => stack
  }

  function StandingAfter(s: State, stack: seq<(nat, Response)>, es: seq<Event>, t: State): seq<(nat, Response)>
    requires Run(s, es, t)
    decreases |es|
  {
    if es == [] then stack else StandingAfter(Next(s, es[0]), Standing(s, stack, es[0]), es[1..], t)
  }

  /** At every moment of the run the cache is `base` with the drafts on top that should stand. */
  ghost predicate ExactAlways(s: State, base: Option<seq<Response>>, stack: seq<(nat, Response)>,
                              es: seq<Event>, t: State)
    requires Run(s, es, t)
    decreases |es|
  {
    && s.client.cache == List(Layout(base, stack))
    && (es == [] || ExactAlways(Next(s, es[0]), base, Standing(s, stack, es[0]), es[1..], t))
  }

  /** Rollbacks come in the reverse order of their snapshots. */
  predicate LastInFirstOut(s: State, stack: seq<(nat, Response)>, e: Event)
    requires Enabled(s, e)
  {
    e.Fail? && s.client.mutations[e.m].optimistic ==> stack != [] && stack[|stack| - 1].0 == e.m
  }

  ghost predicate Nested(s: State, stack: seq<(nat, Response)>, es: seq<Event>, t: State)
    requires Run(s, es, t)
    decreases |es|
  {
    es == [] ||
    (LastInFirstOut(s, stack, es[0]) && Nested(Next(s, es[0]), Standing(s, stack, es[0]), es[1..], t))
  }

  /** No refetched list arrives, and the entry is not evicted. */
  predicate Undisturbed(es: seq<Event>) {
    Arrive !in es && Evict !in es
  }

  /** Each optimistic mutation that awaits its answer has a layer. */
  ghost predicate AllLayered(s: State, stack: seq<(nat, Response)>) {
    forall m :: InPhase(s.client, m, Sent) && s.client.mutations[m].optimistic ==> LayerOf(stack, m) < |stack|
  }

  lemma TopLayer(stack: seq<(nat, Response)>, m: nat)
    requires forall i, j :: 0 <= i < j < |stack| ==> stack[i].0 != stack[j].0
    requires stack != [] && stack[|stack| - 1].0 == m
    ensures LayerOf(stack, m) == |stack| - 1 && Without(stack, m) == stack[..|stack| - 1]
  {
    assert stack[..|stack| - 1] + stack[|stack|..] == stack[..|stack| - 1];
  }

  lemma NextKeepsAllLayered(s: State, stack: seq<(nat, Response)>, e: Event)
    requires AllLayered(s, stack) && WellPhased(s) && Enabled(s, e)
    ensures AllLayered(Next(s, e), Standing(s, stack, e))
  {
    var t, stack' := Next(s, e), Standing(s, stack, e);
    forall m | InPhase(t.client, m, Sent) && t.client.mutations[m].optimistic
      ensures LayerOf(stack', m) < |stack'|
    {
      if e == Resume(m) {
        assert stack'[|stack|].0 == m;
      } else {
        var k := LayerOf(stack, m);
        if e.Fail? && s.client.mutations[e.m].optimistic && LayerOf(stack, e.m) < |stack| {
          var j := LayerOf(stack, e.m);
          assert if k < j then stack'[k].0 == m else stack'[k - 1].0 == m;
        } else {
          assert stack'[k].0 == m;
        }
      }
    }
  }

  lemma StandingIsRelaid(s: State, l: Layout, e: Event)
    requires Layered(s, l) && Enabled(s, e) && e != Arrive && e != Evict && LastInFirstOut(s, l.stack, e)
    ensures Relaid(s, l, e) == l.(stack := Standing(s, l.stack, e))
  {
    hide WellPhased, List;
    if e.Fail? && s.client.mutations[e.m].optimistic {
      TopLayer(l.stack, e.m);
    }
  }

  /** In a nested run each failure removes its own draft and nothing else, at any depth. */
  lemma {:induction false} NestedRollbacksAreExact(s: State, l: Layout, es: seq<Event>, t: State)
    requires Layered(s, l) && Run(s, es, t) && Undisturbed(es) && Nested(s, l.stack, es, t)
    ensures ExactAlways(s, l.base, l.stack, es, t)
    ensures t.client.cache == List(Layout(l.base, StandingAfter(s, l.stack, es, t)))
    decreases |es|
  {
    hide Next, Enabled, Relaid, Standing, LastInFirstOut;
    assert s.client.cache == List(l) by { LayeredCache(s, l); }
    if es != [] {
      assert es[0] in es && forall e :: e in es[1..] ==> e in es;
      NextKeepsLayers(s, l, es[0]);
      StandingIsRelaid(s, l, es[0]);
      hide Layered, List;
      NestedRollbacksAreExact(Next(s, es[0]), Relaid(s, l, es[0]), es[1..], t);
    }
  }

  lemma LayeredCache(s: State, l: Layout)
    requires Layered(s, l)
    ensures s.client.cache == List(l)
  {
  }

  /**
   * While no list arrives over a cached one, the rollbacks of a run are all exact if and only if
   * they come in the reverse order of their snapshots.
   */
  lemma {:induction false} ExactIffNested(s: State, base: seq<Response>, stack: seq<(nat, Response)>,
                                          es: seq<Event>, t: State)
    requires Layered(s, Layout(Some(base), stack)) && AllLayered(s, stack) && Run(s, es, t) && Undisturbed(es)
    ensures ExactAlways(s, Some(base), stack, es, t) <==> Nested(s, stack, es, t)
    decreases |es|
  {
    hide Relaid, Standing, AllLayered, Layered, List, LayerOf, Without;
    var l := Layout(Some(base), stack);
    LayeredCache(s, l);
    if es != [] {
      var e := es[0];
      assert e in es && forall f :: f in es[1..] ==> f in es;
      if LastInFirstOut(s, stack, e) {
        NextKeepsLayers(s, l, e);
        StandingIsRelaid(s, l, e);
        LayeredIsWellPhased(s, l);
        NextKeepsAllLayered(s, stack, e);
        ExactIffNested(Next(s, e), base, Standing(s, stack, e), es[1..], t);
      } else {
        NotOnTop(s, l, e);
      }
    }
  }

  lemma LayeredIsWellPhased(s: State, l: Layout)
    requires Layered(s, l)
    ensures WellPhased(s)
  {
  }

  lemma NotOnTop(s: State, l: Layout, e: Event)
    requires Layered(s, l) && AllLayered(s, l.stack) && l.base.Some? && Enabled(s, e) && !LastInFirstOut(s, l.stack, e)
    ensures Next(s, e).client.cache != List(Layout(l.base, Standing(s, l.stack, e)))
  {
    RollbackOnLayers(s, l, e.m);
  }

  /** When every mutation begun in a nested run was rolled back, the list is the one before them all. */
  lemma {:induction false} NestedFailuresRestore(s: State, es: seq<Event>, t: State)
    requires WellPhased(s) && Run(s, es, t) && Undisturbed(es)
    requires Nested(s, [], es, t) && StandingAfter(s, [], es, t) == []
    ensures t.client.cache == s.client.cache
  {
    NoDrafts(s.client.cache);
    NestedRollbacksAreExact(s, Layout(s.client.cache, []), es, t);
  }

  // ---------- at concrete lists ----------

  /**
   * A run that a new client can make, in which the older of two mutations fails first: its
   * rollback takes the draft of the other one, still in flight, out of the list as well.
   */
  lemma OlderFailureDropsLaterDraft(first: Response, older: Response, later: Response)
    returns (s: State, es: seq<Event>, t: State)
    ensures Initial(s) && Run(s, es, t)
    ensures InPhase(t.client, 1, Sent) && t.client.mutations[1].draft == later && t.client.cache == Some([first])
  {
    hide Run, Traced;
    var u: State;
    s, u := LoadedClient([first]);
    var u1 := Next(Next(Next(u, Begin(0, true, older)), Resume(0)), Begin(1, true, later));
    var u2 := Next(u1, Resume(1));
    t := Next(u2, Fail(0));
    RunThree(u, Begin(0, true, older), Resume(0), Begin(1, true, later));
    RunOne(u2, Fail(0));
    RunCons(u1, Resume(1), [Fail(0)], t);
    var fs, gs := [Begin(0, true, older), Resume(0), Begin(1, true, later)], [Resume(1)] + [Fail(0)];
    RunConcat(u, fs, u1, gs, t);
    es := [StartFetch, ServerReads, Arrive] + (fs + gs);
    RunConcat(s, [StartFetch, ServerReads, Arrive], u, fs + gs, t);
  }

  /**
   * A run that a new client can make, with one mutation only: a refetched list arrives between its
   * snapshot and its failure, and the rollback throws that list away.
   */
  lemma FailureDropsArrivedList(first: Response, other: Response, draft: Response)
    returns (s: State, es: seq<Event>, t: State)
    ensures Initial(s) && Run(s, es, t) && t.client.mutations.Keys == {0} && InPhase(t.client, 0, Sent)
    ensures t.client.cache == Some([first, other]) && Next(t, Fail(0)).client.cache == Some([first])
  {
    hide Run, Traced;
    var u: State;
    s, u := LoadedClient([first]);
    var begin, write := Begin(0, true, draft), OtherWrite([first, other]);
    var u1 := Next(Next(Next(u, begin), Resume(0)), write);
    t := Next(Next(Next(u1, StartFetch), ServerReads), Arrive);
    RunThree(u, begin, Resume(0), write);
    RunThree(u1, StartFetch, ServerReads, Arrive);
    RunConcat(u, [begin, Resume(0), write], u1, [StartFetch, ServerReads, Arrive], t);
    var fs := [begin, Resume(0), write] + [StartFetch, ServerReads, Arrive];
    es := [StartFetch, ServerReads, Arrive] + fs;
    RunConcat(s, [StartFetch, ServerReads, Arrive], u, fs, t);
  }
}

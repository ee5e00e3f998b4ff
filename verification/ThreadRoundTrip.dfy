/** How the thread forest reacts to being flattened again and to one appended response. */
module ThreadRoundTrip {
  import opened Optional
  import opened Responses
  import opened ThreadForest

  // ---------- build, flatten, build ----------

  /** Every reply in `f` names the node above it, and the top nodes all hang in `slot`. */
  ghost predicate Linked(f: seq<Tree>, ids: set<Id>, slot: Option<Id>)
    decreases f
  {
    f == [] ||
    (&& Slot(f[0].response, ids) == slot
     && Linked(f[0].replies, ids, Some(f[0].response.id))
     && Linked(f[1..], ids, slot))
  }

  /** A forest that some flat list could have produced: linked, and without repeated ids. */
  ghost predicate Consistent(f: seq<Tree>) {
    UniqueIds(Flatten(f)) && Linked(f, Ids(Flatten(f)), None)
  }

  lemma {:induction false} UnderThree(r: Response, inner: seq<Response>, later: seq<Response>, ids: set<Id>,
                                      q: Option<Id>)
    ensures Under([r] + inner + later, ids, q)
            == (if Slot(r, ids) == q then [r] else []) + Under(inner, ids, q) + Under(later, ids, q)
  {
    UnderConcat([r] + inner, later, ids, q);
    UnderConcat([r], inner, ids, q);
    assert [r][..0] == [];
  }

  /** In a preorder listing, only the top nodes hang in the outer slot, and none elsewhere outside. */
  lemma {:induction false} UnderFlatten(f: seq<Tree>, ids: set<Id>, slot: Option<Id>, q: Option<Id>)
    requires UniqueIds(Flatten(f)) && Linked(f, ids, slot)
    requires q.Some? ==> q.value !in Ids(Flatten(f))
    ensures Under(Flatten(f), ids, q) == if q == slot then Tops(f) else []
    decreases f
  {
    hide UniqueIds, Ids, Slot;
    if f != [] {
      var r, inner, later := f[0].response, Flatten(f[0].replies), Flatten(f[1..]);
      FlattenParts(f);
      assert q.Some? ==> q != Some(r.id) && q.value !in Ids(inner) && q.value !in Ids(later);
      assert Under(inner, ids, q) == [] by { UnderFlatten(f[0].replies, ids, Some(r.id), q); }
      UnderFlatten(f[1..], ids, slot, q);
      UnderThree(r, inner, later, ids, q);
    }
  }

  /** The three parts of a preorder listing have distinct ids, within and across. */
  lemma {:induction false} FlattenParts(f: seq<Tree>)
    requires f != [] && UniqueIds(Flatten(f))
    ensures UniqueIds(Flatten(f[0].replies)) && UniqueIds(Flatten(f[1..]))
    ensures Ids(Flatten(f)) == {f[0].response.id} + Ids(Flatten(f[0].replies)) + Ids(Flatten(f[1..]))
    ensures f[0].response.id !in Ids(Flatten(f[0].replies)) + Ids(Flatten(f[1..]))
    ensures Ids(Flatten(f[0].replies)) !! Ids(Flatten(f[1..]))
  {
    hide UniqueIds;
    var r, inner, later := f[0].response, Flatten(f[0].replies), Flatten(f[1..]);
    UniqueParts([r] + inner, later);
    UniqueParts([r], inner);
    assert Ids([r]) == {r.id};
  }

  lemma UniqueParts(a: seq<Response>, b: seq<Response>)
    requires UniqueIds(a + b)
    ensures UniqueIds(a) && UniqueIds(b) && Ids(a + b) == Ids(a) + Ids(b) && Ids(a) !! Ids(b)
  {
    var ab := a + b;
    assert forall i :: 0 <= i < |a| ==> ab[i] == a[i];
    assert forall i :: 0 <= i < |b| ==> ab[|a| + i] == b[i];
    forall i, j | 0 <= i < |a| && 0 <= j < |b| ensures a[i].id != b[j].id {
      assert ab[i].id != ab[|a| + j].id;
    }
    forall i, j | 0 <= i < j < |b| ensures b[i].id != b[j].id {
      assert ab[|a| + i].id != ab[|a| + j].id;
    }
  }

  /** Nobody in `a` names a response of the forest `g` as its parent. */
  ghost predicate NoReplies(a: seq<Response>, g: seq<Tree>, ids: set<Id>) {
    forall x :: x in Ids(Flatten(g)) ==> Under(a, ids, Some(x)) == []
  }

  lemma {:induction false} NoRepliesConcat(a: seq<Response>, b: seq<Response>, g: seq<Tree>, ids: set<Id>)
    requires NoReplies(a, g, ids) && NoReplies(b, g, ids)
    ensures NoReplies(a + b, g, ids)
  {
    forall x | x in Ids(Flatten(g)) ensures Under(a + b, ids, Some(x)) == [] {
      UnderConcat(a, b, ids, Some(x));
    }
  }

  lemma NoRepliesInParts(a: seq<Response>, g: seq<Tree>, ids: set<Id>)
    requires g != [] && NoReplies(a, g, ids)
    ensures NoReplies(a, g[0].replies, ids) && NoReplies(a, g[1..], ids)
  {
    assert forall r :: r in Flatten(g[0].replies) || r in Flatten(g[1..]) ==> r in Flatten(g);
  }

  lemma NoRepliesFrom(r: Response, g: seq<Tree>, ids: set<Id>)
    requires Slot(r, ids).Some? ==> Slot(r, ids).value !in Ids(Flatten(g))
    ensures NoReplies([r], g, ids)
  {
    assert [r][..0] == [];
  }

  /** A forest of other responses, hanging in a slot outside `g`, does not reply to `g`. */
  lemma {:induction false} NoRepliesAcross(f: seq<Tree>, g: seq<Tree>, ids: set<Id>, slot: Option<Id>)
    requires UniqueIds(Flatten(f)) && Linked(f, ids, slot)
    requires Ids(Flatten(f)) !! Ids(Flatten(g)) && (slot.Some? ==> slot.value !in Ids(Flatten(g)))
    ensures NoReplies(Flatten(f), g, ids)
  {
    forall x | x in Ids(Flatten(g)) ensures Under(Flatten(f), ids, Some(x)) == [] {
      UnderFlatten(f, ids, slot, Some(x));
    }
  }

  /** The replies of the first node of `g` inside the listing a + Flatten(g) + b. */
  lemma {:induction false} FirstNodeReplies(a: seq<Response>, g: seq<Tree>, b: seq<Response>, ids: set<Id>,
                                            slot: Option<Id>)
    requires g != [] && UniqueIds(Flatten(g)) && Linked(g, ids, slot)
    requires slot.Some? ==> slot.value !in Ids(Flatten(g))
    requires NoReplies(a, g, ids) && NoReplies(b, g, ids)
    ensures Under(a + Flatten(g) + b, ids, Some(g[0].response.id)) == Tops(g[0].replies)
  {
    var r, inner, later := g[0].response, Flatten(g[0].replies), Flatten(g[1..]);
    var q := Some(r.id);
    FlattenParts(g);
    UnderConcat(a + Flatten(g), b, ids, q);
    UnderConcat(a, Flatten(g), ids, q);
    UnderThree(r, inner, later, ids, q);
    UnderFlatten(g[0].replies, ids, q, q);
    UnderFlatten(g[1..], ids, slot, q);
  }

  lemma Regroup<T>(a: seq<T>, r: seq<T>, inner: seq<T>, later: seq<T>, b: seq<T>)
    ensures a + (r + inner + later) + b == (a + r) + inner + (later + b)
    ensures a + (r + inner + later) + b == (a + r + inner) + later + b
  {
  }

  /**
   * The heart of the round trip: inside the listing a + Flatten(g) + b, where a and b hold
   * nobody's replies from g, the specification rebuilds g from its own top nodes.
   */
  lemma {:induction false} RebuildPart(ws: seq<Response>, a: seq<Response>, g: seq<Tree>, b: seq<Response>,
                                       slot: Option<Id>)
    requires ws == a + Flatten(g) + b
    requires UniqueIds(Flatten(g)) && Linked(g, Ids(ws), slot)
    requires slot.Some? ==> slot.value !in Ids(Flatten(g))
    requires NoReplies(a, g, Ids(ws)) && NoReplies(b, g, Ids(ws))
    ensures IsForest(ws, Tops(g), g)
    decreases g
  {
    hide NoReplies, UniqueIds, Under, Slot;
    if g != [] {
      var r, ids, gi, gl := g[0].response, Ids(ws), g[0].replies, g[1..];
      var inner, later := Flatten(gi), Flatten(gl);
      FlattenParts(g);
      assert Children(ws, r.id) == Tops(gi) by { FirstNodeReplies(a, g, b, ids, slot); }
      NoRepliesInParts(a, g, ids);
      NoRepliesInParts(b, g, ids);
      NoRepliesFrom(r, gi, ids);
      NoRepliesFrom(r, gl, ids);
      Regroup(a, [r], inner, later, b);
      NoRepliesAcross(gl, gi, ids, slot);
      NoRepliesConcat(a, [r], gi, ids);
      NoRepliesConcat(later, b, gi, ids);
      RebuildPart(ws, a + [r], gi, later + b, Some(r.id));

      NoRepliesAcross(gi, gl, ids, Some(r.id));
      NoRepliesConcat(a, [r], gl, ids);
      NoRepliesConcat(a + [r], inner, gl, ids);
      RebuildPart(ws, a + [r] + inner, gl, b, slot);
      assert Tops(g)[1..] == Tops(gl);
    }
  }

  /** Threading undoes flattening, on every forest that a flat list could have produced. */
  lemma {:induction false} BuildUndoesFlatten(f: seq<Tree>)
    requires Consistent(f)
    ensures Forest(Flatten(f)) == f
  {
    var ws := Flatten(f);
    assert ws == [] + ws + [];
    UnderFlatten(f, Ids(ws), None, None);
    RebuildPart(ws, [], f, [], None);
    ForestSolvesSpec(ws, f);
  }

  lemma {:induction false} ForestLinked(rs: seq<Response>, cs: seq<Response>, f: seq<Tree>, ids: set<Id>,
                                        slot: Option<Id>)
    requires IsForest(rs, cs, f)
    requires forall c :: c in cs ==> Slot(c, Ids(rs)) == slot
    requires ids <= Ids(rs) && Ids(Flatten(f)) <= ids && (slot.Some? ==> slot.value in ids)
    ensures Linked(f, ids, slot)
    decreases f
  {
    if f != [] {
      var x := cs[0].id;
      assert x in Ids(Flatten(f)) by { assert cs[0] in Flatten(f); }
      assert Ids(Flatten(f[0].replies)) <= ids && Ids(Flatten(f[1..])) <= ids by {
        assert forall r :: r in Flatten(f[0].replies) || r in Flatten(f[1..]) ==> r in Flatten(f);
      }
      assert Slot(cs[0], Ids(rs)) == slot;
      assert Slot(cs[0], ids) == slot by { assert forall y :: y in ids ==> y in Ids(rs); }
      assert forall c :: c in cs[1..] ==> c in cs;
      UnderMembers(rs, Ids(rs), Some(x));
      ForestLinked(rs, Children(rs, x), f[0].replies, ids, Some(x));
      ForestLinked(rs, cs[1..], f[1..], ids, slot);
    }
  }

  lemma {:induction false} ForestConsistent(rs: seq<Response>)
    requires UniqueIds(rs)
    ensures Consistent(Forest(rs))
  {
    var f := Forest(rs);
    ForestContents(rs);
    ForestSolvesSpec(rs, f);
    UnderMembers(rs, Ids(rs), None);
    ForestLinked(rs, Roots(rs), f, Ids(Flatten(f)), None);
  }

  /** Build, flatten, build is build; parent cycles in the input make no difference. */
  lemma {:induction false} BuildFlattenBuild(rs: seq<Response>)
    requires UniqueIds(rs)
    ensures Forest(Flatten(Forest(rs))) == Forest(rs)
  {
    ForestConsistent(rs);
    BuildUndoesFlatten(Forest(rs));
  }

  // ---------- appending one fresh response ----------

  /** `f` with `t` added as the last reply of every node whose id is `x`. */
  function AddLastReply(f: seq<Tree>, x: Id, t: Tree): seq<Tree> {
    if f == [] then []
    else
      var inner := AddLastReply(f[0].replies, x, t);
      [Node(f[0].response, inner + if f[0].response.id == x then [t] else [])] + AddLastReply(f[1..], x, t)
  }

  /** A new id that no response of the list names as its parent. */
  ghost predicate Fresh(rs: seq<Response>, r: Response) {
    && r.id !in Ids(rs)
    && forall q :: q in rs && NamesParent(q) ==> q.parent.value != r.id
  }

  lemma {:induction false} UnderAppend(rs: seq<Response>, r: Response, slot: Option<Id>)
    requires Fresh(rs, r)
    ensures Ids(rs + [r]) == Ids(rs) + {r.id}
    ensures Under(rs + [r], Ids(rs + [r]), slot)
            == if Slot(r, Ids(rs + [r])) == slot then Under(rs, Ids(rs), slot) + [r] else Under(rs, Ids(rs), slot)
  {
    assert (rs + [r])[..|rs|] == rs;
    assert Ids(rs + [r]) == Ids(rs) + {r.id};
    UnderSameSlots(rs, Ids(rs), Ids(rs + [r]), slot);
  }

  lemma {:induction false} ForestConcat(rs: seq<Response>, a: seq<Response>, f: seq<Tree>, b: seq<Response>,
                                        g: seq<Tree>)
    requires IsForest(rs, a, f) && IsForest(rs, b, g)
    ensures IsForest(rs, a + b, f + g)
    decreases f
  {
    if f == [] {
      assert a + b == b && f + g == g;
    } else {
      ForestConcat(rs, a[1..], f[1..], b, g);
      assert (a + b)[1..] == a[1..] + b && (f + g)[1..] == f[1..] + g;
    }
  }

  lemma {:induction false} ForestCons(rs: seq<Response>, cs: seq<Response>, t: Tree, f: seq<Tree>)
    requires cs != [] && t.response == cs[0]
    requires IsForest(rs, Children(rs, cs[0].id), t.replies) && IsForest(rs, cs[1..], f)
    ensures IsForest(rs, cs, [t] + f)
  {
    assert ([t] + f)[1..] == f;
  }

  lemma {:induction false} NewLeaf(rs: seq<Response>, r: Response)
    requires Fresh(rs, r) && Slot(r, Ids(rs + [r])) != Some(r.id)
    ensures IsForest(rs + [r], [r], [Node(r, [])])
  {
    UnderAppend(rs, r, Some(r.id));
    UnderNone(rs, Ids(rs), Some(r.id));
    assert [r][1..] == [] && [Node(r, [])][1..] == [];
  }

  lemma {:induction false} AppendBelow(rs: seq<Response>, r: Response, cs: seq<Response>, f: seq<Tree>, x: Id)
    requires Fresh(rs, r) && IsForest(rs, cs, f)
    requires forall c :: c in cs ==> c in rs
    requires Slot(r, Ids(rs + [r])) == Some(x)
    ensures IsForest(rs + [r], cs, AddLastReply(f, x, Node(r, [])))
    decreases f
  {
    hide Under, Slot;
    if f != [] {
      var t, y := Node(r, []), cs[0].id;
      assert cs[0] in rs;
      UnderMembers(rs, Ids(rs), Some(y));
      var inner, later := AddLastReply(f[0].replies, x, t), AddLastReply(f[1..], x, t);
      AppendBelow(rs, r, Children(rs, y), f[0].replies, x);
      AppendBelow(rs, r, cs[1..], f[1..], x);
      var inner' := inner + if y == x then [t] else [];
      assert IsForest(rs + [r], Children(rs + [r], y), inner') by {
        UnderAppend(rs, r, Some(y));
        if y == x {
          NewLeaf(rs, r);
          ForestConcat(rs + [r], Children(rs, y), inner, [r], [t]);
        } else {
          assert inner' == inner;
        }
      }
      ForestCons(rs + [r], cs, Node(cs[0], inner'), later);
    }
  }

  lemma AppendKeepsUnique(rs: seq<Response>, r: Response)
    requires UniqueIds(rs) && r.id !in Ids(rs)
    ensures UniqueIds(rs + [r])
  {
    forall i | 0 <= i < |rs| ensures rs[i].id != r.id {
      assert rs[i] in rs;
    }
  }

  lemma {:induction false} AppendElsewhere(rs: seq<Response>, r: Response, cs: seq<Response>, f: seq<Tree>)
    requires Fresh(rs, r) && IsForest(rs, cs, f)
    requires Slot(r, Ids(rs + [r])) == None
    ensures IsForest(rs + [r], cs, f)
    decreases f
  {
    if f != [] {
      UnderAppend(rs, r, Some(cs[0].id));
      AppendElsewhere(rs, r, Children(rs, cs[0].id), f[0].replies);
      AppendElsewhere(rs, r, cs[1..], f[1..]);
    }
  }

  /**
   * Appending a fresh response to the flat list moves nothing in the forest: the new response
   * becomes the last reply of its parent, if that is in the forest, or the last tree when it
   * has no parent in the list.
   */
  lemma {:induction false} AppendAddsOneNode(rs: seq<Response>, r: Response)
    requires UniqueIds(rs) && Fresh(rs, r)
    ensures Forest(rs + [r]) ==
            match Slot(r, Ids(rs + [r]))
            case None => Forest(rs) + [Node(r, [])]
            case Some(x) => AddLastReply(Forest(rs), x, Node(r, []))
  {
    hide Grow, Under, Flatten, AddLastReply, UniqueIds, Forest;
    var f, rs' := Forest(rs), rs + [r];
    AppendKeepsUnique(rs, r);
    ForestSolvesSpec(rs, f);
    UnderAppend(rs, r, None);
    UnderMembers(rs, Ids(rs), None);
    match Slot(r, Ids(rs')) {
      case None =>
        AppendElsewhere(rs, r, Roots(rs), f);
        NewLeaf(rs, r);
        ForestConcat(rs', Roots(rs), f, [r], [Node(r, [])]);
        ForestSolvesSpec(rs', f + [Node(r, [])]);
      case Some(x) =>
        AppendBelow(rs, r, Roots(rs), f, x);
        ForestSolvesSpec(rs', AddLastReply(f, x, Node(r, [])));
    }
  }

  // ---------- when the appended response is shown at all ----------

  /** The response with id `x` has a parent chain that ends: the forest contains it. */
  ghost predicate InThread(rs: seq<Response>, x: Id) {
    exists p :: p in rs && p.id == x && Grounded(rs, p)
  }

  /** The response hangs at the top level, or below a response that is in the forest. */
  ghost predicate Shown(rs: seq<Response>, r: Response) {
    match Slot(r, Ids(rs + [r]))
    case None => true
    case Some(x) => InThread(rs, x)
  }

  lemma {:induction false} AddLastReplyNowhere(f: seq<Tree>, x: Id, t: Tree)
    requires x !in Ids(Flatten(f))
    ensures AddLastReply(f, x, t) == f
    decreases f
  {
    if f != [] {
      var r, inner, later := f[0].response, f[0].replies, f[1..];
      assert r in Flatten(f);
      assert forall q :: q in Flatten(inner) || q in Flatten(later) ==> q in Flatten(f);
      AddLastReplyNowhere(inner, x, t);
      AddLastReplyNowhere(later, x, t);
      assert inner + [] == inner && f[0] == Node(r, inner) && f == [f[0]] + later;
    }
  }

  lemma {:induction false} FlattenConcat(f: seq<Tree>, g: seq<Tree>)
    ensures Flatten(f + g) == Flatten(f) + Flatten(g)
    decreases f
  {
    if f == [] {
      assert f + g == g;
    } else {
      FlattenConcat(f[1..], g);
      assert (f + g)[1..] == f[1..] + g && (f + g)[0] == f[0];
      JoinAfterThree([f[0].response], Flatten(f[0].replies), Flatten(f[1..]), Flatten(g));
    }
  }

  lemma JoinAfterThree<T>(a: seq<T>, b: seq<T>, c: seq<T>, d: seq<T>)
    ensures a + b + (c + d) == (a + b + c) + d
  {
  }

  lemma FlattenLeaf(r: Response)
    ensures Flatten([Node(r, [])]) == [r]
  {
    assert [Node(r, [])][1..] == [];
  }

  /** Below a node of the forest exactly one leaf is added. */
  lemma {:induction false} AddLastReplyOnce(f: seq<Tree>, x: Id, r: Response)
    requires UniqueIds(Flatten(f)) && x in Ids(Flatten(f))
    ensures multiset(Flatten(AddLastReply(f, x, Node(r, [])))) == multiset(Flatten(f)) + multiset{r}
    decreases f
  {
    hide UniqueIds, Ids, AddLastReply, Flatten;
    NotEmpty(f, x);
    var t, y, inner, later := Node(r, []), f[0].response.id, f[0].replies, f[1..];
    FlattenParts(f);
    FlattenAdded(f, x, r);
    if y == x {
      AddLastReplyNowhere(inner, x, t);
      AddLastReplyNowhere(later, x, t);
      OneMore([f[0].response], Flatten(inner), [r], Flatten(later), r);
    } else if x in Ids(Flatten(inner)) {
      AddLastReplyOnce(inner, x, r);
      AddLastReplyNowhere(later, x, t);
    } else {
      AddLastReplyNowhere(inner, x, t);
      AddLastReplyOnce(later, x, r);
    }
  }

  lemma NotEmpty(f: seq<Tree>, x: Id)
    requires x in Ids(Flatten(f))
    ensures f != [] && Flatten(f) == [f[0].response] + Flatten(f[0].replies) + Flatten(f[1..])
  {
  }

  lemma OneMore<T>(a: seq<T>, b: seq<T>, c: seq<T>, d: seq<T>, x: T)
    requires c == [x]
    ensures multiset(a + (b + c) + d) == multiset(a + b + d) + multiset{x}
  {
  }

  /** The three parts of the listing after adding a leaf. */
  lemma FlattenAdded(f: seq<Tree>, x: Id, r: Response)
    requires f != []
    ensures var t := Node(r, []);
            Flatten(AddLastReply(f, x, t))
            == [f[0].response]
               + (Flatten(AddLastReply(f[0].replies, x, t)) + if f[0].response.id == x then [r] else [])
               + Flatten(AddLastReply(f[1..], x, t))
  {
    var t := Node(r, []);
    var inner, later := AddLastReply(f[0].replies, x, t), AddLastReply(f[1..], x, t);
    FlattenLeaf(r);
    FlattenConcat(inner, [t]);
    assert inner + [] == inner && Flatten(inner) + [] == Flatten(inner);
    var g := AddLastReply(f, x, t);
    assert g[1..] == later;
  }

  lemma {:induction false} InForestIffGrounded(rs: seq<Response>, x: Id)
    requires UniqueIds(rs)
    ensures x in Ids(Flatten(Forest(rs))) <==> InThread(rs, x)
  {
    ForestContents(rs);
  }

  /**
   * Appending a fresh response shows one more node exactly when the response has no parent in
   * the list or its parent's own chain ends. Below a cycle the forest does not change at all.
   */
  lemma {:induction false} AppendIsShownIff(rs: seq<Response>, r: Response)
    requires UniqueIds(rs) && Fresh(rs, r)
    ensures multiset(Flatten(Forest(rs + [r]))) == multiset(Flatten(Forest(rs))) + multiset{r} <==> Shown(rs, r)
    ensures r in Flatten(Forest(rs + [r])) <==> Shown(rs, r)
    ensures !Shown(rs, r) ==> Forest(rs + [r]) == Forest(rs)
  {
    hide Forest, Grounded, UniqueIds, Ids;
    var f := Forest(rs);
    AppendAddsOneNode(rs, r);
    ForestContents(rs);
    NewIsAbsent(rs, r);
    match Slot(r, Ids(rs + [r])) {
      case None =>
        FlattenLeaf(r);
        FlattenConcat(f, [Node(r, [])]);
      case Some(x) =>
        InForestIffGrounded(rs, x);
        if x in Ids(Flatten(f)) {
          AddLastReplyOnce(f, x, r);
          assert r in multiset(Flatten(Forest(rs + [r])));
        } else {
          AddLastReplyNowhere(f, x, Node(r, []));
          assert multiset(Flatten(f))[r] == 0;
        }
    }
  }

  lemma NewIsAbsent(rs: seq<Response>, r: Response)
    requires UniqueIds(rs) && r.id !in Ids(rs)
    ensures r !in Flatten(Forest(rs))
  {
    ForestContents(rs);
  }

  /** Such a reply: its parent names itself, and neither of the two is in the forest. */
  lemma HiddenReply() returns (a: Response, r: Response)
    ensures UniqueIds([a]) && Fresh([a], r) && Slot(r, Ids([a, r])) == Some(a.id) && !Shown([a], r)
    ensures Forest([a, r]) == Forest([a]) == []
  {
    a, r := Response("a", Some("a"), ""), Response("b", Some("a"), "");
    var rs := [a];
    assert rs + [r] == [a, r] && a in rs && Ids(rs) == {"a"} && Ids([a, r]) == {"a", "b"} by {
      assert a in [a, r] && r in [a, r];
    }
    assert rs[..0] == [] && Under([], Ids(rs), None) == [];
    assert Roots(rs) == [] && Forest(rs) == [];
    if InThread(rs, "a") {
      InForestIffGrounded(rs, "a");
      assert false;
    }
    AppendIsShownIff(rs, r);
  }
}

/**
 * The two-pass thread builder on the heap: shared node objects reached through a map, and
 * reply lists that grow in place while other lists already point at their owners.
 */
module ThreadTree {
  import opened Optional
  import opened Responses
  import opened ThreadForest

  class ResponseDetail {
    const id: Id
    const parentResponseId: Option<Id>
    const body: string
    var replies: Option<seq<ResponseDetail>>

    /** A copy of `source` with an empty list of replies, whatever `source` had. */
    constructor (source: ResponseDetail)
      ensures Value() == source.Value() && replies == Some([])
    {
      id := source.id;
      parentResponseId := source.parentResponseId;
      body := source.body;
      replies := Some([]);
    }

    /** Everything but the replies. */
    function Value(): Response {
      Response(id, parentResponseId, body)
    }
  }

  ghost function Values(s: seq<ResponseDetail>): (rs: seq<Response>)
    ensures |rs| == |s| && forall i :: 0 <= i < |s| ==> rs[i] == s[i].Value()
  {
    seq(|s|, i requires 0 <= i < |s| => s[i].Value())
  }

  ghost predicate Covers(nodes: map<Id, ResponseDetail>, s: seq<Response>) {
    forall r :: r in s ==> r.id in nodes
  }

  /** The node objects that stand for the responses `s`. */
  ghost function NodesOf(nodes: map<Id, ResponseDetail>, s: seq<Response>): seq<ResponseDetail>
    requires Covers(nodes, s)
  {
    seq(|s|, i requires 0 <= i < |s| => nodes[s[i].id])
  }

  /** The map of the first pass: one distinct object per id, carrying the last response with it. */
  ghost predicate MapsIds(nodes: map<Id, ResponseDetail>, rs: seq<Response>) {
    && nodes.Keys == Ids(rs)
    && (forall x, y :: x in nodes && y in nodes && x != y ==> nodes[x] != nodes[y])
    && (forall x :: x in nodes ==> CarriesLast(nodes[x].Value(), rs, x))
  }

  ghost predicate CarriesLast(r: Response, rs: seq<Response>, x: Id) {
    exists i :: 0 <= i < |rs| && rs[i] == r && r.id == x && forall j :: i < j < |rs| ==> rs[j].id != x
  }

  /** Each reply list holds the nodes of the responses of `placed` hanging there, in order. */
  ghost predicate RepliesHold(nodes: map<Id, ResponseDetail>, placed: seq<Response>, ids: set<Id>)
    requires Covers(nodes, placed)
    reads nodes.Values
  {
    forall x :: x in nodes ==> HoldsReplies(nodes, nodes[x].replies, x, placed, ids)
  }

  ghost predicate HoldsReplies(nodes: map<Id, ResponseDetail>, replies: Option<seq<ResponseDetail>>, x: Id,
                               placed: seq<Response>, ids: set<Id>)
    requires Covers(nodes, placed)
  {
    UnderCovered(nodes, placed, ids, Some(x));
    replies == Some(NodesOf(nodes, Under(placed, ids, Some(x))))
  }

  lemma UnderCovered(nodes: map<Id, ResponseDetail>, s: seq<Response>, ids: set<Id>, slot: Option<Id>)
    requires Covers(nodes, s)
    ensures Covers(nodes, Under(s, ids, slot))
  {
    UnderMembers(s, ids, slot);
  }

  /** What placing the next response does to the list of one slot. */
  lemma {:induction false} PlaceNext(nodes: map<Id, ResponseDetail>, rs: seq<Response>, i: nat, ids: set<Id>,
                                     slot: Option<Id>)
    requires i < |rs| && Covers(nodes, rs)
    ensures Covers(nodes, rs[..i]) && Covers(nodes, rs[..i + 1])
    ensures Covers(nodes, Under(rs[..i], ids, slot)) && Covers(nodes, Under(rs[..i + 1], ids, slot))
    ensures NodesOf(nodes, Under(rs[..i + 1], ids, slot))
            == var before := NodesOf(nodes, Under(rs[..i], ids, slot));
               if Slot(rs[i], ids) == slot then before + [nodes[rs[i].id]] else before
  {
    UnderCovered(nodes, rs[..i], ids, slot);
    UnderCovered(nodes, rs[..i + 1], ids, slot);
    assert rs[..i + 1][..i] == rs[..i];
  }

  lemma {:induction false} PlaceReply(nodes: map<Id, ResponseDetail>, replies: Option<seq<ResponseDetail>>, x: Id,
                                      rs: seq<Response>, i: nat, ids: set<Id>)
    requires i < |rs| && Covers(nodes, rs)
    requires HoldsReplies(nodes, replies, x, rs[..i], ids)
    ensures HoldsReplies(nodes,
                         if Slot(rs[i], ids) == Some(x) then Some(replies.value + [nodes[rs[i].id]]) else replies,
                         x, rs[..i + 1], ids)
  {
    PlaceNext(nodes, rs, i, ids, Some(x));
  }

  /** The objects `ns` unfold to the forest `f` through their reply lists, all within `heap`. */
  ghost predicate Unfolds(heap: set<ResponseDetail>, ns: seq<ResponseDetail>, f: seq<Tree>)
    reads heap
    decreases f
  {
    if f == [] then ns == []
    else
      && ns != []
      && ns[0] in heap
      && ns[0].Value() == f[0].response
      && ns[0].replies.Some?
      && Unfolds(heap, ns[0].replies.value, f[0].replies)
      && Unfolds(heap, ns[1..], f[1..])
  }

  /** The node of `c` carries `c`, and its replies are the nodes of the children of `c`. */
  ghost predicate NodeOf(nodes: map<Id, ResponseDetail>, rs: seq<Response>, c: Response)
    reads nodes.Values
  {
    && c.id in nodes
    && nodes[c.id].Value() == c
    && Covers(nodes, Children(rs, c.id))
    && nodes[c.id].replies == Some(NodesOf(nodes, Children(rs, c.id)))
  }

  lemma GraphNodes(nodes: map<Id, ResponseDetail>, rs: seq<Response>)
    requires UniqueIds(rs) && MapsIds(nodes, rs) && Covers(nodes, rs) && RepliesHold(nodes, rs, Ids(rs))
    ensures forall c :: c in rs ==> NodeOf(nodes, rs, c)
  {
    forall c | c in rs ensures NodeOf(nodes, rs, c) {
      SameId(rs, nodes[c.id].Value(), c);
      assert HoldsReplies(nodes, nodes[c.id].replies, c.id, rs, Ids(rs));
      UnderCovered(nodes, rs, Ids(rs), Some(c.id));
    }
  }

  lemma {:induction false} GraphUnfolds(nodes: map<Id, ResponseDetail>, rs: seq<Response>, cs: seq<Response>,
                                        f: seq<Tree>)
    requires forall c :: c in rs ==> NodeOf(nodes, rs, c)
    requires forall c :: c in cs ==> c in rs
    requires Covers(nodes, cs) && IsForest(rs, cs, f)
    ensures Unfolds(nodes.Values, NodesOf(nodes, cs), f)
    decreases f
  {
    if f != [] {
      var c := cs[0];
      assert NodeOf(nodes, rs, c) && nodes[c.id] in nodes.Values;
      assert forall r :: r in Children(rs, c.id) ==> r in rs by { UnderMembers(rs, Ids(rs), Some(c.id)); }
      GraphUnfolds(nodes, rs, Children(rs, c.id), f[0].replies);
      GraphUnfolds(nodes, rs, cs[1..], f[1..]);
      assert NodesOf(nodes, cs)[1..] == NodesOf(nodes, cs[1..]);
    }
  }

  /** The objects met when the trees below `ns` are walked in preorder. */
  ghost function Preorder(heap: set<ResponseDetail>, ns: seq<ResponseDetail>, f: seq<Tree>): seq<ResponseDetail>
    requires Unfolds(heap, ns, f)
    reads heap
    decreases f
  {
    if f == [] then []
    else [ns[0]] + Preorder(heap, ns[0].replies.value, f[0].replies) + Preorder(heap, ns[1..], f[1..])
  }

  lemma {:induction false} PreorderMeetsNodes(nodes: map<Id, ResponseDetail>, rs: seq<Response>, cs: seq<Response>,
                                              f: seq<Tree>)
    requires forall c :: c in rs ==> NodeOf(nodes, rs, c)
    requires forall c :: c in cs ==> c in rs
    requires Covers(nodes, cs) && IsForest(rs, cs, f) && Unfolds(nodes.Values, NodesOf(nodes, cs), f)
    ensures Covers(nodes, Flatten(f)) && Preorder(nodes.Values, NodesOf(nodes, cs), f) == NodesOf(nodes, Flatten(f))
    decreases f
  {
    hide NodeOf, NodesOf, Covers, UniqueIds;
    if f != [] {
      var c := cs[0];
      NodeReplies(nodes, rs, c);
      NodesOfTail(nodes, cs);
      PreorderMeetsNodes(nodes, rs, Children(rs, c.id), f[0].replies);
      PreorderMeetsNodes(nodes, rs, cs[1..], f[1..]);
      NodesOfThree(nodes, c, Flatten(f[0].replies), Flatten(f[1..]));
    } else {
      NodesOfNone(nodes);
    }
  }

  lemma NodeReplies(nodes: map<Id, ResponseDetail>, rs: seq<Response>, c: Response)
    requires NodeOf(nodes, rs, c)
    ensures c.id in nodes && Covers(nodes, Children(rs, c.id))
    ensures nodes[c.id].replies == Some(NodesOf(nodes, Children(rs, c.id)))
    ensures forall r :: r in Children(rs, c.id) ==> r in rs
  {
    UnderMembers(rs, Ids(rs), Some(c.id));
  }

  lemma NodesOfTail(nodes: map<Id, ResponseDetail>, cs: seq<Response>)
    requires Covers(nodes, cs) && cs != []
    ensures Covers(nodes, cs[1..]) && cs[0].id in nodes
    ensures NodesOf(nodes, cs) != [] && NodesOf(nodes, cs)[0] == nodes[cs[0].id]
    ensures NodesOf(nodes, cs)[1..] == NodesOf(nodes, cs[1..])
  {
  }

  lemma NodesOfThree(nodes: map<Id, ResponseDetail>, c: Response, inner: seq<Response>, later: seq<Response>)
    requires c.id in nodes && Covers(nodes, inner) && Covers(nodes, later)
    ensures Covers(nodes, [c] + inner + later)
    ensures NodesOf(nodes, [c] + inner + later) == [nodes[c.id]] + NodesOf(nodes, inner) + NodesOf(nodes, later)
  {
  }

  lemma NodesOfNone(nodes: map<Id, ResponseDetail>)
    ensures Covers(nodes, []) && NodesOf(nodes, []) == []
  {
  }

  /**
   * The built structure is a forest of unshared objects: walking it meets no object twice,
   * and meets the node of a response exactly when the response's parent chain ends.
   */
  lemma BuiltForestIsUnshared(nodes: map<Id, ResponseDetail>, rs: seq<Response>)
    requires UniqueIds(rs) && MapsIds(nodes, rs) && Covers(nodes, rs) && RepliesHold(nodes, rs, Ids(rs))
    requires Covers(nodes, Roots(rs))
    ensures Unfolds(nodes.Values, NodesOf(nodes, Roots(rs)), Forest(rs))
    ensures var met := Preorder(nodes.Values, NodesOf(nodes, Roots(rs)), Forest(rs));
            && (forall i, j :: 0 <= i < j < |met| ==> met[i] != met[j])
            && (forall r :: r in rs ==> (nodes[r.id] in met <==> Grounded(rs, r)))
  {
    hide Forest, Roots, RepliesHold, Flatten, IsForest, Unfolds, Grounded;
    RootsAmong(rs);
    ForestSolvesSpec(rs, Forest(rs));
    GraphNodes(nodes, rs);
    GraphUnfolds(nodes, rs, Roots(rs), Forest(rs));
    PreorderMeetsNodes(nodes, rs, Roots(rs), Forest(rs));
    ForestContents(rs);
    hide NodeOf;
    var flat, met := Flatten(Forest(rs)), NodesOf(nodes, Flatten(Forest(rs)));
    forall r | r in rs ensures nodes[r.id] in met <==> Grounded(rs, r) {
      NodeMet(nodes, rs, flat, r);
    }
  }

  lemma NodeMet(nodes: map<Id, ResponseDetail>, rs: seq<Response>, flat: seq<Response>, r: Response)
    requires UniqueIds(rs) && MapsIds(nodes, rs) && Covers(nodes, flat)
    requires r in rs && forall q :: q in flat ==> q in rs
    ensures r.id in nodes && (nodes[r.id] in NodesOf(nodes, flat) <==> r in flat)
  {
    var met := NodesOf(nodes, flat);
    assert r.id in nodes;
    if r in flat {
      var i :| 0 <= i < |flat| && flat[i] == r;
      assert met[i] == nodes[r.id];
    }
    if nodes[r.id] in met {
      var i :| 0 <= i < |met| && met[i] == nodes[r.id];
      SameId(rs, flat[i], r);
    }
  }

  lemma RootsAmong(rs: seq<Response>)
    ensures forall r :: r in Roots(rs) ==> r in rs
  {
    UnderMembers(rs, Ids(rs), None);
  }

  /** First pass: one fresh node for each id. */
  method MapResponses(responses: seq<ResponseDetail>) returns (responseMap: map<Id, ResponseDetail>)
    ensures forall x :: x in responseMap ==> fresh(responseMap[x])
    ensures MapsIds(responseMap, Values(responses))
    ensures forall x :: x in responseMap ==> responseMap[x].replies == Some([])
  {
    ghost var rs := Values(responses);
    responseMap := map[];
    for i := 0 to |responses|
      invariant forall x :: x in responseMap ==> fresh(responseMap[x])
      invariant MapsIds(responseMap, rs[..i])
      invariant forall x :: x in responseMap ==> responseMap[x].replies == Some([])
      invariant Values(responses) == rs
    {
      var response := responses[i];
      var node := new ResponseDetail(response);
      FirstPassStep(responseMap, node, rs, i);
      responseMap := responseMap[response.id := node];
    }
    assert rs[..|responses|] == rs;
  }

  /** `parent.replies.push(child)`, with an empty list supplied when there is none. */
  method PushReply(parent: ResponseDetail, child: ResponseDetail)
    modifies parent`replies
    ensures parent.replies == Some(old(parent.replies).GetOr([]) + [child])
  {
    parent.replies := Some(parent.replies.GetOr([]) + [child]);
  }

  /** Second pass: each node is pushed onto its parent's replies or onto the roots. */
  method LinkReplies(responses: seq<ResponseDetail>, responseMap: map<Id, ResponseDetail>)
    returns (rootResponses: seq<ResponseDetail>)
    requires MapsIds(responseMap, Values(responses)) && Covers(responseMap, Values(responses))
    requires forall x :: x in responseMap ==> responseMap[x].replies == Some([])
    modifies set x | x in responseMap :: responseMap[x]`replies
    ensures RepliesHold(responseMap, Values(responses), Ids(Values(responses)))
    ensures Covers(responseMap, Roots(Values(responses)))
    ensures rootResponses == NodesOf(responseMap, Roots(Values(responses)))
  {
    ghost var rs := Values(responses);
    ghost var ids := Ids(rs);
    rootResponses := [];
    for i := 0 to |responses|
      invariant RepliesHold(responseMap, rs[..i], ids)
      invariant Covers(responseMap, Under(rs[..i], ids, None))
      invariant rootResponses == NodesOf(responseMap, Under(rs[..i], ids, None))
    {
      var response := responses[i];
      var currentResponse := responseMap[response.id];
      PlaceNext(responseMap, rs, i, ids, None);
      label beforePush:
      if response.parentResponseId.None? || response.parentResponseId.value == "" {
        rootResponses := rootResponses + [currentResponse];
      } else if response.parentResponseId.value in responseMap {
        var parent := responseMap[response.parentResponseId.value];
        PushReply(parent, currentResponse);
      } else {
        rootResponses := rootResponses + [currentResponse];
      }
      forall x | x in responseMap
        ensures HoldsReplies(responseMap, responseMap[x].replies, x, rs[..i + 1], ids)
      {
        PlaceReply(responseMap, old@beforePush(responseMap[x].replies), x, rs, i, ids);
      }
    }
    assert rs[..|responses|] == rs;
  }

  /**
   * Builds the tree in two passes over the flat list. The input objects are only read.
   */
  method BuildThreadTree(responses: seq<ResponseDetail>)
    returns (rootResponses: seq<ResponseDetail>, ghost nodes: map<Id, ResponseDetail>)
    ensures forall o :: o in responses ==> unchanged(o)
    ensures forall x :: x in nodes ==> fresh(nodes[x])
    ensures MapsIds(nodes, Values(responses))
    ensures Covers(nodes, Values(responses)) && RepliesHold(nodes, Values(responses), Ids(Values(responses)))
    ensures Covers(nodes, Roots(Values(responses)))
    ensures rootResponses == NodesOf(nodes, Roots(Values(responses)))
    ensures UniqueIds(Values(responses)) ==> Unfolds(nodes.Values, rootResponses, Forest(Values(responses)))
  {
    ghost var rs := Values(responses);
    var responseMap := MapResponses(responses);
    nodes := responseMap;
    rootResponses := LinkReplies(responses, responseMap);
    if UniqueIds(rs) {
      UnderMembers(rs, Ids(rs), None);
      ForestSolvesSpec(rs, Forest(rs));
      GraphNodes(nodes, rs);
      GraphUnfolds(nodes, rs, Roots(rs), Forest(rs));
    }
  }

  lemma FirstPassStep(nodes: map<Id, ResponseDetail>, node: ResponseDetail, rs: seq<Response>, i: nat)
    requires i < |rs| && MapsIds(nodes, rs[..i]) && node !in nodes.Values && node.Value() == rs[i]
    ensures MapsIds(nodes[rs[i].id := node], rs[..i + 1])
  {
    var nodes' := nodes[rs[i].id := node];
    assert rs[..i + 1] == rs[..i] + [rs[i]];
    assert Ids(rs[..i + 1]) == Ids(rs[..i]) + {rs[i].id};
    forall x | x in nodes' ensures CarriesLast(nodes'[x].Value(), rs[..i + 1], x) {
      if x == rs[i].id {
        assert rs[..i + 1][i] == nodes'[x].Value();
      } else {
        assert CarriesLast(nodes[x].Value(), rs[..i], x);
        var k :| 0 <= k < |rs[..i]| && rs[..i][k] == nodes[x].Value() && x == rs[..i][k].id
          && forall j :: k < j < |rs[..i]| ==> rs[..i][j].id != x;
        assert rs[..i + 1][k] == nodes[x].Value();
      }
    }
  }
}

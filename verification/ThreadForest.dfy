/**
 * What threading a flat list of responses means, as values: the recursive specification of
 * the forest, where it is defined, what it contains, and how it reacts to flattening and
 * to one more response. No parent relation is ruled out: links may point forward,
 * backward, nowhere, or in circles.
 */
module ThreadForest {
  import opened Optional
  import opened Responses
  import opened SetSizes

  datatype Tree = Node(response: Response, replies: seq<Tree>)

  // ---------- the recursive specification ----------

  /**
   * `f` is the forest that hangs the responses `cs` of `rs` side by side: tree i carries
   * cs[i], and its replies are, in order of arrival, the responses naming cs[i] as parent.
   */
  ghost predicate IsForest(rs: seq<Response>, cs: seq<Response>, f: seq<Tree>)
    decreases f
  {
    if f == [] then cs == []
    else
      && cs != []
      && f[0].response == cs[0]
      && IsForest(rs, Children(rs, cs[0].id), f[0].replies)
      && IsForest(rs, cs[1..], f[1..])
  }

  /** The forest hanging from `cs`, cut off below `levels` levels. */
  function Grow(rs: seq<Response>, cs: seq<Response>, levels: nat): seq<Tree>
    decreases levels, |cs|
  {
    if levels == 0 || cs == [] then []
    else [Node(cs[0], Grow(rs, Children(rs, cs[0].id), levels - 1))] + Grow(rs, cs[1..], levels)
  }

  /** The thread forest: no path from a root is longer than the list itself. */
  function Forest(rs: seq<Response>): seq<Tree> {
    Grow(rs, Roots(rs), |rs|)
  }

  /** The responses of a forest in preorder. */
  function Flatten(f: seq<Tree>): seq<Response> {
    if f == [] then []
    else [f[0].response] + Flatten(f[0].replies) + Flatten(f[1..])
  }

  /** The responses carried by the top nodes of a forest. */
  function Tops(f: seq<Tree>): seq<Response> {
    if f == [] then [] else [f[0].response] + Tops(f[1..])
  }

  // ---------- depth: the parent chain of a response ----------

  /** Following parents from `r` reaches a top-level response after exactly `d` steps. */
  ghost predicate AtDepth(rs: seq<Response>, r: Response, d: nat)
    decreases d
  {
    if d == 0 then Slot(r, Ids(rs)) == None
    else exists p :: p in rs && Slot(r, Ids(rs)) == Some(p.id) && AtDepth(rs, p, d - 1)
  }

  /** The parent chain of `r` ends, at a response without a parent or with a missing one. */
  ghost predicate Grounded(rs: seq<Response>, r: Response) {
    exists d: nat :: AtDepth(rs, r, d)
  }

  /** The parent of `r` among `rs`. */
  ghost function ParentIn(rs: seq<Response>, r: Response): (p: Response)
    requires Slot(r, Ids(rs)).Some?
    ensures p in rs && Slot(r, Ids(rs)) == Some(p.id)
  {
    var p :| p in rs && Slot(r, Ids(rs)) == Some(p.id);
    p
  }

  lemma SameId(rs: seq<Response>, a: Response, b: Response)
    requires UniqueIds(rs) && a in rs && b in rs && a.id == b.id
    ensures a == b
  {
  }

  lemma {:induction false} DepthOfParent(rs: seq<Response>, r: Response, p: Response, d: nat)
    requires UniqueIds(rs) && p in rs && Slot(r, Ids(rs)) == Some(p.id)
    requires AtDepth(rs, r, d)
    ensures d > 0 && AtDepth(rs, p, d - 1)
  {
    var q :| q in rs && Slot(r, Ids(rs)) == Some(q.id) && AtDepth(rs, q, d - 1);
    SameId(rs, p, q);
  }

  lemma {:induction false} DepthIsUnique(rs: seq<Response>, r: Response, d: nat, e: nat)
    requires UniqueIds(rs) && AtDepth(rs, r, d) && AtDepth(rs, r, e)
    ensures d == e
    decreases d
  {
    if Slot(r, Ids(rs)).Some? {
      var p := ParentIn(rs, r);
      DepthOfParent(rs, r, p, d);
      DepthOfParent(rs, r, p, e);
      DepthIsUnique(rs, p, d - 1, e - 1);
    }
  }

  ghost predicate NoDeeper(rs: seq<Response>, r: Response, d: nat) {
    exists e: nat :: e <= d && AtDepth(rs, r, e)
  }

  /** The ancestors of a response, itself included: one for each depth 0..d. */
  lemma {:induction false} AncestorIds(rs: seq<Response>, r: Response, d: nat) returns (ids: set<Id>)
    requires UniqueIds(rs) && r in rs && AtDepth(rs, r, d)
    ensures |ids| == d + 1 && ids <= Ids(rs)
    ensures forall q :: q in rs && q.id in ids ==> NoDeeper(rs, q, d)
    decreases d
  {
    ids := {};
    if d > 0 {
      var p := ParentIn(rs, r);
      DepthOfParent(rs, r, p, d);
      ids := AncestorIds(rs, p, d - 1);
      if NoDeeper(rs, r, d - 1) {
        var e: nat :| e <= d - 1 && AtDepth(rs, r, e);
        DepthIsUnique(rs, r, d, e);
      }
    }
    forall q | q in rs && q.id in ids + {r.id} ensures NoDeeper(rs, q, d) {
      if q.id == r.id {
        SameId(rs, q, r);
      } else {
        var e: nat :| e <= d - 1 && AtDepth(rs, q, e);
      }
    }
    ids := ids + {r.id};
  }

  lemma {:induction false} IdsAtMostLength(rs: seq<Response>)
    ensures |Ids(rs)| <= |rs|
  {
    if rs != [] {
      var t := rs[..|rs| - 1];
      IdsAtMostLength(t);
      assert rs == t + [rs[|rs| - 1]];
      assert Ids(rs) == Ids(t) + {rs[|rs| - 1].id};
    }
  }

  lemma {:induction false} DepthBound(rs: seq<Response>, r: Response, d: nat)
    requires UniqueIds(rs) && r in rs && AtDepth(rs, r, d)
    ensures d < |rs|
  {
    var ids := AncestorIds(rs, r, d);
    SubsetSize(ids, Ids(rs));
    IdsAtMostLength(rs);
  }

  // ---------- the specification has exactly one solution ----------

  lemma {:induction false} ForestIsUnique(rs: seq<Response>, cs: seq<Response>, f: seq<Tree>, g: seq<Tree>)
    requires IsForest(rs, cs, f) && IsForest(rs, cs, g)
    ensures f == g
    decreases f
  {
    if f != [] {
      ForestIsUnique(rs, Children(rs, cs[0].id), f[0].replies, g[0].replies);
      ForestIsUnique(rs, cs[1..], f[1..], g[1..]);
    }
  }

  ghost predicate AllAtDepth(rs: seq<Response>, cs: seq<Response>, d: nat) {
    forall c :: c in cs ==> c in rs && AtDepth(rs, c, d)
  }

  lemma {:induction false} ChildrenAtDepth(rs: seq<Response>, p: Response, d: nat)
    requires UniqueIds(rs) && p in rs && AtDepth(rs, p, d)
    ensures AllAtDepth(rs, Children(rs, p.id), d + 1)
  {
    UnderMembers(rs, Ids(rs), Some(p.id));
  }

  lemma {:induction false} RootsAtDepth(rs: seq<Response>)
    ensures AllAtDepth(rs, Roots(rs), 0)
  {
    UnderMembers(rs, Ids(rs), None);
  }

  lemma {:induction false} GrowIsForest(rs: seq<Response>, cs: seq<Response>, levels: nat, d: nat)
    requires UniqueIds(rs) && AllAtDepth(rs, cs, d) && levels + d >= |rs|
    ensures IsForest(rs, cs, Grow(rs, cs, levels))
    decreases levels, |cs|
  {
    hide AtDepth, UniqueIds, Ids, Under;
    if cs != [] {
      DepthBound(rs, cs[0], d);
      ChildrenAtDepth(rs, cs[0], d);
      GrowIsForest(rs, Children(rs, cs[0].id), levels - 1, d + 1);
      GrowIsForest(rs, cs[1..], levels, d);
    }
  }

  /**
   * The specification is met by `Forest(rs)` and by nothing else. Cycles do not spoil it:
   * a root is never on one, so the forest below the roots is always finite.
   */
  lemma {:induction false} ForestSolvesSpec(rs: seq<Response>, f: seq<Tree>)
    requires UniqueIds(rs)
    ensures IsForest(rs, Roots(rs), f) <==> f == Forest(rs)
  {
    RootsAtDepth(rs);
    GrowIsForest(rs, Roots(rs), |rs|, 0);
    if IsForest(rs, Roots(rs), f) {
      ForestIsUnique(rs, Roots(rs), f, Forest(rs));
    }
  }

  // ---------- what the forest contains ----------

  /** `n` steps up the parent chain, stopping at the top level. */
  ghost function Up(rs: seq<Response>, r: Response, n: nat): Response
    decreases n
  {
    if n == 0 || Slot(r, Ids(rs)).None? then r else Up(rs, ParentIn(rs, r), n - 1)
  }

  /** A member of the forest over `cs` lies below one of `cs`, at some greater depth. */
  ghost predicate Below(rs: seq<Response>, cs: seq<Response>, d: nat, r: Response) {
    r in rs && exists n: nat :: AtDepth(rs, r, d + n) && Up(rs, r, n) in cs
  }

  lemma {:induction false} UpOneMore(rs: seq<Response>, r: Response, n: nat, c: Response, p: Response)
    requires UniqueIds(rs) && p in rs && Slot(c, Ids(rs)) == Some(p.id)
    requires Up(rs, r, n) == c
    ensures Up(rs, r, n + 1) == p
    decreases n
  {
    if n == 0 {
      SameId(rs, ParentIn(rs, r), p);
      assert Up(rs, r, 1) == Up(rs, ParentIn(rs, r), 0);
    } else {
      assert Slot(r, Ids(rs)).Some?;
      UpOneMore(rs, ParentIn(rs, r), n - 1, c, p);
    }
  }

  lemma {:induction false} FlattenBelow(rs: seq<Response>, cs: seq<Response>, f: seq<Tree>, d: nat)
    requires UniqueIds(rs) && AllAtDepth(rs, cs, d) && IsForest(rs, cs, f)
    ensures forall r :: r in Flatten(f) ==> Below(rs, cs, d, r)
    decreases f
  {
    if f != [] {
      var c := cs[0];
      ChildrenAtDepth(rs, c, d);
      FlattenBelow(rs, Children(rs, c.id), f[0].replies, d + 1);
      FlattenBelow(rs, cs[1..], f[1..], d);
      UnderMembers(rs, Ids(rs), Some(c.id));
      assert Up(rs, c, 0) == c && AtDepth(rs, c, d + 0);
      forall r | r in Flatten(f[0].replies) ensures Below(rs, [c], d, r) {
        var n: nat :| AtDepth(rs, r, d + 1 + n) && Up(rs, r, n) in Children(rs, c.id);
        UpOneMore(rs, r, n, Up(rs, r, n), c);
        assert AtDepth(rs, r, d + (n + 1));
      }
      forall r | r in Flatten(f) ensures Below(rs, cs, d, r) {
        if r in Flatten(f[0].replies) {
          var n: nat :| AtDepth(rs, r, d + n) && Up(rs, r, n) in [c];
        } else if r in Flatten(f[1..]) {
          var n: nat :| AtDepth(rs, r, d + n) && Up(rs, r, n) in cs[1..];
        }
      }
    }
  }

  /** Two disjoint lists of siblings have disjoint forests. */
  lemma {:induction false} BelowOnlyOne(rs: seq<Response>, a: seq<Response>, b: seq<Response>, d: nat, r: Response)
    requires UniqueIds(rs) && Below(rs, a, d, r) && Below(rs, b, d, r)
    ensures exists c :: c in a && c in b
  {
    var n: nat :| AtDepth(rs, r, d + n) && Up(rs, r, n) in a;
    var m: nat :| AtDepth(rs, r, d + m) && Up(rs, r, m) in b;
    DepthIsUnique(rs, r, d + n, d + m);
  }

  lemma ChildrenUnique(rs: seq<Response>, x: Id)
    requires UniqueIds(rs)
    ensures UniqueIds(Children(rs, x))
  {
    UnderUnique(rs, Ids(rs), Some(x));
  }

  lemma NotBelowItself(rs: seq<Response>, cs: seq<Response>, d: nat, c: Response)
    requires UniqueIds(rs) && AtDepth(rs, c, d)
    ensures !Below(rs, cs, d + 1, c)
  {
    if Below(rs, cs, d + 1, c) {
      var n: nat :| AtDepth(rs, c, d + 1 + n) && Up(rs, c, n) in cs;
      DepthIsUnique(rs, c, d, d + 1 + n);
    }
  }

  lemma FirstTreeBelow(rs: seq<Response>, c: Response, t: Tree, d: nat)
    requires UniqueIds(rs) && c in rs && AtDepth(rs, c, d)
    requires t.response == c && IsForest(rs, Children(rs, c.id), t.replies)
    ensures forall r :: r in [c] + Flatten(t.replies) ==> Below(rs, [c], d, r)
    ensures c !in Flatten(t.replies)
  {
    hide IsForest, Flatten, Below, AtDepth, Children, UniqueIds;
    SingleTree(rs, c, t);
    FlattenBelow(rs, [c], [t], d);
    ChildrenAtDepth(rs, c, d);
    FlattenBelow(rs, Children(rs, c.id), t.replies, d + 1);
    NotBelowItself(rs, Children(rs, c.id), d, c);
  }

  lemma SingleTree(rs: seq<Response>, c: Response, t: Tree)
    requires t.response == c && IsForest(rs, Children(rs, c.id), t.replies)
    ensures IsForest(rs, [c], [t]) && Flatten([t]) == [c] + Flatten(t.replies)
  {
    hide Children;
    assert [t][1..] == [] && [c][1..] == [];
  }

  lemma {:induction false} FlattenUnique(rs: seq<Response>, cs: seq<Response>, f: seq<Tree>, d: nat)
    requires UniqueIds(rs) && UniqueIds(cs) && AllAtDepth(rs, cs, d) && IsForest(rs, cs, f)
    ensures UniqueIds(Flatten(f))
    decreases f
  {
    hide AtDepth, Ids, Under, Below;
    if f != [] {
      var c, inner, later := cs[0], Flatten(f[0].replies), Flatten(f[1..]);
      ChildrenAtDepth(rs, c, d);
      ChildrenUnique(rs, c.id);
      FlattenUnique(rs, Children(rs, c.id), f[0].replies, d + 1);
      FlattenUnique(rs, cs[1..], f[1..], d);
      // everything in the first tree lies below c, everything later below the others
      FirstTreeBelow(rs, c, f[0], d);
      FlattenBelow(rs, cs[1..], f[1..], d);
      DisjointBelow(rs, [c] + inner, c, later, cs[1..], d);
      DistinctConcat(rs, [c], inner);
      DistinctConcat(rs, [c] + inner, later);
    }
  }

  lemma DisjointBelow(rs: seq<Response>, first: seq<Response>, c: Response, later: seq<Response>, cs: seq<Response>,
                      d: nat)
    requires UniqueIds(rs) && c !in cs
    requires forall r :: r in first ==> Below(rs, [c], d, r)
    requires forall r :: r in later ==> Below(rs, cs, d, r)
    ensures forall r :: r in first ==> r !in later
    ensures forall r :: r in first || r in later ==> r in rs
  {
    forall r | r in first ensures r !in later {
      if r in later {
        BelowOnlyOne(rs, [c], cs, d, r);
      }
    }
  }

  lemma {:induction false} DistinctConcat(rs: seq<Response>, a: seq<Response>, b: seq<Response>)
    requires UniqueIds(rs) && UniqueIds(a) && UniqueIds(b)
    requires forall r :: r in a || r in b ==> r in rs
    requires forall r :: r in a ==> r !in b
    ensures UniqueIds(a + b)
  {
    forall i, j | 0 <= i < |a| && 0 <= j < |b| ensures a[i].id != b[j].id {
      if a[i].id == b[j].id {
        SameId(rs, a[i], b[j]);
      }
    }
  }

  lemma {:induction false} ChildrenAreInside(rs: seq<Response>, cs: seq<Response>, f: seq<Tree>, p: Response,
                                             c: Response)
    requires IsForest(rs, cs, f) && p in Flatten(f) && c in Children(rs, p.id)
    ensures c in Flatten(f)
    decreases f
  {
    if p == f[0].response {
      TopsInside(rs, Children(rs, p.id), f[0].replies);
    } else if p in Flatten(f[0].replies) {
      ChildrenAreInside(rs, Children(rs, cs[0].id), f[0].replies, p, c);
    } else {
      ChildrenAreInside(rs, cs[1..], f[1..], p, c);
    }
  }

  lemma {:induction false} TopsInside(rs: seq<Response>, cs: seq<Response>, f: seq<Tree>)
    requires IsForest(rs, cs, f)
    ensures Tops(f) == cs
    ensures forall c :: c in cs ==> c in Flatten(f)
    decreases f
  {
    if f != [] {
      TopsInside(rs, cs[1..], f[1..]);
      assert cs == [cs[0]] + cs[1..];
    }
  }

  lemma {:induction false} GroundedIsInside(rs: seq<Response>, f: seq<Tree>, r: Response, d: nat)
    requires UniqueIds(rs) && IsForest(rs, Roots(rs), f) && r in rs && AtDepth(rs, r, d)
    ensures r in Flatten(f)
    decreases d
  {
    if d == 0 {
      UnderMembers(rs, Ids(rs), None);
      TopsInside(rs, Roots(rs), f);
    } else {
      var p := ParentIn(rs, r);
      DepthOfParent(rs, r, p, d);
      GroundedIsInside(rs, f, p, d - 1);
      UnderMembers(rs, Ids(rs), Some(p.id));
      ChildrenAreInside(rs, Roots(rs), f, p, r);
    }
  }

  /**
   * The forest contains exactly the responses whose parent chain ends, each once. A
   * response on a parent cycle, or hanging below one, is in no tree.
   */
  lemma {:induction false} ForestContents(rs: seq<Response>)
    requires UniqueIds(rs)
    ensures UniqueIds(Flatten(Forest(rs)))
    ensures forall r :: r in Flatten(Forest(rs)) <==> r in rs && Grounded(rs, r)
  {
    var f := Forest(rs);
    ForestSolvesSpec(rs, f);
    RootsAtDepth(rs);
    UnderUnique(rs, Ids(rs), None);
    FlattenUnique(rs, Roots(rs), f, 0);
    FlattenBelow(rs, Roots(rs), f, 0);
    forall r | r in Flatten(f) ensures r in rs && Grounded(rs, r) {
      var n: nat :| AtDepth(rs, r, 0 + n) && Up(rs, r, n) in Roots(rs);
    }
    forall r | r in rs && Grounded(rs, r) ensures r in Flatten(f) {
      var d: nat :| AtDepth(rs, r, d);
      GroundedIsInside(rs, f, r, d);
    }
  }

  /** No response is lost exactly when every parent chain ends, that is, without cycles. */
  lemma {:induction false} NothingLostIffAcyclic(rs: seq<Response>)
    requires UniqueIds(rs)
    ensures multiset(Flatten(Forest(rs))) == multiset(rs) <==> forall r :: r in rs ==> Grounded(rs, r)
  {
    var flat := Flatten(Forest(rs));
    ForestContents(rs);
    if forall r :: r in rs ==> Grounded(rs, r) {
      forall r ensures multiset(flat)[r] == multiset(rs)[r] {
        OccursAtMostOnce(flat, r);
        OccursAtMostOnce(rs, r);
      }
    } else {
      var r :| r in rs && !Grounded(rs, r);
      assert r in multiset(rs) && r !in multiset(flat);
    }
  }
}

/** The flat list of responses of one discussion, as the backend returns it. */
module Responses {
  import opened Optional

  type Id = string

  /** One response. `body` stands for every field that threading only copies. */
  datatype Response = Response(id: Id, parent: Option<Id>, body: string)

  /** A parent link counts only when it is truthy: neither absent nor the empty string. */
  predicate NamesParent(r: Response) {
    r.parent.Some? && r.parent.value != ""
  }

  function Ids(rs: seq<Response>): set<Id> {
    set r | r in rs :: r.id
  }

  ghost predicate UniqueIds(rs: seq<Response>) {
    forall i, j :: 0 <= i < j < |rs| ==> rs[i].id != rs[j].id
  }

  /**
   * Where a response hangs when the known ids are `ids`: under `Some(parent)`, or under
   * `None`, the top level, when it names no parent or its parent is missing.
   */
  function Slot(r: Response, ids: set<Id>): Option<Id> {
    if NamesParent(r) && r.parent.value in ids then Some(r.parent.value) else None
  }

  /** The responses of `s` that hang in `slot`, in their order of arrival. */
  function Under(s: seq<Response>, ids: set<Id>, slot: Option<Id>): seq<Response> {
    if s == [] then []
    else
      var last := s[|s| - 1];
      Under(s[..|s| - 1], ids, slot) + if Slot(last, ids) == slot then [last] else []
  }

  function Roots(rs: seq<Response>): seq<Response> {
    Under(rs, Ids(rs), None)
  }

  function Children(rs: seq<Response>, x: Id): seq<Response> {
    Under(rs, Ids(rs), Some(x))
  }

  lemma {:induction false} UnderMembers(s: seq<Response>, ids: set<Id>, slot: Option<Id>)
    ensures forall r :: r in Under(s, ids, slot) <==> r in s && Slot(r, ids) == slot
  {
    if s != [] {
      UnderMembers(s[..|s| - 1], ids, slot);
      assert s == s[..|s| - 1] + [s[|s| - 1]];
    }
  }

  lemma {:induction false} UnderConcat(a: seq<Response>, b: seq<Response>, ids: set<Id>, slot: Option<Id>)
    ensures Under(a + b, ids, slot) == Under(a, ids, slot) + Under(b, ids, slot)
  {
    if b == [] {
      assert a + b == a;
    } else {
      UnderConcat(a, b[..|b| - 1], ids, slot);
      assert (a + b)[..|a + b| - 1] == a + b[..|b| - 1];
    }
  }

  /** Only the slots of the listed responses matter, so equal slots give equal lists. */
  lemma {:induction false} UnderSameSlots(s: seq<Response>, ids: set<Id>, ids': set<Id>, slot: Option<Id>)
    requires forall r :: r in s ==> Slot(r, ids) == Slot(r, ids')
    ensures Under(s, ids, slot) == Under(s, ids', slot)
  {
    if s != [] {
      UnderSameSlots(s[..|s| - 1], ids, ids', slot);
    }
  }

  lemma {:induction false} UnderNone(s: seq<Response>, ids: set<Id>, slot: Option<Id>)
    requires forall r :: r in s ==> Slot(r, ids) != slot
    ensures Under(s, ids, slot) == []
  {
    if s != [] {
      UnderNone(s[..|s| - 1], ids, slot);
    }
  }

  lemma {:induction false} UnderUnique(s: seq<Response>, ids: set<Id>, slot: Option<Id>)
    requires UniqueIds(s)
    ensures UniqueIds(Under(s, ids, slot))
  {
    if s != [] {
      var t := s[..|s| - 1];
      UnderUnique(t, ids, slot);
      UnderMembers(t, ids, slot);
      assert forall r :: r in Under(t, ids, slot) ==> r.id != s[|s| - 1].id;
    }
  }

  /**
   * Every response is placed exactly once: it occurs once in the list of its own slot and
   * in no other list, whatever the parent links are.
   */
  lemma {:induction false} PlacedExactlyOnce(rs: seq<Response>, r: Response, slot: Option<Id>)
    requires UniqueIds(rs) && r in rs
    ensures multiset(Under(rs, Ids(rs), slot))[r] == if Slot(r, Ids(rs)) == slot then 1 else 0
  {
    var u := Under(rs, Ids(rs), slot);
    UnderMembers(rs, Ids(rs), slot);
    UnderUnique(rs, Ids(rs), slot);
    OccursAtMostOnce(u, r);
  }

  lemma {:induction false} OccursAtMostOnce(s: seq<Response>, r: Response)
    requires UniqueIds(s)
    ensures multiset(s)[r] == if r in s then 1 else 0
  {
    if s != [] {
      var t := s[..|s| - 1];
      assert s == t + [s[|s| - 1]];
      OccursAtMostOnce(t, r);
    }
  }
}

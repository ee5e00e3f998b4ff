/**
 * The onboarding page on which a user selects topics and ranks them. The selection is a
 * JavaScript `Map`, which keeps insertion order; what the user ranks is the list by priority.
 */
module TopicSelection {
  import opened Optional

  type Id = string

  datatype ActivityLevel = HIGH | MEDIUM | LOW

  datatype Topic = Topic(id: Id, activityLevel: ActivityLevel)

  datatype Selected = Selected(topic: Topic, priority: int)

  // ---------- the ordered map ----------

  /** The position of the entry for `id`, or the length if there is none. */
  function IndexOf(s: seq<Selected>, id: Id): (i: nat)
    ensures i <= |s| && (i < |s| ==> s[i].topic.id == id)
    ensures forall j :: 0 <= j < i ==> s[j].topic.id != id
  {
    if s == [] || s[0].topic.id == id then 0 else 1 + IndexOf(s[1..], id)
  }

  predicate Has(s: seq<Selected>, id: Id) {
    IndexOf(s, id) < |s|
  }

  /** Setting an existing key keeps its place; a new one goes last. */
  function SetEntry(s: seq<Selected>, e: Selected): seq<Selected> {
    var i := IndexOf(s, e.topic.id);
    if i < |s| then s[i := e] else s + [e]
  }

  function Delete(s: seq<Selected>, id: Id): seq<Selected> {
    var i := IndexOf(s, id);
    if i < |s| then s[..i] + s[i + 1..] else s
  }

  function FindPriority(s: seq<Selected>, p: int): Option<Selected> {
    if s == [] then None else if s[0].priority == p then Some(s[0]) else FindPriority(s[1..], p)
  }

  function FindLow(s: seq<Selected>): Option<Selected> {
    if s == [] then None else if s[0].topic.activityLevel == LOW then Some(s[0]) else FindLow(s[1..])
  }

  // ---------- sorting by priority ----------

  /** Inserts behind everything of the same or a lower number, as a stable sort does. */
  function Insert(s: seq<Selected>, e: Selected): seq<Selected> {
    if s == [] || s[|s| - 1].priority <= e.priority then s + [e]
    else Insert(s[..|s| - 1], e) + [s[|s| - 1]]
  }

  function Sort(s: seq<Selected>): seq<Selected> {
    if s == [] then [] else Insert(Sort(s[..|s| - 1]), s[|s| - 1])
  }

  function Renumber(s: seq<Selected>): (r: seq<Selected>)
    ensures |r| == |s| && forall i :: 0 <= i < |s| ==> r[i] == Selected(s[i].topic, i + 1)
  {
    seq(|s|, i requires 0 <= i < |s| => Selected(s[i].topic, i + 1))
  }

  function ReassignPriorities(s: seq<Selected>): seq<Selected> {
    Renumber(Sort(s))
  }

  // ---------- the handlers ----------

  function HandleTopicClick(s: seq<Selected>, topic: Topic, cap: nat): seq<Selected> {
    if Has(s, topic.id) then ReassignPriorities(Delete(s, topic.id))
    else if |s| >= cap then s
    else SetEntry(s, Selected(topic, |s| + 1))
  }

  function HandlePriorityChange(s: seq<Selected>, id: Id, newPriority: int): seq<Selected> {
    if !Has(s, id) then s
    else
      var current := s[IndexOf(s, id)];
      match FindPriority(s, newPriority)
      case Some(other) =>
        SetEntry(SetEntry(s, other.(priority := current.priority)), current.(priority := newPriority))
      case None => SetEntry(s, current.(priority := newPriority))
  }

  function HandleSwitch(s: seq<Selected>, alternative: Topic): seq<Selected> {
    match FindLow(s)
    case None => s
    case Some(low) => ReassignPriorities(SetEntry(Delete(s, low.topic.id), Selected(alternative, low.priority)))
  }

  /** The list sent to the server. */
  function SubmittedIds(s: seq<Selected>): seq<Id> {
    var sorted := Sort(s);
    seq(|sorted|, i requires 0 <= i < |sorted| => sorted[i].topic.id)
  }

  class Page {
    const cap: nat
    var selectedTopics: seq<Selected>

    constructor (cap: nat)
      ensures this.cap == cap && selectedTopics == []
    {
      this.cap := cap;
      selectedTopics := [];
    }

    method Click(topic: Topic)
      modifies this
      ensures selectedTopics == HandleTopicClick(old(selectedTopics), topic, cap)
    {
      if Has(selectedTopics, topic.id) {
        selectedTopics := ReassignPriorities(Delete(selectedTopics, topic.id));
      } else if |selectedTopics| < cap {
        var nextPriority := |selectedTopics| + 1;
        selectedTopics := SetEntry(selectedTopics, Selected(topic, nextPriority));
      }
    }

    method ChangePriority(id: Id, newPriority: int)
      modifies this
      ensures selectedTopics == HandlePriorityChange(old(selectedTopics), id, newPriority)
    {
      if !Has(selectedTopics, id) {
        return;
      }
      var current := selectedTopics[IndexOf(selectedTopics, id)];
      var swapTopic := FindPriority(selectedTopics, newPriority);
      if swapTopic.Some? {
        selectedTopics := SetEntry(selectedTopics, swapTopic.value.(priority := current.priority));
      }
      selectedTopics := SetEntry(selectedTopics, current.(priority := newPriority));
    }

    method SwitchToAlternative(alternative: Topic)
      modifies this
      ensures selectedTopics == HandleSwitch(old(selectedTopics), alternative)
    {
      var low := FindLow(selectedTopics);
      if low.Some? {
        selectedTopics := Delete(selectedTopics, low.value.topic.id);
        selectedTopics := SetEntry(selectedTopics, Selected(alternative, low.value.priority));
        selectedTopics := ReassignPriorities(selectedTopics);
      }
    }
  }

  // ---------- the invariant, and the ranking ----------

  ghost predicate DistinctIds(s: seq<Selected>) {
    forall i, j :: 0 <= i < j < |s| ==> s[i].topic.id != s[j].topic.id
  }

  ghost predicate DistinctPriorities(s: seq<Selected>) {
    forall i, j :: 0 <= i < j < |s| ==> s[i].priority != s[j].priority
  }

  /** The n selected topics carry the priorities 1..n, each once. */
  ghost predicate Ranked(s: seq<Selected>) {
    && DistinctIds(s)
    && DistinctPriorities(s)
    && forall i :: 0 <= i < |s| ==> 1 <= s[i].priority <= |s|
  }

  /** The selected topics from the highest rank to the lowest. */
  function Ranking(s: seq<Selected>): (r: seq<Topic>)
    ensures |r| == |Sort(s)| && forall i :: 0 <= i < |r| ==> r[i] == Sort(s)[i].topic
  {
    var sorted := Sort(s);
    seq(|sorted|, i requires 0 <= i < |sorted| => sorted[i].topic)
  }

  /** Strictly increasing priorities. */
  ghost predicate Increasing(s: seq<Selected>) {
    forall i, j :: 0 <= i < j < |s| ==> s[i].priority < s[j].priority
  }

  /** The two lists are of one length and hold the same elements. */
  ghost predicate SameElements(s: seq<Selected>, t: seq<Selected>) {
    |s| == |t| && forall x :: x in s <==> x in t
  }

  lemma IncreasingWithLast(s: seq<Selected>, e: Selected)
    requires Increasing(s) && forall x :: x in s ==> x.priority < e.priority
    ensures Increasing(s + [e])
  {
  }

  lemma {:induction false} InsertElements(s: seq<Selected>, e: Selected)
    ensures |Insert(s, e)| == |s| + 1
    ensures forall x :: x in Insert(s, e) <==> x in s || x == e
  {
    if s != [] && s[|s| - 1].priority > e.priority {
      InsertElements(s[..|s| - 1], e);
      assert s == s[..|s| - 1] + [s[|s| - 1]];
    }
  }

  lemma {:induction false} InsertIncreasing(s: seq<Selected>, e: Selected)
    requires Increasing(s) && forall x :: x in s ==> x.priority != e.priority
    ensures Increasing(Insert(s, e))
  {
    if s == [] || s[|s| - 1].priority <= e.priority {
      IncreasingWithLast(s, e);
    } else {
      var t, last := s[..|s| - 1], s[|s| - 1];
      InsertIncreasing(t, e);
      InsertElements(t, e);
      IncreasingWithLast(Insert(t, e), last);
    }
  }

  /** Sorting rearranges, and puts distinct priorities in strictly increasing order. */
  lemma {:induction false} SortProperties(s: seq<Selected>)
    ensures SameElements(Sort(s), s)
    ensures DistinctPriorities(s) ==> Increasing(Sort(s))
  {
    if s != [] {
      var t, last := s[..|s| - 1], s[|s| - 1];
      assert s == t + [last];
      SortProperties(t);
      InsertElements(Sort(t), last);
      if DistinctPriorities(s) {
        assert forall x :: x in Sort(t) ==> x in t;
        InsertIncreasing(Sort(t), last);
      }
    }
  }

  /** The entries of priority `p`, in their order. */
  function With(s: seq<Selected>, p: int): seq<Selected> {
    if s == [] then []
    else With(s[..|s| - 1], p) + if s[|s| - 1].priority == p then [s[|s| - 1]] else []
  }

  ghost predicate Ascending(s: seq<Selected>) {
    forall i, j :: 0 <= i < j < |s| ==> s[i].priority <= s[j].priority
  }

  lemma AscendingWithLast(s: seq<Selected>, e: Selected)
    requires Ascending(s) && forall x :: x in s ==> x.priority <= e.priority
    ensures Ascending(s + [e])
  {
  }

  lemma WithLast(s: seq<Selected>, e: Selected, p: int)
    ensures With(s + [e], p) == With(s, p) + if e.priority == p then [e] else []
  {
    assert (s + [e])[..|s|] == s;
  }

  lemma InsertBeforeLast(t: seq<Selected>, last: Selected, e: Selected)
    ensures Insert(t + [last], e) == if last.priority <= e.priority then t + [last] + [e] else Insert(t, e) + [last]
  {
    assert (t + [last])[..|t|] == t;
  }

  lemma {:induction false} InsertIsStable(s: seq<Selected>, e: Selected, p: int)
    requires Ascending(s)
    ensures Ascending(Insert(s, e))
    ensures With(Insert(s, e), p) == With(s, p) + if e.priority == p then [e] else []
  {
    hide Insert, With;
    if s == [] {
      assert Insert(s, e) == s + [e] by { InsertFirst(e); }
      AscendingWithLast(s, e);
      WithLast(s, e, p);
    } else {
      var t, last := s[..|s| - 1], s[|s| - 1];
      assert s == t + [last];
      InsertBeforeLast(t, last, e);
      if last.priority <= e.priority {
        AscendingWithLast(s, e);
        WithLast(s, e, p);
      } else {
        InsertIsStable(t, e, p);
        InsertElements(t, e);
        AscendingWithLast(Insert(t, e), last);
        WithLast(Insert(t, e), last, p);
        WithLast(t, last, p);
      }
    }
  }

  lemma InsertFirst(e: Selected)
    ensures Insert([], e) == [e]
  {
  }

  /** Sorting any selection: ascending, and entries of one priority keep their order of insertion. */
  lemma {:induction false} SortIsStable(s: seq<Selected>, p: int)
    ensures Ascending(Sort(s)) && With(Sort(s), p) == With(s, p) && |Sort(s)| == |s|
  {
    SortProperties(s);
    if s != [] {
      SortIsStable(s[..|s| - 1], p);
      InsertIsStable(Sort(s[..|s| - 1]), s[|s| - 1], p);
    }
  }

  lemma IncreasingIsDistinct(s: seq<Selected>)
    requires Increasing(s)
    ensures DistinctPriorities(s)
  {
  }

  lemma LastOfIncreasing(s: seq<Selected>, t: seq<Selected>)
    requires Increasing(s) && Increasing(t) && SameElements(s, t) && s != [] && t != []
    ensures s[|s| - 1] == t[|t| - 1]
  {
    var x, y := s[|s| - 1], t[|t| - 1];
    assert x in t && y in s;
  }

  lemma WithoutLast(s: seq<Selected>)
    requires Increasing(s) && s != []
    ensures Increasing(s[..|s| - 1])
    ensures forall x :: x in s[..|s| - 1] <==> x in s && x != s[|s| - 1]
  {
    assert s == s[..|s| - 1] + [s[|s| - 1]];
  }

  /** There is only one increasing arrangement of given elements. */
  lemma {:induction false} ArrangementIsUnique(s: seq<Selected>, t: seq<Selected>)
    requires Increasing(s) && Increasing(t) && SameElements(s, t)
    ensures s == t
  {
    if s != [] {
      var s', t' := s[..|s| - 1], t[..|t| - 1];
      LastOfIncreasing(s, t);
      WithoutLast(s);
      WithoutLast(t);
      forall x ensures x in s' <==> x in t' {
        assert x in s <==> x in t;
      }
      ArrangementIsUnique(s', t');
    }
  }

  lemma SortIs(s: seq<Selected>, t: seq<Selected>)
    requires DistinctPriorities(s) && Increasing(t) && SameElements(s, t)
    ensures Sort(s) == t
  {
    SortProperties(s);
    ArrangementIsUnique(Sort(s), t);
  }

  /** In a ranked selection the topic at rank i has priority i + 1. */
  lemma SortedRanks(s: seq<Selected>)
    requires Ranked(s)
    ensures |Sort(s)| == |s| && Increasing(Sort(s)) && SameElements(Sort(s), s)
    ensures forall i :: 0 <= i < |s| ==> Sort(s)[i].priority == i + 1
  {
    SortProperties(s);
    var t := Sort(s);
    forall i | 0 <= i < |t| ensures t[i].priority == i + 1 {
      assert t[i] in s;
      IncreasingGap(t, 0, i);
      IncreasingGap(t, i, |t| - 1);
      assert t[0] in s && t[|t| - 1] in s;
    }
  }

  lemma {:induction false} IncreasingGap(t: seq<Selected>, i: nat, j: nat)
    requires Increasing(t) && i <= j < |t|
    ensures t[j].priority >= t[i].priority + j - i
  {
    if i < j {
      IncreasingGap(t, i, j - 1);
    }
  }

  // ---------- what the handlers do to the ranking ----------

  /** Renumbering an increasing list ranks it without moving anything. */
  lemma RenumberRanks(t: seq<Selected>)
    requires DistinctIds(t)
    ensures Ranked(Renumber(t)) && Sort(Renumber(t)) == Renumber(t)
    ensures |Ranking(Renumber(t))| == |t| && forall i :: 0 <= i < |t| ==> Ranking(Renumber(t))[i] == t[i].topic
  {
    hide Sort;
    var r := Renumber(t);
    assert DistinctIds(r) && DistinctPriorities(r) && Increasing(r);
    SortIs(r, r);
  }

  /** The place of a selected topic in the map, and at its rank. */
  lemma RankOf(s: seq<Selected>, a: nat)
    requires Ranked(s) && a < |s|
    ensures |Sort(s)| == |s| && 1 <= s[a].priority <= |s| && Sort(s)[s[a].priority - 1] == s[a]
  {
    SortedRanks(s);
    var p := s[a].priority;
    assert s[a] in Sort(s);
    var i :| 0 <= i < |s| && Sort(s)[i] == s[a];
    assert i == p - 1;
  }

  lemma RemoveAt(s: seq<Selected>, a: nat)
    requires DistinctIds(s) && a < |s|
    ensures DistinctIds(s[..a] + s[a + 1..])
    ensures DistinctPriorities(s) ==> DistinctPriorities(s[..a] + s[a + 1..])
    ensures Increasing(s) ==> Increasing(s[..a] + s[a + 1..])
    ensures forall x :: x in s[..a] + s[a + 1..] <==> x in s && x != s[a]
  {
    var t := s[..a] + s[a + 1..];
    forall x | x in s && x != s[a] ensures x in t {
      var i :| 0 <= i < |s| && s[i] == x;
      assert if i < a then t[i] == x else t[i - 1] == x;
    }
  }

  lemma DistinctAfterSort(s: seq<Selected>)
    requires Ranked(s)
    ensures DistinctIds(Sort(s))
  {
    SortedRanks(s);
    var t := Sort(s);
    forall i, j | 0 <= i < j < |t| ensures t[i].topic.id != t[j].topic.id {
      assert t[i] in s && t[j] in s;
    }
  }

  /** Deselecting takes the topic out of the ranking and keeps the order of the others. */
  lemma ClickDeselects(s: seq<Selected>, topic: Topic, cap: nat)
    requires Ranked(s) && Has(s, topic.id)
    ensures var s', k := HandleTopicClick(s, topic, cap), s[IndexOf(s, topic.id)].priority - 1;
            && Ranked(s')
            && |s'| == |s| - 1
            && 0 <= k < |Ranking(s)|
            && Ranking(s)[k].id == topic.id
            && Ranking(s') == Ranking(s)[..k] + Ranking(s)[k + 1..]
  {
    hide Sort, Ranked, IndexOf;
    var a := IndexOf(s, topic.id);
    SortWithout(s, a);
    RankOf(s, a);
    RenumberRanks(Sort(Delete(s, topic.id)));
  }

  /** Removing an element before or after sorting is the same. */
  lemma SortWithout(s: seq<Selected>, a: nat)
    requires Ranked(s) && a < |s|
    ensures |Sort(s)| == |s| && 1 <= s[a].priority <= |s|
    ensures var k, rest := s[a].priority - 1, s[..a] + s[a + 1..];
            Sort(rest) == Sort(s)[..k] + Sort(s)[k + 1..] && DistinctIds(Sort(rest))
  {
    RankOf(s, a);
    SortedRanks(s);
    DistinctAfterSort(s);
    hide Sort;
    var k, sorted, rest := s[a].priority - 1, Sort(s), s[..a] + s[a + 1..];
    var t := sorted[..k] + sorted[k + 1..];
    RemoveAt(s, a);
    RemoveAt(sorted, k);
    forall x ensures x in rest <==> x in t {
      assert x in s <==> x in sorted;
    }
    SortIs(rest, t);
  }

  /** Selecting puts the topic at the end of the ranking, as long as there is room. */
  lemma ClickSelects(s: seq<Selected>, topic: Topic, cap: nat)
    requires Ranked(s) && !Has(s, topic.id)
    ensures var s' := HandleTopicClick(s, topic, cap);
            && Ranked(s')
            && (|s| < cap ==> |s'| == |s| + 1 && Ranking(s') == Ranking(s) + [topic])
            && (|s| >= cap ==> s' == s)
  {
    if |s| < cap {
      var e := Selected(topic, |s| + 1);
      SortedRanks(s);
      assert (s + [e])[..|s|] == s;
      assert Sort(s + [e]) == Sort(s) + [e];
    }
  }

  lemma {:induction false} PriorityFound(s: seq<Selected>, b: nat)
    requires DistinctPriorities(s) && b < |s|
    ensures FindPriority(s, s[b].priority) == Some(s[b])
  {
    if b > 0 {
      PriorityFound(s[1..], b - 1);
    }
  }

  lemma {:induction false} PriorityNotFound(s: seq<Selected>, p: int)
    requires forall i :: 0 <= i < |s| ==> s[i].priority != p
    ensures FindPriority(s, p) == None
  {
    if s != [] {
      PriorityNotFound(s[1..], p);
    }
  }

  lemma IndexIs(s: seq<Selected>, k: nat)
    requires DistinctIds(s) && k < |s|
    ensures IndexOf(s, s[k].topic.id) == k
  {
    var i := IndexOf(s, s[k].topic.id);
    assert s[i].topic.id == s[k].topic.id;
  }

  /** Asking for a priority in 1..n exchanges two ranks, and nothing else moves. */
  lemma PriorityChangeSwaps(s: seq<Selected>, id: Id, p: int)
    requires Ranked(s) && Has(s, id) && 1 <= p <= |s|
    ensures var s', i := HandlePriorityChange(s, id, p), s[IndexOf(s, id)].priority - 1;
            && Ranked(s')
            && |s'| == |s|
            && 0 <= i < |Ranking(s)| && p <= |Ranking(s)|
            && Ranking(s') == Ranking(s)[i := Ranking(s)[p - 1]][p - 1 := Ranking(s)[i]]
  {
    hide Sort, HandlePriorityChange, FindPriority, Ranking;
    var a := IndexOf(s, id);
    RankOf(s, a);
    SortedRanks(s);
    var i, sorted := s[a].priority - 1, Sort(s);
    assert sorted[p - 1] in s;
    var b :| 0 <= b < |s| && s[b] == sorted[p - 1];
    SetBoth(s, a, b);
    SwapRanks(s, a, b);
  }

  /** What the two map updates of a priority change come to. */
  lemma SetBoth(s: seq<Selected>, a: nat, b: nat)
    requires DistinctIds(s) && DistinctPriorities(s) && a < |s| && b < |s|
    ensures var x, y := s[b].(priority := s[a].priority), s[a].(priority := s[b].priority);
            HandlePriorityChange(s, s[a].topic.id, s[b].priority) == s[b := x][a := y]
  {
    var x, y := s[b].(priority := s[a].priority), s[a].(priority := s[b].priority);
    PriorityFound(s, b);
    IndexIs(s, a);
    IndexIs(s, b);
    IndexIs(s[b := x], a);
    hide IndexOf, FindPriority;
  }

  lemma SwapRanks(s: seq<Selected>, a: nat, b: nat)
    requires Ranked(s) && a < |s| && b < |s|
    ensures var i, j := s[a].priority - 1, s[b].priority - 1;
            var s' := s[b := s[b].(priority := i + 1)][a := s[a].(priority := j + 1)];
            && Ranked(s')
            && |Ranking(s)| == |s| && 0 <= i < |s| && 0 <= j < |s|
            && Ranking(s') == Ranking(s)[i := Ranking(s)[j]][j := Ranking(s)[i]]
  {
    hide Sort;
    var i, j, sorted := s[a].priority - 1, s[b].priority - 1, Sort(s);
    RankOf(s, a);
    RankOf(s, b);
    SortedRanks(s);
    var x, y := s[b].(priority := i + 1), s[a].(priority := j + 1);
    var s' := s[b := x][a := y];
    var t := sorted[i := x][j := y];
    forall e ensures e in s' <==> e in t {
      ElementsAfterTwo(s, b, x, a, y, e);
      ElementsAfterTwo(sorted, i, x, j, y, e);
      assert e in s <==> e in sorted;
    }
    SortIs(s', t);
  }

  /** Membership after overwriting two places of a list without repetitions. */
  lemma ElementsAfterTwo(s: seq<Selected>, k: nat, x: Selected, l: nat, y: Selected, e: Selected)
    requires k < |s| && l < |s| && DistinctPriorities(s)
    ensures e in s[k := x][l := y] <==> e == y || (k != l && e == x) || (e in s && e != s[k] && e != s[l])
  {
    var s' := s[k := x][l := y];
    assert s'[l] == y && (k != l ==> s'[k] == x);
    if e in s && e != s[k] && e != s[l] {
      var i :| 0 <= i < |s| && s[i] == e;
      assert s'[i] == e;
    }
  }

  /**
   * A priority outside 1..n breaks the ranking, and one inside never does: the page offers
   * ranks that the current selection is too short for.
   */
  lemma PriorityChangeRanksIff(s: seq<Selected>, id: Id, p: int)
    requires Ranked(s) && Has(s, id)
    ensures Ranked(HandlePriorityChange(s, id, p)) <==> 1 <= p <= |s|
  {
    if 1 <= p <= |s| {
      PriorityChangeSwaps(s, id, p);
    } else {
      PriorityNotFound(s, p);
      var a := IndexOf(s, id);
      assert HandlePriorityChange(s, id, p)[a].priority == p;
    }
  }

  lemma HasIff(s: seq<Selected>, id: Id)
    ensures Has(s, id) <==> exists i :: 0 <= i < |s| && s[i].topic.id == id
  {
  }

  /** A priority change moves no entry of the map and renames none. */
  lemma PriorityChangeKeepsTopics(s: seq<Selected>, id: Id, p: int)
    requires Ranked(s) && Has(s, id)
    ensures |HandlePriorityChange(s, id, p)| == |s|
    ensures forall i :: 0 <= i < |s| ==> HandlePriorityChange(s, id, p)[i].topic == s[i].topic
  {
    if b :| 0 <= b < |s| && s[b].priority == p {
      SetBoth(s, IndexOf(s, id), b);
    } else {
      PriorityNotFound(s, p);
    }
  }

  /** Entry `b` is the first one, in order of insertion, with priority `p`. */
  predicate FirstWith(s: seq<Selected>, p: int, b: nat) {
    b < |s| && s[b].priority == p && forall j :: 0 <= j < b ==> s[j].priority != p
  }

  lemma {:induction false} PriorityIs(s: seq<Selected>, p: int, b: nat)
    requires FirstWith(s, p, b)
    ensures FindPriority(s, p) == Some(s[b])
  {
    if b > 0 {
      PriorityIs(s[1..], p, b - 1);
    }
  }

  /**
   * A priority change on any selection, whatever its priorities: the topic gets the priority, the
   * first topic that had it gets the old one in exchange, and nothing else changes.
   */
  lemma PriorityChangeAnywhere(s: seq<Selected>, a: nat, p: int)
    requires DistinctIds(s) && a < |s|
    ensures var s' := HandlePriorityChange(s, s[a].topic.id, p);
            && |s'| == |s|
            && forall j :: 0 <= j < |s| ==>
                 && s'[j].topic == s[j].topic
                 && s'[j].priority
                    == if j == a then p else if FirstWith(s, p, j) then s[a].priority else s[j].priority
  {
    hide IndexOf, FindPriority;
    IndexIs(s, a);
    if b: nat :| FirstWith(s, p, b) {
      PriorityIs(s, p, b);
      IndexIs(s, b);
      var x := s[b].(priority := s[a].priority);
      assert DistinctIds(s[b := x]);
      IndexIs(s[b := x], a);
      assert HandlePriorityChange(s, s[a].topic.id, p) == s[b := x][a := s[a].(priority := p)];
      assert forall j: nat :: FirstWith(s, p, j) ==> j == b;
    } else {
      NoneWith(s, p);
      PriorityNotFound(s, p);
    }
  }

  lemma {:induction false} NoneWith(s: seq<Selected>, p: int)
    requires forall b: nat :: !FirstWith(s, p, b)
    ensures forall j :: 0 <= j < |s| ==> s[j].priority != p
  {
    if j :| 0 <= j < |s| && s[j].priority == p {
      var b := LeastWith(s, p, j);
    }
  }

  lemma {:induction false} LeastWith(s: seq<Selected>, p: int, j: nat) returns (b: nat)
    requires j < |s| && s[j].priority == p
    ensures FirstWith(s, p, b)
  {
    b := j;
    if i :| 0 <= i < j && s[i].priority == p {
      b := LeastWith(s, p, i);
    }
  }

  /**
   * After a priority change, selecting one more topic gives two topics the same priority if and
   * only if the change was to n + 1, one beyond the n selected topics.
   */
  lemma DuplicateIff(s: seq<Selected>, id: Id, p: int, topic: Topic, cap: nat)
    requires Ranked(s) && Has(s, id) && !Has(s, topic.id) && |s| < cap
    ensures !DistinctPriorities(HandleTopicClick(HandlePriorityChange(s, id, p), topic, cap)) <==> p == |s| + 1
  {
    hide Ranked, Sort, Ranking, IndexOf, HandlePriorityChange, DistinctPriorities;
    var s1, n := HandlePriorityChange(s, id, p), |s|;
    PriorityChangeKeepsTopics(s, id, p);
    HasIff(s, topic.id);
    HasIff(s1, topic.id);
    DistinctWithLast(s1, Selected(topic, n + 1));
    if 1 <= p <= n {
      PriorityChangeSwaps(s, id, p);
      RankedPriorities(s1);
    } else {
      PriorityChangeOutside(s, id, p);
    }
  }

  lemma DistinctWithLast(s: seq<Selected>, e: Selected)
    ensures DistinctPriorities(s + [e])
            <==> DistinctPriorities(s) && forall i :: 0 <= i < |s| ==> s[i].priority != e.priority
  {
    var t := s + [e];
    assert forall i :: 0 <= i < |s| ==> t[i] == s[i];
    assert t[|s|] == e;
  }

  lemma RankedPriorities(s: seq<Selected>)
    requires Ranked(s)
    ensures DistinctPriorities(s) && forall i :: 0 <= i < |s| ==> 1 <= s[i].priority <= |s|
  {
  }

  /** A priority outside 1..n stays unique, and the only one outside. */
  lemma PriorityChangeOutside(s: seq<Selected>, id: Id, p: int)
    requires Ranked(s) && Has(s, id) && !(1 <= p <= |s|)
    ensures var s1 := HandlePriorityChange(s, id, p);
            && DistinctPriorities(s1)
            && ((exists i :: 0 <= i < |s1| && s1[i].priority == |s| + 1) <==> p == |s| + 1)
  {
    PriorityNotFound(s, p);
    var a := IndexOf(s, id);
    assert HandlePriorityChange(s, id, p) == s[a := s[a].(priority := p)];
    assert HandlePriorityChange(s, id, p)[a].priority == p;
  }

  /** With one topic selected, the second rank that its card offers makes such a duplicate. */
  lemma GapThenDuplicate(x: Topic, y: Topic, cap: nat)
    requires x.id != y.id && cap >= 2
    ensures var one := HandleTopicClick([], x, cap);
            var two := HandleTopicClick(HandlePriorityChange(one, x.id, 2), y, cap);
            two == [Selected(x, 2), Selected(y, 2)]
  {
    PriorityNotFound([Selected(x, 1)], 2);
    assert HandleTopicClick([], x, cap) == [Selected(x, 1)];
    assert HandlePriorityChange([Selected(x, 1)], x.id, 2) == [Selected(x, 2)];
    assert IndexOf([Selected(x, 2)], y.id) == 1;
  }

  /** Entry `i` is the first one, in order of insertion, whose topic has low activity. */
  predicate FirstLow(s: seq<Selected>, i: nat) {
    && i < |s| && s[i].topic.activityLevel == LOW
    && forall j :: 0 <= j < i ==> s[j].topic.activityLevel != LOW
  }

  predicate NoLow(s: seq<Selected>) {
    forall j :: 0 <= j < |s| ==> s[j].topic.activityLevel != LOW
  }

  lemma {:induction false} LowIs(s: seq<Selected>, i: nat)
    requires FirstLow(s, i)
    ensures FindLow(s) == Some(s[i])
  {
    if i > 0 {
      LowIs(s[1..], i - 1);
    }
  }

  lemma {:induction false} LowIsNone(s: seq<Selected>)
    requires NoLow(s)
    ensures FindLow(s) == None
  {
    if s != [] {
      LowIsNone(s[1..]);
    }
  }

  lemma {:induction false} LowOrNot(s: seq<Selected>) returns (i: nat)
    ensures NoLow(s) || FirstLow(s, i)
  {
    i := 0;
    if !NoLow(s) && s[0].topic.activityLevel != LOW {
      i := LowOrNot(s[1..]);
      i := i + 1;
    }
  }

  /** Switching puts the alternative exactly at the rank of the first low-activity topic. */
  lemma SwitchReplaces(s: seq<Selected>, i: nat, alternative: Topic)
    requires Ranked(s) && FirstLow(s, i) && !Has(s, alternative.id)
    ensures var s', k := HandleSwitch(s, alternative), s[i].priority - 1;
            && Ranked(s')
            && |s'| == |s|
            && 0 <= k < |Ranking(s)| && Ranking(s)[k] == s[i].topic
            && Ranking(s') == Ranking(s)[k := alternative]
  {
    hide Sort, FindLow, IndexOf, Has, Ranked, HandleSwitch, Ranking;
    LowIs(s, i);
    var low, sorted, a := s[i], Sort(s), i;
    var k, e := low.priority - 1, Selected(alternative, low.priority);
    RankOf(s, a);
    RanksOf(s);
    SwitchIs(s, a, alternative);
    SortReplaced(s, a, e);
    RenumberRanks(sorted[k := e]);
  }

  lemma RanksOf(s: seq<Selected>)
    ensures |Ranking(s)| == |Sort(s)| && forall i :: 0 <= i < |Sort(s)| ==> Ranking(s)[i] == Sort(s)[i].topic
  {
  }

  /** What the two map updates of a switch come to. */
  lemma SwitchIs(s: seq<Selected>, a: nat, alternative: Topic)
    requires Ranked(s) && a < |s| && FindLow(s) == Some(s[a]) && !Has(s, alternative.id)
    ensures HandleSwitch(s, alternative)
            == Renumber(Sort(s[..a] + s[a + 1..] + [Selected(alternative, s[a].priority)]))
  {
    hide Sort, FindLow, IndexOf, Renumber, Ranked;
    assert DistinctIds(s) by { RankedIsDistinct(s); }
    IndexIs(s, a);
    NotAdded(s, a, alternative.id);
  }

  lemma RankedIsDistinct(s: seq<Selected>)
    requires Ranked(s)
    ensures DistinctIds(s) && DistinctPriorities(s)
  {
  }

  lemma NotAdded(s: seq<Selected>, a: nat, id: Id)
    requires a < |s| && !Has(s, id)
    ensures !Has(s[..a] + s[a + 1..], id)
  {
    var rest := s[..a] + s[a + 1..];
    forall i | 0 <= i < |rest| ensures rest[i].topic.id != id {
    }
  }

  /** Replacing an element by one of the same priority replaces it where it is sorted. */
  lemma SortReplaced(s: seq<Selected>, a: nat, e: Selected)
    requires Ranked(s) && a < |s| && e.priority == s[a].priority && !Has(s, e.topic.id)
    ensures |Sort(s)| == |s| && 1 <= e.priority <= |s|
    ensures var t := Sort(s)[e.priority - 1 := e];
            Sort(s[..a] + s[a + 1..] + [e]) == t && DistinctIds(t)
  {
    hide Sort, IndexOf;
    var k, sorted := e.priority - 1, Sort(s);
    RankOf(s, a);
    SortedRanks(s);
    DistinctAfterSort(s);
    RemoveAt(s, a);
    var rest, t := s[..a] + s[a + 1..], sorted[k := e];
    var s1 := rest + [e];
    assert sorted[k := e][k := e] == t;
    forall x ensures x in s1 <==> x in t {
      ElementsAfterTwo(sorted, k, e, k, e, x);
      assert x in s <==> x in sorted;
    }
    forall i | 0 <= i < |rest| ensures rest[i].priority != e.priority {
      assert rest[i] in s;
    }
    SortIs(s1, t);
    DistinctWithReplacement(s, sorted, k, e);
  }

  lemma DistinctWithReplacement(s: seq<Selected>, sorted: seq<Selected>, k: nat, e: Selected)
    requires DistinctIds(sorted) && SameElements(sorted, s) && k < |sorted| && !Has(s, e.topic.id)
    ensures DistinctIds(sorted[k := e])
  {
    forall i | 0 <= i < |sorted| ensures sorted[i].topic.id != e.topic.id {
      assert sorted[i] in s;
    }
  }

  // ---------- selections whose ranking is broken ----------

  lemma {:induction false} InsertKeepsDistinct(s: seq<Selected>, e: Selected)
    requires DistinctIds(s) && forall x :: x in s ==> x.topic.id != e.topic.id
    ensures DistinctIds(Insert(s, e))
  {
    if s != [] && s[|s| - 1].priority > e.priority {
      var t, last := s[..|s| - 1], s[|s| - 1];
      InsertKeepsDistinct(t, e);
      InsertElements(t, e);
      assert forall x :: x in Insert(t, e) ==> x.topic.id != last.topic.id;
    }
  }

  lemma {:induction false} SortKeepsDistinct(s: seq<Selected>)
    requires DistinctIds(s)
    ensures DistinctIds(Sort(s)) && |Sort(s)| == |s|
  {
    SortProperties(s);
    if s != [] {
      var t, last := s[..|s| - 1], s[|s| - 1];
      SortKeepsDistinct(t);
      SortProperties(t);
      assert forall x :: x in Sort(t) ==> x in t;
      InsertKeepsDistinct(Sort(t), last);
    }
  }

  lemma DeleteKeepsDistinct(s: seq<Selected>, id: Id)
    requires DistinctIds(s) && Has(s, id)
    ensures DistinctIds(Delete(s, id)) && |Delete(s, id)| == |s| - 1
    ensures forall x: Id :: Has(Delete(s, id), x) <==> Has(s, x) && x != id
  {
    hide IndexOf;
    var a := IndexOf(s, id);
    RemoveAt(s, a);
    forall x: Id ensures Has(Delete(s, id), x) <==> Has(s, x) && x != id {
      HasAfterRemoval(s, a, x);
    }
  }

  lemma HasAfterRemoval(s: seq<Selected>, a: nat, x: Id)
    requires DistinctIds(s) && a < |s|
    ensures Has(s[..a] + s[a + 1..], x) <==> Has(s, x) && x != s[a].topic.id
  {
    hide IndexOf, Has;
    var t := s[..a] + s[a + 1..];
    HasIff(s, x);
    HasIff(t, x);
    if i :| 0 <= i < |s| && s[i].topic.id == x && i != a {
      assert t[if i < a then i else i - 1] == s[i];
    }
    if i :| 0 <= i < |t| && t[i].topic.id == x {
      assert t[i] == s[if i < a then i else i + 1];
    }
  }

  lemma SetKeepsDistinct(s: seq<Selected>, e: Selected)
    requires DistinctIds(s)
    ensures DistinctIds(SetEntry(s, e)) && |SetEntry(s, e)| == if Has(s, e.topic.id) then |s| else |s| + 1
  {
  }

  lemma ReassigningRanks(s: seq<Selected>)
    requires DistinctIds(s)
    ensures Ranked(ReassignPriorities(s)) && |ReassignPriorities(s)| == |Sort(s)| == |s|
    ensures Ranking(ReassignPriorities(s)) == Ranking(s)
  {
    SortKeepsDistinct(s);
    RenumberRanks(Sort(s));
  }

  /**
   * Deselecting repairs any selection, whatever has become of its priorities: the others are
   * ranked by priority, and by order of insertion where priorities are equal.
   */
  lemma DeselectRepairs(s: seq<Selected>, topic: Topic, cap: nat)
    requires DistinctIds(s) && Has(s, topic.id)
    ensures Ranked(HandleTopicClick(s, topic, cap)) && |HandleTopicClick(s, topic, cap)| == |s| - 1
    ensures var a := IndexOf(s, topic.id);
            Ranking(HandleTopicClick(s, topic, cap)) == Ranking(s[..a] + s[a + 1..])
  {
    DeleteKeepsDistinct(s, topic.id);
    ReassigningRanks(Delete(s, topic.id));
  }

  /**
   * So does switching away from a low-activity topic. Switching to another topic that is selected
   * already makes the selection shorter.
   */
  lemma SwitchRepairs(s: seq<Selected>, i: nat, alternative: Topic)
    requires DistinctIds(s) && FirstLow(s, i)
    ensures var s' := HandleSwitch(s, alternative);
            && Ranked(s')
            && |s'| == if Has(s, alternative.id) && alternative.id != s[i].topic.id then |s| - 1 else |s|
  {
    hide Sort, FindLow, IndexOf;
    LowIs(s, i);
    IndexIs(s, i);
    DeleteKeepsDistinct(s, s[i].topic.id);
    var rest, e := Delete(s, s[i].topic.id), Selected(alternative, s[i].priority);
    SetKeepsDistinct(rest, e);
    ReassigningRanks(SetEntry(rest, e));
  }

  /** Without a low-activity topic a switch changes nothing. */
  lemma SwitchWithoutLow(s: seq<Selected>, alternative: Topic)
    requires NoLow(s)
    ensures HandleSwitch(s, alternative) == s
  {
    LowIsNone(s);
  }

  /**
   * Switching to another topic that is selected already moves that one to the rank of the first
   * low-activity topic, which leaves; its own old rank closes up.
   */
  lemma SwitchToSelected(s: seq<Selected>, i: nat, m: nat, alternative: Topic)
    requires Ranked(s) && FirstLow(s, i) && m < |s| && m != i && s[m].topic.id == alternative.id
    ensures var s', k, r := HandleSwitch(s, alternative), s[i].priority - 1, s[m].priority - 1;
            && Ranked(s')
            && |Ranking(s)| == |s| && 0 <= k < |s| && 0 <= r < |s| && k != r
            && Ranking(s') == Ranking(s)[k := alternative][..r] + Ranking(s)[k := alternative][r + 1..]
  {
    hide Sort, FindLow, IndexOf, Has, Ranking, HandleSwitch, Ranked;
    RankOf(s, i);
    RankOf(s, m);
    RanksOf(s);
    SortedRanks(s);
    RankedIsDistinct(s);
    DistinctAfterSort(s);
    var k, r, e := s[i].priority - 1, s[m].priority - 1, Selected(alternative, s[i].priority);
    var sorted := Sort(s);
    assert k != r && sorted[r] == s[m] && sorted[k] == s[i];
    IncreasingIsDistinct(sorted);
    var s1, t := Moved(s, m, i, e), Moved(sorted, k, r, e);
    MovedElements(s, m, i, e);
    MovedElements(sorted, k, r, e);
    MovedKeeps(s, m, i, e);
    MovedKeeps(sorted, k, r, e);
    MovedInPlace(sorted, k, r, e);
    assert SameElements(s1, t) by {
      forall x ensures x in s1 <==> x in t {
        assert x in s <==> x in sorted;
      }
    }
    SortIs(s1, t);
    MovedIs(s, i, m, alternative, s1);
    RenumberRanks(t);
  }

  /** The list with entry `k` replaced in its place and entry `r` taken out. */
  function Moved(s: seq<Selected>, k: nat, r: nat, e: Selected): seq<Selected>
    requires k < |s| && r < |s|
  {
    s[k := e][..r] + s[k := e][r + 1..]
  }

  lemma MovedElements(s: seq<Selected>, k: nat, r: nat, e: Selected)
    requires DistinctIds(s) && k < |s| && r < |s| && k != r
    ensures forall x :: x in Moved(s, k, r, e) <==> x == e || (x in s && x != s[k] && x != s[r])
  {
    var t := Moved(s, k, r, e);
    forall x ensures x in t <==> x == e || (x in s && x != s[k] && x != s[r]) {
      if x in t {
        var j :| 0 <= j < |t| && t[j] == x;
        var i := if j < r then j else j + 1;
        assert if i == k then x == e else x == s[i] && s[i].topic.id != s[k].topic.id && s[i].topic.id != s[r].topic.id;
      }
      if x == e {
        assert t[if k < r then k else k - 1] == e;
      }
      if j :| 0 <= j < |s| && s[j] == x && j != r && j != k {
        assert t[if j < r then j else j - 1] == x;
      }
    }
  }

  /** Where the new entry has the id and the priority of one of the two, nothing is repeated. */
  lemma MovedKeeps(s: seq<Selected>, k: nat, r: nat, e: Selected)
    requires DistinctIds(s) && DistinctPriorities(s) && k < |s| && r < |s| && k != r
    requires e.priority in {s[k].priority, s[r].priority} && e.topic.id in {s[k].topic.id, s[r].topic.id}
    ensures |Moved(s, k, r, e)| == |s| - 1
    ensures DistinctIds(Moved(s, k, r, e)) && DistinctPriorities(Moved(s, k, r, e))
  {
    MovedAt(s, k, r, e);
    hide Moved;
  }

  lemma MovedAt(s: seq<Selected>, k: nat, r: nat, e: Selected)
    requires k < |s| && r < |s| && k != r
    ensures |Moved(s, k, r, e)| == |s| - 1
    ensures forall j :: 0 <= j < |s| - 1 ==>
              Moved(s, k, r, e)[j] == if j == (if k < r then k else k - 1) then e else s[if j < r then j else j + 1]
  {
  }

  lemma MovedInPlace(s: seq<Selected>, k: nat, r: nat, e: Selected)
    requires Increasing(s) && k < |s| && r < |s| && k != r && e.priority == s[k].priority
    ensures Increasing(Moved(s, k, r, e))
  {
    MovedAt(s, k, r, e);
    hide Moved;
  }

  lemma MovedIs(s: seq<Selected>, i: nat, m: nat, alternative: Topic, s1: seq<Selected>)
    requires Ranked(s) && FirstLow(s, i) && m < |s| && m != i && s[m].topic.id == alternative.id
    requires s1 == Moved(s, m, i, Selected(alternative, s[i].priority))
    ensures HandleSwitch(s, alternative) == Renumber(Sort(s1))
  {
    hide Sort, FindLow, IndexOf, Renumber;
    LowIs(s, i);
    IndexIs(s, i);
    var rest, n := s[..i] + s[i + 1..], if m < i then m else m - 1;
    RemoveAt(s, i);
    assert rest[n] == s[m];
    IndexIs(rest, n);
    assert s1 == rest[n := Selected(alternative, s[i].priority)];
  }

  // ---------- every run ----------

  datatype Event =
    | Click(topic: Topic)
    | ChangePriority(id: Id, newPriority: int)
    | Switch(alternative: Topic)

  function Next(s: seq<Selected>, e: Event, cap: nat): seq<Selected> {
    match e
    case Click(topic) => HandleTopicClick(s, topic, cap)
    case ChangePriority(id, p) => HandlePriorityChange(s, id, p)
    case Switch(alternative) => HandleSwitch(s, alternative)
  }

  function After(events: seq<Event>, cap: nat): seq<Selected> {
    if events == [] then []
    else Next(After(events[..|events| - 1], cap), events[|events| - 1], cap)
  }

  lemma ChangeKeepsDistinct(s: seq<Selected>, id: Id, p: int)
    requires DistinctIds(s)
    ensures DistinctIds(HandlePriorityChange(s, id, p)) && |HandlePriorityChange(s, id, p)| == |s|
  {
    hide IndexOf;
    if Has(s, id) {
      var a := IndexOf(s, id);
      IndexIs(s, a);
      SetKeepsDistinct(s, s[a].(priority := p));
      match FindPriority(s, p) {
        case None =>
        case Some(other) =>
          FoundIsThere(s, p);
          var b :| 0 <= b < |s| && s[b] == other;
          IndexIs(s, b);
          IndexIs(s[b := other.(priority := s[a].priority)], a);
      }
    }
  }

  lemma {:induction false} FoundIsThere(s: seq<Selected>, p: int)
    requires FindPriority(s, p).Some?
    ensures FindPriority(s, p).value in s
  {
    if s[0].priority != p {
      FoundIsThere(s[1..], p);
    }
  }

  lemma NextKeepsDistinct(s: seq<Selected>, e: Event, cap: nat)
    requires DistinctIds(s) && |s| <= cap
    ensures DistinctIds(Next(s, e, cap)) && |Next(s, e, cap)| <= cap
  {
    hide HandlePriorityChange, HandleSwitch, ReassignPriorities, IndexOf;
    match e {
      case Click(topic) =>
        if Has(s, topic.id) {
          DeselectRepairs(s, topic, cap);
        } else {
          SetKeepsDistinct(s, Selected(topic, |s| + 1));
        }
      case ChangePriority(id, p) => ChangeKeepsDistinct(s, id, p);
      case Switch(alternative) =>
        var i := LowOrNot(s);
        if NoLow(s) {
          SwitchWithoutLow(s, alternative);
        } else {
          SwitchRepairs(s, i, alternative);
        }
    }
  }

  /** Over every run whatsoever no topic is selected twice, and the selection stays within the cap. */
  lemma {:induction false} EveryRunKeepsDistinct(events: seq<Event>, cap: nat)
    ensures DistinctIds(After(events, cap)) && |After(events, cap)| <= cap
  {
    hide Next, DistinctIds;
    if events == [] {
      NoneSelected();
    } else {
      var n := |events| - 1;
      EveryRunKeepsDistinct(events[..n], cap);
      NextKeepsDistinct(After(events[..n], cap), events[n], cap);
    }
  }

  lemma NoneSelected()
    ensures Ranked([])
  {
  }

  /** A requested priority is one of the current ranks. */
  predicate Allowed(s: seq<Selected>, e: Event) {
    e.ChangePriority? ==> 1 <= e.newPriority <= |s|
  }

  lemma NextKeepsRanked(s: seq<Selected>, e: Event, cap: nat)
    requires Ranked(s) && Allowed(s, e)
    ensures Ranked(Next(s, e, cap))
  {
    match e {
      case Click(topic) =>
        if Has(s, topic.id) { ClickDeselects(s, topic, cap); } else { ClickSelects(s, topic, cap); }
      case ChangePriority(id, p) => if Has(s, id) { PriorityChangeSwaps(s, id, p); }
      case Switch(alternative) =>
        var i := LowOrNot(s);
        if NoLow(s) { SwitchWithoutLow(s, alternative); } else { SwitchRepairs(s, i, alternative); }
    }
  }

  /** From the `k`-th event on every priority change is to one of the current ranks. */
  ghost predicate AllowedFrom(events: seq<Event>, cap: nat, k: nat) {
    forall i :: k <= i < |events| ==> Allowed(After(events[..i], cap), events[i])
  }

  lemma {:induction false} RankedFrom(events: seq<Event>, cap: nat, k: nat)
    requires k <= |events| && AllowedFrom(events, cap, k) && Ranked(After(events[..k], cap))
    ensures Ranked(After(events, cap))
    decreases |events|
  {
    hide Next, Ranked, Allowed;
    if k == |events| {
      assert events[..k] == events;
    } else {
      var n := |events| - 1;
      var past := events[..n];
      assert forall i :: 0 <= i <= n ==> past[..i] == events[..i];
      assert AllowedFrom(past, cap, k) by {
        forall i | k <= i < n ensures Allowed(After(past[..i], cap), past[i]) {
          assert Allowed(After(events[..i], cap), events[i]);
        }
      }
      RankedFrom(past, cap, k);
      assert Allowed(After(events[..n], cap), events[n]);
      NextKeepsRanked(After(past, cap), events[n], cap);
    }
  }

  /**
   * Over every run of clicks, switches and priority changes to current ranks the n selected topics
   * have exactly the priorities 1..n, with n within the cap.
   */
  lemma {:induction false} EveryRunIsRanked(events: seq<Event>, cap: nat)
    requires AllowedFrom(events, cap, 0)
    ensures Ranked(After(events, cap)) && |After(events, cap)| <= cap
  {
    assert events[..0] == [];
    NoneSelected();
    RankedFrom(events, cap, 0);
    EveryRunKeepsDistinct(events, cap);
  }

  /** A click that deselects, or a switch that finds a low-activity topic. */
  predicate Repairs(s: seq<Selected>, e: Event) {
    match e
    case Click(topic) => Has(s, topic.id)
    case ChangePriority(_, _) => false
    case Switch(_) => !NoLow(s)
  }

  /** Whatever happened before: since a repair, only a priority change beyond the ranks breaks the ranking. */
  lemma {:induction false} RankedSinceRepair(events: seq<Event>, cap: nat, k: nat)
    requires k < |events| && Repairs(After(events[..k], cap), events[k]) && AllowedFrom(events, cap, k + 1)
    ensures Ranked(After(events, cap))
  {
    hide Next, Ranked, Allowed, After, Repairs;
    EveryRunKeepsDistinct(events[..k], cap);
    RepairRanks(After(events[..k], cap), events[k], cap);
    assert events[..k + 1][..k] == events[..k];
    AfterOneMore(events[..k + 1], cap);
    RankedFrom(events, cap, k + 1);
  }

  lemma AfterOneMore(events: seq<Event>, cap: nat)
    requires events != []
    ensures After(events, cap) == Next(After(events[..|events| - 1], cap), events[|events| - 1], cap)
  {
  }

  lemma RepairRanks(s: seq<Selected>, e: Event, cap: nat)
    requires DistinctIds(s) && Repairs(s, e)
    ensures Ranked(Next(s, e, cap))
  {
    match e {
      case Click(topic) => DeselectRepairs(s, topic, cap);
      case Switch(alternative) =>
        var i := LowOrNot(s);
        SwitchRepairs(s, i, alternative);
    }
  }

  /** The submitted list names every selected topic once, the one of priority i + 1 at place i. */
  lemma SubmittedInOrder(s: seq<Selected>)
    requires Ranked(s)
    ensures var ids := SubmittedIds(s);
            && |ids| == |s|
            && (forall i, j :: 0 <= i < j < |ids| ==> ids[i] != ids[j])
            && (forall i :: 0 <= i < |ids| ==> Has(s, ids[i]) && s[IndexOf(s, ids[i])].priority == i + 1)
  {
    SortedRanks(s);
    DistinctAfterSort(s);
    forall i | 0 <= i < |s|
      ensures Has(s, SubmittedIds(s)[i]) && s[IndexOf(s, SubmittedIds(s)[i])].priority == i + 1
    {
      assert Sort(s)[i] in s;
      var a :| 0 <= a < |s| && s[a] == Sort(s)[i];
      IndexIs(s, a);
    }
  }
}

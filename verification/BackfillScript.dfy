/** The migration script itself: database calls that may throw, the loop, and the validator. */
module BackfillScript {
  import opened Optional
  import opened BackfillTables
  import opened Backfill
  import opened BackfillProperties

  /**
   * The database as the script sees it. Every call either takes full effect or throws
   * without any, which `None` and `false` stand for; the parameter `throws` says which.
   */
  class Database {
    var responses: map<ResponseId, ResponseRow>
    var discussions: map<DiscussionId, Discussion>
    var activities: map<(DiscussionId, UserId), Activity>
    var nextId: DiscussionId

    function View(): Tables
      reads this
    {
      Tables(responses, discussions, activities, nextId)
    }

    constructor (tables: Tables)
      ensures View() == tables
    {
      responses, discussions, activities := tables.responses, tables.discussions, tables.activities;
      nextId := tables.nextId;
    }

    method CreateDiscussion(t: Topic, throws: bool) returns (id: Option<DiscussionId>)
      requires t.responses != []
      modifies this
      ensures id == if throws then None else Some(old(nextId))
      ensures View() == if throws then old(View()) else Created(old(View()), t)
    {
      if throws {
        return None;
      }
      var last := t.responses[|t.responses| - 1];
      id := Some(nextId);
      discussions := discussions[
        nextId := Discussion(t.id, t.creatorId, t.title, ACTIVE, |t.responses|, 0, last.createdAt)];
      nextId := nextId + 1;
    }

    method LinkResponses(ids: set<ResponseId>, d: DiscussionId, throws: bool) returns (count: Option<nat>)
      modifies this`responses
      ensures count == if throws then None else Some(|ids * old(responses).Keys|)
      ensures View() == if throws then old(View()) else Linked(old(View()), ids, d)
    {
      if throws {
        return None;
      }
      count := Some(|ids * responses.Keys|);
      responses := Linked(View(), ids, d).responses;
    }

    method GroupByAuthor(d: DiscussionId, throws: bool) returns (groups: Option<map<UserId, Activity>>)
      ensures groups == if throws then None else Some(Groups(View(), d))
    {
      groups := if throws then None else Some(Groups(View(), d));
    }

    method CreateActivities(d: DiscussionId, groups: map<UserId, Activity>, throws: bool) returns (ok: bool)
      modifies this`activities
      ensures ok == !throws
      ensures View() == if throws then old(View()) else WithActivities(old(View()), d, groups)
    {
      ok := !throws;
      if ok {
        activities := WithActivities(View(), d, groups).activities;
      }
    }

    method UpdateParticipantCount(d: DiscussionId, n: nat, throws: bool) returns (ok: bool)
      modifies this`discussions
      ensures ok == !throws
      ensures View() == if throws then old(View()) else WithCount(old(View()), d, n)
    {
      ok := !throws;
      if ok {
        discussions := WithCount(View(), d, n).discussions;
      }
    }
  }

  lemma CreatingKeepsResponses(tables: Tables, topic: Topic)
    requires topic.responses != []
    ensures Created(tables, topic).responses == tables.responses
  {
  }

  /** The statistics after what one topic's calls did, once an error thrown by one is recorded. */
  function Caught(stats: Stats, topic: Topic, thrown: Option<Call>): Stats {
    match thrown
    case None => stats
    case Some(call) => WithError(stats, topic, call)
  }

  lemma EveryCall(fault: Option<Call>)
    ensures fault in {None, Some(CreateDiscussion), Some(LinkResponses), Some(GroupResponses),
                      Some(CreateActivities), Some(UpdateCount)}
  {
    match fault {
      case None =>
      case Some(call) =>
        match call {
          case CreateDiscussion =>
          case LinkResponses =>
          case GroupResponses =>
          case CreateActivities =>
          case UpdateCount =>
        }
    }
  }

  /** Where the calls for one topic can end: the tables, and the statistics without the error. */
  lemma Ends(p: Progress, t: Topic, s1: Stats, s2: Stats, s3: Stats)
    requires t.responses != []
    requires s1 == p.stats.(discussionsCreated := p.stats.discussionsCreated + 1)
    requires s2 == s1.(responsesLinked := s1.responsesLinked + |IdsOf(t) * p.db.responses.Keys|)
    requires s3 == s2.(participantActivitiesCreated :=
                         s2.participantActivitiesCreated + |Groups(AfterLinking(p.db, t), p.db.nextId)|)
    ensures Process(p, t, Some(CreateDiscussion)) == Progress(p.db, WithError(p.stats, t, CreateDiscussion))
    ensures Process(p, t, Some(LinkResponses)) == Progress(Created(p.db, t), WithError(s1, t, LinkResponses))
    ensures Process(p, t, Some(GroupResponses)) == Progress(AfterLinking(p.db, t), WithError(s2, t, GroupResponses))
    ensures Process(p, t, Some(CreateActivities))
            == Progress(AfterLinking(p.db, t), WithError(s2, t, CreateActivities))
    ensures Process(p, t, Some(UpdateCount)) == Progress(AfterActivities(p.db, t), WithError(s3, t, UpdateCount))
    ensures Process(p, t, None)
            == Progress(AfterCounting(p.db, t), s3.(topicsProcessed := s3.topicsProcessed + 1))
  {
    hide Groups, AfterLinking, AfterActivities, AfterCounting, Created, IdsOf, WithError;
  }

  /** The calls for one topic, when `fault` throws: it is thrown on, and the calls after it are skipped. */
  method MakeDiscussion(db: Database, topic: Topic, fault: Option<Call>, stats: Stats)
    returns (stats': Stats, thrown: Option<Call>)
    requires topic.responses != []
    modifies db
    ensures thrown == fault
    ensures Progress(db.View(), Caught(stats', topic, thrown)) == Process(Progress(old(db.View()), stats), topic, fault)
  {
    hide Created, Linked, Groups, WithActivities, WithCount, IdsOf, WithError, Process;
    ghost var before := db.View();
    CreatingKeepsResponses(before, topic);
    stats' := stats;
    var discussion := db.CreateDiscussion(topic, fault == Some(CreateDiscussion));
    ghost var s1 := stats'.(discussionsCreated := stats'.discussionsCreated + 1);
    ghost var s2 := s1.(responsesLinked := s1.responsesLinked + |IdsOf(topic) * before.responses.Keys|);
    ghost var s3 := s2.(participantActivitiesCreated :=
      s2.participantActivitiesCreated + |Groups(AfterLinking(before, topic), before.nextId)|);
    Ends(Progress(before, stats), topic, s1, s2, s3);
    if discussion.None? {
      return stats', Some(CreateDiscussion);
    }
    stats' := stats'.(discussionsCreated := stats'.discussionsCreated + 1);
    var count := db.LinkResponses(IdsOf(topic), discussion.value, fault == Some(LinkResponses));
    if count.None? {
      return stats', Some(LinkResponses);
    }
    stats' := stats'.(responsesLinked := stats'.responsesLinked + count.value);
    assert db.View() == AfterLinking(before, topic);
    var participants := db.GroupByAuthor(discussion.value, fault == Some(GroupResponses));
    if participants.None? {
      return stats', Some(GroupResponses);
    }
    var created := db.CreateActivities(discussion.value, participants.value, fault == Some(CreateActivities));
    if !created {
      return stats', Some(CreateActivities);
    }
    stats' := stats'.(participantActivitiesCreated := stats'.participantActivitiesCreated + |participants.value|);
    assert db.View() == AfterActivities(before, topic);
    var updated := db.UpdateParticipantCount(discussion.value, |participants.value|, fault == Some(UpdateCount));
    if !updated {
      return stats', Some(UpdateCount);
    }
    stats' := stats'.(topicsProcessed := stats'.topicsProcessed + 1);
    assert db.View() == AfterCounting(before, topic);
    EveryCall(fault);
    thrown := None;
  }

  /** The body of the loop: an error thrown for the topic is caught and recorded. */
  method ProcessTopic(db: Database, topic: Topic, fault: Option<Call>, stats: Stats) returns (stats': Stats)
    modifies db
    ensures Progress(db.View(), stats') == Process(Progress(old(db.View()), stats), topic, fault)
  {
    hide Groups, AfterLinking, AfterActivities, AfterCounting, Created, IdsOf;
    if |topic.responses| == 0 {
      stats' := stats.(topicsProcessed := stats.topicsProcessed + 1);
      return;
    }
    var thrown;
    stats', thrown := MakeDiscussion(db, topic, fault, stats);
    if thrown.Some? {
      stats' := stats'.(errors := stats'.errors + [(topic.id, thrown.value)]);
    }
  }

  /**
   * The loop over the fetched topics, when `faults` says which call throws for each; a topic
   * that fails does not stop it.
   */
  method BackfillDiscussions(db: Database, topics: seq<Topic>, faults: seq<Option<Call>>) returns (stats: Stats)
    requires Fetch(db.View(), topics) && |faults| == |topics|
    modifies db
    ensures Progress(db.View(), stats) == Run(Start(old(db.View())), topics, faults)
    ensures Counts(old(db.View()), Progress(db.View(), stats), |topics|)
    ensures OnlyLinked(old(db.View()), db.View()) && OldRowsKept(old(db.View()), db.View())
    ensures stats.errors == [] <==> forall i :: 0 <= i < |topics| ==> !Failed(topics, faults, i)
  {
    hide Process, Fetch, Reached, OnlyLinked, OldRowsKept, WellFormed, Failed;
    ghost var before := db.View();
    stats := NO_STATS;
    for i := 0 to |topics|
      invariant Progress(db.View(), stats) == Run(Start(before), topics[..i], faults[..i])
    {
      stats := ProcessTopic(db, topics[i], faults[i], stats);
      RunOneMore(Start(before), topics, faults, i);
    }
    assert topics[..|topics|] == topics && faults[..|topics|] == faults;
    StatisticsAreTrue(before, topics, faults, |topics|);
    RunOnlyLinks(before, topics, faults, |topics|);
    ErrorsReported(before, topics, faults);
  }

  /** The validator, when its two queries throw or not; one that throws makes it answer no. */
  method ValidateBackfill(db: Database, countThrows: bool, findThrows: bool) returns (valid: bool)
    ensures valid <==> !countThrows && Unlinked(db.View()) == {} && !findThrows && AllCountsMatch(db.View())
  {
    if countThrows {
      return false;
    }
    var orphanedCount := |Unlinked(db.View())|;
    if orphanedCount > 0 {
      return false;
    }
    if findThrows {
      return false;
    }
    var rest, countMismatches := db.discussions.Keys, 0;
    while rest != {}
      invariant rest <= db.discussions.Keys
      invariant countMismatches >= 0
      invariant countMismatches == 0 <==> forall d :: d in db.discussions.Keys - rest ==> CountsMatch(db.View(), d)
      decreases rest
    {
      var id :| id in rest;
      var discussion := db.discussions[id];
      if discussion.responseCount != |RowsOf(db.View(), id)| {
        countMismatches := countMismatches + 1;
      }
      if discussion.participantCount != |ActiveUsers(db.View(), id)| {
        countMismatches := countMismatches + 1;
      }
      assert db.discussions.Keys - (rest - {id}) == (db.discussions.Keys - rest) + {id};
      rest := rest - {id};
    }
    return countMismatches == 0;
  }

  /**
   * The script as a whole. It ends in success if and only if no call threw, neither for a topic
   * with responses nor in the validator, and the counts stored before the run were right.
   */
  method RunScript(db: Database, topics: seq<Topic>, faults: seq<Option<Call>>, countThrows: bool, findThrows: bool)
    returns (success: bool)
    requires FindMany(db.View(), topics) && |faults| == |topics|
    modifies db
    ensures db.View() == Run(Start(old(db.View())), topics, faults).db
    ensures success
            <==> (forall i :: 0 <= i < |topics| ==> !Failed(topics, faults, i))
                 && !countThrows && !findThrows && AllCountsMatch(old(db.View()))
  {
    hide Run, Fetch, Failed, AllCountsMatch, Counts, OnlyLinked, OldRowsKept;
    ghost var before := db.View();
    var stats := BackfillDiscussions(db, topics, faults);
    if |stats.errors| > 0 {
      return false;
    }
    ErrorFreeRunIsAccepted(before, topics, faults);
    success := ValidateBackfill(db, countThrows, findThrows);
  }
}

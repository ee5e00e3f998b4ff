/** Running the backfill again after failures: what a later run repairs, and what nothing repairs. */
module BackfillRetries {
  import opened Optional
  import opened BackfillTables
  import opened Backfill
  import opened BackfillProperties

  // ---------- any number of runs ----------

  /** One run of the backfill: what it fetched, and the call that threw for each topic. */
  datatype Attempt = Attempt(topics: seq<Topic>, faults: seq<Option<Call>>)

  ghost predicate Possible(db: Tables, a: Attempt) {
    FindMany(db, a.topics) && |a.faults| == |a.topics|
  }

  ghost function After(db: Tables, a: Attempt): Progress
    requires |a.faults| == |a.topics|
  {
    Run(Start(db), a.topics, a.faults)
  }

  /** The runs `attempts`, one after the other, lead from `db` to `db'`. */
  ghost predicate Attempts(db: Tables, attempts: seq<Attempt>, db': Tables)
    decreases |attempts|
  {
    if attempts == [] then db' == db
    else Possible(db, attempts[0]) && Attempts(After(db, attempts[0]).db, attempts[1..], db')
  }

  lemma LaterRowsKept(db0: Tables, db1: Tables, db2: Tables)
    requires OnlyLinked(db0, db1) && OldRowsKept(db0, db1) && OnlyLinked(db1, db2) && OldRowsKept(db1, db2)
    ensures OnlyLinked(db0, db2) && OldRowsKept(db0, db2)
  {
    forall r | r in db0.responses && db0.responses[r].discussionId.None? && db2.responses[r].discussionId.Some?
      ensures db0.nextId <= db2.responses[r].discussionId.value
      ensures db2.responses[r].discussionId.value in db2.discussions
      ensures db2.discussions[db2.responses[r].discussionId.value].topicId == db0.responses[r].topicId
    {
      if db1.responses[r].discussionId.Some? {
        var d := db1.responses[r].discussionId.value;
        assert d in db1.discussions;
      }
    }
    forall d | d in db2.discussions && d !in db0.discussions ensures db0.nextId <= d {
      if d in db1.discussions {
        assert db0.nextId <= d;
      }
    }
    forall k | k in db2.activities && k !in db0.activities ensures db0.nextId <= k.0 {
      if k in db1.activities {
        assert db0.nextId <= k.0;
      }
    }
  }

  lemma AttemptKeepsRows(db: Tables, a: Attempt)
    requires Possible(db, a)
    ensures WellFormed(After(db, a).db) && OnlyLinked(db, After(db, a).db) && OldRowsKept(db, After(db, a).db)
  {
    hide Run, WellFormed, OnlyLinked, OldRowsKept, LinkedSoFar, AllMade, Fetch;
    WholeRunReaches(db, a.topics, a.faults);
  }

  lemma {:induction false} AttemptsKeepRows(db: Tables, attempts: seq<Attempt>, db': Tables)
    requires WellFormed(db) && Attempts(db, attempts, db')
    ensures WellFormed(db') && OnlyLinked(db, db') && OldRowsKept(db, db')
    decreases |attempts|
  {
    if attempts == [] {
      NothingKeepsRows(db);
    } else {
      hide WellFormed, OnlyLinked, OldRowsKept, FindMany, After;
      var db1 := After(db, attempts[0]).db;
      AttemptKeepsRows(db, attempts[0]);
      AttemptsKeepRows(db1, attempts[1..], db');
      LaterRowsKept(db, db1, db');
    }
  }

  lemma NothingKeepsRows(db: Tables)
    ensures OnlyLinked(db, db) && OldRowsKept(db, db)
  {
  }

  // ---------- the verdict after retries ----------

  ghost predicate AllCounted(attempts: seq<Attempt>) {
    forall a :: a in attempts ==> |a.faults| == |a.topics| && Counted(a.topics, a.faults)
  }

  lemma {:induction false} CountsAfterAttempts(db: Tables, attempts: seq<Attempt>, db': Tables)
    requires Attempts(db, attempts, db')
    ensures AllCountsMatch(db') <==> AllCountsMatch(db) && AllCounted(attempts)
    decreases |attempts|
  {
    hide AllCountsMatch, Counted, Run, Fetch;
    if attempts != [] {
      var a := attempts[0];
      CountsAfterRun(db, a.topics, a.faults);
      CountsAfterAttempts(After(db, a).db, attempts[1..], db');
      assert attempts == [a] + attempts[1..];
    }
  }

  /**
   * The verdict after any number of runs of which the last one has no errors: the validator
   * accepts exactly when the counts were sound at the start and no run failed in linking or in
   * the final count. Such a failure is for good, any other one is forgotten.
   */
  lemma {:induction false} RetriesVerdictIff(db: Tables, attempts: seq<Attempt>, db': Tables, last: Attempt)
    requires Attempts(db, attempts, db') && Possible(db', last) && After(db', last).stats.errors == []
    ensures Accepts(After(db', last).db) <==> AllCountsMatch(db) && AllCounted(attempts)
  {
    hide Attempts, AllCountsMatch, Accepts, Run, FindMany, AllCounted;
    CountsAfterAttempts(db, attempts, db');
    ErrorFreeRunIsAccepted(db', last.topics, last.faults);
  }

  /** For one rerun: an error-free one is accepted exactly when the first run failed in neither call. */
  lemma RerunVerdictIff(db: Tables, first: Attempt, second: Attempt)
    requires Possible(db, first) && Possible(After(db, first).db, second)
    requires After(After(db, first).db, second).stats.errors == []
    ensures Accepts(After(After(db, first).db, second).db)
            <==> AllCountsMatch(db)
                 && forall i :: 0 <= i < |first.topics| && first.topics[i].responses != [] ==>
                      first.faults[i] != Some(LinkResponses) && first.faults[i] != Some(UpdateCount)
  {
    hide FindMany, After, AllCountsMatch, Accepts;
    assert Attempts(db, [first], After(db, first).db) by {
      assert [first][1..] == [];
      assert Attempts(After(db, first).db, [], After(db, first).db);
    }
    RetriesVerdictIff(db, [first], After(db, first).db, second);
    assert AllCounted([first]) <==> Counted(first.topics, first.faults) by {
      assert first in [first] && forall a :: a in [first] ==> a == first;
    }
  }

  // ---------- the gap that the validator does not see ----------

  /** The discussion has responses and not one participant. */
  ghost predicate Gapped(db: Tables, d: DiscussionId) {
    d in db.discussions && RowsOf(db, d) != {} && ActiveUsers(db, d) == {}
  }

  /** Grouping or recording the activities of a topic with responses threw. */
  predicate LeavesGap(t: Topic, fault: Option<Call>) {
    t.responses != [] && (fault == Some(GroupResponses) || fault == Some(CreateActivities))
  }

  /** What belongs to a discussion is the same after later runs. */
  lemma DiscussionKept(db0: Tables, db: Tables, d: DiscussionId)
    requires WellFormed(db0) && OnlyLinked(db0, db) && OldRowsKept(db0, db) && d in db0.discussions
    ensures d in db.discussions && db.discussions[d] == db0.discussions[d]
    ensures RowsOf(db, d) == RowsOf(db0, d) && ActiveUsers(db, d) == ActiveUsers(db0, d)
    ensures ActivitiesOf(db, d) == ActivitiesOf(db0, d)
    ensures RowsOf(db, d) <= db.responses.Keys && RowsOf(db0, d) <= db0.responses.Keys
    ensures Authors(db.responses, RowsOf(db, d)) == Authors(db0.responses, RowsOf(db0, d))
  {
    assert RowsOf(db, d) == RowsOf(db0, d);
    assert ActiveUsers(db, d) == ActiveUsers(db0, d) by {
      forall u ensures u in ActiveUsers(db, d) <==> u in ActiveUsers(db0, d) {
        UserIsActive(db, d, u);
        UserIsActive(db0, d, u);
        assert d < db0.nextId;
      }
    }
  }

  lemma GapOfMade(db0: Tables, db: Tables, t: Topic, fault: Option<Call>, d: DiscussionId)
    requires IdsOf(t) <= db0.responses.Keys && Made(db0, db, t, fault, d)
    ensures Gapped(db, d) <==> LeavesGap(t, fault)
  {
    hide ActivitiesMade, Authors, RowsOf, ActiveUsers;
    assert t.responses[0].id in IdsOf(t);
    NewUsers(db0, db, t, fault, d);
    if fault.Some? {
      match fault.value {
        case CreateDiscussion =>
        case LinkResponses =>
        case GroupResponses =>
        case CreateActivities =>
        case UpdateCount =>
      }
    }
  }

  lemma MadeWithTopic(db0: Tables, db: Tables, t: Topic, fault: Option<Call>, d: DiscussionId)
    requires IdsOf(t) <= db0.responses.Keys && Made(db0, db, t, fault, d)
    ensures d in db.discussions && db.discussions[d].topicId == t.id
    ensures t.responses != [] && fault != Some(CreateDiscussion)
  {
    hide RowsOf, ActivitiesMade, Authors;
  }

  /** The topic that a new discussion was made for is the one that it names. */
  lemma MadeForItsTopic(db: Tables, a: Attempt, i: nat, d: DiscussionId)
    requires Possible(db, a) && i < |a.topics|
    requires d in After(db, a).db.discussions && d !in db.discussions
    requires After(db, a).db.discussions[d].topicId == a.topics[i].id
    ensures IdsOf(a.topics[i]) <= db.responses.Keys && Made(db, After(db, a).db, a.topics[i], a.faults[i], d)
  {
    hide Run, OnlyLinked, OldRowsKept, LinkedSoFar, FetchedWith, WellFormed, Made;
    var after := After(db, a).db;
    WholeRunReaches(db, a.topics, a.faults);
    assert MadeBySome(db, after, a.topics, a.faults, d);
    var j :| 0 <= j < |a.faults| && Made(db, after, a.topics[j], a.faults[j], d);
    MadeWithTopic(db, after, a.topics[j], a.faults[j], d);
    assert j == i;
  }

  /**
   * After a run and any number of later ones, a discussion that the run made has responses and
   * no participant exactly when grouping or recording activities threw for its topic.
   */
  lemma {:induction false} GapIff(db: Tables, a: Attempt, i: nat, d: DiscussionId, later: seq<Attempt>, db': Tables)
    requires Possible(db, a) && i < |a.topics|
    requires d in After(db, a).db.discussions && d !in db.discussions
    requires After(db, a).db.discussions[d].topicId == a.topics[i].id
    requires Attempts(After(db, a).db, later, db')
    ensures Gapped(db', d) <==> LeavesGap(a.topics[i], a.faults[i])
  {
    hide FindMany, After, Attempts, WellFormed, OnlyLinked, OldRowsKept, Made, RowsOf, ActiveUsers, LeavesGap;
    MadeForItsTopic(db, a, i, d);
    GapOfMade(db, After(db, a).db, a.topics[i], a.faults[i], d);
    AttemptKeepsRows(db, a);
    AttemptsKeepRows(After(db, a).db, later, db');
    DiscussionKept(After(db, a).db, db', d);
  }

  /** Every topic that leaves a gap has a discussion to show it. */
  lemma GapMade(db: Tables, a: Attempt, i: nat) returns (d: DiscussionId)
    requires Possible(db, a) && i < |a.topics| && LeavesGap(a.topics[i], a.faults[i])
    ensures d in After(db, a).db.discussions && d !in db.discussions
    ensures Gapped(After(db, a).db, d)
  {
    hide Run, OnlyLinked, OldRowsKept, LinkedSoFar, FetchedWith, WellFormed, ActivitiesMade, RowsOf, Gapped, Authors;
    var after := After(db, a).db;
    WholeRunReaches(db, a.topics, a.faults);
    assert MadeFor(db, after, a.topics[i], a.faults[i]);
    d :| d !in db.discussions && Made(db, after, a.topics[i], a.faults[i], d);
    GapOfMade(db, after, a.topics[i], a.faults[i], d);
  }

  lemma GapHasTopic(db: Tables, a: Attempt, d: DiscussionId) returns (i: nat)
    requires Possible(db, a) && Gapped(After(db, a).db, d) && d !in db.discussions
    ensures i < |a.topics| && LeavesGap(a.topics[i], a.faults[i])
  {
    hide Run, OnlyLinked, OldRowsKept, LinkedSoFar, FetchedWith, WellFormed;
    hide ActivitiesMade, RowsOf, Authors, ActiveUsers;
    var after := After(db, a).db;
    WholeRunReaches(db, a.topics, a.faults);
    assert MadeBySome(db, after, a.topics, a.faults, d);
    i :| 0 <= i < |a.faults| && Made(db, after, a.topics[i], a.faults[i], d);
    GapOfMade(db, after, a.topics[i], a.faults[i], d);
  }

  lemma NoGapWithoutErrors(db: Tables, a: Attempt, i: nat)
    requires |a.faults| == |a.topics| && After(db, a).stats.errors == [] && i < |a.topics|
    ensures !LeavesGap(a.topics[i], a.faults[i])
  {
    ErrorsReported(db, a.topics, a.faults);
    assert !Failed(a.topics, a.faults, i);
  }

  /** A run leaves a gap that is still there after an error-free second one exactly when some topic failed so. */
  lemma {:induction false} GapAfterRerunIff(db: Tables, first: Attempt, second: Attempt)
    requires Possible(db, first) && Possible(After(db, first).db, second)
    requires After(After(db, first).db, second).stats.errors == []
    ensures (exists d :: d !in db.discussions && Gapped(After(After(db, first).db, second).db, d))
            <==> exists i :: 0 <= i < |first.topics| && LeavesGap(first.topics[i], first.faults[i])
  {
    hide FindMany, After, WellFormed, OnlyLinked, RowsOf, ActiveUsers, LeavesGap;
    var db1, db2 := After(db, first).db, After(After(db, first).db, second).db;
    AttemptKeepsRows(db, first);
    AttemptKeepsRows(db1, second);
    if i :| 0 <= i < |first.topics| && LeavesGap(first.topics[i], first.faults[i]) {
      var d := GapMade(db, first, i);
      DiscussionKept(db1, db2, d);
      assert Gapped(db2, d);
    }
    if d :| d !in db.discussions && Gapped(db2, d) {
      if d in db1.discussions {
        DiscussionKept(db1, db2, d);
        var i := GapHasTopic(db, first, d);
      } else {
        var i := GapHasTopic(db1, second, d);
        NoGapWithoutErrors(db1, second, i);
      }
    }
  }

  /**
   * The gap in re-running, exactly: after an error-free rerun the validator accepts although some
   * discussion made since the start has responses but not one participant, if and only if the
   * counts were sound at the start, the first run did not fail in linking or in a final count,
   * and it did fail in grouping or in recording the activities of some topic.
   */
  lemma {:induction false} UnnoticedGapIff(db: Tables, first: Attempt, second: Attempt)
    requires Possible(db, first) && Possible(After(db, first).db, second)
    requires After(After(db, first).db, second).stats.errors == []
    ensures Accepts(After(After(db, first).db, second).db)
            && (exists d :: d !in db.discussions && Gapped(After(After(db, first).db, second).db, d))
            <==> AllCountsMatch(db)
                 && Counted(first.topics, first.faults)
                 && exists i :: 0 <= i < |first.topics| && LeavesGap(first.topics[i], first.faults[i])
  {
    hide FindMany, After, Accepts, AllCountsMatch, Gapped, LeavesGap;
    RerunVerdictIff(db, first, second);
    GapAfterRerunIff(db, first, second);
  }

  // ---------- what a retry repairs ----------

  /** Every discussion made since `db0` carries exact metrics. */
  ghost predicate NewMetricsAgree(db0: Tables, db: Tables) {
    forall d :: d in db.discussions && d !in db0.discussions ==> MetricsAgree(db, d)
  }

  /** For every topic with responses all calls went through, or the first one threw. */
  predicate AllOrNothing(topics: seq<Topic>, faults: seq<Option<Call>>)
    requires |faults| == |topics|
  {
    forall i :: 0 <= i < |topics| && topics[i].responses != [] ==>
      faults[i] == None || faults[i] == Some(CreateDiscussion)
  }

  /** A discussion whose calls did not all go through has metrics that contradict each other. */
  lemma BrokenMetrics(db0: Tables, db: Tables, t: Topic, fault: Option<Call>, d: DiscussionId)
    requires FetchedWith(db0, t) && IdsOf(t) <= db0.responses.Keys && OnlyLinked(db0, db)
    requires Made(db0, db, t, fault, d) && fault.Some?
    ensures !MetricsAgree(db, d)
  {
    hide OldRowsKept, Contribution, OnlyLinked, FetchedWith, GroupByAuthor, IdsOf, RowsOf, ActivitiesMade, Authors;
    TopicSize(db0, t);
    NewUsers(db0, db, t, fault, d);
    ActivitiesByUser(db, d);
    SameAuthors(db0, db, IdsOf(t));
    match fault.value {
      case CreateDiscussion =>
      case LinkResponses =>
      case GroupResponses =>
      case CreateActivities =>
      case UpdateCount =>
    }
  }

  lemma ActivitiesByUser(db: Tables, d: DiscussionId)
    ensures ActivitiesOf(db, d).Keys == ActiveUsers(db, d) && |ActivitiesOf(db, d)| == |ActiveUsers(db, d)|
  {
    forall u { UserIsActive(db, d, u); }
    assert ActivitiesOf(db, d).Keys == ActiveUsers(db, d);
    assert |ActivitiesOf(db, d)| == |ActivitiesOf(db, d).Keys|;
  }

  lemma {:induction false} MetricsAfterRun(db: Tables, a: Attempt)
    requires Possible(db, a)
    ensures NewMetricsAgree(db, After(db, a).db) <==> AllOrNothing(a.topics, a.faults)
  {
    hide Run, OldRowsKept, LinkedSoFar, FetchedWith, WellFormed, Made, MetricsAgree, OnlyLinked;
    var after := After(db, a).db;
    WholeRunReaches(db, a.topics, a.faults);
    if !AllOrNothing(a.topics, a.faults) {
      var i :| 0 <= i < |a.topics| && a.topics[i].responses != [] && a.faults[i] !in {None, Some(CreateDiscussion)};
      assert MadeFor(db, after, a.topics[i], a.faults[i]);
      var d :| d !in db.discussions && Made(db, after, a.topics[i], a.faults[i], d);
      BrokenMetrics(db, after, a.topics[i], a.faults[i], d);
      MadeWithTopic(db, after, a.topics[i], a.faults[i], d);
    } else {
      forall d | d in after.discussions && d !in db.discussions ensures MetricsAgree(after, d) {
        assert MadeBySome(db, after, a.topics, a.faults, d);
        var i :| 0 <= i < |a.faults| && Made(db, after, a.topics[i], a.faults[i], d);
        MadeWithTopic(db, after, a.topics[i], a.faults[i], d);
        MadeMetrics(db, after, a.topics[i], d);
      }
    }
  }

  lemma MetricsKept(db0: Tables, db: Tables, d: DiscussionId)
    requires WellFormed(db0) && OnlyLinked(db0, db) && OldRowsKept(db0, db) && d in db0.discussions
    ensures d in db.discussions && (MetricsAgree(db, d) <==> MetricsAgree(db0, d))
  {
    DiscussionKept(db0, db, d);
    hide WellFormed, OnlyLinked, OldRowsKept, RowsOf, ActivitiesOf, Authors;
  }

  /** Splitting the time since `db0` at `db1`. */
  lemma NewMetricsSplit(db0: Tables, db1: Tables, db2: Tables)
    requires WellFormed(db1) && OldRowsKept(db0, db1) && OnlyLinked(db1, db2) && OldRowsKept(db1, db2)
    ensures NewMetricsAgree(db0, db2) <==> NewMetricsAgree(db0, db1) && NewMetricsAgree(db1, db2)
  {
    hide MetricsAgree, OnlyLinked;
    forall d | d in db1.discussions ensures d in db2.discussions && (MetricsAgree(db2, d) <==> MetricsAgree(db1, d)) {
      MetricsKept(db1, db2, d);
    }
  }

  ghost predicate AllOrNothingAlways(attempts: seq<Attempt>) {
    forall a :: a in attempts ==> |a.faults| == |a.topics| && AllOrNothing(a.topics, a.faults)
  }

  lemma {:induction false} MetricsAfterAttempts(db: Tables, attempts: seq<Attempt>, db': Tables)
    requires WellFormed(db) && Attempts(db, attempts, db')
    ensures NewMetricsAgree(db, db') <==> AllOrNothingAlways(attempts)
    decreases |attempts|
  {
    hide AllOrNothing, Run, FindMany, MetricsAgree, WellFormed, OnlyLinked, OldRowsKept;
    if attempts != [] {
      var a := attempts[0];
      var db1 := After(db, a).db;
      AttemptKeepsRows(db, a);
      AttemptsKeepRows(db1, attempts[1..], db');
      MetricsAfterRun(db, a);
      MetricsAfterAttempts(db1, attempts[1..], db');
      NewMetricsSplit(db, db1, db');
      assert attempts == [a] + attempts[1..];
    }
  }

  /**
   * What retrying repairs: after any number of runs of which the last one has no errors, every
   * response is linked, and every discussion made on the way has exact metrics if and only if no
   * run ever failed for a topic after creating its discussion.
   */
  lemma {:induction false} RetriesRepairIff(db: Tables, attempts: seq<Attempt>, db': Tables, last: Attempt)
    requires WellFormed(db) && Attempts(db, attempts, db') && Possible(db', last)
    requires After(db', last).stats.errors == []
    ensures Unlinked(After(db', last).db) == {}
    ensures NewMetricsAgree(db, After(db', last).db) <==> AllOrNothingAlways(attempts)
  {
    hide Attempts, Run, FindMany, WellFormed, OnlyLinked, OldRowsKept, Unlinked, NewMetricsAgree, AllOrNothingAlways;
    var after := After(db', last).db;
    ErrorFreeIsComplete(db', last);
    AttemptsKeepRows(db, attempts, db');
    AttemptKeepsRows(db', last);
    MetricsAfterAttempts(db, attempts, db');
    MetricsAfterRun(db', last);
    NewMetricsSplit(db, db', after);
  }

  lemma ErrorFreeIsComplete(db: Tables, a: Attempt)
    requires Possible(db, a) && After(db, a).stats.errors == []
    ensures AllOrNothing(a.topics, a.faults) && Unlinked(After(db, a).db) == {}
  {
    hide Run, FindMany, Unlinked;
    ErrorsReported(db, a.topics, a.faults);
    forall i | 0 <= i < |a.topics| && a.topics[i].responses != [] ensures a.faults[i] == None {
      assert !Failed(a.topics, a.faults, i);
    }
    AllLinkedIff(db, a.topics, a.faults);
  }

  // ---------- at concrete tables ----------

  lemma FetchedOne(db: Tables, t: Topic)
    requires WellFormed(db) && FetchedWith(db, t) && forall r :: r in Unlinked(db) ==> db.responses[r].topicId == t.id
    ensures FindMany(db, [t])
  {
    assert [t][0] == t;
  }

  /**
   * Such a gap, from one topic with one response on: grouping throws in the first run, the second
   * run reports nothing, and the validator accepts a discussion without participants.
   */
  lemma GapWitness() returns (db: Tables, first: Attempt, second: Attempt)
    ensures Possible(db, first) && first.faults == [Some(GroupResponses)]
    ensures Possible(After(db, first).db, second) && After(After(db, first).db, second).stats.errors == []
    ensures Accepts(After(After(db, first).db, second).db)
    ensures exists d :: Gapped(After(After(db, first).db, second).db, d)
  {
    hide Run, AllCountsMatch, Accepts, Reached, Gapped, Unlinked;
    db := Tables(map["r" := ResponseRow("t", "u", 0, None)], map[], map[], 0);
    first := Attempt([Topic("t", "u", "title", [Fetched("r", 0)])], [Some(GroupResponses)]);
    second := Attempt([Topic("t", "u", "title", [])], [None]);
    OneUnlinked(db, first.topics[0]);
    NoDiscussions(db);
    var after := After(db, first).db;
    AllLinkedIff(db, first.topics, first.faults);
    AttemptKeepsRows(db, first);
    NoneUnlinked(after, second.topics[0]);
    RunWhenAllLinked(after, second.topics, second.faults);
    assert LeavesGap(first.topics[0], first.faults[0]);
    UnnoticedGapIff(db, first, second);
  }

  lemma OneUnlinked(db: Tables, t: Topic)
    requires db == Tables(map["r" := ResponseRow("t", "u", 0, None)], map[], map[], 0)
    requires t == Topic("t", "u", "title", [Fetched("r", 0)])
    ensures FindMany(db, [t])
  {
    FetchedOne(db, t);
  }

  lemma NoneUnlinked(db: Tables, t: Topic)
    requires WellFormed(db) && Unlinked(db) == {} && t.responses == []
    ensures FindMany(db, [t])
  {
    FetchedOne(db, t);
  }

  lemma NoDiscussions(db: Tables)
    requires db.discussions == map[]
    ensures AllCountsMatch(db)
  {
  }
}

/** The results about whole backfill runs and about the validator that follows them. */
module BackfillProperties {
  import opened Optional
  import opened BackfillTables
  import opened Backfill
  import opened SetSizes

  lemma {:induction false} DistinctIds(fs: seq<Fetched>)
    requires forall i, j :: 0 <= i < j < |fs| ==> fs[i].id != fs[j].id
    ensures |set f | f in fs :: f.id| == |fs|
  {
    if fs != [] {
      var n := |fs| - 1;
      DistinctIds(fs[..n]);
      assert fs == fs[..n] + [fs[n]];
      assert (set f | f in fs :: f.id) == (set f | f in fs[..n] :: f.id) + {fs[n].id};
      assert fs[n].id !in (set f | f in fs[..n] :: f.id);
    }
  }

  lemma TopicSize(db: Tables, t: Topic)
    requires FetchedWith(db, t)
    ensures |IdsOf(t)| == |t.responses|
  {
    DistinctIds(t.responses);
  }

  // ---------- the statistics ----------

  /** Every counter tells the truth about the tables, at every point of the run. */
  ghost predicate Counts(db0: Tables, p: Progress, visited: nat) {
    && p.stats.topicsProcessed + |p.stats.errors| == visited
    && |Unlinked(p.db)| + p.stats.responsesLinked == |Unlinked(db0)|
    && |p.db.discussions| == |db0.discussions| + p.stats.discussionsCreated
    && |p.db.activities| == |db0.activities| + p.stats.participantActivitiesCreated
  }

  lemma UnlinkedAfter(db: Tables, t: Topic, fault: Option<Call>)
    requires forall r :: r in IdsOf(t) ==> r in Unlinked(db)
    ensures Unlinked(TablesAfter(db, t, fault)) == if Links(t, fault) then Unlinked(db) - IdsOf(t) else Unlinked(db)
    ensures IdsOf(t) * db.responses.Keys == IdsOf(t)
  {
    hide TablesAfter;
    TopicRows(db, t, fault);
  }

  lemma DiscussionsAfter(db: Tables, t: Topic, fault: Option<Call>)
    requires db.nextId !in db.discussions
    ensures |TablesAfter(db, t, fault).discussions|
            == |db.discussions| + if t.responses != [] && fault != Some(CreateDiscussion) then 1 else 0
  {
    hide TablesAfter;
    TopicDiscussions(db, t, fault);
    var db', d := TablesAfter(db, t, fault), db.nextId;
    if d in db'.discussions {
      assert db'.discussions.Keys == db.discussions.Keys + {d};
    } else {
      assert db'.discussions.Keys == db.discussions.Keys;
    }
    assert |db'.discussions| == |db'.discussions.Keys| && |db.discussions| == |db.discussions.Keys|;
  }

  /** The topic's activities were recorded. */
  predicate Records(t: Topic, fault: Option<Call>) {
    t.responses != [] && (fault == None || fault == Some(UpdateCount))
  }

  lemma ActivitiesAfter(db: Tables, t: Topic, fault: Option<Call>)
    requires WellFormed(db)
    ensures |TablesAfter(db, t, fault).activities|
            == |db.activities| + if Records(t, fault) then |Groups(AfterLinking(db, t), db.nextId)| else 0
  {
    hide Groups, IdsOf, WellFormed, AfterLinking, AfterActivities;
    if t.responses != [] {
      LinkingKeepsActivities(db, t);
      RecordedActivities(db, t);
    }
  }

  lemma LinkingKeepsActivities(db: Tables, t: Topic)
    requires t.responses != []
    ensures AfterLinking(db, t).activities == db.activities
  {
    hide IdsOf;
  }

  lemma RecordedActivities(db: Tables, t: Topic)
    requires WellFormed(db) && t.responses != []
    ensures |AfterActivities(db, t).activities| == |db.activities| + |Groups(AfterLinking(db, t), db.nextId)|
  {
    hide Groups, IdsOf;
    assert forall k :: k in db.activities ==> k.0 != db.nextId;
    MergedSize(db.activities, db.nextId, Groups(AfterLinking(db, t), db.nextId));
    hide WellFormed, AfterLinking;
  }

  lemma MergedSize(present: map<(DiscussionId, UserId), Activity>, d: DiscussionId, groups: map<UserId, Activity>)
    requires forall k :: k in present ==> k.0 != d
    ensures |ActivityRows(d, groups) + present| == |present| + |groups|
  {
    var added := ActivityRows(d, groups);
    assert added.Keys == Paired(d, groups.Keys);
    PairedSize(d, groups.Keys);
    assert |groups| == |groups.Keys| && |added| == |added.Keys|;
    assert forall k :: k in added ==> k.0 == d;
    assert added.Keys !! present.Keys;
    DisjointSum(added, present);
  }

  lemma CountersAfter(p: Progress, t: Topic, fault: Option<Call>)
    ensures var s, s' := p.stats, Process(p, t, fault).stats;
            var done := t.responses == [] || fault == None;
            && s'.topicsProcessed == s.topicsProcessed + (if done then 1 else 0)
            && |s'.errors| == |s.errors| + (if done then 0 else 1)
            && s'.responsesLinked
               == s.responsesLinked + (if Links(t, fault) then |IdsOf(t) * p.db.responses.Keys| else 0)
            && s'.participantActivitiesCreated
               == s.participantActivitiesCreated
                  + (if Records(t, fault) then |Groups(AfterLinking(p.db, t), p.db.nextId)| else 0)
            && s'.discussionsCreated
               == s.discussionsCreated + (if t.responses != [] && fault != Some(CreateDiscussion) then 1 else 0)
  {
    hide TablesAfter, Groups, AfterLinking, IdsOf;
  }

  lemma StepCounts(db0: Tables, p: Progress, t: Topic, fault: Option<Call>, visited: nat)
    requires Counts(db0, p, visited) && WellFormed(p.db)
    requires forall r :: r in IdsOf(t) ==> r in Unlinked(p.db)
    ensures Counts(db0, Process(p, t, fault), visited + 1)
  {
    hide TablesAfter, StatsAfter, Unlinked, IdsOf, Links, Groups, AfterLinking, Records;
    CountersAfter(p, t, fault);
    ActivitiesAfter(p.db, t, fault);
    UnlinkedAfter(p.db, t, fault);
    DiscussionsAfter(p.db, t, fault);
    SubsetSize(IdsOf(t), Unlinked(p.db));
  }

  /**
   * After any number of topics and any failures: what is linked plus what is not is what
   * was not linked at the start, and every topic was either processed or reported.
   */
  lemma {:induction false} StatisticsAreTrue(db: Tables, topics: seq<Topic>, faults: seq<Option<Call>>, k: nat)
    requires Fetch(db, topics) && |faults| == |topics| && k <= |topics|
    ensures Counts(db, Run(Start(db), topics[..k], faults[..k]), k)
    decreases k
  {
    hide Process, Reached, LinkedSoFar;
    if k > 0 {
      StatisticsAreTrue(db, topics, faults, k - 1);
      StillUnlinked(db, topics, faults, k - 1);
      RunOneMore(Start(db), topics, faults, k - 1);
      StepCounts(db, Run(Start(db), topics[..k - 1], faults[..k - 1]), topics[k - 1], faults[k - 1], k - 1);
    }
  }

  /** When a topic's turn comes, its responses are still unlinked. */
  lemma StillUnlinked(db: Tables, topics: seq<Topic>, faults: seq<Option<Call>>, k: nat)
    requires Fetch(db, topics) && |faults| == |topics| && k < |topics|
    ensures var p := Run(Start(db), topics[..k], faults[..k]);
            && WellFormed(p.db)
            && forall r :: r in IdsOf(topics[k]) ==> r in Unlinked(p.db)
  {
    hide Run, Fetch, AllMade, OnlyLinked, OldRowsKept, LinkedSoFar, IdsOf, Unlinked, WellFormed;
    RunReaches(db, topics, faults, k);
    NextUnlinked(Run(Start(db), topics[..k], faults[..k]).db, topics, faults[..k]);
  }

  /** No response that was linked before is moved, and none goes to another topic's discussion. */
  lemma RunOnlyLinks(db: Tables, topics: seq<Topic>, faults: seq<Option<Call>>, k: nat)
    requires Fetch(db, topics) && |faults| == |topics| && k <= |topics|
    ensures OnlyLinked(db, Run(Start(db), topics[..k], faults[..k]).db)
    ensures OldRowsKept(db, Run(Start(db), topics[..k], faults[..k]).db)
  {
    hide Run, OnlyLinked, OldRowsKept, AllMade, LinkedSoFar, Fetch;
    RunReaches(db, topics, faults, k);
  }

  /** The call that threw while a topic with responses was processed, if one did. */
  predicate Failed(topics: seq<Topic>, faults: seq<Option<Call>>, i: nat)
    requires i < |topics| && i < |faults|
  {
    topics[i].responses != [] && faults[i].Some?
  }

  /** The calls that threw, with their topics, in the order of the topics. */
  function FailedCalls(topics: seq<Topic>, faults: seq<Option<Call>>): seq<(TopicId, Call)>
    requires |faults| == |topics|
  {
    if topics == [] then []
    else
      var n := |topics| - 1;
      FailedCalls(topics[..n], faults[..n])
      + if Failed(topics, faults, n) then [(topics[n].id, faults[n].value)] else []
  }

  /** The error list names each call that threw, and its topic, once and in order. */
  lemma {:induction false} ErrorsNameCalls(db: Tables, topics: seq<Topic>, faults: seq<Option<Call>>)
    requires |faults| == |topics|
    ensures Run(Start(db), topics, faults).stats.errors == FailedCalls(topics, faults)
  {
    hide Process;
    if topics != [] {
      var n := |topics| - 1;
      ErrorsNameCalls(db, topics[..n], faults[..n]);
      ErrorsOf(Run(Start(db), topics[..n], faults[..n]), topics[n], faults[n]);
    }
  }

  lemma ErrorsOf(p: Progress, t: Topic, fault: Option<Call>)
    ensures Process(p, t, fault).stats.errors
            == p.stats.errors + if t.responses != [] && fault.Some? then [(t.id, fault.value)] else []
  {
    hide TablesAfter, Groups, AfterLinking, IdsOf;
  }

  lemma {:induction false} ErrorsReported(db: Tables, topics: seq<Topic>, faults: seq<Option<Call>>)
    requires |faults| == |topics|
    ensures Run(Start(db), topics, faults).stats.errors == []
            <==> forall i :: 0 <= i < |topics| ==> !Failed(topics, faults, i)
  {
    ErrorsNameCalls(db, topics, faults);
    NoneFailedIff(topics, faults);
  }

  lemma {:induction false} NoneFailedIff(topics: seq<Topic>, faults: seq<Option<Call>>)
    requires |faults| == |topics|
    ensures FailedCalls(topics, faults) == [] <==> forall i :: 0 <= i < |topics| ==> !Failed(topics, faults, i)
  {
    if topics != [] {
      var n := |topics| - 1;
      NoneFailedIff(topics[..n], faults[..n]);
      forall i | 0 <= i < n ensures Failed(topics, faults, i) <==> Failed(topics[..n], faults[..n], i) {
      }
      if i :| 0 <= i < n && Failed(topics[..n], faults[..n], i) {
        assert Failed(topics, faults, i);
      }
    }
  }

  // ---------- the validator ----------

  ghost predicate CountsMatch(db: Tables, d: DiscussionId)
    requires d in db.discussions
  {
    && db.discussions[d].responseCount == |RowsOf(db, d)|
    && db.discussions[d].participantCount == |ActiveUsers(db, d)|
  }

  ghost predicate AllCountsMatch(db: Tables) {
    forall d :: d in db.discussions ==> CountsMatch(db, d)
  }

  /** What the validator checks: nothing unlinked, and stored counts equal to actual ones. */
  ghost predicate Accepts(db: Tables) {
    Unlinked(db) == {} && AllCountsMatch(db)
  }

  lemma OldCountsKept(db0: Tables, db: Tables, d: DiscussionId)
    requires WellFormed(db0) && OnlyLinked(db0, db) && OldRowsKept(db0, db)
    requires d in db0.discussions
    ensures d in db.discussions && (CountsMatch(db, d) <==> CountsMatch(db0, d))
  {
    assert RowsOf(db, d) == RowsOf(db0, d);
    assert ActiveUsers(db, d) == ActiveUsers(db0, d) by {
      forall u ensures u in ActiveUsers(db, d) <==> u in ActiveUsers(db0, d) {
        UserIsActive(db, d, u);
        UserIsActive(db0, d, u);
        assert d < db0.nextId;
      }
    }
  }

  lemma UserIsActive(db: Tables, d: DiscussionId, u: UserId)
    ensures u in ActiveUsers(db, d) <==> (d, u) in db.activities
  {
    if (d, u) in db.activities {
      var k := (d, u);
      assert k in db.activities && k.0 == d && k.1 == u;
    }
  }

  /** Faults after which the stored counts and the actual ones still agree. */
  predicate Harmless(fault: Option<Call>) {
    fault == None || fault == Some(GroupResponses) || fault == Some(CreateActivities)
  }

  lemma NewCounts(db0: Tables, db: Tables, t: Topic, fault: Option<Call>, d: DiscussionId)
    requires FetchedWith(db0, t) && IdsOf(t) <= db0.responses.Keys
    requires Made(db0, db, t, fault, d)
    ensures d in db.discussions && (CountsMatch(db, d) <==> Harmless(fault))
  {
    hide ActiveUsers, RowsOf, Authors, ActivitiesMade, IdsOf, FetchedWith;
    TopicSize(db0, t);
    NewUsers(db0, db, t, fault, d);
    match fault {
      case None =>
      case Some(LinkResponses) => assert RowsOf(db, d) == {};
      case Some(GroupResponses) =>
      case Some(CreateActivities) =>
      case Some(UpdateCount) =>
    }
  }

  lemma NewUsers(db0: Tables, db: Tables, t: Topic, fault: Option<Call>, d: DiscussionId)
    requires IdsOf(t) <= db0.responses.Keys && t.responses != []
    requires ActivitiesMade(db0, db, t, fault, d)
    ensures ActiveUsers(db, d)
            == if fault == None || fault == Some(UpdateCount) then Authors(db0.responses, IdsOf(t)) else {}
    ensures |Authors(db0.responses, IdsOf(t))| > 0
  {
    var authors, f := Authors(db0.responses, IdsOf(t)), t.responses[0];
    assert GroupByAuthor(db0.responses, IdsOf(t)).Keys == authors;
    forall u { UserIsActive(db, d, u); }
    assert f.id in IdsOf(t) && db0.responses[f.id].authorId in authors;
  }

  lemma WholeRunReaches(db: Tables, topics: seq<Topic>, faults: seq<Option<Call>>)
    requires Fetch(db, topics) && |faults| == |topics|
    ensures Reached(db, Run(Start(db), topics, faults).db, topics, faults)
  {
    hide Run, Reached, Fetch;
    RunReaches(db, topics, faults, |topics|);
    assert topics[..|topics|] == topics && faults[..|topics|] == faults;
  }

  lemma UnlinkedResponse(db: Tables, topics: seq<Topic>, faults: seq<Option<Call>>, i: nat)
    requires |faults| == |topics| && i < |topics| && LinkedSoFar(db, topics, faults)
    requires topics[i].responses != [] && !Links(topics[i], faults[i])
    ensures Unlinked(db) != {}
  {
    var r := topics[i].responses[0].id;
    assert r in IdsOf(topics[i]);
    assert r in Unlinked(db);
  }

  lemma NothingLeftUnlinked(db0: Tables, db: Tables, topics: seq<Topic>, faults: seq<Option<Call>>)
    requires FindMany(db0, topics) && |faults| == |topics|
    requires OnlyLinked(db0, db) && LinkedSoFar(db, topics, faults)
    requires forall i :: 0 <= i < |topics| && topics[i].responses != [] ==> Links(topics[i], faults[i])
    ensures Unlinked(db) == {}
  {
    forall r | r in db.responses ensures r !in Unlinked(db) {
      if r in Unlinked(db0) {
        var i :| 0 <= i < |topics| && topics[i].id == db0.responses[r].topicId;
        assert FetchedWith(db0, topics[i]);
        assert r in IdsOf(topics[i]);
      }
    }
  }

  /** Every call that a stored count depends on went through, or its discussion was not made at all. */
  predicate Counted(topics: seq<Topic>, faults: seq<Option<Call>>)
    requires |faults| == |topics|
  {
    forall i :: 0 <= i < |topics| && topics[i].responses != [] ==>
      faults[i] != Some(LinkResponses) && faults[i] != Some(UpdateCount)
  }

  lemma UncountedDiscussion(db0: Tables, db: Tables, topics: seq<Topic>, faults: seq<Option<Call>>, i: nat)
    requires Fetch(db0, topics) && |faults| == |topics| && i < |topics|
    requires Reached(db0, db, topics, faults)
    requires topics[i].responses != [] && (faults[i] == Some(LinkResponses) || faults[i] == Some(UpdateCount))
    ensures !AllCountsMatch(db)
  {
    hide CountsMatch, FetchedWith, Made, OnlyLinked, OldRowsKept, LinkedSoFar, WellFormed;
    assert MadeFor(db0, db, topics[i], faults[i]);
    var d :| d !in db0.discussions && Made(db0, db, topics[i], faults[i], d);
    NewCounts(db0, db, topics[i], faults[i], d);
  }

  lemma CountedDiscussion(db0: Tables, db: Tables, topics: seq<Topic>, faults: seq<Option<Call>>, d: DiscussionId)
    requires Fetch(db0, topics) && |faults| == |topics| && Counted(topics, faults)
    requires Reached(db0, db, topics, faults)
    requires d in db.discussions && d !in db0.discussions
    ensures CountsMatch(db, d)
  {
    hide CountsMatch, FetchedWith, ActivitiesMade, RowsOf, OnlyLinked, OldRowsKept, LinkedSoFar, WellFormed;
    assert MadeBySome(db0, db, topics, faults, d);
    var i :| 0 <= i < |faults| && Made(db0, db, topics[i], faults[i], d);
    assert Harmless(faults[i]) by {
      if faults[i].Some? {
        match faults[i].value {
          case CreateDiscussion =>
          case LinkResponses =>
          case GroupResponses =>
          case CreateActivities =>
          case UpdateCount =>
        }
      }
    }
    NewCounts(db0, db, topics[i], faults[i], d);
  }

  /** After any run the stored counts are right exactly when they were before and all topics are counted. */
  lemma {:induction false} CountsAfterRun(db: Tables, topics: seq<Topic>, faults: seq<Option<Call>>)
    requires Fetch(db, topics) && |faults| == |topics|
    ensures AllCountsMatch(Run(Start(db), topics, faults).db) <==> AllCountsMatch(db) && Counted(topics, faults)
  {
    hide Run, OnlyLinked, OldRowsKept, LinkedSoFar, AllMade, CountsMatch, FetchedWith;
    WholeRunReaches(db, topics, faults);
    var after := Run(Start(db), topics, faults).db;
    if d :| d in db.discussions && !CountsMatch(db, d) {
      OldCountsKept(db, after, d);
    } else if Counted(topics, faults) {
      forall d | d in after.discussions ensures CountsMatch(after, d) {
        if d in db.discussions {
          OldCountsKept(db, after, d);
        } else {
          CountedDiscussion(db, after, topics, faults, d);
        }
      }
    } else {
      var i :| 0 <= i < |topics| && topics[i].responses != []
        && (faults[i] == Some(LinkResponses) || faults[i] == Some(UpdateCount));
      UncountedDiscussion(db, after, topics, faults, i);
    }
  }

  /** After any run nothing is left unlinked exactly when every topic with responses got that far. */
  lemma {:induction false} AllLinkedIff(db: Tables, topics: seq<Topic>, faults: seq<Option<Call>>)
    requires FindMany(db, topics) && |faults| == |topics|
    ensures Unlinked(Run(Start(db), topics, faults).db) == {}
            <==> forall i :: 0 <= i < |topics| && topics[i].responses != [] ==> Links(topics[i], faults[i])
  {
    hide Run, Links, OnlyLinked, LinkedSoFar, OldRowsKept, AllMade, Fetch;
    WholeRunReaches(db, topics, faults);
    var after := Run(Start(db), topics, faults).db;
    if i :| 0 <= i < |topics| && topics[i].responses != [] && !Links(topics[i], faults[i]) {
      UnlinkedResponse(after, topics, faults, i);
    } else {
      NothingLeftUnlinked(db, after, topics, faults);
    }
  }

  /**
   * The validator's verdict on any run: it accepts exactly when the counts were sound before
   * and no topic with responses failed in creating, in linking or in the final count. A failure
   * between linking and the final count goes unnoticed.
   */
  lemma {:induction false} VerdictOnRun(db: Tables, topics: seq<Topic>, faults: seq<Option<Call>>)
    requires FindMany(db, topics) && |faults| == |topics|
    ensures Accepts(Run(Start(db), topics, faults).db)
            <==> AllCountsMatch(db)
                 && forall i :: 0 <= i < |topics| && topics[i].responses != [] ==> Harmless(faults[i])
  {
    hide Run, Fetch, AllCountsMatch, Unlinked;
    AllLinkedIff(db, topics, faults);
    CountsAfterRun(db, topics, faults);
    forall i | 0 <= i < |topics| && topics[i].responses != []
      ensures Harmless(faults[i])
              <==> Links(topics[i], faults[i]) && faults[i] != Some(LinkResponses) && faults[i] != Some(UpdateCount)
    {
      HarmlessIff(topics[i], faults[i]);
    }
  }

  lemma HarmlessIff(t: Topic, fault: Option<Call>)
    requires t.responses != []
    ensures Harmless(fault) <==> Links(t, fault) && fault != Some(LinkResponses) && fault != Some(UpdateCount)
  {
    if fault.Some? {
      match fault.value {
        case CreateDiscussion =>
        case LinkResponses =>
        case GroupResponses =>
        case CreateActivities =>
        case UpdateCount =>
      }
    }
  }

  /** An error-free run satisfies the validator if and only if the counts were sound before. */
  lemma {:induction false} ErrorFreeRunIsAccepted(db: Tables, topics: seq<Topic>, faults: seq<Option<Call>>)
    requires FindMany(db, topics) && |faults| == |topics|
    requires Run(Start(db), topics, faults).stats.errors == []
    ensures Accepts(Run(Start(db), topics, faults).db) <==> AllCountsMatch(db)
  {
    hide Run, FindMany, Accepts, AllCountsMatch;
    ErrorsReported(db, topics, faults);
    VerdictOnRun(db, topics, faults);
    forall i | 0 <= i < |topics| && topics[i].responses != [] ensures Harmless(faults[i]) {
      assert !Failed(topics, faults, i);
    }
  }

  // ---------- the metrics of a new discussion ----------

  ghost function ActivitiesOf(db: Tables, d: DiscussionId): map<UserId, Activity> {
    map u | u in ActiveUsers(db, d) && (d, u) in db.activities :: db.activities[(d, u)]
  }

  /** The stored metrics agree with the activities and with the responses themselves. */
  ghost predicate MetricsAgree(db: Tables, d: DiscussionId)
    requires d in db.discussions
  {
    var row, acts, rows := db.discussions[d], ActivitiesOf(db, d), RowsOf(db, d);
    && SumCounts(acts, acts.Keys) == row.responseCount == |rows|
    && row.participantCount == |acts| == |Authors(db.responses, rows)|
    && (forall u :: u in acts ==> acts[u].lastContributionAt <= row.lastActivityAt)
    && (exists u :: u in acts && acts[u].lastContributionAt == row.lastActivityAt)
  }

  lemma SameGroups(db0: Tables, db: Tables, t: Topic, d: DiscussionId)
    requires IdsOf(t) <= db0.responses.Keys && OnlyLinked(db0, db) && ActivitiesMade(db0, db, t, None, d)
    ensures IdsOf(t) <= db.responses.Keys && ActivitiesOf(db, d) == GroupByAuthor(db.responses, IdsOf(t))
    ensures ActivitiesOf(db, d).Keys == Authors(db.responses, IdsOf(t))
  {
    hide Contribution;
    var acts, groups := ActivitiesOf(db, d), GroupByAuthor(db.responses, IdsOf(t));
    GroupingIgnoresLinks(db0.responses, db.responses, IdsOf(t));
    assert groups == GroupByAuthor(db0.responses, IdsOf(t));
    forall u { UserIsActive(db, d, u); }
    assert acts.Keys == groups.Keys;
  }

  lemma MadeLatest(db0: Tables, db: Tables, t: Topic)
    requires FetchedWith(db0, t) && IdsOf(t) <= db0.responses.Keys && OnlyLinked(db0, db) && t.responses != []
    ensures IdsOf(t) <= db.responses.Keys
    ensures var latest, groups := t.responses[|t.responses| - 1].createdAt, GroupByAuthor(db.responses, IdsOf(t));
            && (forall u :: u in groups ==> groups[u].lastContributionAt <= latest)
            && (exists u :: u in groups && groups[u].lastContributionAt == latest)
  {
    hide Contribution;
    var latest := t.responses[|t.responses| - 1];
    assert latest.id in IdsOf(t) && db.responses[latest.id].createdAt == latest.createdAt;
    LatestContribution(db.responses, IdsOf(t), latest.createdAt);
    var u :| u in Authors(db.responses, IdsOf(t))
      && Contribution(db.responses, IdsOf(t), u).lastContributionAt == latest.createdAt;
    assert u in GroupByAuthor(db.responses, IdsOf(t));
  }

  lemma {:induction false} MadeMetrics(db0: Tables, db: Tables, t: Topic, d: DiscussionId)
    requires FetchedWith(db0, t) && IdsOf(t) <= db0.responses.Keys && OnlyLinked(db0, db)
    requires Made(db0, db, t, None, d)
    ensures MetricsAgree(db, d)
  {
    hide OldRowsKept, Contribution, OnlyLinked, FetchedWith, GroupByAuthor;
    hide IdsOf, RowsOf, ActivitiesMade, ActivitiesOf, Authors;
    SameGroups(db0, db, t, d);
    MadeLatest(db0, db, t);
    TopicSize(db0, t);
    CountsAddUp(db.responses, IdsOf(t));
    SameAuthors(db0, db, IdsOf(t));
  }

  lemma SameAuthors(db0: Tables, db: Tables, ids: set<ResponseId>)
    requires OnlyLinked(db0, db) && ids <= db0.responses.Keys
    ensures Authors(db.responses, ids) == Authors(db0.responses, ids)
  {
  }

  /** Every discussion that an error-free run created carries exact metrics. */
  lemma {:induction false} NewDiscussionMetrics(db: Tables, topics: seq<Topic>, faults: seq<Option<Call>>,
                                                d: DiscussionId)
    requires Fetch(db, topics) && |faults| == |topics|
    requires Run(Start(db), topics, faults).stats.errors == []
    requires d in Run(Start(db), topics, faults).db.discussions && d !in db.discussions
    ensures MetricsAgree(Run(Start(db), topics, faults).db, d)
  {
    hide Run, MetricsAgree, Reached, Fetch, Failed;
    WholeRunReaches(db, topics, faults);
    ErrorsReported(db, topics, faults);
    MetricsOnReached(db, Run(Start(db), topics, faults).db, topics, faults, d);
  }

  lemma MetricsOnReached(db0: Tables, db: Tables, topics: seq<Topic>, faults: seq<Option<Call>>, d: DiscussionId)
    requires Fetch(db0, topics) && |faults| == |topics| && Reached(db0, db, topics, faults)
    requires forall i :: 0 <= i < |topics| ==> !Failed(topics, faults, i)
    requires d in db.discussions && d !in db0.discussions
    ensures MetricsAgree(db, d)
  {
    hide MetricsAgree, OnlyLinked, OldRowsKept, LinkedSoFar, FetchedWith, WellFormed, Made;
    assert MadeBySome(db0, db, topics, faults, d);
    var i :| 0 <= i < |faults| && Made(db0, db, topics[i], faults[i], d);
    MadeForResponses(db0, db, topics[i], faults[i], d);
    assert !Failed(topics, faults, i);
    MadeMetrics(db0, db, topics[i], d);
  }

  lemma MadeForResponses(db0: Tables, db: Tables, t: Topic, fault: Option<Call>, d: DiscussionId)
    requires IdsOf(t) <= db0.responses.Keys && Made(db0, db, t, fault, d)
    ensures t.responses != []
  {
    hide RowsOf, ActivitiesMade, Authors;
  }

  // ---------- one discussion for each topic ----------

  /** The discussion carries what its topic says, is active, and counts the topic's responses. */
  predicate Describes(row: Discussion, t: Topic) {
    && row.topicId == t.id && row.creatorId == t.creatorId && row.title == t.title && row.status == ACTIVE
    && row.responseCount == |t.responses| > 0
    && row.lastActivityAt == t.responses[|t.responses| - 1].createdAt
  }

  /** After any run every new discussion describes one of the topics. */
  lemma {:induction false} NewDiscussionsDescribe(db: Tables, topics: seq<Topic>, faults: seq<Option<Call>>,
                                                  d: DiscussionId)
    requires Fetch(db, topics) && |faults| == |topics|
    requires d in Run(Start(db), topics, faults).db.discussions && d !in db.discussions
    ensures exists i :: 0 <= i < |topics| && faults[i] != Some(CreateDiscussion)
                        && Describes(Run(Start(db), topics, faults).db.discussions[d], topics[i])
  {
    hide Run, OldRowsKept, LinkedSoFar, FetchedWith, WellFormed, Made, OnlyLinked, Describes;
    WholeRunReaches(db, topics, faults);
    var after := Run(Start(db), topics, faults).db;
    assert MadeBySome(db, after, topics, faults, d);
    var i :| 0 <= i < |faults| && Made(db, after, topics[i], faults[i], d);
    MadeDescribes(db, after, topics[i], faults[i], d);
  }

  lemma MadeDescribes(db0: Tables, db: Tables, t: Topic, fault: Option<Call>, d: DiscussionId)
    requires IdsOf(t) <= db0.responses.Keys && Made(db0, db, t, fault, d)
    ensures d in db.discussions && fault != Some(CreateDiscussion) && Describes(db.discussions[d], t)
  {
    hide RowsOf, ActivitiesMade, Authors, IdsOf;
  }

  /** New discussions of one table belong to the topics `topics`, and no two to the same. */
  ghost predicate OneEach(db0: Tables, db: Tables, topics: seq<Topic>) {
    && (forall d :: d in db.discussions && d !in db0.discussions ==>
          exists i :: 0 <= i < |topics| && topics[i].id == db.discussions[d].topicId)
    && forall d, e ::
         (d in db.discussions && e in db.discussions && d !in db0.discussions && e !in db0.discussions) ==>
           (db.discussions[d].topicId == db.discussions[e].topicId ==> d == e)
  }

  /** No topic ever gets two discussions in one run. */
  lemma {:induction false} OneDiscussionPerTopic(db: Tables, topics: seq<Topic>, faults: seq<Option<Call>>, k: nat)
    requires Fetch(db, topics) && |faults| == |topics| && k <= |topics|
    ensures OneEach(db, Run(Start(db), topics[..k], faults[..k]).db, topics[..k])
    decreases k
  {
    hide Process, Reached, LinkedSoFar, FetchedWith, OneEach, Run;
    if k == 0 {
      NothingNew(db);
    } else {
      OneDiscussionPerTopic(db, topics, faults, k - 1);
      StillUnlinked(db, topics, faults, k - 1);
      RunOneMore(Start(db), topics, faults, k - 1);
      var p := Run(Start(db), topics[..k - 1], faults[..k - 1]);
      assert p.db.nextId !in p.db.discussions;
      TopicDiscussions(p.db, topics[k - 1], faults[k - 1]);
      ProcessedTables(p, topics[k - 1], faults[k - 1]);
      StepKeepsOneEach(db, p.db, TablesAfter(p.db, topics[k - 1], faults[k - 1]), topics, faults[k - 1], k);
    }
  }

  lemma NothingNew(db: Tables)
    ensures OneEach(db, Run(Start(db), [], []).db, [])
  {
  }

  lemma ProcessedTables(p: Progress, t: Topic, fault: Option<Call>)
    ensures Process(p, t, fault).db == TablesAfter(p.db, t, fault)
  {
    hide TablesAfter, StatsAfter;
  }

  lemma StepKeepsOneEach(db0: Tables, db: Tables, db': Tables, topics: seq<Topic>, fault: Option<Call>, k: nat)
    requires 0 < k <= |topics| && forall i, j :: 0 <= i < j < |topics| ==> topics[i].id != topics[j].id
    requires OneEach(db0, db, topics[..k - 1]) && DiscussionsChange(db, db', topics[k - 1], fault)
    ensures OneEach(db0, db', topics[..k])
  {
    forall d | d in db'.discussions && d !in db0.discussions
      ensures exists i :: 0 <= i < k && topics[..k][i].id == db'.discussions[d].topicId
    {
      if d == db.nextId {
        assert topics[..k][k - 1].id == db'.discussions[d].topicId;
      } else {
        var i :| 0 <= i < k - 1 && topics[..k - 1][i].id == db.discussions[d].topicId;
        assert topics[..k][i].id == db'.discussions[d].topicId;
      }
    }
    forall d | d in db'.discussions && d !in db0.discussions && d != db.nextId
      ensures db'.discussions[d].topicId != topics[k - 1].id
    {
      var i :| 0 <= i < k - 1 && topics[..k - 1][i].id == db.discussions[d].topicId;
      assert topics[i].id != topics[k - 1].id;
    }
  }

  // ---------- the activities of a new discussion ----------

  /** The responses of user `u` in discussion `d`. */
  ghost function ResponsesBy(db: Tables, d: DiscussionId, u: UserId): set<ResponseId> {
    set r | r in RowsOf(db, d) && db.responses[r].authorId == u
  }

  /** The activity row tells when the user's first and last response were created, and how many there are. */
  ghost predicate ActivityIsTrue(db: Tables, d: DiscussionId, u: UserId)
    requires (d, u) in db.activities
  {
    var act, mine := db.activities[(d, u)], ResponsesBy(db, d, u);
    && (exists r :: r in mine && db.responses[r].createdAt == act.firstContributionAt)
    && (exists r :: r in mine && db.responses[r].createdAt == act.lastContributionAt)
    && (forall r :: r in mine ==>
          act.firstContributionAt <= db.responses[r].createdAt <= act.lastContributionAt)
    && act.responseCount == |mine|
  }

  lemma GroupIsTrue(rows: map<ResponseId, ResponseRow>, ids: set<ResponseId>, u: UserId)
    requires ids <= rows.Keys && u in GroupByAuthor(rows, ids)
    ensures var act, mine := GroupByAuthor(rows, ids)[u], ByAuthor(rows, ids, u);
            && (exists r :: r in mine && rows[r].createdAt == act.firstContributionAt)
            && (exists r :: r in mine && rows[r].createdAt == act.lastContributionAt)
            && (forall r :: r in mine ==> act.firstContributionAt <= rows[r].createdAt <= act.lastContributionAt)
            && act.responseCount == |mine|
  {
    var act, mine := GroupByAuthor(rows, ids)[u], ByAuthor(rows, ids, u);
    assert act.firstContributionAt in Times(rows, mine) && act.lastContributionAt in Times(rows, mine);
    forall r | r in mine ensures act.firstContributionAt <= rows[r].createdAt <= act.lastContributionAt {
      assert rows[r].createdAt in Times(rows, mine);
    }
  }

  lemma MadeActivity(db0: Tables, db: Tables, t: Topic, fault: Option<Call>, d: DiscussionId, u: UserId)
    requires IdsOf(t) <= db0.responses.Keys && OnlyLinked(db0, db) && Made(db0, db, t, fault, d)
    requires (d, u) in db.activities
    ensures ActivityIsTrue(db, d, u)
  {
    hide IdsOf, Authors, Contribution, GroupByAuthor;
    assert fault == None || fault == Some(UpdateCount);
    assert RowsOf(db, d) == IdsOf(t);
    assert db.activities[(d, u)] == GroupByAuthor(db0.responses, IdsOf(t))[u];
    GroupIsTrue(db0.responses, IdsOf(t), u);
    assert ByAuthor(db0.responses, IdsOf(t), u) == ResponsesBy(db, d, u);
  }

  /**
   * After any run, whatever threw in it: every activity row of a new discussion is true, and a new
   * discussion has rows for exactly the authors of its responses, or for nobody at all.
   */
  lemma {:induction false} ActivitiesAreTrue(db: Tables, topics: seq<Topic>, faults: seq<Option<Call>>, d: DiscussionId)
    requires Fetch(db, topics) && |faults| == |topics|
    requires d in Run(Start(db), topics, faults).db.discussions && d !in db.discussions
    ensures var after := Run(Start(db), topics, faults).db;
            && (forall u :: (d, u) in after.activities ==> ActivityIsTrue(after, d, u))
            && ((forall u :: (d, u) in after.activities <==> ResponsesBy(after, d, u) != {})
                || (forall u :: (d, u) !in after.activities))
  {
    hide Run, OldRowsKept, LinkedSoFar, FetchedWith, WellFormed, Made, OnlyLinked, ActivityIsTrue;
    WholeRunReaches(db, topics, faults);
    var after := Run(Start(db), topics, faults).db;
    assert MadeBySome(db, after, topics, faults, d);
    var i :| 0 <= i < |faults| && Made(db, after, topics[i], faults[i], d);
    forall u | (d, u) in after.activities ensures ActivityIsTrue(after, d, u) {
      MadeActivity(db, after, topics[i], faults[i], d, u);
    }
    MadeUsers(db, after, topics[i], faults[i], d);
  }

  lemma MadeUsers(db0: Tables, db: Tables, t: Topic, fault: Option<Call>, d: DiscussionId)
    requires IdsOf(t) <= db0.responses.Keys && OnlyLinked(db0, db) && Made(db0, db, t, fault, d)
    ensures fault in {None, Some(UpdateCount)} ==> forall u :: (d, u) in db.activities <==> ResponsesBy(db, d, u) != {}
    ensures fault !in {None, Some(UpdateCount)} ==> forall u :: (d, u) !in db.activities
  {
    hide IdsOf, Contribution;
    if fault in {None, Some(UpdateCount)} {
      forall u ensures (d, u) in db.activities <==> ResponsesBy(db, d, u) != {} {
        var groups := GroupByAuthor(db0.responses, IdsOf(t));
        assert (d, u) in db.activities <==> u in groups;
        assert u in groups <==> u in Authors(db0.responses, IdsOf(t));
        if r :| r in IdsOf(t) && db0.responses[r].authorId == u {
          assert r in ResponsesBy(db, d, u);
        }
      }
    }
  }

  /** After an error-free run every new discussion has a true activity row for each of its authors. */
  lemma {:induction false} AuthorsAreRecorded(db: Tables, topics: seq<Topic>, faults: seq<Option<Call>>,
                                              d: DiscussionId, u: UserId)
    requires Fetch(db, topics) && |faults| == |topics|
    requires Run(Start(db), topics, faults).stats.errors == []
    requires d in Run(Start(db), topics, faults).db.discussions && d !in db.discussions
    ensures var after := Run(Start(db), topics, faults).db;
            && ((d, u) in after.activities <==> ResponsesBy(after, d, u) != {})
            && ((d, u) in after.activities ==> ActivityIsTrue(after, d, u))
  {
    hide Run, OldRowsKept, LinkedSoFar, FetchedWith, WellFormed, Made, OnlyLinked, ActivityIsTrue, ResponsesBy;
    WholeRunReaches(db, topics, faults);
    ErrorsReported(db, topics, faults);
    ActivitiesAreTrue(db, topics, faults, d);
    var after := Run(Start(db), topics, faults).db;
    assert MadeBySome(db, after, topics, faults, d);
    var i :| 0 <= i < |faults| && Made(db, after, topics[i], faults[i], d);
    MadeForResponses(db, after, topics[i], faults[i], d);
    assert !Failed(topics, faults, i);
    MadeUsers(db, after, topics[i], faults[i], d);
  }

  // ---------- running it again ----------

  lemma {:induction false} RunOnNothing(p: Progress, topics: seq<Topic>, faults: seq<Option<Call>>)
    requires |faults| == |topics| && forall i :: 0 <= i < |topics| ==> topics[i].responses == []
    ensures Run(p, topics, faults) == p.(stats := p.stats.(topicsProcessed := p.stats.topicsProcessed + |topics|))
  {
    if topics != [] {
      var n := |topics| - 1;
      RunOnNothing(p, topics[..n], faults[..n]);
    }
  }

  lemma NoneFetched(db: Tables, t: Topic)
    requires FetchedWith(db, t) && Unlinked(db) == {}
    ensures t.responses == []
  {
    assert |t.responses| > 0 ==> t.responses[0].id in IdsOf(t);
  }

  /** Once nothing is unlinked, a run changes nothing and counts every topic as processed. */
  lemma {:induction false} RunWhenAllLinked(db: Tables, topics: seq<Topic>, faults: seq<Option<Call>>)
    requires FindMany(db, topics) && |faults| == |topics| && Unlinked(db) == {}
    ensures Run(Start(db), topics, faults) == Progress(db, NO_STATS.(topicsProcessed := |topics|))
  {
    forall i | 0 <= i < |topics| ensures topics[i].responses == [] {
      NoneFetched(db, topics[i]);
    }
    RunOnNothing(Start(db), topics, faults);
  }

  /** Running the backfill again after an error-free run leaves the tables as they are. */
  lemma {:induction false} SecondRunIsIdle(db: Tables, topics: seq<Topic>, faults: seq<Option<Call>>,
                                           topics': seq<Topic>, faults': seq<Option<Call>>)
    requires FindMany(db, topics) && |faults| == |topics|
    requires Run(Start(db), topics, faults).stats.errors == []
    requires FindMany(Run(Start(db), topics, faults).db, topics') && |faults'| == |topics'|
    ensures Run(Start(Run(Start(db), topics, faults).db), topics', faults')
            == Progress(Run(Start(db), topics, faults).db, NO_STATS.(topicsProcessed := |topics'|))
  {
    hide Run, FindMany;
    ErrorsReported(db, topics, faults);
    forall i | 0 <= i < |topics| && topics[i].responses != [] ensures Links(topics[i], faults[i]) {
      assert !Failed(topics, faults, i);
    }
    AllLinkedIff(db, topics, faults);
    RunWhenAllLinked(Run(Start(db), topics, faults).db, topics', faults');
  }
}

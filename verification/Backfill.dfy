/**
 * The backfill as a function: what one topic does to the tables and the statistics when a
 * given database call throws, what a whole run does, and what holds of every run.
 */
module Backfill {
  import opened Optional
  import opened BackfillTables

  /** A response as fetched with its topic. */
  datatype Fetched = Fetched(id: ResponseId, createdAt: int)

  datatype Topic = Topic(id: TopicId, creatorId: UserId, title: string, responses: seq<Fetched>)

  function IdsOf(t: Topic): set<ResponseId> {
    set f | f in t.responses :: f.id
  }

  /** The topics are distinct rows, each with its unlinked responses from oldest to newest. */
  ghost predicate Fetch(db: Tables, topics: seq<Topic>) {
    && WellFormed(db)
    && (forall i :: 0 <= i < |topics| ==> FetchedWith(db, topics[i]))
    && (forall i, j :: 0 <= i < j < |topics| ==> topics[i].id != topics[j].id)
  }

  /** The initial query returns all topics, so every response belongs to one of them. */
  ghost predicate FindMany(db: Tables, topics: seq<Topic>) {
    && Fetch(db, topics)
    && forall r :: r in Unlinked(db) ==> exists i :: 0 <= i < |topics| && topics[i].id == db.responses[r].topicId
  }

  ghost predicate FetchedWith(db: Tables, t: Topic) {
    && (forall i, j :: 0 <= i < j < |t.responses| ==>
          t.responses[i].id != t.responses[j].id && t.responses[i].createdAt <= t.responses[j].createdAt)
    && (forall f :: f in t.responses ==> f.id in db.responses && db.responses[f.id].createdAt == f.createdAt)
    && (forall r :: r in IdsOf(t) <==> r in Unlinked(db) && db.responses[r].topicId == t.id)
  }

  // ---------- one topic ----------

  /** The database calls made for one topic, in order; each takes full effect or throws. */
  datatype Call = CreateDiscussion | LinkResponses | GroupResponses | CreateActivities | UpdateCount

  datatype Stats = Stats(topicsProcessed: nat, discussionsCreated: nat, responsesLinked: nat,
                         participantActivitiesCreated: nat, errors: seq<(TopicId, Call)>)

  datatype Progress = Progress(db: Tables, stats: Stats)

  function Created(db: Tables, t: Topic): Tables
    requires t.responses != []
  {
    var latest := t.responses[|t.responses| - 1].createdAt;
    var row := Discussion(t.id, t.creatorId, t.title, ACTIVE, |t.responses|, 0, latest);
    db.(discussions := db.discussions[db.nextId := row], nextId := db.nextId + 1)
  }

  function Linked(db: Tables, ids: set<ResponseId>, d: DiscussionId): Tables {
    db.(responses := map r | r in db.responses ::
          if r in ids then db.responses[r].(discussionId := Some(d)) else db.responses[r])
  }

  function Groups(db: Tables, d: DiscussionId): map<UserId, Activity> {
    GroupByAuthor(db.responses, RowsOf(db, d))
  }

  function ActivityRows(d: DiscussionId, groups: map<UserId, Activity>): map<(DiscussionId, UserId), Activity> {
    map u | u in groups :: (d, u) := groups[u]
  }

  /** Rows that are there already are kept: the insertion skips duplicates. */
  function WithActivities(db: Tables, d: DiscussionId, groups: map<UserId, Activity>): Tables {
    db.(activities := ActivityRows(d, groups) + db.activities)
  }

  /** What the insertion does to any tables: every group has a row, and no row that was there changes. */
  lemma InsertionSkipsDuplicates(db: Tables, d: DiscussionId, groups: map<UserId, Activity>, e: DiscussionId, u: UserId)
    ensures var rows := WithActivities(db, d, groups).activities;
            && ((e, u) in rows <==> (e, u) in db.activities || (e == d && u in groups))
            && ((e, u) in db.activities ==> rows[(e, u)] == db.activities[(e, u)])
            && (e == d && u in groups && (e, u) !in db.activities ==> rows[(e, u)] == groups[u])
  {
    assert forall k :: k in ActivityRows(d, groups) ==> k.0 == d && k.1 in groups;
    assert u in groups ==> (d, u) in ActivityRows(d, groups);
  }

  function WithCount(db: Tables, d: DiscussionId, n: nat): Tables {
    if d !in db.discussions then db
    else db.(discussions := db.discussions[d := db.discussions[d].(participantCount := n)])
  }

  /** The tables after the first two calls for topic `t`, the first four, and all five. */
  function AfterLinking(db: Tables, t: Topic): Tables
    requires t.responses != []
  {
    Linked(Created(db, t), IdsOf(t), db.nextId)
  }

  function AfterActivities(db: Tables, t: Topic): Tables
    requires t.responses != []
  {
    WithActivities(AfterLinking(db, t), db.nextId, Groups(AfterLinking(db, t), db.nextId))
  }

  function AfterCounting(db: Tables, t: Topic): Tables
    requires t.responses != []
  {
    WithCount(AfterActivities(db, t), db.nextId, |Groups(AfterLinking(db, t), db.nextId)|)
  }

  /** The tables after the calls for topic `t`, when the call `fault`, if any, throws. */
  function TablesAfter(db: Tables, t: Topic, fault: Option<Call>): Tables {
    if t.responses == [] then db
    else
      match fault
      case Some(CreateDiscussion) => db
      case Some(LinkResponses) => Created(db, t)
      case Some(GroupResponses) => AfterLinking(db, t)
      case Some(CreateActivities) => AfterLinking(db, t)
      case Some(UpdateCount) => AfterActivities(db, t)
      case None => AfterCounting(db, t)
  }

  /** The statistics after topic `t`: each counter moves right after the call it counts. */
  function StatsAfter(p: Progress, t: Topic, fault: Option<Call>): Stats {
    var s := p.stats;
    if t.responses == [] then s.(topicsProcessed := s.topicsProcessed + 1)
    else
      var n := |IdsOf(t) * p.db.responses.Keys|;
      var groups := |Groups(AfterLinking(p.db, t), p.db.nextId)|;
      var s1 := s.(discussionsCreated := s.discussionsCreated + 1);
      var s2 := s1.(responsesLinked := s.responsesLinked + n);
      var s3 := s2.(participantActivitiesCreated := s.participantActivitiesCreated + groups);
      match fault
      case Some(CreateDiscussion) => WithError(s, t, CreateDiscussion)
      case Some(LinkResponses) => WithError(s1, t, LinkResponses)
      case Some(GroupResponses) => WithError(s2, t, GroupResponses)
      case Some(CreateActivities) => WithError(s2, t, CreateActivities)
      case Some(UpdateCount) => WithError(s3, t, UpdateCount)
      case None => s3.(topicsProcessed := s.topicsProcessed + 1)
  }

  function WithError(s: Stats, t: Topic, call: Call): Stats {
    s.(errors := s.errors + [(t.id, call)])
  }

  function Process(p: Progress, t: Topic, fault: Option<Call>): Progress {
    Progress(TablesAfter(p.db, t, fault), StatsAfter(p, t, fault))
  }

  /** A run over all topics, with the call that throws in each. */
  function Run(p: Progress, topics: seq<Topic>, faults: seq<Option<Call>>): Progress
    requires |faults| == |topics|
  {
    if topics == [] then p
    else
      var n := |topics| - 1;
      Process(Run(p, topics[..n], faults[..n]), topics[n], faults[n])
  }

  const NO_STATS := Stats(0, 0, 0, 0, [])

  function Start(db: Tables): Progress {
    Progress(db, NO_STATS)
  }

  // ---------- what every run keeps ----------

  /** The rows of `db` are those of `db0`, except that unlinked ones may have been linked. */
  ghost predicate OnlyLinked(db0: Tables, db: Tables) {
    && db.responses.Keys == db0.responses.Keys
    && forall r :: r in db0.responses ==>
         var before, after := db0.responses[r], db.responses[r];
         && after == before.(discussionId := after.discussionId)
         && (before.discussionId.Some? ==> after == before)
         && (before.discussionId.None? && after.discussionId.Some? ==>
               && db0.nextId <= after.discussionId.value
               && after.discussionId.value in db.discussions
               && db.discussions[after.discussionId.value].topicId == before.topicId)
  }

  /** What was in the other two tables is still there, unchanged. */
  ghost predicate OldRowsKept(db0: Tables, db: Tables) {
    && db0.nextId <= db.nextId
    && (forall d :: d in db0.discussions ==> d in db.discussions && db.discussions[d] == db0.discussions[d])
    && (forall d :: d in db.discussions && d !in db0.discussions ==> db0.nextId <= d)
    && (forall k :: k in db0.activities ==> k in db.activities && db.activities[k] == db0.activities[k])
    && (forall k :: k in db.activities && k !in db0.activities ==> db0.nextId <= k.0)
  }

  /** The topic's responses ended up linked, or were left alone. */
  predicate Links(t: Topic, fault: Option<Call>) {
    t.responses != [] && fault != Some(CreateDiscussion) && fault != Some(LinkResponses)
  }

  ghost predicate LinkedSoFar(db: Tables, topics: seq<Topic>, faults: seq<Option<Call>>)
    requires |faults| <= |topics|
  {
    forall i, r :: 0 <= i < |topics| && r in IdsOf(topics[i]) ==>
      r in db.responses && (r in Unlinked(db) <==> i >= |faults| || !Links(topics[i], faults[i]))
  }

  /**
   * The discussion that one topic got: its rows are the topic's responses, its activities
   * are their grouping by author, as far as the calls went before one threw.
   */
  ghost predicate Made(db0: Tables, db: Tables, t: Topic, fault: Option<Call>, d: DiscussionId)
    requires IdsOf(t) <= db0.responses.Keys
  {
    && t.responses != []
    && fault != Some(CreateDiscussion)
    && d in db.discussions
    && RowsOf(db, d) == (if fault == Some(LinkResponses) then {} else IdsOf(t))
    && ActivitiesMade(db0, db, t, fault, d)
    && db.discussions[d] == Discussion(t.id, t.creatorId, t.title, ACTIVE, |t.responses|,
                                       if fault == None then |Authors(db0.responses, IdsOf(t))| else 0,
                                       t.responses[|t.responses| - 1].createdAt)
  }

  ghost predicate ActivitiesMade(db0: Tables, db: Tables, t: Topic, fault: Option<Call>, d: DiscussionId)
    requires IdsOf(t) <= db0.responses.Keys
  {
    var groups := if fault == None || fault == Some(UpdateCount) then GroupByAuthor(db0.responses, IdsOf(t)) else map[];
    forall u :: ((d, u) in db.activities <==> u in groups) && (u in groups ==> db.activities[(d, u)] == groups[u])
  }

  ghost predicate AllMade(db0: Tables, db: Tables, topics: seq<Topic>, faults: seq<Option<Call>>)
    requires |faults| <= |topics|
    requires forall i :: 0 <= i < |topics| ==> IdsOf(topics[i]) <= db0.responses.Keys
  {
    && (forall d :: d in db.discussions && d !in db0.discussions ==> MadeBySome(db0, db, topics, faults, d))
    && (forall i :: 0 <= i < |faults| && topics[i].responses != [] && faults[i] != Some(CreateDiscussion) ==>
          MadeFor(db0, db, topics[i], faults[i]))
  }

  ghost predicate MadeBySome(db0: Tables, db: Tables, topics: seq<Topic>, faults: seq<Option<Call>>, d: DiscussionId)
    requires |faults| <= |topics|
    requires forall i :: 0 <= i < |topics| ==> IdsOf(topics[i]) <= db0.responses.Keys
  {
    exists i :: 0 <= i < |faults| && Made(db0, db, topics[i], faults[i], d)
  }

  ghost predicate MadeFor(db0: Tables, db: Tables, t: Topic, fault: Option<Call>)
    requires IdsOf(t) <= db0.responses.Keys
  {
    exists d :: d !in db0.discussions && Made(db0, db, t, fault, d)
  }

  ghost predicate Reached(db0: Tables, db: Tables, topics: seq<Topic>, faults: seq<Option<Call>>) {
    && |faults| <= |topics|
    && (forall i :: 0 <= i < |topics| ==> IdsOf(topics[i]) <= db0.responses.Keys)
    && WellFormed(db)
    && OnlyLinked(db0, db)
    && OldRowsKept(db0, db)
    && LinkedSoFar(db, topics, faults)
    && AllMade(db0, db, topics, faults)
  }

  // ---------- one step of a run ----------

  /** One topic relinks its own rows, if any. */
  ghost predicate RowsChange(db: Tables, db': Tables, t: Topic, fault: Option<Call>) {
    && db'.responses.Keys == db.responses.Keys
    && forall r :: r in db.responses ==>
         db'.responses[r] == if Links(t, fault) && r in IdsOf(t) then db.responses[r].(discussionId := Some(db.nextId))
                             else db.responses[r]
  }

  /** It adds at most the discussion with the next id. */
  ghost predicate DiscussionsChange(db: Tables, db': Tables, t: Topic, fault: Option<Call>) {
    var d := db.nextId;
    && (forall e :: e != d ==> (e in db'.discussions <==> e in db.discussions))
    && (forall e :: e != d && e in db.discussions ==> db'.discussions[e] == db.discussions[e])
    && (d in db'.discussions <==> t.responses != [] && fault != Some(CreateDiscussion))
    && (d in db'.discussions ==> db'.discussions[d].topicId == t.id)
    && db'.nextId == if d in db'.discussions then d + 1 else d
  }

  /** It adds activities of that discussion only. */
  ghost predicate ActivitiesChange(db: Tables, db': Tables) {
    var d := db.nextId;
    && (forall k :: k in db'.activities ==> k in db.activities || (k.0 == d && d in db'.discussions))
    && (forall k :: k in db.activities ==> k in db'.activities && db'.activities[k] == db.activities[k])
  }

  lemma TopicRows(db: Tables, t: Topic, fault: Option<Call>)
    ensures RowsChange(db, TablesAfter(db, t, fault), t, fault)
  {
    hide Groups, IdsOf;
  }

  /** The second to fourth calls leave the discussions alone. */
  lemma SameDiscussions(db: Tables, t: Topic)
    requires t.responses != []
    ensures AfterLinking(db, t).discussions == Created(db, t).discussions && AfterLinking(db, t).nextId == db.nextId + 1
    ensures AfterActivities(db, t).discussions == Created(db, t).discussions
    ensures AfterActivities(db, t).nextId == db.nextId + 1
  {
    hide Groups, IdsOf;
  }

  lemma TopicDiscussions(db: Tables, t: Topic, fault: Option<Call>)
    requires db.nextId !in db.discussions
    ensures DiscussionsChange(db, TablesAfter(db, t, fault), t, fault)
  {
    hide AfterLinking, AfterActivities, Groups, IdsOf;
    if t.responses != [] {
      SameDiscussions(db, t);
    }
  }

  lemma TopicActivities(db: Tables, t: Topic, fault: Option<Call>)
    ensures ActivitiesChange(db, TablesAfter(db, t, fault))
  {
    hide Groups, IdsOf;
  }

  lemma FetchDisjoint(db0: Tables, topics: seq<Topic>, i: nat, j: nat, r: ResponseId)
    requires Fetch(db0, topics) && i < |topics| && j < |topics|
    requires r in IdsOf(topics[i]) && r in IdsOf(topics[j])
    ensures i == j
  {
    assert FetchedWith(db0, topics[i]) && FetchedWith(db0, topics[j]);
  }

  lemma StepKeepsRows(db0: Tables, db: Tables, db': Tables, t: Topic, fault: Option<Call>)
    requires OnlyLinked(db0, db) && FetchedWith(db0, t) && db0.nextId <= db.nextId
    requires RowsChange(db, db', t, fault) && DiscussionsChange(db, db', t, fault)
    requires forall r :: r in IdsOf(t) ==> r in Unlinked(db)
    requires WellFormed(db)
    ensures OnlyLinked(db0, db')
  {
    forall r | r in db0.responses && db'.responses[r].discussionId.Some? && db0.responses[r].discussionId.None?
      ensures db0.nextId <= db'.responses[r].discussionId.value
      ensures db'.responses[r].discussionId.value in db'.discussions
      ensures db'.discussions[db'.responses[r].discussionId.value].topicId == db0.responses[r].topicId
    {
      if db.responses[r].discussionId.Some? {
        var e := db.responses[r].discussionId.value;
        assert e in db.discussions;
      }
    }
  }

  lemma StepKeepsOld(db0: Tables, db: Tables, db': Tables, t: Topic, fault: Option<Call>)
    requires OldRowsKept(db0, db) && WellFormed(db0)
    requires DiscussionsChange(db, db', t, fault) && ActivitiesChange(db, db')
    ensures OldRowsKept(db0, db')
  {
    forall d | d in db0.discussions ensures d in db'.discussions && db'.discussions[d] == db0.discussions[d] {
    }
    forall d | d in db'.discussions && d !in db0.discussions ensures db0.nextId <= d {
      if d != db.nextId {
        assert d in db.discussions;
      }
    }
  }

  lemma StepKeepsWellFormed(db: Tables, db': Tables, t: Topic, fault: Option<Call>)
    requires WellFormed(db)
    requires RowsChange(db, db', t, fault) && DiscussionsChange(db, db', t, fault) && ActivitiesChange(db, db')
    ensures WellFormed(db')
  {
    forall d | d in db.discussions ensures d in db'.discussions {
    }
    forall d | d in db'.discussions ensures d < db'.nextId {
      if d != db.nextId {
        assert d in db.discussions;
      }
    }
  }

  lemma StepKeepsLinks(db0: Tables, db: Tables, db': Tables, topics: seq<Topic>,
                       faults: seq<Option<Call>>, fault: Option<Call>)
    requires Fetch(db0, topics) && |faults| < |topics| && LinkedSoFar(db, topics, faults)
    requires RowsChange(db, db', topics[|faults|], fault)
    ensures LinkedSoFar(db', topics, faults + [fault])
  {
    var t, faults' := topics[|faults|], faults + [fault];
    forall i, r | 0 <= i < |topics| && r in IdsOf(topics[i])
      ensures r in db'.responses && (r in Unlinked(db') <==> i >= |faults'| || !Links(topics[i], faults'[i]))
    {
      assert r in db.responses;
      if r in IdsOf(t) {
        FetchDisjoint(db0, topics, i, |faults|, r);
      }
    }
  }

  /** Discussions made earlier are not touched by a later topic. */
  lemma StepKeepsMade(db0: Tables, db: Tables, db': Tables, t: Topic, fault: Option<Call>,
                      made: Topic, madeFault: Option<Call>, d: DiscussionId)
    requires RowsChange(db, db', t, fault) && DiscussionsChange(db, db', t, fault) && ActivitiesChange(db, db')
    requires forall r :: r in IdsOf(t) ==> r in Unlinked(db)
    requires d != db.nextId
    requires IdsOf(made) <= db0.responses.Keys && Made(db0, db, made, madeFault, d)
    ensures Made(db0, db', made, madeFault, d)
  {
    assert RowsOf(db', d) == RowsOf(db, d);
    forall u: UserId
      ensures (d, u) in db'.activities <==> (d, u) in db.activities
      ensures (d, u) in db.activities ==> db'.activities[(d, u)] == db.activities[(d, u)]
    {
    }
  }

  /** The rows of the discussion just made, and their grouping. */
  lemma RowsJustLinked(db0: Tables, db: Tables, t: Topic)
    requires WellFormed(db) && OnlyLinked(db0, db) && t.responses != []
    requires IdsOf(t) <= db0.responses.Keys
    ensures RowsOf(AfterLinking(db, t), db.nextId) == IdsOf(t)
    ensures Groups(AfterLinking(db, t), db.nextId) == GroupByAuthor(db0.responses, IdsOf(t))
  {
    var linked := AfterLinking(db, t);
    assert forall r :: r in db.responses ==> db.responses[r].discussionId != Some(db.nextId);
    assert RowsOf(linked, db.nextId) == IdsOf(t);
    GroupingIgnoresLinks(db0.responses, linked.responses, IdsOf(t));
  }

  lemma ActivitiesJustMade(db0: Tables, db: Tables, t: Topic, u: UserId)
    requires WellFormed(db) && OnlyLinked(db0, db) && t.responses != []
    requires IdsOf(t) <= db0.responses.Keys
    ensures (db.nextId, u) !in db.activities && (db.nextId, u) !in AfterLinking(db, t).activities
    ensures var groups := GroupByAuthor(db0.responses, IdsOf(t));
            && ((db.nextId, u) in AfterActivities(db, t).activities <==> u in groups)
            && (u in groups ==> AfterActivities(db, t).activities[(db.nextId, u)] == groups[u])
  {
    hide Groups, IdsOf, GroupByAuthor, OnlyLinked;
    RowsJustLinked(db0, db, t);
    assert (db.nextId, u) !in db.activities;
  }

  lemma JustMadeRows(db0: Tables, db: Tables, t: Topic, fault: Option<Call>)
    requires WellFormed(db) && OnlyLinked(db0, db) && IdsOf(t) <= db0.responses.Keys
    requires t.responses != [] && fault != Some(CreateDiscussion)
    ensures RowsOf(TablesAfter(db, t, fault), db.nextId) == if fault == Some(LinkResponses) then {} else IdsOf(t)
  {
    var d, db' := db.nextId, TablesAfter(db, t, fault);
    if fault == Some(LinkResponses) {
      assert db'.responses == db.responses;
      assert forall r :: r in db.responses ==> db.responses[r].discussionId != Some(d);
    } else {
      RowsJustLinked(db0, db, t);
      assert db'.responses == AfterLinking(db, t).responses;
    }
  }

  lemma JustMadeActivities(db0: Tables, db: Tables, t: Topic, fault: Option<Call>)
    requires WellFormed(db) && OnlyLinked(db0, db) && IdsOf(t) <= db0.responses.Keys
    requires t.responses != [] && fault != Some(CreateDiscussion)
    ensures ActivitiesMade(db0, TablesAfter(db, t, fault), t, fault, db.nextId)
  {
    hide AfterActivities, AfterLinking, GroupByAuthor, Groups, WellFormed, OnlyLinked;
    var db' := TablesAfter(db, t, fault);
    if fault == None || fault == Some(UpdateCount) {
      assert db'.activities == AfterActivities(db, t).activities;
    } else if fault == Some(LinkResponses) {
      assert db'.activities == db.activities;
    } else {
      assert db'.activities == AfterLinking(db, t).activities;
    }
    forall u: UserId { ActivitiesJustMade(db0, db, t, u); }
  }

  lemma JustMadeRow(db0: Tables, db: Tables, t: Topic, fault: Option<Call>)
    requires WellFormed(db) && OnlyLinked(db0, db) && IdsOf(t) <= db0.responses.Keys
    requires t.responses != [] && fault != Some(CreateDiscussion)
    ensures db.nextId in TablesAfter(db, t, fault).discussions
    ensures TablesAfter(db, t, fault).discussions[db.nextId]
            == Discussion(t.id, t.creatorId, t.title, ACTIVE, |t.responses|,
                          if fault == None then |Authors(db0.responses, IdsOf(t))| else 0,
                          t.responses[|t.responses| - 1].createdAt)
  {
    hide IdsOf, OnlyLinked, Contribution, Authors;
    if fault == None {
      RowsJustLinked(db0, db, t);
      var groups := Groups(AfterLinking(db, t), db.nextId);
      assert groups.Keys == Authors(db0.responses, IdsOf(t));
      assert |groups| == |groups.Keys|;
    }
  }

  lemma JustMade(db0: Tables, db: Tables, t: Topic, fault: Option<Call>)
    requires WellFormed(db) && OnlyLinked(db0, db) && IdsOf(t) <= db0.responses.Keys
    requires t.responses != [] && fault != Some(CreateDiscussion)
    ensures Made(db0, TablesAfter(db, t, fault), t, fault, db.nextId)
  {
    hide TablesAfter, ActivitiesMade, RowsOf, WellFormed, OnlyLinked, Authors, IdsOf;
    JustMadeRows(db0, db, t, fault);
    JustMadeActivities(db0, db, t, fault);
    JustMadeRow(db0, db, t, fault);
  }

  lemma NextUnlinked(db: Tables, topics: seq<Topic>, faults: seq<Option<Call>>)
    requires |faults| < |topics| && LinkedSoFar(db, topics, faults)
    ensures forall r :: r in IdsOf(topics[|faults|]) ==> r in Unlinked(db)
  {
  }

  lemma {:induction false} StepReaches(db0: Tables, db: Tables, topics: seq<Topic>, faults: seq<Option<Call>>,
                                       fault: Option<Call>)
    requires Fetch(db0, topics) && |faults| < |topics| && Reached(db0, db, topics, faults)
    ensures Reached(db0, TablesAfter(db, topics[|faults|], fault), topics, faults + [fault])
  {
    hide TablesAfter, Made, RowsChange, ActivitiesChange, LinkedSoFar, OnlyLinked, AllMade, FetchedWith;
    var t := topics[|faults|];
    var db' := TablesAfter(db, t, fault);
    TopicRows(db, t, fault);
    TopicDiscussions(db, t, fault);
    TopicActivities(db, t, fault);
    NextUnlinked(db, topics, faults);
    StepKeepsRows(db0, db, db', t, fault);
    StepKeepsOld(db0, db, db', t, fault);
    StepKeepsWellFormed(db, db', t, fault);
    StepKeepsLinks(db0, db, db', topics, faults, fault);
    if t.responses != [] && fault != Some(CreateDiscussion) {
      JustMade(db0, db, t, fault);
    }
    StepKeepsAllMade(db0, db, db', topics, faults, fault);
  }

  lemma {:induction false} StepKeepsAllMade(db0: Tables, db: Tables, db': Tables, topics: seq<Topic>,
                                            faults: seq<Option<Call>>, fault: Option<Call>)
    requires |faults| < |topics| && (forall i :: 0 <= i < |topics| ==> IdsOf(topics[i]) <= db0.responses.Keys)
    requires AllMade(db0, db, topics, faults)
    requires db.nextId !in db.discussions && db.nextId !in db0.discussions
    requires forall r :: r in IdsOf(topics[|faults|]) ==> r in Unlinked(db)
    requires RowsChange(db, db', topics[|faults|], fault)
    requires DiscussionsChange(db, db', topics[|faults|], fault) && ActivitiesChange(db, db')
    requires db.nextId in db'.discussions ==> Made(db0, db', topics[|faults|], fault, db.nextId)
    ensures AllMade(db0, db', topics, faults + [fault])
  {
    var t, d, faults' := topics[|faults|], db.nextId, faults + [fault];
    forall e | e in db'.discussions && e !in db0.discussions
      ensures MadeBySome(db0, db', topics, faults', e)
    {
      if e == d {
        assert Made(db0, db', topics[|faults|], faults'[|faults|], e);
      } else {
        assert MadeBySome(db0, db, topics, faults, e);
        var i :| 0 <= i < |faults| && Made(db0, db, topics[i], faults[i], e);
        StepKeepsMade(db0, db, db', t, fault, topics[i], faults[i], e);
        assert Made(db0, db', topics[i], faults'[i], e);
      }
    }
    forall i | 0 <= i < |faults'| && topics[i].responses != [] && faults'[i] != Some(CreateDiscussion)
      ensures MadeFor(db0, db', topics[i], faults'[i])
    {
      if i == |faults| {
        assert d !in db0.discussions && Made(db0, db', topics[i], faults'[i], d);
      } else {
        assert MadeFor(db0, db, topics[i], faults[i]);
        var e :| e !in db0.discussions && Made(db0, db, topics[i], faults[i], e);
        StepKeepsMade(db0, db, db', t, fault, topics[i], faults[i], e);
      }
    }
  }

  lemma {:induction false} StartReached(db: Tables, topics: seq<Topic>)
    requires Fetch(db, topics)
    ensures Reached(db, db, topics, [])
  {
    forall i | 0 <= i < |topics| ensures IdsOf(topics[i]) <= db.responses.Keys {
      assert FetchedWith(db, topics[i]);
    }
    forall i, r | 0 <= i < |topics| && r in IdsOf(topics[i])
      ensures r in Unlinked(db)
    {
      assert FetchedWith(db, topics[i]);
    }
  }

  lemma RunOneMore(p: Progress, topics: seq<Topic>, faults: seq<Option<Call>>, k: nat)
    requires |faults| == |topics| && k < |topics|
    ensures Run(p, topics[..k + 1], faults[..k + 1]) == Process(Run(p, topics[..k], faults[..k]), topics[k], faults[k])
  {
    assert topics[..k + 1][..k] == topics[..k] && faults[..k + 1][..k] == faults[..k];
  }

  /** Where any run over a prefix of the topics leads, whatever calls throw. */
  lemma {:induction false} RunReaches(db: Tables, topics: seq<Topic>, faults: seq<Option<Call>>, k: nat)
    requires Fetch(db, topics) && |faults| == |topics| && k <= |topics|
    ensures Reached(db, Run(Start(db), topics[..k], faults[..k]).db, topics, faults[..k])
    decreases k
  {
    hide TablesAfter, StatsAfter, Reached;
    if k == 0 {
      StartReached(db, topics);
    } else {
      RunReaches(db, topics, faults, k - 1);
      RunOneMore(Start(db), topics, faults, k - 1);
      assert faults[..k] == faults[..k - 1] + [faults[k - 1]];
      StepReaches(db, Run(Start(db), topics[..k - 1], faults[..k - 1]).db, topics, faults[..k - 1], faults[k - 1]);
    }
  }
}

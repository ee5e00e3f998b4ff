/** The tables that the backfill migration reads and writes, and the queries it makes on them. */
module BackfillTables {
  import opened Optional

  type TopicId = string
  type UserId = string
  type ResponseId = string
  // ids are generated in order here; the database draws them as UUIDs
  type DiscussionId = nat

  datatype ResponseRow = ResponseRow(topicId: TopicId, authorId: UserId, createdAt: int,
                                     discussionId: Option<DiscussionId>)

  datatype DiscussionStatus = ACTIVE | ARCHIVED | DELETED

  datatype Discussion = Discussion(topicId: TopicId, creatorId: UserId, title: string, status: DiscussionStatus,
                                   responseCount: nat, participantCount: nat, lastActivityAt: int)

  datatype Activity = Activity(firstContributionAt: int, lastContributionAt: int, responseCount: nat)

  /** `nextId` is the id that the next discussion gets: no row carries it yet. */
  datatype Tables = Tables(responses: map<ResponseId, ResponseRow>, discussions: map<DiscussionId, Discussion>,
                           activities: map<(DiscussionId, UserId), Activity>, nextId: DiscussionId)

  /** The foreign keys of the schema, and fresh ids. */
  ghost predicate WellFormed(db: Tables) {
    && (forall r :: r in db.responses && db.responses[r].discussionId.Some? ==>
          db.responses[r].discussionId.value in db.discussions)
    && (forall k :: k in db.activities ==> k.0 in db.discussions)
    && (forall d :: d in db.discussions ==> d < db.nextId)
  }

  function Unlinked(db: Tables): set<ResponseId> {
    set r | r in db.responses && db.responses[r].discussionId == None
  }

  function RowsOf(db: Tables, d: DiscussionId): set<ResponseId> {
    set r | r in db.responses && db.responses[r].discussionId == Some(d)
  }

  function ActiveUsers(db: Tables, d: DiscussionId): set<UserId> {
    set k | k in db.activities && k.0 == d :: k.1
  }

  // ---------- grouping by author ----------

  function Authors(rows: map<ResponseId, ResponseRow>, ids: set<ResponseId>): set<UserId>
    requires ids <= rows.Keys
  {
    set r | r in ids :: rows[r].authorId
  }

  function ByAuthor(rows: map<ResponseId, ResponseRow>, ids: set<ResponseId>, u: UserId): set<ResponseId>
    requires ids <= rows.Keys
  {
    set r | r in ids && rows[r].authorId == u
  }

  function Times(rows: map<ResponseId, ResponseRow>, ids: set<ResponseId>): set<int>
    requires ids <= rows.Keys
  {
    set r | r in ids :: rows[r].createdAt
  }

  lemma {:induction false} LeastExists(s: set<int>)
    requires s != {}
    ensures exists x :: x in s && forall y :: y in s ==> x <= y
    decreases |s|
  {
    assert exists x :: x in s;
    var x :| x in s;
    if s != {x} {
      LeastExists(s - {x});
      var z :| z in s - {x} && forall y :: y in s - {x} ==> z <= y;
      assert forall y :: y in s ==> y == x || y in s - {x};
      var w := if x <= z then x else z;
      assert w in s && forall y :: y in s ==> w <= y;
    }
  }

  lemma {:induction false} GreatestExists(s: set<int>)
    requires s != {}
    ensures exists x :: x in s && forall y :: y in s ==> y <= x
    decreases |s|
  {
    assert exists x :: x in s;
    var x :| x in s;
    if s != {x} {
      GreatestExists(s - {x});
      var z :| z in s - {x} && forall y :: y in s - {x} ==> y <= z;
      assert forall y :: y in s ==> y == x || y in s - {x};
      var w := if z <= x then x else z;
      assert w in s && forall y :: y in s ==> y <= w;
    }
  }

  function Least(s: set<int>): int
    requires s != {}
  {
    LeastExists(s);
    var x :| x in s && forall y :: y in s ==> x <= y;
    x
  }

  function Greatest(s: set<int>): int
    requires s != {}
  {
    GreatestExists(s);
    var x :| x in s && forall y :: y in s ==> y <= x;
    x
  }

  /** What one author contributed to the responses `ids`: count, first and last time. */
  function Contribution(rows: map<ResponseId, ResponseRow>, ids: set<ResponseId>, u: UserId): Activity
    requires ids <= rows.Keys && u in Authors(rows, ids)
  {
    var mine := ByAuthor(rows, ids, u);
    assert Times(rows, mine) != {} by {
      var r :| r in ids && rows[r].authorId == u;
      assert rows[r].createdAt in Times(rows, mine);
    }
    Activity(Least(Times(rows, mine)), Greatest(Times(rows, mine)), |mine|)
  }

  /** The grouped query: one row for each author of a response in `ids`. */
  function GroupByAuthor(rows: map<ResponseId, ResponseRow>, ids: set<ResponseId>): map<UserId, Activity>
    requires ids <= rows.Keys
  {
    map u | u in Authors(rows, ids) :: Contribution(rows, ids, u)
  }

  /** Grouping looks at authors and times only, so relinking the rows does not change it. */
  lemma GroupingIgnoresLinks(rows: map<ResponseId, ResponseRow>, rows': map<ResponseId, ResponseRow>,
                             ids: set<ResponseId>)
    requires ids <= rows.Keys && ids <= rows'.Keys
    requires forall r :: r in ids ==> rows[r].authorId == rows'[r].authorId && rows[r].createdAt == rows'[r].createdAt
    ensures GroupByAuthor(rows, ids) == GroupByAuthor(rows', ids)
  {
    assert Authors(rows, ids) == Authors(rows', ids);
    forall u | u in Authors(rows, ids) ensures Contribution(rows, ids, u) == Contribution(rows', ids, u) {
      assert ByAuthor(rows, ids, u) == ByAuthor(rows', ids, u);
      assert Times(rows, ByAuthor(rows, ids, u)) == Times(rows', ByAuthor(rows, ids, u));
    }
  }

  /** Adds up the response counts of the authors `us`. */
  ghost function SumCounts(groups: map<UserId, Activity>, us: set<UserId>): nat
    requires us <= groups.Keys
    decreases |us|
  {
    if us == {} then 0
    else
      var u :| u in us;
      groups[u].responseCount + SumCounts(groups, us - {u})
  }

  lemma {:induction false} SumOverAuthors(rows: map<ResponseId, ResponseRow>, ids: set<ResponseId>, us: set<UserId>)
    requires ids <= rows.Keys && us <= Authors(rows, ids)
    ensures SumCounts(GroupByAuthor(rows, ids), us) == |set r | r in ids && rows[r].authorId in us|
    decreases |us|
  {
    var groups, all := GroupByAuthor(rows, ids), set r | r in ids && rows[r].authorId in us;
    if us == {} {
      assert all == {};
    } else {
      var u :| u in us && SumCounts(groups, us) == groups[u].responseCount + SumCounts(groups, us - {u});
      var mine, rest := ByAuthor(rows, ids, u), set r | r in ids && rows[r].authorId in us - {u};
      SumOverAuthors(rows, ids, us - {u});
      assert all == mine + rest && mine !! rest;
    }
  }

  /** The counts of all authors add up to the number of responses grouped. */
  lemma {:induction false} CountsAddUp(rows: map<ResponseId, ResponseRow>, ids: set<ResponseId>)
    requires ids <= rows.Keys
    ensures SumCounts(GroupByAuthor(rows, ids), Authors(rows, ids)) == |ids|
  {
    SumOverAuthors(rows, ids, Authors(rows, ids));
    assert ids == set r | r in ids && rows[r].authorId in Authors(rows, ids);
  }

  /** The latest contribution of any author is the latest response. */
  lemma {:induction false} LatestContribution(rows: map<ResponseId, ResponseRow>, ids: set<ResponseId>, latest: int)
    requires ids <= rows.Keys
    requires latest in Times(rows, ids) && forall r :: r in ids ==> rows[r].createdAt <= latest
    ensures forall u :: u in Authors(rows, ids) ==> Contribution(rows, ids, u).lastContributionAt <= latest
    ensures exists u :: u in Authors(rows, ids) && Contribution(rows, ids, u).lastContributionAt == latest
  {
    forall u | u in Authors(rows, ids)
      ensures Contribution(rows, ids, u).lastContributionAt <= latest
    {
      assert Contribution(rows, ids, u).lastContributionAt in Times(rows, ByAuthor(rows, ids, u));
    }
    var r :| r in ids && rows[r].createdAt == latest;
    var u := rows[r].authorId;
    assert r in ByAuthor(rows, ids, u);
    assert latest in Times(rows, ByAuthor(rows, ids, u));
    assert u in Authors(rows, ids) && Contribution(rows, ids, u).lastContributionAt == latest;
  }
}

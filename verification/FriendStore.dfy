/** The friend_relationships table: one row per unordered pair of users, the
    three statements that write it, and the queries that decode it.
    Column defaults, the primary key and the CHECK constraints are those of
    db/migrations/20251008113339_init_db.up.sql. */
module FriendStore {
  import opened Wrappers
  import opened Collections

  datatype Status = Pending | Accepted | Rejected | Blocked

  type Pair = (int, int)

  datatype Row = Row(action: int, status: Status, createdAt: int)

  type Table = map<Pair, Row>

  function EnsureUserOrder(a: int, b: int): (p: Pair)
    ensures p.0 <= p.1 && (p == (a, b) || p == (b, a))
  {
    if a < b then (a, b) else (b, a)
  }

  /** Rows are strictly ordered, one per pair, and the action user is in the pair. */
  ghost predicate WellFormed(t: Table) {
    forall k :: k in t ==> k.0 < k.1 && (t[k].action == k.0 || t[k].action == k.1)
  }

  function Get(t: Table, a: int, b: int): Option<Row> {
    var k := EnsureUserOrder(a, b);
    if k in t then Some(t[k]) else None
  }

  datatype StoreError = Unavailable | ConstraintViolated | FriendshipNotFound

  datatype Statement =
    | Upsert(action: int, target: int, now: int)
    | Update(action: int, target: int, status: Status)
    | Delete(a: int, b: int)

  /** What PostgreSQL does with one statement, atomically. A conflicting insert
      keeps created_at; an insert on a user paired with itself breaks a CHECK. */
  function Exec(t: Table, s: Statement): Result<Table, StoreError> {
    match s
    case Upsert(action, target, now) =>
      var k := EnsureUserOrder(action, target);
      if action == target then Err(ConstraintViolated)
      else if k in t then Ok(t[k := t[k].(action := action, status := Pending)])
      else Ok(t[k := Row(action, Pending, now)])
    case Update(action, target, status) =>
      var k := EnsureUserOrder(action, target);
      if k in t then Ok(t[k := t[k].(action := action, status := status)]) else Err(FriendshipNotFound)
    case Delete(a, b) =>
      var k := EnsureUserOrder(a, b);
      if k in t then Ok(t - {k}) else Err(FriendshipNotFound)
  }

  // ---------------------------------------------------------------- queries

  predicate Touches(k: Pair, u: int) {
    k.0 == u || k.1 == u
  }

  /** The CASE expression every list query projects. */
  function Other(k: Pair, u: int): int {
    if k.0 == u then k.1 else k.0
  }

  ghost function RowsOf(t: Table, u: int, p: Row -> bool): set<Pair> {
    set k | k in t && Touches(k, u) && p(t[k])
  }

  ghost function Related(t: Table, u: int, p: Row -> bool): set<int> {
    set k | k in RowsOf(t, u, p) :: Other(k, u)
  }

  function AnyRow(): Row -> bool { (r: Row) => true }

  function IsAccepted(): Row -> bool { (r: Row) => r.status.Accepted? }

  function IsBlocked(): Row -> bool { (r: Row) => r.status.Blocked? }

  function IsRequestTo(u: int): Row -> bool {
    (r: Row) => (r.status.Pending? && r.action != u) || (r.status.Rejected? && r.action == u)
  }

  function IsSentBy(u: int): Row -> bool {
    (r: Row) => (r.status.Pending? && r.action == u) || (r.status.Rejected? && r.action != u)
  }

  function PendingNotBy(u: int): Row -> bool { (r: Row) => r.status.Pending? && r.action != u }

  function PendingBy(u: int): Row -> bool { (r: Row) => r.status.Pending? && r.action == u }

  function RejectedBy(u: int): Row -> bool { (r: Row) => r.status.Rejected? && r.action == u }

  function RejectedNotBy(u: int): Row -> bool { (r: Row) => r.status.Rejected? && r.action != u }

  ghost function FriendsOf(t: Table, u: int): set<int> { Related(t, u, IsAccepted()) }

  ghost function RequestsTo(t: Table, u: int): set<int> { Related(t, u, IsRequestTo(u)) }

  ghost function SentBy(t: Table, u: int): set<int> { Related(t, u, IsSentBy(u)) }

  ghost function BlockedFor(t: Table, u: int): set<int> { Related(t, u, IsBlocked()) }

  ghost function AllRelated(t: Table, u: int): set<int> { Related(t, u, AnyRow()) }

  /** GetUserFriends without LIMIT and OFFSET: ORDER BY friend_id. */
  ghost function FriendsList(t: Table, u: int): seq<int> {
    Sorted(FriendsOf(t, u))
  }

  datatype CountType = CountPending | CountAccepted | CountRejected | CountBlocked | CountSent | CountNotFriends

  /** The clause GetUserIDsByFriendType puts into its query; "rejected" has none. */
  function StatusClause(c: CountType, u: int): Option<Row -> bool> {
    match c
    case CountNotFriends => Some((r: Row) => true)
    case CountAccepted => Some((r: Row) => r.status == Accepted)
    case CountPending =>
      Some((r: Row) => (r.status == Pending && r.action != u) || (r.status == Rejected && r.action == u))
    case CountSent =>
      Some((r: Row) => (r.status == Pending && r.action == u) || (r.status == Rejected && r.action != u))
    case CountBlocked => Some((r: Row) => r.status == Blocked)
    case CountRejected => None
  }

  /** GetUserIDsByFriendType: the ids it projects, unless it refuses the type. */
  ghost function ByType(t: Table, u: int, c: CountType): Option<set<int>> {
    var clause := StatusClause(c, u);
    if clause.None? then None
    else Some(set k | k in t && (k.0 == u || k.1 == u) && clause.value(t[k]) :: if k.0 == u then k.1 else k.0)
  }

  datatype Counters = Counters(accepted: int, pending: int, sent: int, blocked: int)

  /** CountUserRelations: six FILTER counts over table rows, then the two sums. */
  ghost function Count(t: Table, u: int): Counters {
    Counters(|RowsOf(t, u, IsAccepted())|,
             |RowsOf(t, u, PendingNotBy(u))| + |RowsOf(t, u, RejectedBy(u))|,
             |RowsOf(t, u, PendingBy(u))| + |RowsOf(t, u, RejectedNotBy(u))|,
             |RowsOf(t, u, IsBlocked())|)
  }

  // ------------------------------------------------------------- properties

  lemma UnorderedPair(a: int, b: int, c: int, d: int)
    ensures EnsureUserOrder(a, b) == EnsureUserOrder(c, d) <==> (a == c && b == d) || (a == d && b == c)
  {
  }

  /** No statement, whatever its arguments, breaks the shape of the table. */
  lemma ExecKeepsWellFormed(t: Table, s: Statement)
    requires WellFormed(t)
    ensures Exec(t, s).Ok? ==> WellFormed(Exec(t, s).value)
  {
  }

  lemma RelatedIff(t: Table, u: int, p: Row -> bool, x: int)
    requires WellFormed(t)
    ensures x in Related(t, u, p) <==> x != u && Get(t, u, x).Some? && p(Get(t, u, x).value)
  {
    var k := EnsureUserOrder(u, x);
    if x != u && k in t && p(t[k]) {
      assert k in RowsOf(t, u, p) && Other(k, u) == x;
    }
  }

  /** What each list shows of the row of u and x: a request is pending from x, or
      refused by u; a sent one is pending from u, or refused by x. */
  lemma ListsIff(t: Table, u: int, x: int)
    requires WellFormed(t)
    ensures x in AllRelated(t, u) <==> x != u && Get(t, u, x).Some?
    ensures x in FriendsOf(t, u) <==> x in AllRelated(t, u) && Get(t, u, x).value.status == Accepted
    ensures x in BlockedFor(t, u) <==> x in AllRelated(t, u) && Get(t, u, x).value.status == Blocked
    ensures x in RequestsTo(t, u) <==>
              x in AllRelated(t, u) && ((Get(t, u, x).value.status == Pending && Get(t, u, x).value.action == x)
                                        || (Get(t, u, x).value.status == Rejected && Get(t, u, x).value.action == u))
    ensures x in SentBy(t, u) <==>
              x in AllRelated(t, u) && ((Get(t, u, x).value.status == Pending && Get(t, u, x).value.action == u)
                                        || (Get(t, u, x).value.status == Rejected && Get(t, u, x).value.action == x))
  {
    OneClass(t, u, x);
    RelatedIff(t, u, AnyRow(), x);
  }

  /** What one user sees as sent, the other sees as a request. */
  lemma Duality(t: Table, a: int, b: int)
    requires WellFormed(t)
    ensures b in SentBy(t, a) <==> a in RequestsTo(t, b)
    ensures b in FriendsOf(t, a) <==> a in FriendsOf(t, b)
  {
    RelatedIff(t, a, IsSentBy(a), b);
    RelatedIff(t, b, IsRequestTo(b), a);
    RelatedIff(t, a, IsAccepted(), b);
    RelatedIff(t, b, IsAccepted(), a);
    UnorderedPair(a, b, b, a);
  }

  lemma RowsMatchRelated(t: Table, u: int, p: Row -> bool)
    requires WellFormed(t)
    ensures |Related(t, u, p)| == |RowsOf(t, u, p)|
  {
    var rows, other := RowsOf(t, u, p), (k: Pair) => Other(k, u);
    forall k, l | k in rows && l in rows && other(k) == other(l)
      ensures k == l
    {
      assert k == EnsureUserOrder(u, Other(k, u)) && l == EnsureUserOrder(u, Other(l, u));
    }
    forall x | x in Related(t, u, p)
      ensures exists k :: k in rows && other(k) == x
    {
      var k :| k in rows && Other(k, u) == x;
      assert other(k) == x;
    }
    BijectionSize(rows, Related(t, u, p), other);
  }

  lemma RowsSplit(t: Table, u: int, p: Row -> bool, q: Row -> bool, both: Row -> bool)
    requires forall r: Row :: both(r) <==> p(r) || q(r)
    requires forall r: Row :: !(p(r) && q(r))
    ensures |RowsOf(t, u, both)| == |RowsOf(t, u, p)| + |RowsOf(t, u, q)|
  {
    assert RowsOf(t, u, both) == RowsOf(t, u, p) + RowsOf(t, u, q);
  }

  /** The six-way count over rows gives the sizes of the four id lists. */
  lemma CountsAreListSizes(t: Table, u: int)
    requires WellFormed(t)
    ensures Count(t, u) ==
            Counters(|FriendsOf(t, u)|, |RequestsTo(t, u)|, |SentBy(t, u)|, |BlockedFor(t, u)|)
  {
    RowsMatchRelated(t, u, IsAccepted());
    RowsMatchRelated(t, u, IsBlocked());
    RowsMatchRelated(t, u, IsRequestTo(u));
    RowsMatchRelated(t, u, IsSentBy(u));
    RowsSplit(t, u, PendingNotBy(u), RejectedBy(u), IsRequestTo(u));
    RowsSplit(t, u, PendingBy(u), RejectedNotBy(u), IsSentBy(u));
  }

  lemma OneClass(t: Table, u: int, x: int)
    requires WellFormed(t)
    ensures x !in AllRelated(t, u) ==>
              x !in FriendsOf(t, u) && x !in RequestsTo(t, u) && x !in SentBy(t, u) && x !in BlockedFor(t, u)
    ensures x in AllRelated(t, u) ==> Get(t, u, x).Some?
    ensures x in AllRelated(t, u) ==>
              var row := Get(t, u, x).value;
              && (x in FriendsOf(t, u) <==> IsAccepted()(row))
              && (x in RequestsTo(t, u) <==> IsRequestTo(u)(row))
              && (x in SentBy(t, u) <==> IsSentBy(u)(row))
              && (x in BlockedFor(t, u) <==> IsBlocked()(row))
  {
    RelatedIff(t, u, AnyRow(), x);
    RelatedIff(t, u, IsAccepted(), x);
    RelatedIff(t, u, IsRequestTo(u), x);
    RelatedIff(t, u, IsSentBy(u), x);
    RelatedIff(t, u, IsBlocked(), x);
  }

  /** x is in all iff it is in one of the four, and never in two. */
  predicate InOneOf(x: int, all: set<int>, a: set<int>, b: set<int>, c: set<int>, d: set<int>) {
    && (x in all <==> x in a || x in b || x in c || x in d)
    && !(x in a && x in b) && !(x in a && x in c) && !(x in a && x in d)
    && !(x in b && x in c) && !(x in b && x in d) && !(x in c && x in d)
  }

  lemma FourParts(all: set<int>, a: set<int>, b: set<int>, c: set<int>, d: set<int>)
    requires forall x :: InOneOf(x, all, a, b, c, d)
    ensures all == a + b + c + d && a !! b !! c !! d
    ensures |all| == |a| + |b| + |c| + |d|
  {
    forall x: int
      ensures x in all <==> x in a + b + c + d
      ensures x !in a * b && x !in (a + b) * c && x !in (a + b + c) * d
    {
      assert InOneOf(x, all, a, b, c, d);
    }
    assert |a + b + c + d| == |a + b + c| + |d|;
  }

  lemma OneClassOf(t: Table, u: int, x: int)
    requires WellFormed(t)
    ensures InOneOf(x, AllRelated(t, u), FriendsOf(t, u), RequestsTo(t, u), SentBy(t, u), BlockedFor(t, u))
  {
    OneClass(t, u, x);
  }

  /** The four classes split the list of related users, so the counters add up to its length. */
  lemma ClassesPartition(t: Table, u: int)
    requires WellFormed(t)
    ensures AllRelated(t, u) == FriendsOf(t, u) + RequestsTo(t, u) + SentBy(t, u) + BlockedFor(t, u)
    ensures FriendsOf(t, u) !! RequestsTo(t, u) !! SentBy(t, u) !! BlockedFor(t, u)
    ensures |AllRelated(t, u)| == Count(t, u).accepted + Count(t, u).pending + Count(t, u).sent + Count(t, u).blocked
  {
    var all, fr, rq, st, bl := AllRelated(t, u), FriendsOf(t, u), RequestsTo(t, u), SentBy(t, u), BlockedFor(t, u);
    forall x: int
      ensures InOneOf(x, all, fr, rq, st, bl)
    {
      OneClassOf(t, u, x);
    }
    FourParts(all, fr, rq, st, bl);
    CountsAreListSizes(t, u);
  }

  /** A result set of a list query: every row once, in whatever order it came. */
  ghost predicate Lists(ids: seq<int>, s: set<int>) {
    NoDup(ids) && Elems(ids) == s
  }

  lemma ListSize(ids: seq<int>, s: set<int>)
    requires Lists(ids, s)
    ensures |ids| == |s|
  {
    NoDupSize(ids);
  }

  lemma FriendsListed(t: Table, u: int)
    ensures Lists(FriendsList(t, u), FriendsOf(t, u))
  {
    var s := FriendsOf(t, u);
    SortedEnumerates(s);
    assert Elems(Sorted(s)) == s;
  }

  /** Every counter is the length of the matching unpaged list, and the list of
      related users is as long as the four together. */
  lemma CountersAgree(t: Table, u: int, requests: seq<int>, sent: seq<int>, all: seq<int>)
    requires WellFormed(t)
    requires Lists(requests, RequestsTo(t, u)) && Lists(sent, SentBy(t, u)) && Lists(all, AllRelated(t, u))
    ensures Count(t, u) == Counters(|FriendsList(t, u)|, |requests|, |sent|, |BlockedFor(t, u)|)
    ensures |all| == |FriendsList(t, u)| + |requests| + |sent| + |BlockedFor(t, u)|
  {
    FriendsListed(t, u);
    ListSize(FriendsList(t, u), FriendsOf(t, u));
    ListSize(requests, RequestsTo(t, u));
    ListSize(sent, SentBy(t, u));
    ListSize(all, AllRelated(t, u));
    CountsAreListSizes(t, u);
    ClassesPartition(t, u);
  }

  /** One clause of the filter selects what a list query with the same meaning
      projects. */
  lemma ClauseAgrees(t: Table, u: int, c: CountType, p: Row -> bool)
    requires StatusClause(c, u).Some?
    requires forall r: Row :: StatusClause(c, u).value(r) <==> p(r)
    ensures ByType(t, u, c) == Some(Related(t, u, p))
  {
    forall x: int
      ensures x in ByType(t, u, c).value <==> x in Related(t, u, p)
    {
      if x in Related(t, u, p) {
        var k :| k in RowsOf(t, u, p) && Other(k, u) == x;
        assert StatusClause(c, u).value(t[k]);
      }
      if x in ByType(t, u, c).value {
        var k :| k in t && Touches(k, u) && StatusClause(c, u).value(t[k]) && Other(k, u) == x;
        assert k in RowsOf(t, u, p);
      }
    }
    assert ByType(t, u, c).value == Related(t, u, p);
  }

  /** The relation-type filter, with clauses of its own, selects exactly the ids
      the lists show, as many as the counters say, and refuses "rejected" alone. */
  lemma FilterAgrees(t: Table, u: int, c: CountType)
    requires WellFormed(t)
    ensures ByType(t, u, c).None? <==> c == CountRejected
    ensures c.CountNotFriends? ==> ByType(t, u, c) == Some(AllRelated(t, u))
    ensures c.CountAccepted? ==> ByType(t, u, c) == Some(FriendsOf(t, u)) && |FriendsOf(t, u)| == Count(t, u).accepted
    ensures c.CountPending? ==> ByType(t, u, c) == Some(RequestsTo(t, u)) && |RequestsTo(t, u)| == Count(t, u).pending
    ensures c.CountSent? ==> ByType(t, u, c) == Some(SentBy(t, u)) && |SentBy(t, u)| == Count(t, u).sent
    ensures c.CountBlocked? ==> ByType(t, u, c) == Some(BlockedFor(t, u)) && |BlockedFor(t, u)| == Count(t, u).blocked
  {
    CountsAreListSizes(t, u);
    match c
    case CountNotFriends => ClauseAgrees(t, u, c, AnyRow());
    case CountAccepted => ClauseAgrees(t, u, c, IsAccepted());
    case CountPending => ClauseAgrees(t, u, c, IsRequestTo(u));
    case CountSent => ClauseAgrees(t, u, c, IsSentBy(u));
    case CountBlocked => ClauseAgrees(t, u, c, IsBlocked());
    case CountRejected =>
  }

  // -------------------------------------------------------- double counting

  ghost predicate Covers(users: seq<int>, t: Table) {
    NoDup(users) && forall k :: k in t ==> k.0 in users && k.1 in users
  }

  ghost function KeysWith(t: Table, p: Row -> bool): set<Pair> {
    set k | k in t && p(t[k])
  }

  function IsOpen(): Row -> bool { (r: Row) => r.status.Pending? || r.status.Rejected? }

  /** Who asked: the action user of a pending row, the other user of a rejected one. */
  function Asker(t: Table): Pair -> int {
    k => if k !in t then 0 else if t[k].status.Rejected? then Other(k, t[k].action) else t[k].action
  }

  function Asked(t: Table): Pair -> int {
    k => Other(k, Asker(t)(k))
  }

  function Low(): Pair -> int { (k: Pair) => k.0 }

  function High(): Pair -> int { (k: Pair) => k.1 }

  lemma SentByAsker(t: Table, u: int)
    requires WellFormed(t)
    ensures |SentBy(t, u)| == |Fiber(KeysWith(t, IsOpen()), Asker(t), u)|
  {
    RowsMatchRelated(t, u, IsSentBy(u));
    assert RowsOf(t, u, IsSentBy(u)) == Fiber(KeysWith(t, IsOpen()), Asker(t), u);
  }

  lemma RequestedOfAsked(t: Table, u: int)
    requires WellFormed(t)
    ensures |RequestsTo(t, u)| == |Fiber(KeysWith(t, IsOpen()), Asked(t), u)|
  {
    RowsMatchRelated(t, u, IsRequestTo(u));
    forall k: Pair
      ensures k in RowsOf(t, u, IsRequestTo(u)) <==> k in Fiber(KeysWith(t, IsOpen()), Asked(t), u)
    {
      if k in t {
        assert Asked(t)(k) == Other(k, Asker(t)(k));
      }
    }
    assert RowsOf(t, u, IsRequestTo(u)) == Fiber(KeysWith(t, IsOpen()), Asked(t), u);
  }

  lemma FriendsAtEitherEnd(t: Table, u: int, low: set<Pair>, high: set<Pair>)
    requires WellFormed(t)
    requires low == Fiber(KeysWith(t, IsAccepted()), Low(), u) && high == Fiber(KeysWith(t, IsAccepted()), High(), u)
    ensures |FriendsOf(t, u)| == |low| + |high|
  {
    RowsMatchRelated(t, u, IsAccepted());
    var rows := RowsOf(t, u, IsAccepted());
    forall k: Pair
      ensures k in rows <==> k in low || k in high
      ensures !(k in low && k in high)
    {
    }
    assert rows == low + high;
  }

  lemma SentTotal(t: Table, users: seq<int>)
    requires WellFormed(t) && Covers(users, t)
    ensures Sum(users, u => Count(t, u).sent) == |KeysWith(t, IsOpen())|
  {
    forall u: int
      ensures Count(t, u).sent == |Fiber(KeysWith(t, IsOpen()), Asker(t), u)|
    {
      CountsAreListSizes(t, u);
      SentByAsker(t, u);
    }
    FibersSum(KeysWith(t, IsOpen()), Asker(t), users, u => Count(t, u).sent);
  }

  lemma PendingTotal(t: Table, users: seq<int>)
    requires WellFormed(t) && Covers(users, t)
    ensures Sum(users, u => Count(t, u).pending) == |KeysWith(t, IsOpen())|
  {
    forall u: int
      ensures Count(t, u).pending == |Fiber(KeysWith(t, IsOpen()), Asked(t), u)|
    {
      CountsAreListSizes(t, u);
      RequestedOfAsked(t, u);
    }
    forall k | k in KeysWith(t, IsOpen())
      ensures Asked(t)(k) in users
    {
      assert Asked(t)(k) == Other(k, Asker(t)(k));
    }
    FibersSum(KeysWith(t, IsOpen()), Asked(t), users, u => Count(t, u).pending);
  }

  lemma AcceptedTotal(t: Table, users: seq<int>)
    requires WellFormed(t) && Covers(users, t)
    ensures Sum(users, u => Count(t, u).accepted) == 2 * |KeysWith(t, IsAccepted())|
  {
    var acc := KeysWith(t, IsAccepted());
    var lows, highs := (u: int) => |Fiber(acc, Low(), u)|, (u: int) => |Fiber(acc, High(), u)|;
    FibersSum(acc, Low(), users, lows);
    FibersSum(acc, High(), users, highs);
    forall u: int
      ensures Count(t, u).accepted == lows(u) + highs(u)
    {
      CountsAreListSizes(t, u);
      FriendsAtEitherEnd(t, u, Fiber(acc, Low(), u), Fiber(acc, High(), u));
    }
    SumAdds(users, lows, highs, u => Count(t, u).accepted);
  }

  /** Over all users the sent and pending counters both add up to the number of
      open rows, and the accepted counters to twice the accepted rows. */
  lemma DoubleCounting(t: Table, users: seq<int>)
    requires WellFormed(t) && Covers(users, t)
    ensures Sum(users, u => Count(t, u).sent) == Sum(users, u => Count(t, u).pending) == |KeysWith(t, IsOpen())|
    ensures Sum(users, u => Count(t, u).accepted) == 2 * |KeysWith(t, IsAccepted())|
  {
    SentTotal(t, users);
    PendingTotal(t, users);
    AcceptedTotal(t, users);
  }

  // -------------------------------------------------------------- the store

  /** The outcome of one statement; down is a statement the database failed to answer. */
  ghost predicate Ran(before: Table, after: Table, err: Option<StoreError>, s: Statement, down: bool) {
    if down then err == Some(Unavailable) && after == before
    else match Exec(before, s)
         case Ok(t) => err == None && after == t
         case Err(e) => err == Some(e) && after == before
  }

  class DBFriendStore {
    var table: Table

    constructor ()
      ensures table == map[] && WellFormed(table)
    {
      table := map[];
    }

    method CreateFriendship(action: int, target: int, now: int, down: bool) returns (err: Option<StoreError>)
      requires WellFormed(table)
      modifies this
      ensures WellFormed(table) && Ran(old(table), table, err, Upsert(action, target, now), down)
      ensures err == if down then Some(Unavailable) else if action == target then Some(ConstraintViolated) else None
      ensures err.None? ==>
                var k := EnsureUserOrder(action, target);
                table == old(table)[k := Row(action, Pending, if k in old(table) then old(table)[k].createdAt else now)]
    {
      var (first, second) := EnsureUserOrder(action, target);
      if down {
        return Some(Unavailable);
      }
      if first == second {
        return Some(ConstraintViolated);
      }
      var created := if (first, second) in table then table[(first, second)].createdAt else now;
      table := table[(first, second) := Row(action, Pending, created)];
      return None;
    }

    method UpdateFriendshipStatus(action: int, target: int, status: Status, down: bool)
      returns (err: Option<StoreError>)
      requires WellFormed(table)
      modifies this
      ensures WellFormed(table) && Ran(old(table), table, err, Update(action, target, status), down)
      ensures err == if down then Some(Unavailable)
                     else if EnsureUserOrder(action, target) !in old(table) then Some(FriendshipNotFound) else None
      ensures err.None? ==>
                var k := EnsureUserOrder(action, target);
                table == old(table)[k := Row(action, status, old(table)[k].createdAt)]
    {
      var (first, second) := EnsureUserOrder(action, target);
      if down {
        return Some(Unavailable);
      }
      if (first, second) !in table {
        return Some(FriendshipNotFound);
      }
      table := table[(first, second) := Row(action, status, table[(first, second)].createdAt)];
      return None;
    }

    method DeleteFriendship(a: int, b: int, down: bool) returns (err: Option<StoreError>)
      requires WellFormed(table)
      modifies this
      ensures WellFormed(table) && Ran(old(table), table, err, Delete(a, b), down)
      ensures err == if down then Some(Unavailable)
                     else if EnsureUserOrder(a, b) !in old(table) then Some(FriendshipNotFound) else None
      ensures err.None? ==> table == old(table) - {EnsureUserOrder(a, b)}
    {
      var (first, second) := EnsureUserOrder(a, b);
      if down {
        return Some(Unavailable);
      }
      if (first, second) !in table {
        return Some(FriendshipNotFound);
      }
      table := map k | k in table && k != (first, second) :: table[k];
      return None;
    }

    method GetFriendship(a: int, b: int, down: bool) returns (r: Result<Row, StoreError>)
      ensures r.Ok? <==> !down && Get(table, a, b).Some?
      ensures r.Ok? ==> Some(r.value) == Get(table, a, b) == Get(table, b, a)
      ensures r.Err? ==> r.error == if down then Unavailable else FriendshipNotFound
    {
      var (first, second) := EnsureUserOrder(a, b);
      if down {
        return Err(Unavailable);
      }
      if (first, second) !in table {
        return Err(FriendshipNotFound);
      }
      return Ok(table[(first, second)]);
    }

    /** No row is not an error here: the status is then empty. */
    method GetFriendshipStatus(a: int, b: int, down: bool) returns (r: Result<Option<Status>, StoreError>)
      ensures r.Ok? <==> !down
      ensures r.Ok? ==> (r.value.None? <==> Get(table, a, b).None?)
      ensures r.Ok? && r.value.Some? ==> Get(table, a, b).Some? && r.value.value == Get(table, a, b).value.status
      ensures r.Err? ==> r.error == Unavailable
    {
      var got := GetFriendship(a, b, down);
      match got
      case Ok(row) => return Ok(Some(row.status));
      case Err(FriendshipNotFound) => return Ok(None);
      case Err(e) => return Err(e);
    }
  }
}

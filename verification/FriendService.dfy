/** The four calls of FriendService that write friendships, as atomic steps. */
module FriendService {
  import opened Wrappers
  import opened Domain
  import opened FriendStore

  datatype Call =
    | Send(actor: int, other: int)
    | Accept(actor: int, other: int)
    | Reject(actor: int, other: int)
    | Remove(actor: int, other: int)

  function On(c: Call): Pair {
    EnsureUserOrder(c.actor, c.other)
  }

  datatype Auth = AuthDown | AuthSays(exists_: bool)

  /** What the surroundings do during one call: the auth service's answer, the
      clock, and which of the call's statements the database fails. */
  datatype Env = Env(auth: Auth, now: int, readDown: bool, rereadDown: bool, writeDown: bool)

  /** Whether the row a call reads lets it go on to its write. */
  predicate Permits(row: Option<Row>, c: Call) {
    match c
    case Send(a, b) => a != b && (row.None? || row.value.status.Rejected?)
    case Accept(u, f) => row.Some? && row.value.status.Pending? && row.value.action != u
    case Reject(u, f) => row.Some? && row.value.status.Pending? && row.value.action != u
    case Remove(u, f) => true
  }

  function WriteOf(c: Call, now: int): Statement {
    match c
    case Send(a, b) => Upsert(a, b, now)
    case Accept(u, f) => Update(u, f, Accepted)
    case Reject(u, f) => Update(u, f, Rejected)
    case Remove(u, f) => Delete(u, f)
  }

  /** The error a call returns instead of writing, if any. A missing row makes
      Accept and Reject answer ErrDB: the store says ErrFriendshipNotFound and
      the service only looks for ErrNotFound. */
  function Refusal(row: Option<Row>, c: Call, e: Env): Option<Error> {
    match c
    case Send(a, b) =>
      if a == b then Some(ErrInvalidInput)
      else if e.auth.AuthDown? then Some(ErrDB)
      else if !e.auth.exists_ then Some(ErrNotExist)
      else if e.readDown then Some(ErrDB)
      else if row.None? then None
      else (match row.value.status
            case Accepted => Some(ErrAlreadyExists)
            case Pending => Some(if e.rereadDown then ErrDB else ErrAlreadyExists)
            case Blocked => Some(ErrAccessDenied)
            case Rejected => None)
    case Remove(u, f) => None
    case _ =>
      if e.readDown || row.None? then Some(ErrDB)
      else if !row.value.status.Pending? || row.value.action == c.actor then Some(ErrNotFound)
      else None
  }

  /** One call, reads and write together. */
  function Step(t: Table, c: Call, e: Env): (Table, Option<Error>) {
    var refusal := Refusal(Get(t, c.actor, c.other), c, e);
    if refusal.Some? then (t, refusal)
    else if e.writeDown then (t, Some(ErrDB))
    else match Exec(t, WriteOf(c, e.now))
         case Ok(next) => (next, None)
         case Err(_) => (t, Some(ErrDB))
  }

  lemma StepKeepsWellFormed(t: Table, c: Call, e: Env)
    requires WellFormed(t)
    ensures WellFormed(Step(t, c, e).0)
  {
    ExecKeepsWellFormed(t, WriteOf(c, e.now));
  }

  /** A call succeeds iff nothing around it fails, the target of a request
      exists, its guard holds, and (for a removal) there is a row. */
  lemma SucceedsIff(t: Table, c: Call, e: Env)
    requires WellFormed(t)
    ensures Step(t, c, e).1.None? <==>
            && !e.writeDown
            && (c.Send? ==> e.auth == AuthSays(true))
            && (!c.Remove? ==> !e.readDown)
            && Permits(Get(t, c.actor, c.other), c)
            && (c.Remove? ==> Get(t, c.actor, c.other).Some?)
    ensures Step(t, c, e).1.Some? ==> Step(t, c, e).0 == t
  {
  }

  class FriendService {
    const friendStore: DBFriendStore

    constructor (friendStore: DBFriendStore)
      ensures this.friendStore == friendStore
    {
      this.friendStore := friendStore;
    }

    method SendFriendRequest(actor: int, target: int, e: Env) returns (err: Option<Error>)
      requires WellFormed(friendStore.table)
      modifies friendStore
      ensures WellFormed(friendStore.table)
      ensures (friendStore.table, err) == Step(old(friendStore.table), Send(actor, target), e)
      ensures actor == target ==> err == Some(ErrInvalidInput)
      ensures actor != target && e.auth.AuthDown? ==> err == Some(ErrDB)
      ensures actor != target && e.auth == AuthSays(false) ==> err == Some(ErrNotExist)
      ensures actor != target && e.auth == AuthSays(true) ==>
                var k := EnsureUserOrder(actor, target);
                var was := old(friendStore.table);
                if e.readDown then err == Some(ErrDB)
                else if k in was && was[k].status == Accepted then err == Some(ErrAlreadyExists)
                else if k in was && was[k].status == Pending then err ==
                  Some(if e.rereadDown then ErrDB else ErrAlreadyExists)
                else if k in was && was[k].status == Blocked then err == Some(ErrAccessDenied)
                else if e.writeDown then err == Some(ErrDB)
                else err == None && friendStore.table ==
                       was[k := Row(actor, Pending, if k in was then was[k].createdAt else e.now)]
      ensures err.Some? ==> friendStore.table == old(friendStore.table)
    {
      if actor == target {
        return Some(ErrInvalidInput);
      }
      if e.auth.AuthDown? {
        return Some(ErrDB);
      }
      if !e.auth.exists_ {
        return Some(ErrNotExist);
      }
      var current := friendStore.GetFriendshipStatus(actor, target, e.readDown);
      if current.Err? {
        return Some(ErrDB);
      }
      match current.value {
        case Some(Accepted) =>
          return Some(ErrAlreadyExists);
        case Some(Pending) =>
          var friendship := friendStore.GetFriendship(actor, target, e.rereadDown);
          if friendship.Err? {
            return Some(ErrDB);
          }
          return Some(ErrAlreadyExists);
        case Some(Blocked) =>
          return Some(ErrAccessDenied);
        case Some(Rejected) =>
        case None =>
      }
      var failed := friendStore.CreateFriendship(actor, target, e.now, e.writeDown);
      if failed.Some? {
        return Some(ErrDB);
      }
      return None;
    }

    method AcceptFriendRequest(user: int, friend: int, e: Env) returns (err: Option<Error>)
      requires WellFormed(friendStore.table)
      modifies friendStore
      ensures WellFormed(friendStore.table)
      ensures (friendStore.table, err) == Step(old(friendStore.table), Accept(user, friend), e)
      ensures var k := EnsureUserOrder(user, friend);
              var was := old(friendStore.table);
              if e.readDown || k !in was then err == Some(ErrDB)
              else if was[k].status != Pending || was[k].action == user then err == Some(ErrNotFound)
              else if e.writeDown then err == Some(ErrDB)
              else err == None && friendStore.table == was[k := Row(user, Accepted, was[k].createdAt)]
      ensures err.Some? ==> friendStore.table == old(friendStore.table)
    {
      var friendship := friendStore.GetFriendship(user, friend, e.readDown);
      if friendship.Err? {
        return Some(ErrDB);
      }
      if friendship.value.status != Pending || friendship.value.action == user {
        return Some(ErrNotFound);
      }
      var failed := friendStore.UpdateFriendshipStatus(user, friend, Accepted, e.writeDown);
      if failed.Some? {
        return Some(ErrDB);
      }
      return None;
    }

    method RejectFriendRequest(user: int, friend: int, e: Env) returns (err: Option<Error>)
      requires WellFormed(friendStore.table)
      modifies friendStore
      ensures WellFormed(friendStore.table)
      ensures (friendStore.table, err) == Step(old(friendStore.table), Reject(user, friend), e)
      ensures var k := EnsureUserOrder(user, friend);
              var was := old(friendStore.table);
              if e.readDown || k !in was then err == Some(ErrDB)
              else if was[k].status != Pending || was[k].action == user then err == Some(ErrNotFound)
              else if e.writeDown then err == Some(ErrDB)
              else err == None && friendStore.table == was[k := Row(user, Rejected, was[k].createdAt)]
      ensures err.Some? ==> friendStore.table == old(friendStore.table)
    {
      var friendship := friendStore.GetFriendship(user, friend, e.readDown);
      if friendship.Err? {
        return Some(ErrDB);
      }
      if friendship.value.status != Pending || friendship.value.action == user {
        return Some(ErrNotFound);
      }
      var failed := friendStore.UpdateFriendshipStatus(user, friend, Rejected, e.writeDown);
      if failed.Some? {
        return Some(ErrDB);
      }
      return None;
    }

    method RemoveFriend(user: int, friend: int, e: Env) returns (err: Option<Error>)
      requires WellFormed(friendStore.table)
      modifies friendStore
      ensures WellFormed(friendStore.table)
      ensures (friendStore.table, err) == Step(old(friendStore.table), Remove(user, friend), e)
      ensures var k := EnsureUserOrder(user, friend);
              if e.writeDown || k !in old(friendStore.table)
              then err == Some(ErrDB) && friendStore.table == old(friendStore.table)
              else err == None && friendStore.table == old(friendStore.table) - {k}
    {
      var failed := friendStore.DeleteFriendship(user, friend, e.writeDown);
      if failed.Some? {
        return Some(ErrDB);
      }
      return None;
    }
  }

  // ------------------------------------- the three relations behind the table

  /** What the table means: directed requests, directed refusals (who asked, who
      refused), and two symmetric relations. */
  datatype Social = Social(pending: set<Pair>, declined: set<Pair>, friends: set<Pair>, blocked: set<Pair>)

  function Swap(p: Pair): Pair { (p.1, p.0) }

  /** The social reading of a table: (x, y) is pending when x asked y, declined
      when y refused x. */
  ghost predicate Means(t: Table, s: Social) {
    forall x, y ::
      var row := Get(t, x, y);
      && ((x, y) in s.pending <==> row.Some? && row.value.status.Pending? && row.value.action == x)
      && ((x, y) in s.declined <==> row.Some? && row.value.status.Rejected? && row.value.action == y)
      && ((x, y) in s.friends <==> row.Some? && row.value.status.Accepted?)
      && ((x, y) in s.blocked <==> row.Some? && row.value.status.Blocked?)
  }

  /** The rules, stated without a table. */
  ghost predicate Allowed(s: Social, c: Call) {
    var p := (c.actor, c.other);
    match c
    case Send(a, b) => a != b && p !in s.pending && Swap(p) !in s.pending && p !in s.friends && p !in s.blocked
    case Accept(u, f) => Swap(p) in s.pending
    case Reject(u, f) => Swap(p) in s.pending
    case Remove(u, f) => p in s.pending + s.declined + s.friends + s.blocked || Swap(p) in s.pending + s.declined
  }

  ghost function Clear(s: Social, p: Pair): Social {
    var both := {p, Swap(p)};
    Social(s.pending - both, s.declined - both, s.friends - both, s.blocked - both)
  }

  ghost function Apply(s: Social, c: Call): Social {
    var p := (c.actor, c.other);
    var rest := Clear(s, p);
    match c
    case Send(a, b) => rest.(pending := rest.pending + {p})
    case Accept(u, f) => rest.(friends := rest.friends + {p, Swap(p)})
    case Reject(u, f) => rest.(declined := rest.declined + {Swap(p)})
    case Remove(u, f) => rest
  }

  ghost predicate Quiet(c: Call, e: Env) {
    !e.writeDown && !e.readDown && e.auth == AuthSays(true)
  }

  lemma EmptyMeansNothing()
    ensures Means(map[], Social({}, {}, {}, {}))
  {
  }

  /** A successful write acts on the reading of the table as its rule says. */
  lemma WriteRefines(t: Table, s: Social, c: Call, now: int)
    requires WellFormed(t) && Means(t, s)
    requires Permits(Get(t, c.actor, c.other), c) && Exec(t, WriteOf(c, now)).Ok?
    ensures Means(Exec(t, WriteOf(c, now)).value, Apply(s, c))
  {
    var next, after := Exec(t, WriteOf(c, now)).value, Apply(s, c);
    forall x, y
      ensures var row := Get(next, x, y);
              && ((x, y) in after.pending <==> row.Some? && row.value.status.Pending? && row.value.action == x)
              && ((x, y) in after.declined <==> row.Some? && row.value.status.Rejected? && row.value.action == y)
              && ((x, y) in after.friends <==> row.Some? && row.value.status.Accepted?)
              && ((x, y) in after.blocked <==> row.Some? && row.value.status.Blocked?)
    {
      UnorderedPair(x, y, c.actor, c.other);
      if EnsureUserOrder(x, y) != On(c) {
        assert Get(next, x, y) == Get(t, x, y);
        assert (x, y) != (c.actor, c.other) && (x, y) != (c.other, c.actor);
      }
    }
  }

  /** A call in quiet surroundings succeeds iff the rules allow it, and then does
      to the reading what the rule says; a refused call changes nothing. */
  lemma StepRefines(t: Table, s: Social, c: Call, e: Env)
    requires WellFormed(t) && Means(t, s) && Quiet(c, e)
    ensures Step(t, c, e).1.None? <==> Allowed(s, c)
    ensures Means(Step(t, c, e).0, if Allowed(s, c) then Apply(s, c) else s)
  {
    var row := Get(t, c.actor, c.other);
    UnorderedPair(c.actor, c.other, c.other, c.actor);
    assert Get(t, c.other, c.actor) == row;
    SucceedsIff(t, c, e);
    if Step(t, c, e).1.None? {
      WriteRefines(t, s, c, e.now);
    }
  }

  // ------------------------------------------------- what a refusal reveals

  /** Two rows that both of their users see alike, in every list and counter. */
  ghost predicate LooksLike(r: Row, q: Row, k: Pair) {
    && (IsAccepted()(r) <==> IsAccepted()(q)) && (IsBlocked()(r) <==> IsBlocked()(q))
    && (forall u :: Touches(k, u) ==>
          (IsRequestTo(u)(r) <==> IsRequestTo(u)(q)) && (IsSentBy(u)(r) <==> IsSentBy(u)(q)))
  }

  lemma SameLists(t: Table, next: Table, k: Pair, u: int)
    requires WellFormed(t) && WellFormed(next)
    requires k in t && k in next && next == t[k := next[k]] && LooksLike(t[k], next[k], k)
    ensures FriendsOf(next, u) == FriendsOf(t, u) && RequestsTo(next, u) == RequestsTo(t, u)
    ensures SentBy(next, u) == SentBy(t, u) && Count(next, u) == Count(t, u)
  {
    assert RowsOf(next, u, IsAccepted()) == RowsOf(t, u, IsAccepted());
    assert RowsOf(next, u, IsBlocked()) == RowsOf(t, u, IsBlocked());
    assert RowsOf(next, u, IsRequestTo(u)) == RowsOf(t, u, IsRequestTo(u));
    assert RowsOf(next, u, IsSentBy(u)) == RowsOf(t, u, IsSentBy(u));
    CountsAreListSizes(t, u);
    CountsAreListSizes(next, u);
  }

  /** Rejecting a request changes no list and no counter of anyone. */
  lemma RejectIsSilent(t: Table, user: int, friend: int, e: Env, u: int)
    requires WellFormed(t) && Step(t, Reject(user, friend), e).1.None?
    ensures var next := Step(t, Reject(user, friend), e).0;
            && FriendsOf(next, u) == FriendsOf(t, u) && RequestsTo(next, u) == RequestsTo(t, u)
            && SentBy(next, u) == SentBy(t, u) && Count(next, u) == Count(t, u)
  {
    StepKeepsWellFormed(t, Reject(user, friend), e);
    SameLists(t, Step(t, Reject(user, friend), e).0, EnsureUserOrder(user, friend), u);
  }

  /** Asking again after a refusal is as silent: the row goes back to pending. */
  lemma AskingAgainIsSilent(t: Table, user: int, friend: int, e: Env, u: int)
    requires WellFormed(t) && Get(t, user, friend).Some?
    requires Get(t, user, friend).value.status.Rejected? && Get(t, user, friend).value.action == user
    requires Step(t, Send(friend, user), e).1.None?
    ensures var next := Step(t, Send(friend, user), e).0;
            && FriendsOf(next, u) == FriendsOf(t, u) && RequestsTo(next, u) == RequestsTo(t, u)
            && SentBy(next, u) == SentBy(t, u) && Count(next, u) == Count(t, u)
  {
    UnorderedPair(user, friend, friend, user);
    StepKeepsWellFormed(t, Send(friend, user), e);
    SameLists(t, Step(t, Send(friend, user), e).0, EnsureUserOrder(user, friend), u);
  }

  /** When instead the rejecter asks, the pair moves from the rejecter's requests
      to the rejecter's sent list, the other way round for the first asker, and
      nothing else moves. */
  lemma RejecterAsking(t: Table, user: int, friend: int, e: Env)
    requires WellFormed(t) && Get(t, user, friend).Some?
    requires Get(t, user, friend).value.status.Rejected? && Get(t, user, friend).value.action == user
    requires Step(t, Send(user, friend), e).1.None?
    ensures var next := Step(t, Send(user, friend), e).0;
            && friend in RequestsTo(t, user) && RequestsTo(next, user) == RequestsTo(t, user) - {friend}
            && friend !in SentBy(t, user) && SentBy(next, user) == SentBy(t, user) + {friend}
            && RequestsTo(next, friend) == RequestsTo(t, friend) + {user}
            && SentBy(next, friend) == SentBy(t, friend) - {user}
    ensures forall u :: u != user && u != friend ==>
              RequestsTo(Step(t, Send(user, friend), e).0, u) == RequestsTo(t, u)
                && SentBy(Step(t, Send(user, friend), e).0, u) == SentBy(t, u)
    ensures forall u :: FriendsOf(Step(t, Send(user, friend), e).0, u) == FriendsOf(t, u)
  {
    var next := Step(t, Send(user, friend), e).0;
    StepKeepsWellFormed(t, Send(user, friend), e);
    forall u: int, x: int
      ensures x in RequestsTo(next, u) <==>
                (u == friend && x == user) || (x in RequestsTo(t, u) && !(u == user && x == friend))
      ensures x in SentBy(next, u) <==> (u == user && x == friend) || (x in SentBy(t, u) && !(u == friend && x == user))
      ensures x in FriendsOf(next, u) <==> x in FriendsOf(t, u)
    {
      UnorderedPair(u, x, user, friend);
      RelatedIff(t, u, IsRequestTo(u), x);
      RelatedIff(next, u, IsRequestTo(u), x);
      RelatedIff(t, u, IsSentBy(u), x);
      RelatedIff(next, u, IsSentBy(u), x);
      RelatedIff(t, u, IsAccepted(), x);
      RelatedIff(next, u, IsAccepted(), x);
    }
    RelatedIff(t, user, IsRequestTo(user), friend);
    RelatedIff(t, user, IsSentBy(user), friend);
  }
}

/** Community subscriptions: the insert, the delete, and the queries that count
    and list them in two different shapes. */
module Subscriptions {
  import opened Wrappers
  import opened Domain
  import opened Collections

  /** community_id, user_id: the primary key of community_subscriptions. */
  type Sub = (int, int)

  datatype Tables = Tables(communities: set<int>, subs: set<Sub>)

  /** The foreign key: a subscription is to a community that exists. */
  ghost predicate WellFormed(t: Tables) {
    forall s :: s in t.subs ==> s.0 in t.communities
  }

  function CommunityOf(): Sub -> int { (s: Sub) => s.0 }

  function UserOf(): Sub -> int { (s: Sub) => s.1 }

  /** (SELECT COUNT of subscriptions WHERE community_id = c.id). */
  ghost function CorrelatedCount(t: Tables, c: int): int {
    |set s | s in t.subs && s.0 == c|
  }

  /** One subscription more raises the count of its community alone. */
  lemma CountRises(t: Tables, s: Sub, c: int)
    requires s !in t.subs
    ensures CorrelatedCount(t.(subs := t.subs + {s}), c) == CorrelatedCount(t, c) + if s.0 == c then 1 else 0
  {
    var before, after := set r | r in t.subs && r.0 == c, set r | r in t.subs + {s} && r.0 == c;
    assert after == before + if s.0 == c then {s} else {};
  }

  datatype Joined = Joined(community: int, sub: Option<Sub>)

  /** communities LEFT JOIN community_subscriptions: a community without
      subscriptions keeps one row of its own. */
  ghost function LeftJoin(t: Tables): set<Joined> {
    (set s | s in t.subs && s.0 in t.communities :: Joined(s.0, Some(s)))
    + (set c | c in t.communities && (forall s :: s in t.subs ==> s.0 != c) :: Joined(c, None))
  }

  /** COUNT of the joined column in the group of c: null rows do not count. */
  ghost function GroupCount(t: Tables, c: int): int {
    |set r | r in LeftJoin(t) && r.community == c && r.sub.Some?|
  }

  /** communities INNER JOIN community_subscriptions WHERE user_id = u. */
  ghost function MyRows(t: Tables, u: int): set<Sub> {
    set s | s in t.subs && s.1 == u && s.0 in t.communities
  }

  ghost function Mine(t: Tables, u: int): set<int> {
    set s | s in MyRows(t, u) :: s.0
  }

  /** WHERE c.id NOT IN (the ids the user is subscribed to). */
  ghost function Others(t: Tables, u: int): set<int> {
    set c | c in t.communities && forall s :: s in t.subs && s.1 == u ==> s.0 != c
  }

  /** The two counting queries agree on every community. */
  lemma CountsAgree(t: Tables, c: int)
    requires c in t.communities
    ensures GroupCount(t, c) == CorrelatedCount(t, c)
  {
    var rows := set r | r in LeftJoin(t) && r.community == c && r.sub.Some?;
    var subs := set s | s in t.subs && s.0 == c;
    var row := (s: Sub) => Joined(s.0, Some(s));
    forall r | r in rows
      ensures exists s :: s in subs && row(s) == r
    {
      assert row(r.sub.value) == r && r.sub.value in subs;
    }
    BijectionSize(subs, rows, row);
  }

  /** "My" and "other" communities split all communities, and each of mine is
      listed once. */
  lemma MineAndOthers(t: Tables, u: int)
    requires WellFormed(t)
    ensures Mine(t, u) + Others(t, u) == t.communities && Mine(t, u) !! Others(t, u)
    ensures |MyRows(t, u)| == |Mine(t, u)|
    ensures forall c :: c in Mine(t, u) <==> (c, u) in t.subs
  {
    forall c: int
      ensures c in Mine(t, u) <==> (c, u) in t.subs
      ensures c in Others(t, u) <==> c in t.communities && (c, u) !in t.subs
    {
      if (c, u) in t.subs {
        assert (c, u) in MyRows(t, u) && (c, u).0 == c && (c, u).1 == u;
      }
      if c in Mine(t, u) {
        var s :| s in MyRows(t, u) && s.0 == c;
        assert s == (c, u);
      }
      if c in t.communities && (c, u) !in t.subs {
        assert forall s: Sub :: s.0 == c && s.1 == u ==> s == (c, u);
      }
    }
    var id := CommunityOf();
    forall x, y | x in MyRows(t, u) && y in MyRows(t, u) && id(x) == id(y)
      ensures x == y
    {
    }
    forall c | c in Mine(t, u)
      ensures exists s :: s in MyRows(t, u) && id(s) == c
    {
      assert id((c, u)) == c && (c, u) in MyRows(t, u);
    }
    BijectionSize(MyRows(t, u), Mine(t, u), id);
  }

  /** Subscriber counts over all communities and list lengths over all users both
      add up to the number of subscriptions. */
  lemma SubscriptionTotals(t: Tables, communities: seq<int>, users: seq<int>)
    requires WellFormed(t) && NoDup(communities) && Elems(communities) == t.communities
    requires NoDup(users) && forall s :: s in t.subs ==> s.1 in users
    ensures Sum(communities, c => GroupCount(t, c)) == Sum(users, u => |Mine(t, u)|) == |t.subs|
  {
    forall c | c in communities
      ensures GroupCount(t, c) == |Fiber(t.subs, CommunityOf(), c)|
    {
      assert c in Elems(communities);
      CountsAgree(t, c);
      assert Fiber(t.subs, CommunityOf(), c) == set s | s in t.subs && s.0 == c;
    }
    forall s | s in t.subs
      ensures CommunityOf()(s) in communities
    {
      assert s.0 in Elems(communities);
    }
    FibersSum(t.subs, CommunityOf(), communities, c => GroupCount(t, c));
    forall u | u in users
      ensures |Mine(t, u)| == |Fiber(t.subs, UserOf(), u)|
    {
      MineAndOthers(t, u);
      assert MyRows(t, u) == Fiber(t.subs, UserOf(), u);
    }
    FibersSum(t.subs, UserOf(), users, u => |Mine(t, u)|);
  }

  class DBCommunityStore {
    var creators: map<int, int>  // the communities, each with its creator
    var subs: set<Sub>
    var nextID: int

    ghost function Db(): Tables
      reads this
    {
      Tables(creators.Keys, subs)
    }

    ghost predicate Valid()
      reads this
    {
      WellFormed(Db()) && forall c :: c in creators ==> c < nextID
    }

    constructor ()
      ensures Valid() && Db() == Tables({}, {})
    {
      creators, subs, nextID := map[], {}, 1;
    }

    /** The row, and the creator's subscription, whose failure is only logged. */
    method CreateCommunity(creator: int, down: bool, subscribeDown: bool) returns (id: Option<int>)
      requires Valid()
      modifies this
      ensures Valid()
      ensures id.None? <==> down
      ensures id.None? ==> Db() == old(Db())
      ensures id.Some? ==> id.value !in old(creators) && creators == old(creators)[id.value := creator]
      ensures id.Some? ==> subs == if subscribeDown then old(subs) else old(subs) + {(id.value, creator)}
      ensures id.Some? ==> CorrelatedCount(Db(), id.value) == if subscribeDown then 0 else 1
    {
      if down {
        return None;
      }
      var c := nextID;
      creators, nextID := creators[c := creator], c + 1;
      var _ := Subscribe(c, creator, subscribeDown);
      assert (set s | s in subs && s.0 == c) == if subscribeDown then {} else {(c, creator)};
      return Some(c);
    }

    /** INSERT ... ON CONFLICT DO NOTHING. */
    method Subscribe(community: int, user: int, down: bool) returns (failed: bool)
      requires Valid()
      modifies this`subs
      ensures Valid()
      ensures failed == (down || community !in creators)
      ensures subs == if failed then old(subs) else old(subs) + {(community, user)}
      ensures !failed ==> community in Mine(Db(), user)
      ensures CorrelatedCount(Db(), community) ==
              old(CorrelatedCount(Db(), community)) + if failed || (community, user) in old(subs) then 0 else 1
    {
      if down || community !in creators {
        return true;
      }
      if (community, user) !in subs {
        CountRises(Db(), (community, user), community);
      } else {
        assert subs + {(community, user)} == subs;
      }
      subs := subs + {(community, user)};
      assert (community, user) in MyRows(Db(), user) && (community, user).0 == community;
      return false;
    }

    method Unsubscribe(community: int, user: int, down: bool) returns (err: Option<Error>)
      requires Valid()
      modifies this`subs
      ensures Valid()
      ensures err == if down then Some(ErrDB) else if (community, user) !in old(subs) then Some(ErrNotFound) else None
      ensures subs == if down then old(subs) else old(subs) - {(community, user)}
      ensures err.None? ==> community in Others(Db(), user)
      ensures CorrelatedCount(Db(), community) ==
              old(CorrelatedCount(Db(), community)) - if err.None? then 1 else 0
    {
      if down {
        return Some(ErrDB);
      }
      if (community, user) !in subs {
        return Some(ErrNotFound);
      }
      ghost var before := subs;
      subs := subs - {(community, user)};
      assert before == subs + {(community, user)};
      CountRises(Db(), (community, user), community);
      assert forall s: Sub :: s.0 == community && s.1 == user ==> s == (community, user);
      return None;
    }

    /** DELETE ... WHERE id = $1 AND creator_id = $2: not-found for anyone but the
        creator. The subscriptions go with the community. */
    method DeleteCommunity(community: int, creator: int, down: bool) returns (err: Option<Error>)
      requires Valid()
      modifies this
      ensures Valid()
      ensures err == if down then Some(ErrDB)
                     else if community in old(creators) && old(creators)[community] == creator then None
                     else Some(ErrNotFound)
      ensures err.Some? ==> creators == old(creators) && subs == old(subs)
      ensures err.None? ==>
                creators == old(creators) - {community} && subs == set s | s in old(subs) && s.0 != community
      ensures err.None? ==> forall u :: Mine(Db(), u) == old(Mine(Db(), u)) - {community}
    {
      if down {
        return Some(ErrDB);
      }
      if community !in creators || creators[community] != creator {
        return Some(ErrNotFound);
      }
      ghost var before := Db();
      creators := creators - {community};
      subs := set s | s in subs && s.0 != community;
      forall u: int
        ensures Mine(Db(), u) == Mine(before, u) - {community}
      {
        MineAndOthers(before, u);
        MineAndOthers(Db(), u);
      }
      return None;
    }
  }
}

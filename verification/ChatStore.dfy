/** Chats, their members' read pointers and their messages; the queries are those
    of internal/repository/db/chat.go. A joined row is named by the keys of the
    rows it joins, so that a row produced twice would be seen. */
module ChatStore {
  import opened Wrappers
  import opened Collections

  datatype ChatRow = ChatRow(isGroup: bool, name: Option<string>, avatar: Option<string>)

  datatype Message = Message(id: int, authorID: int, chatID: int, text: string, createdAt: int)

  /** chat_id, member_id: the primary key of chat_members. */
  type Key = (int, int)

  /** members maps each key to its last_read_message_id. */
  datatype DB = DB(chats: map<int, ChatRow>, members: map<Key, int>, messages: map<int, Message>, nextChat: int,
                   nextMessage: int)

  const EMPTY := DB(map[], map[], map[], 1, 1)

  ghost function MembersOf(db: DB, c: int): set<int> {
    set k | k in db.members && k.0 == c :: k.1
  }

  /** Keys and identities as the schema has them, creation times distinct within
      a chat; every chat private, with two members, and one chat per pair. */
  ghost predicate WellFormed(db: DB) {
    && (forall c :: c in db.chats ==> c < db.nextChat && !db.chats[c].isGroup && |MembersOf(db, c)| == 2)
    && (forall k :: k in db.members ==> k.0 in db.chats)
    && (forall c, d :: c in db.chats && d in db.chats && MembersOf(db, c) == MembersOf(db, d) ==> c == d)
    && (forall m :: m in db.messages ==>
          m < db.nextMessage && db.messages[m].id == m && db.messages[m].chatID in db.chats)
    && (forall m, n ::
          (m in db.messages && n in db.messages && db.messages[m].chatID == db.messages[n].chatID
          && db.messages[m].createdAt == db.messages[n].createdAt) ==> m == n)
  }

  // ------------------------------------------------------------ last messages

  ghost predicate IsNewest(db: DB, c: int, m: int) {
    && m in db.messages && db.messages[m].chatID == c
    && forall n :: n in db.messages && db.messages[n].chatID == c ==>
         db.messages[n].createdAt <= db.messages[m].createdAt
  }

  ghost predicate HasMessages(db: DB, c: int) {
    exists m :: m in db.messages && db.messages[m].chatID == c
  }

  lemma NewestExists(db: DB, c: int)
    requires HasMessages(db, c)
    ensures exists m :: IsNewest(db, c, m)
  {
    var ids := set m | m in db.messages && db.messages[m].chatID == c;
    var a :| a in db.messages && db.messages[a].chatID == c;
    assert a in ids;
    var time := (n: int) => if n in db.messages then db.messages[n].createdAt else 0;
    var m := Highest(ids, time);
    forall n | n in db.messages && db.messages[n].chatID == c
      ensures db.messages[n].createdAt <= db.messages[m].createdAt
    {
      assert n in ids && time(n) <= time(m);
    }
    assert IsNewest(db, c, m);
  }

  // ---------------------------------------------------------------- the pull

  /** A row of GetUserFullChats: one row each of chat_members, chats,
      last_messages and unread_counts, and, left-joined, one of
      private_user_ids, itself a join of two rows of chat_members. */
  datatype ChatJoin = ChatJoin(cm: Key, chat: int, last: int, counts: int, others: Option<(Key, Key)>)

  /** last_messages: DISTINCT ON (chat_id), newest first, among the user's chats. */
  ghost predicate InLastMessages(db: DB, u: int, m: int) {
    m in db.messages && (db.messages[m].chatID, u) in db.members && IsNewest(db, db.messages[m].chatID, m)
  }

  /** unread_counts has one group per chat the user is in. */
  ghost predicate InUnreadCounts(db: DB, u: int, c: int) {
    (c, u) in db.members
  }

  ghost function PullUnread(db: DB, u: int, c: int): int {
    |set k, m | k in db.members && k.1 == u && k.0 == c
                && m in db.messages && db.messages[m].chatID == k.0 && m > db.members[k] :: (k, m)|
  }

  ghost predicate InPrivateUserIDs(db: DB, u: int, pair: (Key, Key)) {
    var (cm2, self) := pair;
    cm2 in db.members && self in db.members && self.0 == cm2.0 && self.1 == u && cm2.1 != u
  }

  ghost predicate IsJoin(db: DB, u: int, r: ChatJoin) {
    && r.cm in db.members && r.cm.1 == u
    && r.chat in db.chats && r.chat == r.cm.0
    && InLastMessages(db, u, r.last) && db.messages[r.last].chatID == r.chat
    && InUnreadCounts(db, u, r.counts) && r.counts == r.chat
    && match r.others
       case Some(pair) => InPrivateUserIDs(db, u, pair) && pair.0.0 == r.chat
       case None => forall pair: (Key, Key) :: InPrivateUserIDs(db, u, pair) ==> pair.0.0 != r.chat
  }

  /** An answer of the query: every joined row once, the latest message first. */
  ghost predicate IsAnswer(db: DB, u: int, rows: seq<ChatJoin>) {
    && NoDup(rows)
    && (forall r :: r in rows <==> IsJoin(db, u, r))
    && forall i, j :: 0 <= i < j < |rows| && rows[i].last in db.messages && rows[j].last in db.messages ==>
        db.messages[rows[i].last].createdAt >= db.messages[rows[j].last].createdAt
  }

  lemma OtherMember(db: DB, c: int, u: int) returns (other: int)
    requires WellFormed(db) && (c, u) in db.members
    ensures other != u && (c, other) in db.members
    ensures forall x :: (c, x) in db.members <==> x == u || x == other
  {
    var s := MembersOf(db, c);
    assert u in s by { assert (c, u).1 == u; }
    assert |s - {u}| == 1;
    other := Pick(s - {u});
    assert |s - {u, other}| == 0 by { assert s - {u, other} == (s - {u}) - {other}; }
    assert s == {u, other};
    forall x
      ensures (c, x) in db.members <==> x == u || x == other
    {
      assert x in s <==> (c, x) in db.members by {
        if (c, x) in db.members { assert (c, x).1 == x; }
      }
    }
  }

  /** In a private chat the joins leave exactly one row per chat with a message. */
  lemma JoinIff(db: DB, u: int, c: int, other: int, last: int, r: ChatJoin)
    requires WellFormed(db) && (c, u) in db.members && other != u
    requires forall x :: (c, x) in db.members <==> x == u || x == other
    requires IsNewest(db, c, last)
    ensures r.chat == c ==>
              (IsJoin(db, u, r) <==> r == ChatJoin((c, u), c, last, c, Some(((c, other), (c, u)))))
  {
    if r.chat == c && IsJoin(db, u, r) {
      assert r.cm == (c, u);
      assert r.last == last;
      assert InPrivateUserIDs(db, u, ((c, other), (c, u)));
      if r.others.Some? {
        var (cm2, self) := r.others.value;
        assert cm2 == (c, cm2.1) && self == (c, u);
      }
    }
  }

  /** The chat list shows each of the user's chats that has a message exactly
      once, and nothing else. */
  lemma EachChatOnce(db: DB, u: int, rows: seq<ChatJoin>, c: int)
    requires WellFormed(db) && IsAnswer(db, u, rows)
    ensures (exists i :: 0 <= i < |rows| && rows[i].chat == c) <==> (c, u) in db.members && HasMessages(db, c)
    ensures forall i, j :: 0 <= i < |rows| && 0 <= j < |rows| && rows[i].chat == c && rows[j].chat == c ==> i == j
  {
    if (c, u) in db.members && HasMessages(db, c) {
      var other := OtherMember(db, c, u);
      NewestExists(db, c);
      var last :| IsNewest(db, c, last);
      var row := ChatJoin((c, u), c, last, c, Some(((c, other), (c, u))));
      JoinIff(db, u, c, other, last, row);
      assert row in rows;
      forall i | 0 <= i < |rows| && rows[i].chat == c
        ensures rows[i] == row
      {
        assert rows[i] in rows;
        JoinIff(db, u, c, other, last, rows[i]);
      }
    } else {
      forall i | 0 <= i < |rows|
        ensures rows[i].chat != c
      {
        assert rows[i] in rows;
      }
    }
  }

  lemma JoinExists(db: DB, u: int, c: int)
    requires WellFormed(db) && (c, u) in db.members && HasMessages(db, c)
    ensures exists r :: IsJoin(db, u, r) && r.chat == c
  {
    var other := OtherMember(db, c, u);
    NewestExists(db, c);
    var last :| IsNewest(db, c, last);
    var row := ChatJoin((c, u), c, last, c, Some(((c, other), (c, u))));
    JoinIff(db, u, c, other, last, row);
    assert IsJoin(db, u, row);
  }

  ghost function JoinOf(db: DB, u: int, c: int): (r: ChatJoin)
    requires WellFormed(db) && (c, u) in db.members && HasMessages(db, c)
    ensures IsJoin(db, u, r) && r.chat == c
  {
    JoinExists(db, u, c);
    var r :| IsJoin(db, u, r) && r.chat == c;
    r
  }

  lemma OneJoin(db: DB, u: int, r: ChatJoin)
    requires WellFormed(db) && IsJoin(db, u, r)
    ensures (r.chat, u) in db.members && HasMessages(db, r.chat) && r == JoinOf(db, u, r.chat)
  {
    var c := r.chat;
    var other := OtherMember(db, c, u);
    JoinIff(db, u, c, other, r.last, r);
    JoinIff(db, u, c, other, r.last, JoinOf(db, u, c));
  }

  /** Every user of every state has a list to pull. */
  lemma AnswerExists(db: DB, u: int) returns (rows: seq<ChatJoin>)
    requires WellFormed(db)
    ensures IsAnswer(db, u, rows)
    ensures forall i :: 0 <= i < |rows| ==> rows[i].last in db.messages
    ensures forall i, j :: 0 <= i < j < |rows| ==>
              db.messages[rows[i].last].createdAt >= db.messages[rows[j].last].createdAt
  {
    var joins := set k | k in db.members && k.1 == u && HasMessages(db, k.0) :: JoinOf(db, u, k.0);
    forall r: ChatJoin
      ensures r in joins <==> IsJoin(db, u, r)
    {
      if IsJoin(db, u, r) {
        OneJoin(db, u, r);
        assert (r.chat, u).0 == r.chat && (r.chat, u).1 == u;
      }
    }
    rows := Descending(joins, (r: ChatJoin) => if r.last in db.messages then db.messages[r.last].createdAt else 0);
    forall i | 0 <= i < |rows|
      ensures rows[i].last in db.messages
    {
      assert rows[i] in rows;
    }
  }

  /** Whatever the answer, its chats come with their newest messages, newest first. */
  lemma NewestFirst(db: DB, u: int, rows: seq<ChatJoin>, i: nat, j: nat)
    requires WellFormed(db) && IsAnswer(db, u, rows) && i < j < |rows|
    ensures rows[i].last in db.messages && rows[j].last in db.messages
    ensures db.messages[rows[i].last].createdAt >= db.messages[rows[j].last].createdAt
    ensures forall m :: m in db.messages && db.messages[m].chatID == rows[i].chat ==>
              db.messages[m].createdAt <= db.messages[rows[i].last].createdAt
  {
    assert rows[i] in rows && rows[j] in rows;
  }

  // ---------------------------------------------------------------- the push

  /** The unread count of one group of GetOtherChatMembersIdByAuthorId. */
  ghost function PushUnread(db: DB, author: int, c: int, member: int, lastRead: int): int {
    |set k, m | k in db.members && k.1 != author && k.0 == c && k.1 == member && db.members[k] == lastRead
                && m in db.messages && db.messages[m].chatID == k.0 && m > db.members[k] :: (k, m)|
  }

  datatype Recipient = Recipient(memberID: int, lastRead: int, unread: int)

  ghost predicate IsRecipient(db: DB, author: int, c: int, r: Recipient) {
    && (c, r.memberID) in db.members && r.memberID != author && r.lastRead == db.members[(c, r.memberID)]
    && r.unread == PushUnread(db, author, c, r.memberID, r.lastRead)
  }

  ghost predicate AreRecipients(db: DB, author: int, c: int, rs: seq<Recipient>) {
    NoDup(rs) && forall r :: r in rs <==> IsRecipient(db, author, c, r)
  }

  /** Every chat has its recipients. */
  lemma RecipientsExist(db: DB, author: int, c: int) returns (rs: seq<Recipient>)
    ensures AreRecipients(db, author, c, rs)
  {
    var all := set k | k in db.members && k.0 == c && k.1 != author ::
      Recipient(k.1, db.members[k], PushUnread(db, author, c, k.1, db.members[k]));
    forall r: Recipient
      ensures r in all <==> IsRecipient(db, author, c, r)
    {
      if IsRecipient(db, author, c, r) {
        assert (c, r.memberID).0 == c && (c, r.memberID).1 == r.memberID;
      }
      if r in all {
        var k :| k in db.members && k.0 == c && k.1 != author
                 && r == Recipient(k.1, db.members[k], PushUnread(db, author, c, k.1, db.members[k]));
        assert k == (c, r.memberID);
      }
    }
    rs := Descending(all, (r: Recipient) => 0);
  }

  // ---------------------------------------------------------- unread counts

  /** Unread: the messages of the chat with an id above the member's pointer. */
  ghost function Unread(db: DB, c: int, u: int): int
    requires (c, u) in db.members
  {
    |set m | m in db.messages && db.messages[m].chatID == c && m > db.members[(c, u)]|
  }

  lemma UnreadAgree(db: DB, c: int, u: int, author: int)
    requires (c, u) in db.members && u != author
    ensures PullUnread(db, u, c) == PushUnread(db, author, c, u, db.members[(c, u)]) == Unread(db, c, u)
  {
    var pull := set k, m | k in db.members && k.1 == u && k.0 == c
                           && m in db.messages && db.messages[m].chatID == k.0 && m > db.members[k] :: (k, m);
    var push := set k, m | k in db.members && k.1 != author && k.0 == c && k.1 == u
                           && db.members[k] == db.members[(c, u)]
                           && m in db.messages && db.messages[m].chatID == k.0 && m > db.members[k] :: (k, m);
    var ids := set m | m in db.messages && db.messages[m].chatID == c && m > db.members[(c, u)];
    assert forall k: Key :: k.0 == c && k.1 == u ==> k == (c, u);
    assert pull == push;
    var tag := (m: int) => ((c, u), m);
    forall p | p in pull
      ensures exists m :: m in ids && tag(m) == p
    {
      assert p.1 in ids && tag(p.1) == p;
    }
    BijectionSize(ids, pull, tag);
  }

  /** Moving a pointer up never raises a count. */
  lemma UnreadFalls(db: DB, c: int, u: int, next: DB)
    requires (c, u) in db.members && (c, u) in next.members && next.messages == db.messages
    requires next.members[(c, u)] >= db.members[(c, u)]
    ensures Unread(next, c, u) <= Unread(db, c, u)
  {
    var before := set m | m in db.messages && db.messages[m].chatID == c && m > db.members[(c, u)];
    var after := set m | m in next.messages && next.messages[m].chatID == c && m > next.members[(c, u)];
    assert after <= before;
    SubsetSize(after, before);
  }

  lemma SubsetSize<T(!new)>(a: set<T>, b: set<T>)
    requires a <= b
    ensures |a| <= |b|
  {
    assert b == a + (b - a);
  }

  /** A new message raises the count of a member of its chat by one iff its id is
      above the member's pointer, and no other count. */
  lemma UnreadRises(db: DB, m: Message, c: int, u: int)
    requires (c, u) in db.members && m.id !in db.messages
    ensures Unread(db.(messages := db.messages[m.id := m]), c, u) ==
            Unread(db, c, u) + if m.chatID == c && m.id > db.members[(c, u)] then 1 else 0
  {
    var next := db.(messages := db.messages[m.id := m]);
    var before := set n | n in db.messages && db.messages[n].chatID == c && n > db.members[(c, u)];
    var after := set n | n in next.messages && next.messages[n].chatID == c && n > next.members[(c, u)];
    var counts := m.chatID == c && m.id > db.members[(c, u)];
    forall n: int
      ensures n in after <==> n in before || (counts && n == m.id)
    {
      assert n != m.id ==> (n in next.messages <==> n in db.messages);
    }
    assert after == before + if counts then {m.id} else {};
  }

  // ------------------------------------------------------------ read pointers

  datatype ReadUpdate = ReadUpdate(user: int, chat: int, upTo: int)

  /** UPDATE ... SET last_read_message_id = $1 WHERE ... AND $1 > last_read_message_id. */
  function MarkRead(members: map<Key, int>, r: ReadUpdate): map<Key, int> {
    var k := (r.chat, r.user);
    if k in members && r.upTo > members[k] then members[k := r.upTo] else members
  }

  function MarkAll(members: map<Key, int>, updates: seq<ReadUpdate>): map<Key, int> {
    if updates == [] then members
    else MarkRead(MarkAll(members, updates[..|updates| - 1]), updates[|updates| - 1])
  }

  /** After any updates in any order a pointer is the largest of its start and the
      values submitted for it: it bounds them all and is one of them. */
  lemma {:induction false} PointerIsMaximum(members: map<Key, int>, updates: seq<ReadUpdate>, k: Key)
    requires k in members
    ensures var p := MarkAll(members, updates);
            && p.Keys == members.Keys
            && p[k] >= members[k]
            && (forall i :: 0 <= i < |updates| && (updates[i].chat, updates[i].user) == k ==> p[k] >= updates[i].upTo)
            && (p[k] == members[k] ||
                exists i :: 0 <= i < |updates| && (updates[i].chat, updates[i].user) == k && updates[i].upTo == p[k])
  {
    if updates != [] {
      var before, last := updates[..|updates| - 1], updates[|updates| - 1];
      PointerIsMaximum(members, before, k);
      var q := MarkAll(members, before);
      forall i | 0 <= i < |updates| && (updates[i].chat, updates[i].user) == k
        ensures MarkAll(members, updates)[k] >= updates[i].upTo
      {
        if i < |before| {
          assert before[i] == updates[i];
        }
      }
      if MarkAll(members, updates)[k] != q[k] {
        assert (updates[|updates| - 1].chat, updates[|updates| - 1].user) == k;
      } else if q[k] != members[k] {
        var i :| 0 <= i < |before| && (before[i].chat, before[i].user) == k && before[i].upTo == q[k];
        assert updates[i] == before[i];
      }
    }
  }

  /** So the order of updates does not matter. */
  lemma ReadOrderIrrelevant(members: map<Key, int>, updates: seq<ReadUpdate>, shuffled: seq<ReadUpdate>)
    requires multiset(updates) == multiset(shuffled)
    ensures MarkAll(members, updates) == MarkAll(members, shuffled)
  {
    SameKeys(members, updates);
    SameKeys(members, shuffled);
    forall k | k in members
      ensures MarkAll(members, updates)[k] == MarkAll(members, shuffled)[k]
    {
      PointerIsMaximum(members, updates, k);
      PointerIsMaximum(members, shuffled, k);
      assert forall r :: r in updates <==> r in multiset(updates);
      assert forall r :: r in shuffled <==> r in multiset(shuffled);
      Dominates(members, updates, shuffled, k);
      Dominates(members, shuffled, updates, k);
    }
  }

  lemma {:induction false} SameKeys(members: map<Key, int>, updates: seq<ReadUpdate>)
    ensures MarkAll(members, updates).Keys == members.Keys
  {
    if updates != [] {
      SameKeys(members, updates[..|updates| - 1]);
    }
  }

  lemma Dominates(members: map<Key, int>, updates: seq<ReadUpdate>, others: seq<ReadUpdate>, k: Key)
    requires k in members && forall r :: r in updates ==> r in others
    ensures k in MarkAll(members, updates) && k in MarkAll(members, others)
    ensures MarkAll(members, updates)[k] <= MarkAll(members, others)[k]
  {
    PointerIsMaximum(members, updates, k);
    PointerIsMaximum(members, others, k);
    var p := MarkAll(members, updates)[k];
    if p != members[k] {
      var i :| 0 <= i < |updates| && (updates[i].chat, updates[i].user) == k && updates[i].upTo == p;
      assert updates[i] in others;
      var j :| 0 <= j < |others| && others[j] == updates[i];
    }
  }
}

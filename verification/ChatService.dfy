/** The chat service: creating chats and messages, moving read pointers, the list
    a user pulls and the view pushed to the other member. */
module ChatService {
  import opened Wrappers
  import opened Domain
  import opened Collections
  import opened Text
  import Profiles
  import opened ChatStore

  // ------------------------------------------------------ records the code builds

  type Profile = Profiles.Profile<int>

  /** The zero value a missing key of a profile map reads as. */
  const NO_PROFILE := Profiles.Profile(0, "", None)

  function ProfileAt(profiles: map<int, Profile>, id: int): Profile {
    if id in profiles then profiles[id] else NO_PROFILE
  }

  datatype FullChat = FullChat(
    id: int, isGroup: bool, userIDWith: Option<int>, avatarPath: Option<string>, name: Option<string>,
    lastMessage: Message, lastMessageAuthor: Profile, lastReadMessageID: int, unreadCounts: int)

  /** The columns the chat queries select; the push query leaves the last two out. */
  datatype Columns = Columns(
    chatID: int, isGroup: bool, name: Option<string>, avatar: Option<string>,
    lastID: int, lastText: string, lastCreatedAt: int, lastAuthorID: int,
    privateUserID: Option<int>, unread: int, lastRead: int)

  /** The scan of a row into a FullChat. */
  function Scanned(row: Columns): FullChat {
    FullChat(row.chatID, row.isGroup, row.privateUserID, row.avatar, row.name,
             Message(row.lastID, row.lastAuthorID, row.chatID, row.lastText, row.lastCreatedAt),
             NO_PROFILE, row.lastRead, row.unread)
  }

  /** Name, picture and author of a chat from a profile map. */
  function Filled(chat: FullChat, profiles: map<int, Profile>): FullChat {
    var author := ProfileAt(profiles, chat.lastMessage.authorID);
    if !chat.isGroup && chat.userIDWith.Some? then
      var other := ProfileAt(profiles, chat.userIDWith.value);
      chat.(avatarPath := other.avatarPath, name := Some(other.fullName), lastMessageAuthor := author)
    else chat.(lastMessageAuthor := author)
  }

  /** What an entry shows of its row and of the profile directory, field by field:
      a private chat carries the other user's name and picture, every chat the
      profile of its last author, and an id without a profile reads as an empty one. */
  predicate Shows(chat: FullChat, row: Columns, directory: map<int, Profile>) {
    && chat.id == row.chatID && chat.isGroup == row.isGroup && chat.userIDWith == row.privateUserID
    && chat.lastMessage == Message(row.lastID, row.lastAuthorID, row.chatID, row.lastText, row.lastCreatedAt)
    && chat.lastReadMessageID == row.lastRead && chat.unreadCounts == row.unread
    && (if row.lastAuthorID in directory then chat.lastMessageAuthor == directory[row.lastAuthorID]
        else chat.lastMessageAuthor == Profiles.Profile(0, "", None))
    && (if row.isGroup || row.privateUserID.None? then chat.name == row.name && chat.avatarPath == row.avatar
        else if row.privateUserID.value in directory then
          && chat.name == Some(directory[row.privateUserID.value].fullName)
          && chat.avatarPath == directory[row.privateUserID.value].avatarPath
        else chat.name == Some("") && chat.avatarPath == None)
  }

  /** Filling a scanned row from the directory shows it, and nothing else does. */
  lemma FilledShows(chat: FullChat, row: Columns, directory: map<int, Profile>)
    ensures Shows(chat, row, directory) <==> chat == Filled(Scanned(row), directory)
  {
  }

  ghost function PullColumns(db: DB, u: int, j: ChatJoin): Columns
    requires WellFormed(db) && IsJoin(db, u, j)
  {
    var c, m := db.chats[j.chat], db.messages[j.last];
    Columns(j.chat, c.isGroup, c.name, c.avatar, m.id, m.text, m.createdAt, m.authorID,
            if !c.isGroup && j.others.Some? then Some(j.others.value.0.1) else None,
            PullUnread(db, u, j.counts), db.members[j.cm])
  }

  /** GetFullChatByIDAndSenderID on a chat whose latest message is last. */
  ghost function PushColumns(db: DB, sender: int, c: int, last: int): Columns
    requires WellFormed(db) && c in db.chats && IsNewest(db, c, last)
  {
    var chat, m := db.chats[c], db.messages[last];
    Columns(c, chat.isGroup, chat.name, chat.avatar, m.id, m.text, m.createdAt, m.authorID,
            if !chat.isGroup && (c, sender) in db.members then Some(sender) else None, 0, 0)
  }

  // ------------------------------------------------------------------ push and pull

  /** What the database may fail while a list is read: the query, the scan of one
      row, or the iteration. */
  datatype ReadFaults = ReadFaults(query: bool, scan: Option<nat>, rows: bool)

  predicate Reads(faults: ReadFaults, n: nat) {
    !faults.query && !faults.rows && (faults.scan.Some? ==> faults.scan.value >= n)
  }

  datatype FullChats = FullChats(chats: seq<FullChat>, userIDs: seq<int>)

  /** GetUserFullChats: scan the rows, and collect the users to look up. */
  method GetUserFullChats(rows: seq<Columns>, faults: ReadFaults) returns (r: Option<FullChats>)
    ensures r.None? <==> faults.query || faults.rows || (faults.scan.Some? && faults.scan.value < |rows|)
    ensures r.Some? <==> Reads(faults, |rows|)
    ensures r.Some? ==>
              && |r.value.chats| == |rows|
              && forall i :: 0 <= i < |rows| ==> r.value.chats[i] == Scanned(rows[i])
    ensures r.Some? ==> NoDup(r.value.userIDs)
    ensures r.Some? ==> forall id :: id in r.value.userIDs <==> exists i :: 0 <= i < |rows| && Involves(rows[i], id)
  {
    if faults.query {
      return None;
    }
    var chats: seq<FullChat> := [];
    var userIDSet: set<int> := {};
    for i := 0 to |rows|
      invariant faults.scan.Some? ==> faults.scan.value >= i
      invariant |chats| == i && forall k :: 0 <= k < i ==> chats[k] == Scanned(rows[k])
      invariant forall id :: id in userIDSet <==> exists k :: 0 <= k < i && Involves(rows[k], id)
    {
      if faults.scan == Some(i) {
        return None;
      }
      chats := chats + [Scanned(rows[i])];
      userIDSet := userIDSet + {rows[i].lastAuthorID};
      if !rows[i].isGroup && rows[i].privateUserID.Some? {
        userIDSet := userIDSet + {rows[i].privateUserID.value};
      }
    }
    var ids: seq<int> := [];
    var todo := userIDSet;
    while todo != {}
      invariant NoDup(ids) && todo <= userIDSet
      invariant forall id :: id in ids <==> id in userIDSet && id !in todo
      decreases |todo|
    {
      ghost var some := Pick(todo);
      var id :| id in todo;
      ids := ids + [id];
      todo := todo - {id};
    }
    if faults.rows {
      return None;
    }
    return Some(FullChats(chats, ids));
  }

  /** The users a row needs the profiles of. */
  predicate Involves(row: Columns, id: int) {
    id == row.lastAuthorID || (!row.isGroup && row.privateUserID == Some(id))
  }

  /** The list a user pulls: every row filled from the profile directory. */
  method GetUserChats(rows: seq<Columns>, faults: ReadFaults, directory: map<int, Profile>, profilesDown: bool)
    returns (r: Result<seq<FullChat>, Error>)
    ensures r == Err(ErrDB) <==> faults.query || faults.rows || (faults.scan.Some? && faults.scan.value < |rows|)
    ensures !Reads(faults, |rows|) ==> r == Err(ErrDB)
    ensures Reads(faults, |rows|) && profilesDown ==> r == Err(ErrGrpc)
    ensures Reads(faults, |rows|) && !profilesDown ==>
              && r.Ok? && |r.value| == |rows|
              && (forall i :: 0 <= i < |rows| ==> Shows(r.value[i], rows[i], directory))
              && forall i :: 0 <= i < |rows| ==> r.value[i] == Filled(Scanned(rows[i]), directory)
  {
    var read := GetUserFullChats(rows, faults);
    if read.None? {
      return Err(ErrDB);
    }
    var chats, ids := read.value.chats, read.value.userIDs;
    if profilesDown {
      return Err(ErrGrpc);
    }
    var profiles := Profiles.Answer(directory, ids);
    for i := 0 to |chats|
      invariant |chats| == |rows|
      invariant forall k :: 0 <= k < i ==> chats[k] == Filled(Scanned(rows[k]), directory)
      invariant forall k :: i <= k < |rows| ==> chats[k] == Scanned(rows[k])
    {
      var chat := chats[i];
      assert Involves(rows[i], rows[i].lastAuthorID);
      if !chat.isGroup && chat.userIDWith.Some? {
        var other := ProfileAt(profiles, chat.userIDWith.value);
        assert Involves(rows[i], rows[i].privateUserID.value);
        chat := chat.(avatarPath := other.avatarPath, name := Some(other.fullName));
      }
      chat := chat.(lastMessageAuthor := ProfileAt(profiles, chat.lastMessage.authorID));
      chats := chats[i := chat];
    }
    return Ok(chats);
  }

  /** The goroutine of CreateMessage: one payload per recipient, built by writing
      that recipient's pointer and count into the same record. */
  method PushNewMessage(row: Columns, chatDown: bool, directory: map<int, Profile>, profilesDown: bool,
                        recipients: seq<Recipient>, recipientsFaults: ReadFaults)
    returns (pushed: seq<(int, FullChat)>)
    requires !row.isGroup ==> row.privateUserID.Some?
    ensures recipientsFaults.query || recipientsFaults.rows ==> pushed == []
    ensures recipientsFaults.scan.Some? && recipientsFaults.scan.value < |recipients| ==> pushed == []
    ensures chatDown || profilesDown || !Reads(recipientsFaults, |recipients|) ==> pushed == []
    ensures !chatDown && !profilesDown && Reads(recipientsFaults, |recipients|) ==>
              && |pushed| == |recipients|
              && (forall i :: 0 <= i < |recipients| ==>
                    && pushed[i].0 == recipients[i].memberID
                    && Shows(pushed[i].1, row.(lastRead := recipients[i].lastRead, unread := recipients[i].unread),
                             directory))
              && forall i :: 0 <= i < |recipients| ==>
                pushed[i] == (recipients[i].memberID, Payload(row, directory, recipients[i]))
  {
    if chatDown {
      return [];
    }
    var chat := Scanned(row);
    var ids := (if !row.isGroup then [row.privateUserID.value] else []) + [row.lastAuthorID];
    if profilesDown {
      return [];
    }
    var profiles := Profiles.Answer(directory, ids);
    if !chat.isGroup {
      var other := ProfileAt(profiles, chat.userIDWith.value);
      chat := chat.(avatarPath := other.avatarPath, name := Some(other.fullName));
    }
    chat := chat.(lastMessageAuthor := ProfileAt(profiles, chat.lastMessage.authorID));
    if !Reads(recipientsFaults, |recipients|) {
      return [];
    }
    pushed := [];
    ghost var filled := Filled(Scanned(row), directory);
    for i := 0 to |recipients|
      invariant chat.(lastReadMessageID := 0, unreadCounts := 0) == filled.(lastReadMessageID := 0, unreadCounts := 0)
      invariant |pushed| == i
      invariant forall k :: 0 <= k < i ==> pushed[k] == (recipients[k].memberID, Payload(row, directory, recipients[k]))
    {
      chat := chat.(lastReadMessageID := recipients[i].lastRead, unreadCounts := recipients[i].unread);
      pushed := pushed + [(recipients[i].memberID, chat)];
    }
  }

  function Payload(row: Columns, directory: map<int, Profile>, to: Recipient): FullChat {
    Filled(Scanned(row), directory).(lastReadMessageID := to.lastRead, unreadCounts := to.unread)
  }

  /** What a member of a private chat should see of it: the other member, the
      latest message and its author, and the messages above the pointer. */
  ghost function View(db: DB, directory: map<int, Profile>, c: int, viewer: int, other: int, last: int): FullChat
    requires (c, viewer) in db.members && last in db.messages
  {
    var author := db.messages[last].authorID;
    FullChat(c, false, Some(other),
             if other in directory then directory[other].avatarPath else None,
             Some(if other in directory then directory[other].fullName else ""),
             db.messages[last], if author in directory then directory[author] else Profiles.Profile(0, "", None),
             db.members[(c, viewer)], Unread(db, c, viewer))
  }

  ghost predicate AreMembers(db: DB, c: int, a: int, b: int) {
    a != b && forall x :: (c, x) in db.members <==> x == a || x == b
  }

  /** What a user pulls about a chat is the view it should have. */
  lemma PullIsView(db: DB, directory: map<int, Profile>, c: int, viewer: int, other: int, last: int, j: ChatJoin)
    requires WellFormed(db) && AreMembers(db, c, viewer, other) && IsNewest(db, c, last)
    requires IsJoin(db, viewer, j) && j.chat == c
    ensures Filled(Scanned(PullColumns(db, viewer, j)), directory) == View(db, directory, c, viewer, other, last)
  {
    assert (c, viewer) in db.members;
    JoinIff(db, viewer, c, other, last, j);
    UnreadAgree(db, c, viewer, other);
  }

  /** What is pushed to a recipient is the view it should have. */
  lemma PushIsView(db: DB, directory: map<int, Profile>, c: int, viewer: int, sender: int, last: int, to: Recipient)
    requires WellFormed(db) && AreMembers(db, c, viewer, sender) && IsNewest(db, c, last)
    requires c in db.chats && IsRecipient(db, sender, c, to)
    ensures to.memberID == viewer
    ensures Payload(PushColumns(db, sender, c, last), directory, to) == View(db, directory, c, viewer, sender, last)
  {
    assert (c, viewer) in db.members && (c, sender) in db.members;
    UnreadAgree(db, c, viewer, sender);
  }

  /** Push equals pull: in any state in which the sender's chat has a message, it
      has exactly one recipient, and the payload built for that recipient is the
      one entry about the chat in whatever list the recipient would pull. */
  lemma PushEqualsPull(db: DB, directory: map<int, Profile>, c: int, sender: int, last: int,
                       recipients: seq<Recipient>, viewer: int, rows: seq<ChatJoin>)
    requires WellFormed(db) && (c, sender) in db.members && IsNewest(db, c, last)
    requires AreRecipients(db, sender, c, recipients)
    requires (c, viewer) in db.members && viewer != sender && IsAnswer(db, viewer, rows)
    ensures |recipients| == 1 && recipients[0].memberID == viewer
    ensures c in db.chats
    ensures exists i :: 0 <= i < |rows| && IsJoin(db, viewer, rows[i]) && rows[i].chat == c
                        && Filled(Scanned(PullColumns(db, viewer, rows[i])), directory)
                           == Payload(PushColumns(db, sender, c, last), directory, recipients[0])
    ensures forall i, j :: 0 <= i < j < |rows| ==> !(rows[i].chat == c && rows[j].chat == c)
    ensures Payload(PushColumns(db, sender, c, last), directory, recipients[0]).lastMessage == db.messages[last]
  {
    var other := OtherMember(db, c, viewer);
    assert other == sender && AreMembers(db, c, viewer, sender);
    var to := Recipient(viewer, db.members[(c, viewer)], PushUnread(db, sender, c, viewer, db.members[(c, viewer)]));
    assert IsRecipient(db, sender, c, to) && to in recipients;
    forall i | 0 <= i < |recipients|
      ensures recipients[i] == to
    {
      assert recipients[i] in recipients;
      assert IsRecipient(db, sender, c, recipients[i]);
    }
    NoDupSize(recipients);
    assert Elems(recipients) == {to};
    assert HasMessages(db, c);
    EachChatOnce(db, viewer, rows, c);
    var i :| 0 <= i < |rows| && rows[i].chat == c;
    assert rows[i] in rows;
    PullIsView(db, directory, c, viewer, sender, last, rows[i]);
    PushIsView(db, directory, c, viewer, sender, last, recipients[0]);
  }

  // ------------------------------------------------------------------- the service

  function ValidateMessageContent(text: string, attachments: nat, stickerID: Option<int>): Option<Error> {
    if stickerID.Some? then
      if !Blank(text) then Some(ErrInvalidInput)
      else if attachments > 0 then Some(ErrInvalidInput)
      else None
    else if Blank(text) && attachments == 0 then Some(ErrInvalidInput)
    else None
  }

  /** A message says something, and a sticker comes alone. */
  lemma ContentAcceptedIff(text: string, attachments: nat, stickerID: Option<int>)
    ensures ValidateMessageContent(text, attachments, stickerID).None? <==>
              (stickerID.Some? != (TrimSpace(text) != "" || attachments > 0))
    ensures ValidateMessageContent(text, attachments, stickerID).Some? ==>
              ValidateMessageContent(text, attachments, stickerID) == Some(ErrInvalidInput)
  {
    BlankIff(text);
  }

  /** In ASCII: a message of spaces, tabs and line ends says nothing, and one printing
      character says something. */
  lemma AsciiContent(text: string, attachments: nat, stickerID: Option<int>)
    requires forall i :: 0 <= i < |text| ==> text[i] as int < 128
    ensures var says := exists i :: 0 <= i < |text| && text[i] != ' ' && !(9 <= text[i] as int <= 13);
            ValidateMessageContent(text, attachments, stickerID).None? <==>
              (stickerID.Some? != (says || attachments > 0))
  {
    forall i | 0 <= i < |text|
      ensures IsSpace(text[i]) <==> text[i] == ' ' || 9 <= text[i] as int <= 13
    {
      AsciiSpace(text[i]);
    }
  }

  /** The chats two users share. */
  ghost function Shared(db: DB, a: int, b: int): set<int> {
    set c | c in db.chats && |set k | k in db.members && k.0 == c && (k.1 == a || k.1 == b)| == 2
  }

  lemma SharedIff(db: DB, a: int, b: int, c: int)
    requires WellFormed(db) && a != b
    ensures c in Shared(db, a, b) <==> c in db.chats && (c, a) in db.members && (c, b) in db.members
    ensures c in Shared(db, a, b) <==> c in db.chats && MembersOf(db, c) == {a, b}
    ensures Shared(db, a, b) == Shared(db, b, a)
  {
    var keys := set k | k in db.members && k.0 == c && (k.1 == a || k.1 == b);
    if c in db.chats {
      if (c, a) in db.members && (c, b) in db.members {
        assert keys == {(c, a), (c, b)};
        var other := OtherMember(db, c, a);
        assert other == b;
        forall x
          ensures x in MembersOf(db, c) <==> x == a || x == b
        {
          if (c, x) in db.members { assert (c, x).1 == x; }
        }
      } else {
        assert keys <= {(c, a)} || keys <= {(c, b)};
        if keys <= {(c, a)} { SubsetSize(keys, {(c, a)}); } else { SubsetSize(keys, {(c, b)}); }
        assert MembersOf(db, c) != {a, b} by {
          if (c, a) !in db.members { assert a !in MembersOf(db, c); } else { assert b !in MembersOf(db, c); }
        }
      }
    }
    forall d: int
      ensures d in Shared(db, a, b) <==> d in Shared(db, b, a)
    {
      assert (set k | k in db.members && k.0 == d && (k.1 == a || k.1 == b)) ==
        (set k | k in db.members && k.0 == d && (k.1 == b || k.1 == a));
    }
  }

  /** At most one chat exists per pair of users. */
  lemma OneChatPerPair(db: DB, a: int, b: int, c: int, d: int)
    requires WellFormed(db) && a != b && c in Shared(db, a, b) && d in Shared(db, b, a)
    ensures c == d
  {
    SharedIff(db, a, b, c);
    SharedIff(db, a, b, d);
  }

  ghost function WithChat(db: DB, a: int, b: int): DB {
    db.(chats := db.chats[db.nextChat := ChatRow(false, None, None)],
        members := db.members[(db.nextChat, a) := 0][(db.nextChat, b) := 0], nextChat := db.nextChat + 1)
  }

  lemma NewChatMembers(db: DB, a: int, b: int, c: int)
    requires WellFormed(db) && a != b && (c in db.chats || c == db.nextChat)
    ensures MembersOf(WithChat(db, a, b), c) == if c == db.nextChat then {a, b} else MembersOf(db, c)
  {
    var next := WithChat(db, a, b);
    forall x: int
      ensures x in MembersOf(next, c) <==> (c, x) in next.members
    {
      if (c, x) in next.members { assert (c, x).0 == c && (c, x).1 == x; }
    }
    forall x: int
      ensures x in MembersOf(db, c) <==> (c, x) in db.members
    {
      if (c, x) in db.members { assert (c, x).0 == c && (c, x).1 == x; }
    }
  }

  lemma NewChatKeepsWellFormed(db: DB, a: int, b: int)
    requires WellFormed(db) && a != b && Shared(db, a, b) == {}
    ensures WellFormed(WithChat(db, a, b))
  {
    var next := WithChat(db, a, b);
    forall c | c in next.chats
      ensures MembersOf(next, c) == if c == db.nextChat then {a, b} else MembersOf(db, c)
      ensures c != db.nextChat ==> c in db.chats && MembersOf(db, c) != {a, b}
    {
      NewChatMembers(db, a, b, c);
      SharedIff(db, a, b, c);
    }
  }

  lemma NewChatIsShared(db: DB, a: int, b: int)
    requires WellFormed(db) && a != b && Shared(db, a, b) == {}
    ensures Shared(WithChat(db, a, b), a, b) == {db.nextChat}
  {
    var next := WithChat(db, a, b);
    NewChatKeepsWellFormed(db, a, b);
    forall c: int
      ensures c in Shared(next, a, b) <==> c == db.nextChat
    {
      SharedIff(next, a, b, c);
      SharedIff(db, a, b, c);
    }
  }

  /** Which of the checks before a message the database fails. */
  datatype CheckFaults = CheckFaults(chat: bool, member: bool)

  class ChatService {
    var chats: map<int, ChatRow>
    var members: map<Key, int>
    var messages: map<int, Message>
    var nextChat: int
    var nextMessage: int

    ghost function Db(): DB
      reads this
    {
      DB(chats, members, messages, nextChat, nextMessage)
    }

    constructor ()
      ensures Db() == EMPTY && WellFormed(Db())
    {
      chats, members, messages, nextChat, nextMessage := map[], map[], map[], 1, 1;
    }

    /** Get-or-create in one transaction. exists_ is the auth service's answer, if
        it answers; down says that the transaction fails. */
    method GetOrCreateChatWithUser(self: int, user: int, exists_: Option<bool>, down: bool)
      returns (r: Result<int, Error>)
      requires WellFormed(Db())
      modifies this`chats, this`members, this`nextChat
      ensures WellFormed(Db())
      ensures r.Err? ==> Db() == old(Db())
      ensures r.Ok? <==> exists_ == Some(true) && self != user && !down
      ensures r.Err? ==> r.error == if exists_ == Some(false) then ErrNotExist
                                    else if exists_ == Some(true) && self == user then ErrInvalidInput
                                    else ErrDB
      ensures r.Ok? ==> Shared(Db(), self, user) == {r.value} == Shared(Db(), user, self)
      ensures r.Ok? && old(Shared(Db(), self, user)) != {} ==> Db() == old(Db())
      ensures r.Ok? && old(Shared(Db(), self, user)) == {} ==>
                && r.value !in old(chats) && chats == old(chats)[r.value := ChatRow(false, None, None)]
                && members == old(members)[(r.value, self) := 0][(r.value, user) := 0] && messages == old(messages)
    {
      if exists_.None? {
        return Err(ErrDB);
      }
      if !exists_.value {
        return Err(ErrNotExist);
      }
      if user == self {
        return Err(ErrInvalidInput);
      }
      if down {
        return Err(ErrDB);
      }
      var first, second := if self > user then user else self, if self > user then self else user;
      var found := set c | c in chats && (c, first) in members && (c, second) in members;
      ghost var before := Db();
      forall c: int
        ensures c in found <==> c in Shared(before, self, user)
      {
        SharedIff(before, self, user, c);
      }
      if found != {} {
        var chatID :| chatID in found;
        forall c | c in found
          ensures c == chatID
        {
          SharedIff(before, self, user, c);
          OneChatPerPair(before, self, user, chatID, c);
        }
        SharedIff(before, self, user, chatID);
        assert Shared(before, self, user) == {chatID};
        return Ok(chatID);
      }
      var chatID := nextChat;
      chats := chats[chatID := ChatRow(false, None, None)];
      members := members[(chatID, first) := 0][(chatID, second) := 0];
      nextChat := nextChat + 1;
      assert members == before.members[(chatID, self) := 0][(chatID, user) := 0];
      assert Db() == WithChat(before, self, user);
      NewChatKeepsWellFormed(before, self, user);
      NewChatIsShared(before, self, user);
      SharedIff(Db(), self, user, chatID);
      return Ok(chatID);
    }

    /** The checks of CreateMessage, in order: content, chat, membership. */
    method CheckMessage(user: int, chat: int, text: string, attachments: nat, stickerID: Option<int>,
                        faults: CheckFaults)
      returns (refused: Option<Error>)
      requires WellFormed(Db())
      ensures refused.None? <==>
                && ValidateMessageContent(text, attachments, stickerID).None?
                && !faults.chat && !faults.member && (chat, user) in members
      ensures refused == Some(ErrInvalidInput) <==> ValidateMessageContent(text, attachments, stickerID).Some?
      ensures refused == Some(ErrNotFound) <==>
                ValidateMessageContent(text, attachments, stickerID).None? && !faults.chat && chat !in chats
      ensures refused == Some(ErrAccessDenied) <==>
                && ValidateMessageContent(text, attachments, stickerID).None?
                && !faults.chat && chat in chats && !faults.member && (chat, user) !in members
      ensures refused.Some? ==> refused.value in {ErrInvalidInput, ErrNotFound, ErrAccessDenied, ErrDB}
    {
      var invalid := ValidateMessageContent(text, attachments, stickerID);
      if invalid.Some? {
        return invalid;
      }
      if faults.chat {
        return Some(ErrDB);
      }
      if chat !in chats {
        return Some(ErrNotFound);
      }
      if faults.member {
        return Some(ErrDB);
      }
      if (chat, user) !in members {
        return Some(ErrAccessDenied);
      }
      return None;
    }

    /** The row of a message: id is the key drawn for it, now its creation time. */
    method AddMessage(id: int, user: int, chat: int, text: string, now: int)
      requires WellFormed(Db()) && chat in chats && id >= nextMessage
      requires forall m :: m in messages && messages[m].chatID == chat ==> messages[m].createdAt != now
      modifies this`messages, this`nextMessage
      ensures WellFormed(Db())
      ensures id !in old(messages) && nextMessage == id + 1
      ensures messages == old(messages)[id := Message(id, user, chat, text, now)]
      ensures (forall m :: m in old(messages) && old(messages)[m].chatID == chat ==>
                             old(messages)[m].createdAt < now) ==>
                IsNewest(Db(), chat, id)
    {
      ghost var before := Db();
      messages := messages[id := Message(id, user, chat, text, now)];
      nextMessage := id + 1;
      assert forall c :: MembersOf(Db(), c) == MembersOf(before, c);
    }

    method UpdateLastReadMessage(user: int, chat: int, lastRead: int, down: bool) returns (err: Option<Error>)
      requires WellFormed(Db())
      modifies this`members
      ensures WellFormed(Db())
      ensures err == if down then Some(ErrDB) else None
      ensures members == if down then old(members) else MarkRead(old(members), ReadUpdate(user, chat, lastRead))
      ensures forall c, u :: (c, u) in members ==>
                (c, u) in old(members) && Unread(Db(), c, u) <= old(Unread(Db(), c, u))
    {
      if down {
        return Some(ErrDB);
      }
      ghost var before := Db();
      if (chat, user) in members && lastRead > members[(chat, user)] {
        members := members[(chat, user) := lastRead];
      }
      assert forall k :: k in members <==> k in before.members;
      forall c: int
        ensures MembersOf(Db(), c) == MembersOf(before, c)
      {
      }
      forall c, u | (c, u) in members
        ensures Unread(Db(), c, u) <= Unread(before, c, u)
      {
        UnreadFalls(before, c, u, Db());
      }
      return None;
    }
  }
}

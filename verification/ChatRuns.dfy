/** Whole runs of the chat service from an empty start: get-or-create, messages and
    read pointers in any order and with any failures, and what is pushed after each
    message. */
module ChatRuns {
  import opened Wrappers
  import opened Domain
  import opened Collections
  import opened Files = UploadDir
  import opened ChatStore
  import opened Messaging
  import C = ChatService
  import F = MediaRuns
  import M = MediaServices
  import S = MessageStore

  /** One call with everything that may go wrong in it. */
  datatype Op =
    | Open(self: int, user: int, exists_: Option<bool>, down: bool)
    | Say(author: int, chat: int, text: string, files: seq<Upload>, stickerID: Option<int>, now: int,
          checks: C.CheckFaults, faults: S.Faults, stuck: set<string>)
    | Read(user: int, chat: int, upTo: int, down: bool)

  function NewNames(op: Op): seq<string> {
    if op.Say? then Names(op.files) else []
  }

  /** Whatever lists the other members pull, the payload pushed to the one recipient
      carries the message and is the one entry about its chat. */
  ghost predicate PushedAsPulled(db: DB, author: int, c: int, m: int)
    requires WellFormed(db) && (c, author) in db.members && IsNewest(db, c, m)
  {
    forall viewer: int, recipients: seq<Recipient>, rows: seq<ChatJoin>, directory: map<int, C.Profile> ::
      (c, viewer) in db.members && viewer != author
      && AreRecipients(db, author, c, recipients) && IsAnswer(db, viewer, rows) ==>
        Matches(db, directory, author, c, m, viewer, recipients, rows)
  }

  ghost predicate Matches(db: DB, directory: map<int, C.Profile>, author: int, c: int, m: int, viewer: int,
                          recipients: seq<Recipient>, rows: seq<ChatJoin>)
    requires WellFormed(db) && (c, author) in db.members && IsNewest(db, c, m)
  {
    && |recipients| == 1 && recipients[0].memberID == viewer
    && C.Payload(C.PushColumns(db, author, c, m), directory, recipients[0]).lastMessage == db.messages[m]
    && (exists i :: 0 <= i < |rows| && IsEntry(db, directory, author, c, m, viewer, recipients[0], rows[i]))
    && (forall i, j :: 0 <= i < j < |rows| ==> !(rows[i].chat == c && rows[j].chat == c))
  }

  ghost predicate IsEntry(db: DB, directory: map<int, C.Profile>, author: int, c: int, m: int, viewer: int,
                          to: Recipient, row: ChatJoin)
    requires WellFormed(db) && (c, author) in db.members && IsNewest(db, c, m)
  {
    && IsJoin(db, viewer, row) && row.chat == c
    && C.Filled(C.Scanned(C.PullColumns(db, viewer, row)), directory)
       == C.Payload(C.PushColumns(db, author, c, m), directory, to)
  }

  lemma NewestIsPushed(db: DB, author: int, c: int, m: int)
    requires WellFormed(db) && (c, author) in db.members && IsNewest(db, c, m)
    ensures PushedAsPulled(db, author, c, m)
  {
    forall viewer: int, recipients: seq<Recipient>, rows: seq<ChatJoin>, directory: map<int, C.Profile> |
      (c, viewer) in db.members && viewer != author
      && AreRecipients(db, author, c, recipients) && IsAnswer(db, viewer, rows)
      ensures Matches(db, directory, author, c, m, viewer, recipients, rows)
    {
      C.PushEqualsPull(db, directory, c, author, m, recipients, viewer, rows);
      var i :| 0 <= i < |rows| && IsJoin(db, viewer, rows[i]) && rows[i].chat == c
               && C.Filled(C.Scanned(C.PullColumns(db, viewer, rows[i])), directory)
                  == C.Payload(C.PushColumns(db, author, c, m), directory, recipients[0]);
      assert IsEntry(db, directory, author, c, m, viewer, recipients[0], rows[i]);
    }
  }

  /** Every message of the tables is older than now. */
  ghost predicate Before(db: DB, now: int) {
    forall m :: m in db.messages ==> db.messages[m].createdAt < now
  }

  /** When a message is created. */
  ghost predicate Accepted(db: DB, op: Op)
    requires op.Say?
  {
    && Admitted(db.members, op.author, op.chat, op.text, |op.files|, op.stickerID, op.checks)
    && AllOk(op.files) && S.Commits(Names(op.files), op.stickerID.Some?, op.faults)
  }

  /** What a call did: m is the message it created, if it created one, and then the
      message is the newest of its chat and is pushed as it is pulled. */
  ghost predicate Did(before: DB, op: Op, m: Option<int>, after: DB) {
    && WellFormed(after)
    && (m.Some? <==> op.Say? && Accepted(before, op))
    && (m.None? ==> after.messages == before.messages)
    && (m.Some? ==>
          && m.value !in before.messages
          && after == before.(messages := before.messages[m.value := Message(m.value, op.author, op.chat, op.text,
                                                                             op.now)],
                              nextMessage := after.nextMessage)
          && (op.chat, op.author) in after.members && IsNewest(after, op.chat, m.value)
          && PushedAsPulled(after, op.author, op.chat, m.value))
  }

  /** The objects of an empty system agree. */
  method Boot() returns (chats: C.ChatService, media: M.MediaServices)
    ensures fresh(chats) && fresh(media) && fresh(media.dir) && fresh(media.store)
    ensures Agree(chats, media) && chats.Db() == EMPTY && media.dir.disk == {}
  {
    var dir := new Files.UploadDir();
    var store := new S.DBMessageStore();
    media := new M.MediaServices(dir, store);
    chats := new C.ChatService();
  }

  /** One call on tables that agree: they agree after it, whatever failed. */
  method Perform(chats: C.ChatService, media: M.MediaServices, op: Op) returns (m: Option<int>)
    requires Agree(chats, media) && Fresh(NewNames(op), media.dir.disk)
    requires op.Say? ==> Before(chats.Db(), op.now)
    modifies chats, media`messages, media.dir, media.store
    ensures Agree(chats, media) && Did(old(chats.Db()), op, m, chats.Db())
    ensures media.dir.disk <= old(media.dir.disk) + Elems(NewNames(op))
  {
    m := None;
    match op
    case Open(self, user, exists_, down) =>
      var _ := chats.GetOrCreateChatWithUser(self, user, exists_, down);
    case Say(author, chat, text, files, stickerID, now, checks, faults, stuck) =>
      var r, _ := CreateMessage(chats, media, author, chat, text, files, stickerID, now, checks, faults, stuck);
      if r.Ok? {
        m := Some(r.value);
        NewestIsPushed(chats.Db(), author, chat, r.value);
      }
    case Read(user, chat, upTo, down) =>
      var _ := chats.UpdateLastReadMessage(user, chat, upTo, down);
  }

  function NamesOf(ops: seq<Op>): seq<seq<string>> {
    seq(|ops|, i requires 0 <= i < |ops| => NewNames(ops[i]))
  }

  /** The clock ticks between two messages. */
  ghost predicate Ticking(ops: seq<Op>) {
    forall i, j :: 0 <= i < j < |ops| && ops[i].Say? && ops[j].Say? ==> ops[i].now < ops[j].now
  }

  /** Where the first i calls have led: the messages there are came from them. */
  ghost predicate Served(ops: seq<Op>, i: nat, db: DB) {
    i <= |ops| && forall j :: i <= j < |ops| && ops[j].Say? ==> Before(db, ops[j].now)
  }

  lemma ServedOneMore(ops: seq<Op>, i: nat, before: DB, m: Option<int>, after: DB)
    requires Ticking(ops) && i < |ops| && Served(ops, i, before) && Did(before, ops[i], m, after)
    ensures Served(ops, i + 1, after)
  {
  }

  /** What the first i calls did, state by state. */
  ghost predicate Logged(dbs: seq<DB>, ops: seq<Op>, created: seq<Option<int>>, i: nat, now: DB) {
    && i <= |ops| && |dbs| == i + 1 && |created| == i && dbs[0] == EMPTY && dbs[i] == now
    && forall j :: 0 <= j < i ==> Did(dbs[j], ops[j], created[j], dbs[j + 1])
  }

  lemma LoggedOneMore(dbs: seq<DB>, ops: seq<Op>, created: seq<Option<int>>, i: nat, was: DB, m: Option<int>, now: DB)
    requires i < |ops| && Logged(dbs, ops, created, i, was) && Did(was, ops[i], m, now)
    ensures Logged(dbs + [now], ops, created + [m], i + 1, now)
  {
    var more, news := dbs + [now], created + [m];
    forall j | 0 <= j < i + 1
      ensures Did(more[j], ops[j], news[j], more[j + 1])
    {
      if j < i {
        assert more[j] == dbs[j] && more[j + 1] == dbs[j + 1] && news[j] == created[j];
      }
    }
  }

  /** From an empty start, any calls in any order with any failures: the tables
      agree after each of them, and every message is pushed, right after its
      creation, exactly as the other member would then pull it. */
  method Serve(chats: C.ChatService, media: M.MediaServices, ops: seq<Op>)
    returns (ghost dbs: seq<DB>, ghost created: seq<Option<int>>)
    requires Agree(chats, media) && chats.Db() == EMPTY && media.dir.disk == {}
    requires Fresh(Concat(NamesOf(ops)), {}) && Ticking(ops)
    modifies chats, media`messages, media.dir, media.store
    ensures Agree(chats, media)
    ensures |dbs| == |ops| + 1 && |created| == |ops| && dbs[0] == EMPTY && dbs[|ops|] == chats.Db()
    ensures forall i :: 0 <= i < |ops| ==> Did(dbs[i], ops[i], created[i], dbs[i + 1])
  {
    dbs, created := [EMPTY], [];
    for i := 0 to |ops|
      invariant Agree(chats, media) && Logged(dbs, ops, created, i, chats.Db())
      invariant Served(ops, i, chats.Db())
      invariant media.dir.disk <= Elems(Concat(NamesOf(ops)[..i]))
    {
      NextFresh(NamesOf(ops), i, media.dir.disk);
      ghost var was := chats.Db();
      var m := Perform(chats, media, ops[i]);
      ServedOneMore(ops, i, was, m, chats.Db());
      LoggedOneMore(dbs, ops, created, i, was, m, chats.Db());
      dbs, created := dbs + [chats.Db()], created + [m];
    }
  }
}

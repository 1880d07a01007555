/** CreateMessage of internal/service/chat.go as one call: the checks against the
    chat tables, the uploads, and the transaction that writes the message. */
module Messaging {
  import opened Wrappers
  import opened Domain
  import opened Collections
  import opened ChatStore
  import opened FileRows
  import opened UploadDir
  import C = ChatService
  import M = MediaServices
  import S = MessageStore

  /** The chat tables, the files and the attachment rows know the same messages. */
  ghost predicate Agree(chats: C.ChatService, media: M.MediaServices)
    reads chats, media, media.store
  {
    && WellFormed(chats.Db()) && media.Coupled()
    && chats.messages.Keys == media.messages.Keys
    && chats.nextMessage <= media.store.nextMessage
  }

  /** When the checks before the upload let a message through. */
  predicate Admitted(members: map<Key, int>, user: int, chat: int, text: string, attachments: nat,
                     stickerID: Option<int>, checks: C.CheckFaults)
  {
    && C.ValidateMessageContent(text, attachments, stickerID).None?
    && !checks.chat && !checks.member && (chat, user) in members
  }

  /** A message is created iff it is admitted, its files are stored and its
      transaction commits. Then the chat has it, as its newest if the clock says so,
      its attachments are exactly the uploaded files, and these are on disk. If not,
      no table changes, and when removals succeed no file stays. */
  method CreateMessage(chats: C.ChatService, media: M.MediaServices, user: int, chat: int, text: string,
                       files: seq<Upload>, stickerID: Option<int>, now: int,
                       checks: C.CheckFaults, faults: S.Faults, stuck: set<string>)
    returns (r: Result<int, Error>, ghost left: set<string>)
    requires Agree(chats, media) && Fresh(Names(files), media.dir.disk)
    requires forall m :: m in chats.messages && chats.messages[m].chatID == chat ==> chats.messages[m].createdAt != now
    modifies chats`messages, chats`nextMessage, media`messages, media.dir, media.store
    ensures Agree(chats, media)
    ensures r.Ok? <==>
              && Admitted(old(chats.members), user, chat, text, |files|, stickerID, checks)
              && AllOk(files) && S.Commits(Names(files), stickerID.Some?, faults)
    ensures r.Ok? ==>
              && r.value !in old(chats.messages)
              && chats.messages == old(chats.messages)[r.value := Message(r.value, user, chat, text, now)]
              && S.Attached(media.store.rows, r.value, Names(files))
              && media.messages == old(media.messages)[r.value := Names(files)]
              && media.dir.disk == old(media.dir.disk) + Elems(Names(files))
    ensures r.Ok? && (forall m :: m in old(chats.messages) && old(chats.messages)[m].chatID == chat ==>
                        old(chats.messages)[m].createdAt < now) ==>
              IsNewest(chats.Db(), chat, r.value)
    ensures r.Err? ==>
              && chats.Db() == old(chats.Db())
              && media.messages == old(media.messages) && media.store.rows == old(media.store.rows)
              && (stuck == {} ==> media.dir.disk == old(media.dir.disk))
    ensures r.Err? && Admitted(old(chats.members), user, chat, text, |files|, stickerID, checks) ==>
              r.error == if AllOk(files) then ErrDB else ErrService
    ensures !Admitted(old(chats.members), user, chat, text, |files|, stickerID, checks) ==>
              r == Err(if C.ValidateMessageContent(text, |files|, stickerID).Some? then ErrInvalidInput
                       else if checks.chat then ErrDB else if chat !in chats.chats then ErrNotFound
                       else if checks.member then ErrDB else ErrAccessDenied)
    ensures media.dir.disk <= old(media.dir.disk) + Elems(Names(files))
    ensures Moves(old(media.Now()), media.Now(), OfMessage(old(media.store.nextMessage)), left)
  {
    r, left := StoreMessage(chats, media, user, chat, text, files, stickerID, now, checks, faults, stuck);
    if r.Ok? {
      chats.AddMessage(r.value, user, chat, text, now);
      assert chats.messages.Keys == old(chats.messages.Keys) + {r.value} == media.messages.Keys;
    }
  }

  /** The call as the files and the attachment rows see it; the chat tables are read. */
  method StoreMessage(chats: C.ChatService, media: M.MediaServices, user: int, chat: int, text: string,
                      files: seq<Upload>, stickerID: Option<int>, now: int,
                      checks: C.CheckFaults, faults: S.Faults, stuck: set<string>)
    returns (r: Result<int, Error>, ghost left: set<string>)
    requires Agree(chats, media) && Fresh(Names(files), media.dir.disk)
    modifies media`messages, media.dir, media.store
    ensures media.Coupled() && media.store.nextMessage >= old(media.store.nextMessage)
    ensures r.Ok? <==>
              && Admitted(chats.members, user, chat, text, |files|, stickerID, checks)
              && AllOk(files) && S.Commits(Names(files), stickerID.Some?, faults)
    ensures r.Ok? ==>
              && r.value !in old(media.messages) && old(media.store.nextMessage) <= r.value < media.store.nextMessage
              && S.Attached(media.store.rows, r.value, Names(files))
              && media.messages == old(media.messages)[r.value := Names(files)]
              && media.dir.disk == old(media.dir.disk) + Elems(Names(files))
    ensures r.Err? ==>
              && media.messages == old(media.messages) && media.store.rows == old(media.store.rows)
              && (stuck == {} ==> media.dir.disk == old(media.dir.disk))
    ensures r.Err? && Admitted(chats.members, user, chat, text, |files|, stickerID, checks) ==>
              r.error == if AllOk(files) then ErrDB else ErrService
    ensures !Admitted(chats.members, user, chat, text, |files|, stickerID, checks) ==>
              r == Err(if C.ValidateMessageContent(text, |files|, stickerID).Some? then ErrInvalidInput
                       else if checks.chat then ErrDB else if chat !in chats.chats then ErrNotFound
                       else if checks.member then ErrDB else ErrAccessDenied)
    ensures media.dir.disk <= old(media.dir.disk) + Elems(Names(files))
    ensures Moves(old(media.Now()), media.Now(), OfMessage(old(media.store.nextMessage)), left)
  {
    var refused := chats.CheckMessage(user, chat, text, |files|, stickerID, checks);
    r, left := media.CreateMessage(refused, files, stickerID.Some?, now, faults, stuck);
    if r.Ok? {
      NoFilesWithSticker(text, files, stickerID);
    }
  }

  /** A message that is admitted with a sticker comes without files. */
  lemma NoFilesWithSticker(text: string, files: seq<Upload>, stickerID: Option<int>)
    requires C.ValidateMessageContent(text, |files|, stickerID).None?
    ensures stickerID.Some? ==> Names(files) == []
  {
    C.ContentAcceptedIff(text, |files|, stickerID);
  }
}

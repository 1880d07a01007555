# A model of the social network backend

The backend keeps friendships, chats, communities, posts and uploaded files, and pushes
new messages over WebSockets. This project models the parts of it that hold state, and
proves what they keep. The command `dafny verify dfyconfig.toml` verifies the whole project.

| file | what it models |
|---|---|
| `FriendStore.dfy` | the `friend_relationships` table: one row per unordered pair of users, the three statements that write it, the list, count and relation-type queries that decode it |
| `FriendService.dfy` | the four calls that write friendships, and the directed and symmetric relations the table stands for |
| `FriendRuns.dfy` | whole runs of those calls: as atomic steps, and as interleaved SQL statements of any number of calls |
| `HubProtocol.dfy` | the WebSocket hub as a state machine: add, look up, deliver, remove, and the steps of both pumps of every client |
| `WSClient.dfy` | the hub as a class; each method is proved to be a step of the protocol |
| `ChatStore.dfy` | chats, members with read pointers, messages, and the chat queries as relations over the rows they join |
| `ChatService.dfy` | get-or-create, the checks and the row of a message, read pointers, the list a user pulls and the view pushed to the other member |
| `MessageStore.dfy` | the transaction that writes a message with its attachments, and reading the attachments back |
| `Files.dfy` | the upload directory with injected faults, and the rows that name its files |
| `MediaServices.dfy` | communities, posts and messages with their files: uploads, row writes, clean-up, in the order of the code |
| `MediaRuns.dfy` | whole runs of those calls with any failures, and what they leave on disk |
| `Messaging.dfy` | creating a message as one call: checks, uploads, transaction |
| `ChatRuns.dfy` | whole runs of the chat service from an empty start, and what is pushed after each message |
| `ChatRaces.dfy` | overlapping get-or-create transactions |
| `UpdateRaces.dfy` | overlapping updates of one community or post and their files |
| `Paginate.dfy` | page parameters in 32-bit arithmetic, and the pages they cut |
| `Subscriptions.dfy` | subscriptions, and the queries that count and list them in two shapes |
| `Enrichment.dfy` | author names and pictures for single posts and comments, and for batches |
| `Prelude.dfy` | options, results, errors, profiles, and facts about finite collections |

A SQL table is a map, set or sequence, and a statement or transaction is one atomic
step. Where a statement, a remote call or a file operation may fail, a parameter says
whether it does; `stuck` is the set of file names whose removal the file system refuses.
Queries are specification functions or predicates over the tables. Constraints, keys and
cascades are those of `db/migrations/20251008113339_init_db.up.sql`.

## What the proofs found

- **Accepting or rejecting a request that is not there yields `ErrDB`.** The store
  answers `ErrFriendshipNotFound` (`internal/repository/db/friend.go:97`), the service
  looks for `ErrNotFound` (`internal/service/friend.go:105`).
- **Consent does not survive interleaving.** Each call reads and then writes without a
  guard. A user can end up accepted by their own acceptance (`FriendRuns.StaleFriends`).
  `FriendRuns.InterleavedConsentIff` gives the exact condition: every acceptance that is
  written still finds its request in the table.
- **A rejected request looks pending to both sides.** Rejecting one changes no list and no
  counter of anyone, and the comment in the code that the row is deleted is not what it does.
- **The relation type "rejected"** has no clause in the store's filter, which refuses it
  (`internal/repository/db/friend.go:541-542`). The function `isValidCountType`
  (`internal/service/friend.go:320-329`) lists it as valid, but no code outside tests
  calls that function, and it is not modelled.
- **An old connection can close a new one.** Both pumps remove by user id, so a pump that
  ends after its user reconnected closes the new client (`HubProtocol.OldPumpRemovesNewClient`,
  with the exact condition in `HubProtocol.ForeignRemovalIff`). The replaced client, in turn,
  is never closed by the hub (`HubProtocol.ReplacedStaysOpen`).
- **A send can panic**, exactly when a removal of the same client falls between the look-up
  and the send of one `SendToUser` (`HubProtocol.ClosedSendIff`); `HubProtocol.SendPanics`
  is such a run.
- **Post files leak** in four ways, exactly (`MediaRuns.RunLeaves`, for calls one at a time
  whose removals succeed): when the community check of `CreatePost` fails after the uploads;
  when `UpdatePost` fails, as many new files of each kind as the call saw old ones; when a
  community is deleted, since its posts go by cascade and their files stay; and when an
  update or deletion is told of fewer files than the post has, since the loops that read the
  lists (`internal/repository/db/post.go:644-653`, `671-681`) never ask whether they ended
  early. Each has a concrete run in `MediaRuns`. Community and message files do not leak
  when calls come one at a time (`MediaRuns.FilesConserved`).
- **A row can name a missing file** when two updates of it overlap: each writes the whole row
  back, so one can restore a path whose file the other has just removed
  (`UpdateRaces.FileIsLost`). `UpdateRaces.OnDiskIff` says exactly which runs are spared, and
  `UpdateRaces.KeptKeepsOnDisk` that it is enough for each row write to find the files it
  keeps still in the row.
- **Two chats of one pair**: two overlapping get-or-create calls can create one each
  (`ChatRaces.TwoChats`), exactly when one inserts between the other's SELECT and INSERT
  (`ChatRaces.OnePerPairIff`).
- **Page offsets wrap**: the offset is the meant one iff the product fits in 31 bits, and
  beyond that it may be negative or plainly wrong (`Paginate.OffsetWraps`).
- **Attachments of a message come back in no certain order**: they are read by `created_at`,
  which is one value for the whole transaction (`MessageStore.OrderKeptIff`).

## Model

| member | source | states |
|---|---|---|
| FriendStore.ExecKeepsWellFormed | internal/repository/db/friend.go:44-54 | no upsert, update or delete, whatever its arguments, breaks the shape of the table: rows strictly ordered, one per pair, the action user one of the two |
| FriendStore.RelatedIff | internal/repository/db/friend.go:166-173 | a list query shows x to u iff x is not u and the one row of the pair satisfies the query's condition |
| FriendStore.ListsIff | internal/repository/db/friend.go:280-290 | a request to u is pending from the other user or refused by u, a sent one is pending from u or refused by the other, friends are accepted and blocked rows blocked: each list read off the status and action user of the row |
| FriendStore.Duality | internal/repository/db/friend.go:339-346 | b is in the sent list of a iff a is in the requests of b, and friendship is symmetric |
| FriendStore.RowsMatchRelated | internal/repository/db/friend.go:482-493 | counting rows and counting the users they project to give the same number |
| FriendStore.CountsAreListSizes | internal/repository/db/friend.go:494-499 | the four counters, each a sum of filtered row counts, are the sizes of the four sets of users the lists show |
| FriendStore.ClassesPartition | internal/repository/db/friend.go:223-231 | friends, requests, sent and blocked are disjoint and together are the list of related users, whose length is the sum of the counters |
| FriendStore.CountersAgree | internal/repository/db/friend.go:280-290 | for any duplicate-free answers of the unpaged lists, every counter is the length of its list and the related list is as long as the four together |
| FriendStore.FriendsListed | internal/repository/db/friend.go:166-176 | the ordered list of friends shows every friend exactly once |
| FriendStore.FilterAgrees | internal/repository/db/friend.go:529-553 | the relation-type filter, whose clauses are transcribed on their own, selects exactly the users the lists show, as many as the counters say, and refuses exactly the type "rejected" |
| FriendStore.DoubleCounting | internal/repository/db/friend.go:482-500 | over all users the sent and the pending counters have equal sums, the number of open rows, and the accepted counters sum to twice the accepted rows |
| FriendStore.DBFriendStore.CreateFriendship | internal/repository/db/friend.go:31-62 | the outcome of one upsert: new table and error, nothing changed when it fails, created_at kept when the pair had a row |
| FriendStore.DBFriendStore.UpdateFriendshipStatus | internal/repository/db/friend.go:110-151 | the outcome of one update: not-found iff the pair has no row, otherwise action user and status replaced and no other row touched |
| FriendStore.DBFriendStore.DeleteFriendship | internal/repository/db/friend.go:384-422 | the outcome of one delete: not-found iff the pair has no row, otherwise that row and no other is gone |
| FriendStore.DBFriendStore.GetFriendship | internal/repository/db/friend.go:65-107 | returns the row of the unordered pair, the same whichever user comes first; the error tells a missing row from a failed read |
| FriendStore.DBFriendStore.GetFriendshipStatus | internal/repository/db/friend.go:458-467 | a missing row is an empty status and not an error; only a failed read is one |
| FriendService.StepKeepsWellFormed | internal/service/friend.go:30-177 | no call, with whatever failures, breaks the shape of the table |
| FriendService.SucceedsIff | internal/service/friend.go:30-177 | a call succeeds iff its statements answer, the target of a request exists, its guard holds on the row it read, and a removal finds a row; a failed call changes nothing |
| FriendService.FriendService.SendFriendRequest | internal/service/friend.go:30-94 | the method, read by read, is the atomic step of a request; the error of each outcome, by the auth answer, the row's status and the failing read or write, and the pending row it writes, created_at kept |
| FriendService.FriendService.AcceptFriendRequest | internal/service/friend.go:97-127 | the method is the atomic step of an acceptance: ErrDB for a failed read or a missing row, ErrNotFound for a row not pending or the user's own, ErrDB for a failed write, otherwise the row accepted by the user and nothing else changed |
| FriendService.FriendService.RejectFriendRequest | internal/service/friend.go:130-161 | the method is the atomic step of a rejection, with the errors of an acceptance; it keeps the row, rejected by the user |
| FriendService.FriendService.RemoveFriend | internal/service/friend.go:164-177 | the method is the atomic step of a removal: ErrDB for a missing row or a failed delete, otherwise exactly that row is gone whatever its status |
| FriendService.WriteRefines | internal/repository/db/friend.go:124-147 | a write acts on the directed and symmetric relations behind the table as the rule of its call says, and on no other pair |
| FriendService.StepRefines | internal/service/friend.go:61-86 | a call is allowed by rules stated on the relations alone iff it succeeds on the table, and the table then means what the rule says |
| FriendService.RejectIsSilent | internal/service/friend.go:146-158 | rejecting a request changes no user's friends, requests, sent list or counters |
| FriendService.AskingAgainIsSilent | internal/repository/db/friend.go:286-287 | a later request by the first asker changes none of these either |
| FriendService.RejecterAsking | internal/repository/db/friend.go:345-346 | a later request by the rejecter moves the pair from the rejecter's requests to the rejecter's sent list, the reverse for the first asker, and nothing for anyone else |
| FriendRuns.AtomicMirrors | internal/service/friend.go:30-177 | after any run of atomic calls each row says what the last write on its pair was, and every answer directly follows the request it answers |
| FriendRuns.Consent | internal/service/friend.go:97-127 | after any run of atomic calls two users are friends iff the last two writes on their pair are a request by one and its acceptance by the other |
| FriendRuns.AtomicRefines | internal/repository/db/friend.go:44-54 | after any run the one-row table means exactly what replaying its writes on the pending, declined, friends and blocked relations tells |
| FriendRuns.RunIsSound | internal/service/friend.go:103-119 | under every interleaving of the statements of any number of calls the table stays well formed, each row says what the last write on its pair was, and an undisturbed call still has its guard |
| FriendRuns.InterleavedDuality | internal/repository/db/friend.go:280-290 | duality of sent and requests, and the balance of all counters, under every interleaving |
| FriendRuns.InterleavedConsentIff | internal/service/friend.go:97-127 | interleaved calls keep consent, users being friends iff the last two writes on their pair are a request and its acceptance, in every state of the run iff every acceptance that was written still found its request |
| FriendRuns.InterleavedAnswersIff | internal/service/friend.go:130-161 | the same for refusals too: every answer, acceptance or refusal, directly follows the request it answers iff every answer that was written still found it |
| FriendRuns.PairKeepsConsentIff | internal/repository/db/friend.go:124-147 | one write keeps the consent of a pair iff it is on another pair, or no acceptance, or one that still finds its request |
| FriendRuns.UndisturbedIsAtomic | internal/service/friend.go:30-177 | if no write to a pair falls between a call's read and its write, the run is a run of atomic calls in the order of their writes, and keeps consent |
| FriendRuns.StaleAcceptance | internal/service/friend.go:103-119 | a concrete run: 2 reads 1's request, 1 withdraws it, 2 asks, and 2's own acceptance is written |
| FriendRuns.StaleFriends | internal/service/friend.go:103-119 | after that run the two are friends without consent |
| HubProtocol.NextKeepsInv | internal/service/WSClient.go:32-81 | every step keeps: each client in the map is open, carries its own user's key and is the newest of its user; each channel is in order and within its buffer |
| HubProtocol.RunKeepsInv | internal/service/WSClient.go:21-64 | the invariant holds in every state of every interleaving from an empty hub |
| HubProtocol.StepEffect | internal/service/WSClient.go:49-64 | a step closes a client iff it removes the map entry that is this client; the client was open and has then left the map; no step puts an old client into the map |
| HubProtocol.ClosedIff | internal/service/WSClient.go:59-61 | between two states of a run a client becomes closed iff some step in between closes it, and never opens again |
| HubProtocol.ClosedOnce | internal/service/WSClient.go:60 | no channel is closed twice in any run |
| HubProtocol.NeverReturns | internal/service/WSClient.go:39-41 | a client that is out of the map never enters it again |
| HubProtocol.ReplacedStaysOpen | internal/service/WSClient.go:40 | a client replaced in the map while open is never closed by the hub |
| HubProtocol.ClosedSendIff | internal/service/WSClient.go:66-81 | a send meets a closed channel iff a removal of that same client lies between the look-up and the send of the call |
| HubProtocol.SendPanics | internal/service/WSClient.go:66-81 | a concrete run of five steps in which a send meets a closed channel and the process ends |
| HubProtocol.AcceptedIsOffered | internal/service/WSClient.go:75-80 | over any run a client has accepted exactly the messages sent to it while it was open and fewer than 256 were buffered, in the order they were sent |
| HubProtocol.DroppedOnlyWhenFull | internal/service/WSClient.go:75-80 | one send on an open channel drops its message iff 256 are buffered, and otherwise puts it last |
| HubProtocol.WrittenIsPrefix | internal/service/WSClient.go:123-137 | in every reachable state the messages written to a client are a prefix of those accepted for it, at most 257 behind |
| HubProtocol.FailedWriteLeaves | internal/service/WSClient.go:131-146 | a failed write or ping ends the pump's loop with queue and history as they were, and its deferred removal is next |
| HubProtocol.FailedWriteEndsPump | internal/service/WSClient.go:115-148 | over any run, once a write or ping of a client has failed its pump never receives, writes or pings again and nothing more is ever written to it |
| HubProtocol.PumpDrains | internal/service/WSClient.go:125-129 | once closed, under every interleaving, the write pump receives at most queue length + 1 times more, and when it has, it has left its loop |
| HubProtocol.ForeignRemovalIff | internal/service/WSClient.go:117-121 | the removal at the end of a pump hits another client iff the user was added again later and that client is still in the map |
| HubProtocol.OrderlyKeepsOneLive | internal/service/WSClient.go:151-156 | if a user is added again only after both pumps of all earlier clients of that user ended, only the newest client of a user ever has a running pump, and a client in the map has both |
| HubProtocol.OrderlyRemovals | internal/service/WSClient.go:115-121 | in such a run the removal at the end of a pump closes its own client or nothing |
| HubProtocol.OrderlyFinishedGone | internal/service/WSClient.go:151-156 | in such a run a client with both pumps ended is not in the map |
| HubProtocol.OldPumpRemovesNewClient | internal/service/WSClient.go:39-44 | a concrete run without that condition: the old read pump closes the client of the new connection and leaves its own open |
| WSClient.Hub.AddClient | internal/service/WSClient.go:32-47 | replaces the user's map entry by a fresh client and is the Add step of the protocol |
| WSClient.Hub.RemoveClient | internal/service/WSClient.go:49-64 | closes whichever client the map holds for the user and drops the entry, touching no other client; nothing when there is none |
| WSClient.Hub.LookUp | internal/service/WSClient.go:67-73 | finds a client iff the user has an entry, and then the one the entry names |
| WSClient.Hub.Deliver | internal/service/WSClient.go:75-80 | panics iff the channel was closed; otherwise the message is last in the queue, or dropped when the queue is full |
| WSClient.Hub.SendToUser | internal/service/WSClient.go:66-81 | with no step in between, a send never panics, and changes nothing but the one client of the user |
| WSClient.Hub.Receive | internal/service/WSClient.go:124-129 | is the Receive step: the oldest message into the pump's hand, or the end of the loop when the closed queue is empty |
| WSClient.Hub.WriteText | internal/service/WSClient.go:131-137 | is the Write step: the message in hand is written and the loop goes on, or the loop ends with the message lost and nothing written |
| WSClient.Hub.WritePing | internal/service/WSClient.go:139-146 | is the Ping step: queue and history stay as they are, and a failure ends the loop |
| WSClient.Hub.WritePumpExit | internal/service/WSClient.go:117-121 | is the exit step: it closes and removes whichever client the map holds for the user id |
| WSClient.Hub.ReadPumpExit | internal/service/WSClient.go:152-156 | is the exit step of the read pump, which removes by user id as well |
| WSClient.WritePumpAfterClose | internal/service/WSClient.go:123-148 | the loop on a closed channel, pings falling anywhere, takes from the channel at most queue length + 1 times; it returns at the first failed write or at the end of the channel, having written the queue in order up to there |
| ChatStore.JoinIff | internal/repository/db/chat.go:146-203 | the five-way join has exactly one row for each private chat with a message, pairing the user with the other member |
| ChatStore.EachChatOnce | internal/repository/db/chat.go:181-203 | any answer of the chat list shows a chat iff the user is a member and it has a message, and shows it once |
| ChatStore.AnswerExists | internal/repository/db/chat.go:146-203 | every user of every well-formed state has an answer of the chat list, by descending time of the last message |
| ChatStore.NewestFirst | internal/repository/db/chat.go:146-203 | whatever the answer, each chat comes with its newest message, and the chats by descending time of it |
| ChatStore.RecipientsExist | internal/repository/db/chat.go:274-284 | every chat has an answer of the recipients query |
| ChatStore.NewestExists | internal/repository/db/chat.go:146-160 | every chat with a message has a latest one |
| ChatStore.UnreadAgree | internal/repository/db/chat.go:161-171 | the unread counts of the pull query and of the push query, differently joined and grouped, are both the number of messages of the chat with an id above the pointer |
| ChatStore.UnreadFalls | internal/repository/db/chat.go:413-419 | moving a pointer up never raises an unread count |
| ChatStore.UnreadRises | internal/repository/db/chat.go:274-284 | a new message raises the count of a member of its chat by one iff its id is above the pointer, and no other count |
| ChatStore.PointerIsMaximum | internal/repository/db/chat.go:413-419 | after any sequence of updates a member's pointer is the maximum of its start and all values submitted for it |
| ChatStore.ReadOrderIrrelevant | internal/repository/db/chat.go:413-419 | the same updates in any other order leave the same pointers |
| ChatService.GetUserFullChats | internal/repository/db/chat.go:207-261 | nothing if the query, a scan or the iteration fails; otherwise every row scanned, in order, and the ids to look up are, without duplicates, exactly the authors and the other members |
| ChatService.GetUserChats | internal/service/chat.go:219-247 | each private chat carries the other user's name and picture, each chat the profile of its last author, an empty one if there is none, though only the collected ids were asked for; a failed read gives ErrDB, a failed profile service its own error |
| ChatService.FilledShows | internal/service/chat.go:235-243 | an entry is filled from the directory iff, field by field, it shows its row and the profiles of the other user and of the last author |
| ChatService.PushNewMessage | internal/service/chat.go:163-207 | one payload per recipient, in order, each with the counterpart's name and picture, the author's profile and that recipient's pointer and count although all are written into one record; nothing at all if the chat, the profiles or the recipients cannot be read |
| ChatService.PullIsView | internal/service/chat.go:235-243 | what a member pulls about a private chat is the view stated from the tables: other member, latest message and author, pointer, unread |
| ChatService.PushIsView | internal/service/chat.go:181-200 | what is pushed to the recipient is that same view |
| ChatService.PushEqualsPull | internal/repository/db/chat.go:330-357 | in every well-formed state a message of s has exactly one recipient, and the payload for it carries the newest message and is the one entry about the chat in any list it could pull |
| ChatService.ContentAcceptedIff | internal/service/chat.go:260-279 | content is accepted iff it is a sticker alone, or no sticker and some attachment or some text left once trimmed |
| ChatService.AsciiContent | internal/service/chat.go:263-276 | in ASCII, text counts iff it has a character other than a space, tab or line end |
| ChatService.SharedIff | internal/repository/db/chat.go:44-51 | the grouping query finds a chat iff both users are its members, which for private chats means that they are all its members, and is symmetric |
| ChatService.OneChatPerPair | internal/repository/db/chat.go:44-51 | the query has at most one answer, the same for (a, b) and (b, a) |
| ChatService.NewChatKeepsWellFormed | internal/repository/db/chat.go:65-77 | creating a chat for a pair without one keeps: two distinct members per chat, one chat per pair |
| ChatService.ChatService.GetOrCreateChatWithUser | internal/service/chat.go:32-56 | symmetric and idempotent: afterwards the returned chat is the only one of the pair, either way round; an existing one changes nothing; each failure has its error and changes nothing |
| ChatService.ChatService.CheckMessage | internal/service/chat.go:101-130 | lets a message through iff its content is accepted, both reads answer and the author is a member; each refusal has its error, in the order of the checks |
| ChatService.ChatService.AddMessage | internal/repository/db/message.go:112-120 | adds the one message under a new highest id, which is the newest of its chat if its time is later than the others |
| Messaging.CreateMessage | internal/service/chat.go:99-160 | creates a message iff it is admitted, its files are stored and its transaction commits; then chat, attachment rows and disk all have exactly it and its files; otherwise no table changes and, when removals succeed, no file stays; every failure has its error |
| Messaging.StoreMessage | internal/service/chat.go:132-160 | the checks, the uploads and the transaction, as the files and the attachment rows see them, with the error of each failure |
| ChatRuns.Boot | internal/service/chat.go:22-30 | the objects of an empty system agree on their messages, which is what creating a message asks of them |
| ChatRuns.Perform | internal/service/chat.go:99-217 | one get-or-create, message or read-pointer call, whatever fails in it, keeps that agreement; a message created is the newest of its chat and is pushed as it is pulled |
| ChatRuns.Serve | internal/service/chat.go:99-217 | from an empty start, after any sequence of such calls with a ticking clock the tables agree, and each message, right after its creation, is pushed exactly as the other member would pull it |
| ChatRuns.NewestIsPushed | internal/repository/db/chat.go:330-357 | whatever list any other member of the chat pulls, the one payload pushed carries the newest message and is the one entry about the chat |
| ChatRaces.OnePerPairIff | internal/repository/db/chat.go:44-82 | overlapping get-or-create transactions leave at most one chat per pair iff none of them inserts while another insert of its pair lies between its own SELECT and INSERT |
| ChatRaces.TwoChats | internal/repository/db/chat.go:44-82 | a concrete run of two transactions that ends with two chats of one pair |
| ChatService.ChatService.UpdateLastReadMessage | internal/service/chat.go:249-258 | moves the one pointer up or not at all, and raises nobody's unread count |
| MessageStore.DBMessageStore.CreateMessage | internal/repository/db/message.go:89-138 | all or nothing: whichever statement of the transaction fails, or if a path is bad, neither table changes; otherwise the message and all its attachments are there |
| MessageStore.DBMessageStore.SaveMessageAttachmentsTx | internal/repository/db/message.go:237-264 | the loop saves all rows iff every path is valid and no insert fails |
| MessageStore.ReadsBack | internal/repository/db/message.go:152-157 | every answer of the attachment query gives back the saved paths, each as often as it was saved |
| MessageStore.AttachedGrows | internal/repository/db/message.go:237-260 | a committed transaction attaches its paths to its message and leaves the attachments of every other message as they were |
| MessageStore.OrderKeptIff | internal/repository/db/message.go:152-157 | every answer has the order of saving iff the paths are all alike, as when there is at most one |
| UploadDir.UploadDir.UploadFiles | internal/service/upload.go:38-54 | all or nothing: all names in order, or an error with the disk as before but for files that could not be removed |
| UploadDir.UploadDir.DeleteFile | internal/service/upload.go:57-63 | an error iff a file that is there cannot be removed; removing a missing file is none |
| UploadDir.UploadDir.DeleteFiles | internal/service/upload.go:66-76 | without an error all files named are gone and no other; with one, the file that could not be removed is there, exactly the names before it are gone |
| UploadDir.UploadDir.HandleFileUpload | internal/service/upload.go:79-89 | old files go only once all new ones are stored; when removals succeed, a failed upload leaves the disk as it was and a successful one exchanges the files |
| FileRows.CascadeLeaves | db/migrations/20251008113339_init_db.up.sql:173 | posts deleted by cascade keep the rest consistent and leave exactly their files behind |
| MediaRuns.Perform | internal/service/community.go:33-244 | one call of the seven that store files, on services in any sound state with any faults, is a step of a run, and adds exactly its leftovers to the files no row names |
| MediaRuns.RunConserves | internal/service/community.go:132-198 | after any run of community, post and message calls one at a time, whatever failed in it, reads cut short included, every file a row names is on disk and named once, and the other files on disk are exactly those the calls left over |
| MediaRuns.RunLeaves | internal/service/post.go:163-333 | when removals succeed, the files no row names are exactly the uploads of posts refused by the community check, the first files of failed post updates, the files of posts deleted with their community, and those an update or deletion of a post was not told of |
| MediaRuns.FilesConserved | internal/service/chat.go:132-160 | after any sequence of community and message calls, whatever uploads, reads and row writes failed, as long as removals succeed, a file is on disk iff a row names it, and one row names it once |
| MediaRuns.Serve | internal/service/community.go:33-244 | the services themselves, started empty, over any sequence of calls with different file names: the calls form such a run, with its conclusions about the final state |
| MediaRuns.RefusedPostLeaks | internal/service/post.go:116-130 | a concrete run in which an upload stays on disk although every removal succeeds |
| MediaRuns.StrangerLeaks | internal/service/post.go:124-129 | a concrete run in which a stranger's post to a community is refused, no post stored, and its upload stays on disk |
| MediaRuns.FailedUpdateLeaks | internal/service/post.go:253-264 | a concrete run in which a failed update leaves its new file beside the old one |
| MediaRuns.CascadeLeaks | internal/service/community.go:227-244 | a concrete run in which a post goes with its community and its file stays |
| MediaRuns.CutReadLeaks | internal/repository/db/post.go:644-653 | a concrete run in which a deletion is told of the first of two files only and the second stays |
| UpdateRaces.NextKeepsInv | internal/service/community.go:132-198 | under every interleaving of the steps of overlapping updates each file name keeps its slot, and the new files of a call that has not written the row are known to that call alone |
| UpdateRaces.OnDiskIff | internal/service/post.go:198-276 | overlapping updates keep every named file on disk in every state iff each row write finds the files it keeps on disk and each removal finds its file no longer named |
| UpdateRaces.KeptKeepsOnDisk | internal/service/community.go:146-163 | if each row write still finds in the row the files it keeps, no named file is ever missing, whatever else overlaps or fails |
| UpdateRaces.FileIsLost | internal/repository/db/community.go:72-76 | a concrete run of two updates in which nothing fails and the row ends up naming a removed file |
| MediaServices.MediaServices.CreateCommunity | internal/service/community.go:33-100 | success, or an error with no row and nothing left but files that could not be removed; which error is fixed by what failed |
| MediaServices.MediaServices.UpdateCommunity | internal/service/community.go:102-202 | new files replace old ones only with the row; on failure the old files and the row are as they were; leftovers are at most the files that could not be removed |
| MediaServices.MediaServices.RewriteCommunity | internal/service/community.go:166-202 | with the new files uploaded: the row written and the replaced files removed, or the row kept and the new files removed |
| MediaServices.MediaServices.DeleteCommunity | internal/service/community.go:204-244 | the row and its files go; its posts go with it while their files stay; a refusal changes nothing |
| MediaServices.MediaServices.CreatePost | internal/service/post.go:74-160 | a post to a community is stored only for its creator; what is left over when removals succeed, exactly: nothing, except that a failed community check leaves all uploaded files; the error is fixed by what failed |
| MediaServices.MediaServices.StorePost | internal/service/post.go:132-160 | with the files uploaded: the row stored under a new key, or, when removals succeed, the files gone again |
| MediaServices.MediaServices.CheckCommunity | internal/service/post.go:116-130 | passes iff no community is named or it can be read and the user created it; access denied iff it is someone else's; not-found iff it cannot be read or is not there |
| MediaServices.Barred | internal/service/post.go:169-196 | which of bad input, a failed read, no row or another's row keeps a user from changing it, each with its error exactly |
| MediaServices.MediaServices.UpdatePost | internal/service/post.go:163-280 | what each outcome leaves over when removals succeed, exactly, a read cut short included, and the error it gives; the row changes iff the call succeeds, and a kind of file is replaced iff new ones were given |
| MediaServices.MediaServices.RewritePost | internal/service/post.go:243-280 | with the new files uploaded: the row written and the old files seen removed, or the row kept and the new files removed but for as many as old ones were seen |
| MediaServices.MediaServices.DeletePost | internal/service/post.go:283-333 | the row goes, and when removals succeed all its files but those the call was not told of; otherwise nothing changes; no other row's file is touched |
| MediaServices.MediaServices.CreateMessage | internal/service/chat.go:132-160 | a message row exists iff it was let through, its files were stored and the store's transaction committed; it names exactly the uploaded files, a sticker message none; otherwise, when removals succeed, none of them stays; the attachment rows keep agreeing with the files named |
| MediaServices.FailedUpdateLeaves | internal/service/post.go:253-264 | a failed row write leaves min(old count, new count) files of each kind that was uploaded |
| MediaServices.MediaServices.CleanUp | internal/service/post.go:254-257 | of the new files exactly those beyond the old count are removed |
| MediaServices.CommunityRewritten | internal/service/community.go:192-198 | the disk after a successful update is that of a row whose files moved, with only unremovable old files left over |
| MediaServices.PostRewritten | internal/service/post.go:266-276 | the same for a post and its two lists of files |
| Paginate.ValidatePaginationParams | domain/paginate.go:11-20 | a limit between 1 and 100 is used as it is, any other becomes 20, and a page below 1 starts at 0 |
| Paginate.OffsetExactIff | domain/paginate.go:18 | the offset is the meant one iff (page - 1) * limit fits in an int32, and then not negative |
| Paginate.OffsetWraps | domain/paginate.go:18 | beyond that it can be negative, and it can be a small wrong offset |
| Paginate.WrapIsCongruent | domain/paginate.go:18 | a wrapped product keeps its low 32 bits |
| Paginate.WrappedPages | domain/paginate.go:18 | one late page is refused and a later one shows the wrong items |
| Paginate.FetchIs | domain/paginate.go:11-20 | a page whose offset fits is the limit items from (page - 1) * limit, or as many as there are |
| Paginate.PagesTile | domain/paginate.go:11-20 | as long as the offsets fit, pages 1 to k of a fixed list concatenate to its first min(k * limit, n) items |
| Paginate.PageEmptyIff | domain/paginate.go:11-20 | a page is empty iff it lies past the ceil(n / limit)-th |
| Paginate.AllPages | domain/paginate.go:11-20 | the ceil(n / limit) pages of a list give all of it and none is empty |
| Paginate.FriendPages | internal/repository/db/friend.go:166-176 | paging through one's friends yields every friend once, in ascending order, in ceil(Accepted / limit) pages, none of them empty |
| Subscriptions.CountsAgree | internal/repository/db/community.go:201-208 | the correlated count and the left-join count of a community's subscribers are equal |
| Subscriptions.MineAndOthers | internal/repository/db/community.go:255-272 | "my" and "other" communities split all communities, and each of mine is listed once |
| Subscriptions.SubscriptionTotals | internal/repository/db/community.go:368-373 | subscriber counts summed over communities equal subscription lists summed over users |
| Subscriptions.DBCommunityStore.CreateCommunity | internal/service/community.go:76-96 | a new community has one subscriber, its creator, or none if that insert failed |
| Subscriptions.DBCommunityStore.Subscribe | internal/repository/db/community.go:500-504 | subscribing twice is subscribing once, and the first time raises the count by one; it fails for a community that does not exist |
| Subscriptions.DBCommunityStore.Unsubscribe | internal/repository/db/community.go:517-549 | afterwards the community is among the user's others and its count is one lower; not-found iff there was no subscription |
| Subscriptions.DBCommunityStore.DeleteCommunity | internal/repository/db/community.go:103-135 | only the creator can delete a community, anyone else gets not-found; it leaves every user's list and nothing else does |
| Enrichment.EnrichPostWithProfile | internal/service/post.go:492-528 | the view determines the post and credits its author, or a placeholder when there is no profile |
| Enrichment.EnrichPostsWithProfiles | internal/service/post.go:426-489 | in order and one per post, duplicate authors included, exactly the view the single function gives; an empty batch cannot fail |
| Enrichment.EnrichCommentWithProfile | internal/service/comment.go:239-269 | the same for a single comment |
| Enrichment.EnrichCommentsWithProfiles | internal/service/comment.go:272-316 | the same for a batch of comments |

## Left out

- HTTP and gRPC handlers, middleware, configuration, logging, metrics, generated code, and the tables of error codes: plumbing, or settled by reading.
- Elastic search, Redis sessions, password hashing: foreign state. Their failures are only logged on the paths modelled.
- Field validation by govalidator is one boolean, and remote services are an answer or a failure.
- Real time (ping period, deadlines) is a ping step or a failing read or write at any moment; the connection objects themselves are not modelled.
- The copy loops of list queries in the friend and community stores: their answers are specification functions. GetUserFullChats is modelled with its loops.
- LIMIT and OFFSET of the chat and community lists: Paginate shows what they cut from a fixed list; a list that changes between two pages is not modelled. Ties in the created_at order of requests and sent requests stay open, as in SQL.
- ChatService and ChatRuns take the get-or-create transaction as atomic, so their states have one chat per pair; what two overlapping ones do is in ChatRaces.
- MediaRuns takes calls one at a time. UpdateRaces lets updates of one row overlap; overlapping creations and deletions are not modelled.
- Subscriptions and MediaServices each keep the columns of the communities table they need, and nothing relates the two.
- ChatRuns.Serve: the clock is taken to tick between messages, of whatever chat.
- ChatStore.JoinIff: assumes created_at distinct within a chat, which the schema does not enforce; with equal times the two queries may pick different last messages.
- ChatService.PushEqualsPull: the two push queries and the pull are asked of one state of the database; the goroutine may see later writes between its queries.
- last_read_message_id is never null: the schema allows null, no code writes it.
- Group chats: no code creates one, so well-formed states have none; the columns for them are kept.
- File names are fresh, as UUIDs are, and a failed write leaves no partial file. Path lengths are counted in characters; the names are ASCII.
- A transaction whose helper fails under a shadowed err is never rolled back: its writes stay invisible, which is what the model says, but the connection it holds is not modelled.
- Files of profiles (avatar, header): the old file goes before the row write there, so it may name a missing file. Stickers, applications and sessions are single statements.
- Deleting a user, and the cascades it starts; rewriting texts of posts, communities and comments; likes and comment counts.
- 32-bit widths outside page arithmetic and the author id of a post: ids are drawn by the database and do not overflow in the operations modelled.

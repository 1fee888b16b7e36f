# Verification of the client's stateful cores

This project models the parts of the INTEGRAL client that keep state across failures, and proves
what they promise.

## What is modelled

**Uploading saves.** While an emulator runs it keeps changing a working SAV file, and the client
uploads snapshots of it to a server that accepts an upload only at its current revision.
`SaveProtocol` is the protocol as a transition system: one envelope file on disk, one working file,
perhaps a recovery record that points at it, a network that may deliver a request late, twice or
never, and a client that may crash between any two effects. Its inductive invariant is `Inv`; `SaveGuarantees` draws the run-level conclusions:
order, at most one effect per request, write-ahead, identical retries, deletion only of what the
server has. Calls made while the emulator still runs are part of the runs; what only holds of calls
that began with the emulator gone says so (`quiet`). `SaveUploader` is the upload routine itself as a
class over plain fields. Every effect it has is tied to one action of the transition system, so each
call extends a run of the protocol (`Valid`), and everything proved of runs holds of the code. `SaveMonitor` is the process that
watches the emulator; the POSIX loop meets one specification, `MeetsSpec`, and the Windows loop
meets it exactly when no wait for the process fails while it runs.
`MobileReceipt` is the receipt without which a mobile session never uploads.
`EnvelopeText` is the envelope file as text, `OutboxRecords` and `OutboxReplay` the older scheme of
`.pending` records and `.complete` markers, with a crash possible before every single effect, and
`ManagedPath` the check of recorded paths.

**ROOM sessions.** `RoomSession` is the room context with its N64 host process and its link client
process. All handlers, keys included, keep one invariant (`N64Ok`, `LinkOk`): a process that was
started is owned until it is reaped or, in one branch of starting a link client, given up; there is
never a second one beside it, and the session id it was started for is the current one. The step that
needs care is a living host without a connection: then the session is either suspended or
reconnecting, so no other id can be adopted.

**Smaller cores.** `CivilTime` and `IsoTime` (dates and timestamps), `ConfigFile` and `ConfigText` (the
configuration file as text, and its sections as independent of each other), `RomEditor` (editing ROM
slots without touching what is registered), `KeySpec` (key specs rewritten while keys are captured), `RomSelection` (cyclic selection),
`WindowFit` (window size), `ShellQuote` (quoting a path). `Texts` and `Options` hold what several of
them share.

## Assumptions

- The server of the envelope protocol accepts an upload only at its current revision and answers a
  repeated request id with its first result; nobody else uploads to the same save meanwhile. The
  server of the older records does the same by request id.
- Replacing and removing a file are atomic, and a crash loses memory only.
- The content hash, and the 24 digits of it that a request id carries, is injective: a hash stands
  for its content, and a request id for the revision and the content.
- One client process handles a save at a time. A session of a save begins only without a record of an
  earlier one, because what is pending is resolved before a launch, and a record is replayed with the
  emulator gone.
- A save has one working file, whose name is not that of another save's file or of a record.
- Whether a server answers, a file can be read, a process can be spawned or stopped, and what the
  operating system or the user does next, is arbitrary. `diskWorks` and `answers` say where a result
  needs more; `calm`, `late` and `host` fix what happens in the runs that show a failure.

## Where the code does less than one might expect

- An envelope without payload can be staged but is refused when it is read back, so a zero-byte
  working file whose upload is interrupted stays pending for ever: `EnvelopeText.RoundTrip`,
  `SaveUploader.SaveStore.ProcessInflight` and `ReplayEnvelope` state exactly this.
- A record line of the right save without a revision or a path is passed over by the replay but
  reported as pending: `OutboxRecords.OrphanExists` gives one, `OutboxReplay.NothingReported` shows
  that there is no other kind.
- A replay that cannot list the outbox directory reports nothing as pending; the conclusions about
  "nothing pending" therefore ask that the directory was read (`listed`).
- The Windows loop takes a failed wait for an exit. Then the session may be ended and working files
  removed while the emulator runs: `SaveMonitor.Monitor.WatchWindows` says exactly when, and
  `SaveMonitor.FailedWaitLoses` is a session in which the loop loses a save in this way. To the protocol
  this is a final call made too early (`SaveGuarantees.EarlyFinalCallLoses`), and so is a recovery made
  while an emulator outlives its client (`SaveGuarantees.DeletedOnlyWhenReflected`).
- After a lost heartbeat every save gets a record, also one the server holds already; its replay uploads
  the same content once more, as another revision (`SaveGuarantees.UnchangedIsSentAgain`).
  `SaveGuarantees.RepeatedContent` says that nothing else leaves the server's content as it was, and
  `StrictUnlessRepeated` that the order of the accepted snapshots is strict up to such a replay.
- A link client that was spawned but could not be equipped is told to stop and its number dropped,
  whether or not that reaped it: `RoomSession.RoomContext.StartClient` says exactly when a child is
  given up, and `UnownedChild` leads to one.
- Quoting a path can store one character more than the buffer has: `ShellQuote.ShellQuotePath` says
  exactly for which paths, and `PlainOverruns` names those without quotes.
- The zone of a time is looked for behind nineteen characters, but six good numbers may take up fewer. The
  only caller passes a field of forty characters that was filled with zeros (`expires_at`,
  c_client/http_client.h:88, c_client/api_room.c:520, c_client/client_room_common.c:613), so an accepted text
  that is shorter is read as in UTC, whatever zone it has (`IsoTime.ShortIsUtc`); `IsoTime.IgnoredZone` is
  five hours off. `IsoTime.ZoneIsSeen` says exactly when the zone that is read is the text's own.
- The specs of the N64 controllers hold eighteen names of ordinary length; longer ones are cut. A key
  whose name has a comma or begins with a space cannot be stored: a captured comma disappears and the
  names behind it move up (`KeySpec.CommaStep`). `KeySpec.FoundIffFit` says exactly when names are read
  back as captured.
- A ROM path longer than 255 characters is cut when the configuration is loaded
  (`ConfigText.LoadAfterSave`).
- A date-time text may name day 31 of any month; it then counts on into the next month
  (`CivilTime.DaysFromCivilIsDayNumber` covers such days too).
- The screen of an N64 room is closed exactly when the server answers that there is no room, whether or not
  its host still lives (`RoomSession.RoomContext.Refresh`); `HostOutlivesRoom` leads to a closed room with a
  living host. The host stays owned. Entering an N64 room and leaving any room tell it to stop
  (`ActivateN64`, `Leave`); entering a link room does not (`ActivateLinkRoom`).

## Model

| member | source | states |
|---|---|---|
| SaveProtocol.StepInv | c_client/client_save_outbox.c:100-194 | every step of client, emulator, network and crash keeps the protocol invariant |
| SaveProtocol.RunInv | c_client/client_save_outbox.c:100-194 | every state of every run satisfies the invariant |
| SaveProtocol.DeliverInv | c_client/client_save_outbox.c:153-157 | a late or repeated delivery takes effect at most once, and only for the outstanding request |
| SaveProtocol.AcceptNumbered | c_client/client_save_outbox.c:153-157 | accepting the outstanding request keeps the server's log numbered by revision |
| SaveProtocol.AcceptOrdered | c_client/client_save_outbox.c:153-157 | the accepted snapshots stay in the order the file went through them |
| SaveProtocol.DifferentIsNewer | c_client/client_save_outbox.c:129-138 | file content that differs from the server is newer than everything accepted |
| SaveProtocol.EntryKnowsServer | c_client/client_save_outbox.c:115-132 | what the client compares its file with, and the revision it will expect, are those of the server |
| SaveProtocol.LandedIsCurrent | c_client/client_save_outbox.c:172-177 | the last accepted request is the server's content, at the current revision |
| SaveProtocol.StageInv | c_client/client_save_outbox.c:139-149 | staging a snapshot makes it the one outstanding request |
| SaveProtocol.SendInv | c_client/client_save_outbox.c:153-157 | sending for a call puts no request on the network but the one on disk |
| SaveProtocol.RecordInv | c_client/client_save_outbox.c:497-523 | the replay of a record sends the file as it is, newer than or the same as what was accepted last |
| SaveProtocol.FinishInv | c_client/client_save_outbox.c:417-437 | once its request is accepted a record goes, and its file with it |
| SaveGuarantees.AcceptedInOrder | c_client/client_save_outbox.c:100-194 | in every run, accepted snapshots are different requests, in the order the working file went through them, and the revision counts them; only the replay of a record can repeat a snapshot |
| SaveGuarantees.ReplayedAreSent | c_client/client_save_outbox.c:497-523 | without the replay of a record the order is strict |
| SaveGuarantees.StrictUnlessRepeated | c_client/client_save_outbox.c:497-523 | the order is strict exactly until the server accepts a record's file that nobody has written since it was accepted before |
| SaveGuarantees.RepeatedContent | c_client/client_save_outbox.c:497-523 | an accepted upload leaves the server's content as it was exactly when a record is replayed whose file already was that content |
| SaveGuarantees.UnchangedIsSentAgain | c_client/client_save_sync.c:259-279 | a record of an unchanged save uploads the same content as another revision |
| SaveGuarantees.HistoryGrows | c_client/client_save_outbox.c:100-194 | what was accepted, written or sent is never taken back or reordered |
| SaveGuarantees.OneRequestPerRevision | c_client/client_save_outbox.c:139-157 | two requests on the network for one revision are the same request |
| SaveGuarantees.RetriesAreIdentical | c_client/client_save_outbox.c:123-186 | every retry, also by a later process, repeats revision, bytes and id |
| SaveGuarantees.WriteAhead | c_client/client_save_outbox.c:145-157 | what is sent is on disk before, uncommitted, with the same revision and bytes, or is the file that a record of this revision points at |
| SaveGuarantees.OutstandingStays | c_client/client_save_outbox.c:158-171 | no step takes an unaccepted request off the disk or changes it |
| SaveGuarantees.StagedUntilAccepted | c_client/client_save_outbox.c:139-175 | a staged request stays unchanged through crashes and error rewrites until exactly it is accepted |
| SaveGuarantees.CommittedKeptForSuccessor | c_client/client_save_outbox.c:100-189 | a committed envelope goes only for its successor at the recovered revision, or when the file matches |
| SaveGuarantees.DeletedOnlyWhenReflected | c_client/client_save_sync.c:312-337 | whenever a working SAV disappears nothing is pending, and unless that ends a call begun while the emulator ran, the server holds exactly its bytes |
| SaveGuarantees.RecordUntilAccepted | c_client/client_save_outbox.c:338-523 | a record stays with its file until the server holds exactly that file, and both go together |
| SaveGuarantees.EarlyFinalCallLoses | c_client/client_save_sync.c:312-337 | a final call while the emulator runs can end with a file removed whose bytes the server never saw |
| SaveGuarantees.NewRequestsCarryTheFile | c_client/client_save_outbox.c:123-157 | while the file does not change, every new request carries what it holds or was left over |
| SaveGuarantees.FinalCallIsSafe | c_client/client_save_sync.c:236-247 | a successful final call means nothing pending, with the file at the server if the emulator was gone, or a durable envelope with its file |
| SaveUploader.SaveStore.ProcessInflight | c_client/client_save_outbox.c:103-194 | a call is a run of the protocol with at most two uploads; with the emulator gone it sends only what the file holds or the request left over, and with disk and server working it ends in sync, except that an envelope without payload is stuck |
| SaveUploader.SaveStore.OpenEnvelope | c_client/client_save_outbox.c:106-121 | an envelope left on disk is taken up as it is, when it can be read back |
| SaveUploader.SaveStore.Attempts | c_client/client_save_outbox.c:122-189 | two rounds are enough: only a request left over can need the second |
| SaveUploader.SaveStore.Attempt | c_client/client_save_outbox.c:123-186 | one round stages, sends, marks and compares, and ends the call unless newer bytes are left |
| SaveUploader.SaveStore.StageLatest | c_client/client_save_outbox.c:124-150 | the newest snapshot is written to disk before anything is sent |
| SaveUploader.SaveStore.Compare | c_client/client_save_outbox.c:125-137 | the file is compared with what the server holds, at the revision the server has |
| SaveUploader.SaveStore.SendAndMark | c_client/client_save_outbox.c:151-177 | an accepted request is marked committed on disk, a failed one is retained |
| SaveUploader.SaveStore.NoteFailure | c_client/client_save_outbox.c:158-171 | a failure keeps request and file, and only a fenced call rewrites the error text |
| SaveUploader.SaveStore.MarkCommitted | c_client/client_save_outbox.c:172-177 | the accepted revision is recorded on disk and then in memory |
| SaveUploader.SaveStore.Settle | c_client/client_save_outbox.c:178-189 | the envelope goes only when the file has the accepted bytes |
| SaveUploader.SaveStore.ClearEnvelope | c_client/client_save_outbox.c:132-138 | a matching file ends the call in sync |
| SaveUploader.SaveStore.Put | c_client/client_save_outbox.c:151-158 | an answer of success means that the server holds the request at that revision |
| SaveUploader.SaveStore.WriteRecoveryPointer | c_client/client_save_outbox.c:338-414 | success means an envelope or a recovery record leads back to the working file |
| SaveUploader.SaveStore.PreserveForRecovery | c_client/client_save_sync.c:259-279 | the file is protected exactly when the record is there |
| SaveUploader.SaveStore.UploadChanged | c_client/client_save_sync.c:236-247 | with the emulator gone, a successful final upload ends covered by server, envelope or record, whatever the server does |
| SaveUploader.SaveStore.RemoveWorkingFile | c_client/client_save_sync.c:312-337 | a file removed after a call that began with the emulator gone is one the server holds |
| SaveUploader.SaveStore.ReplayEnvelope | c_client/client_save_outbox.c:643-663 | recovery ends pending exactly when the envelope is still there, and otherwise, with the emulator gone, the server holds the file |
| SaveUploader.SaveStore.ReplayRecord | c_client/client_save_outbox.c:497-556 | one upload of the file for the recorded revision; done, the server holds it and file and record are gone, and a record is never stale |
| SaveMonitor.Monitor.WatchPosix | c_client/client_save_sync.c:357-484 | meets the common specification of release, loss, receipts and deletion |
| SaveMonitor.Monitor.WatchWindows | c_client/client_save_sync.c:488-620 | meets the same specification exactly when no wait fails while the process runs |
| SaveMonitor.FailedWaitLoses | c_client/client_save_sync.c:497-614 | a failed first wait in the Windows loop can end with a file removed whose last bytes the server does not have, and nothing that leads back to them |
| SaveMonitor.Monitor.BeatIfDue | c_client/client_save_sync.c:379-419 | one heartbeat in fifteen seconds, lost at the third failure in a row or a terminal error |
| SaveMonitor.Monitor.UploadRound | c_client/client_save_sync.c:371-378 | no guarded save sends anything or changes on disk while the emulator runs |
| SaveMonitor.Monitor.PreserveAll | c_client/client_save_sync.c:259-279 | after a lost heartbeat nothing is sent, and success covers every save |
| SaveMonitor.Monitor.UploadAllFinally | c_client/client_save_sync.c:446-450 | with the emulator gone, success means every save is with the server or durably on disk, and only what the files hold was sent |
| SaveMonitor.Monitor.RemoveReflected | c_client/client_save_sync.c:312-337 | only saves the server holds lose their file |
| SaveMonitor.Monitor.Release | c_client/client_save_sync.c:451-474 | files go only after the server answered that the session was ended; an end whose answer is lost counts as one |
| SaveMonitor.Monitor.ValidateReceipt | c_client/client_save_sync.c:175-233 | a valid receipt names the size and hash of the working file |
| SaveMonitor.Monitor.UploadAllowed | c_client/client_save_sync.c:434-450 | what a mobile session sends carries bytes that its receipt names, or was left over before |
| SaveMonitor.Monitor.Finish | c_client/client_save_sync.c:421-481 | the end of both loops is cautious in any case and meets the specification with the emulator gone |
| MobileReceipt.ExecutionResultField | c_client/client_save_sync.c:88-116 | the value of the first line that gives the key one, unless it has an odd character |
| MobileReceipt.AllowsCommit | c_client/client_save_sync.c:175-233 | decides whether a receipt allows a file |
| MobileReceipt.AllowsOne | c_client/client_save_sync.c:217-229 | a receipt allows at most one size and hash |
| MobileReceipt.ReceiptAllowsItsFile | c_client/client_save_sync.c:175-233 | a written receipt allows exactly its file, after a clean exit and a flush |
| EnvelopeText.ExtractTsvField | c_client/client_save_outbox.c:234-261 | the value of the first field with the key, cut to the buffer |
| EnvelopeText.ScanFindsFirst | c_client/client_save_outbox.c:234-261 | walking from tab to tab finds the first field with the key |
| EnvelopeText.ValueOfPair | c_client/client_save_outbox.c:234-261 | fields are looked up as in a table, whatever follows them |
| EnvelopeText.FieldsSurviveErrorText | c_client/client_save_outbox.c:60-64 | the fields before the error text are read back whatever it holds |
| EnvelopeText.ErrorText | c_client/client_save_outbox.c:161-163 | a cleaned error text is read back |
| EnvelopeText.HeaderFits | c_client/client_save_outbox.c:27-34 | fields within their buffers never overflow the header |
| EnvelopeText.Write | c_client/client_save_outbox.c:55-71 | a file is made exactly when the header fits |
| EnvelopeText.Read | c_client/client_save_outbox.c:73-98 | reads a file back or refuses it |
| EnvelopeText.RoundTrip | c_client/client_save_outbox.c:55-98 | reading what was written gives every field and byte for non-empty payloads, and nothing otherwise |
| EnvelopeText.FailureText | c_client/client_save_outbox.c:161-163 | the error text of a failed upload fits its field and can be read back |
| EnvelopeText.RequestIdDistinguishes | c_client/client_save_outbox.c:145-146 | equal ids of one save have the same revision and hash prefix |
| Texts.NumberOfDecimal | c_client/client_save_outbox.c:89-90 | a printed number is read back |
| ManagedPath.ManagedRuntimeFilePath | c_client/client_save_outbox.c:214-231 | decides whether every component below runtime/ is plain |
| ManagedPath.ManagedIsResolved | c_client/client_save_outbox.c:214-231 | a path is managed exactly when resolving it changes nothing and stays below runtime/ |
| OutboxRecords.WrittenIsFound | c_client/client_save_outbox.c:264-414 | both readers find in a written record what was written, for its owner only |
| OutboxRecords.RecordField | c_client/client_save_outbox.c:303-320 | every field of a written record is read back whatever its error text |
| OutboxRecords.ReadersAgree | c_client/client_save_outbox.c:440-588 | replay and pending question differ about orphans only |
| OutboxRecords.OrphanExists | c_client/client_save_outbox.c:455-462 | a line without revision blocks its save for ever |
| OutboxReplay.AcceptSound | c_client/client_save_outbox.c:505-523 | an accepted record upload keeps marked files accepted and open records sound |
| OutboxReplay.FewerValid | c_client/client_save_outbox.c:417-437 | marking and then removing, in order, keeps the directory sound |
| OutboxReplay.StepProgress | c_client/client_save_outbox.c:440-556 | a SAV goes only once it is marked and the server took exactly its bytes |
| OutboxReplay.StepSettled | c_client/client_save_outbox.c:485-556 | what the server already has is finished without it taking anything again |
| OutboxReplay.StepDue | c_client/client_save_outbox.c:485-556 | finishing a record leaves at most the one other due |
| OutboxReplay.NothingReported | c_client/client_save_outbox.c:559-617 | with no record of the save left, only orphans are reported |
| OutboxReplay.Outbox.WriteUpload | c_client/client_save_outbox.c:264-335 | SAV first, then record, whole or not at all |
| OutboxReplay.Outbox.WritePointer | c_client/client_save_outbox.c:338-414 | no record is written beside an envelope |
| OutboxReplay.Outbox.CompleteEntry | c_client/client_save_outbox.c:417-437 | marker, SAV removal and record removal happen in this order, cut off anywhere |
| OutboxReplay.Outbox.Put | c_client/client_save_outbox.c:505-523 | success means the server has exactly this SAV |
| OutboxReplay.Outbox.ReplayRecord | c_client/client_save_outbox.c:440-556 | a record is finished, or pending and resumable; a marked one is not sent again |
| OutboxReplay.Outbox.ReplayDirectory | c_client/client_save_outbox.c:672-705 | nothing pending means no record of the save is left |
| OutboxReplay.Outbox.Replay | c_client/client_save_outbox.c:619-710 | the envelope is replayed first and no record is touched while it is there; nothing pending means nothing is reported but orphans, a second replay sends nothing, and a crashed one is resumed |
| OutboxReplay.Outbox.UploadOutboxPending | c_client/client_save_outbox.c:590-617 | true exactly when an envelope is there, or the directory can be read and has a reported record |
| RoomSession.RoomContext.Events | c_client/client_room_common.c:766-788 | any sequence of events and keys keeps children single and of their session, and every living child is owned exactly when no start gave one up |
| RoomSession.RoomContext.StopHost | c_client/client_room_n64.c:342-422 | the pid is forgotten only for a reaped process |
| RoomSession.RoomContext.Suspend | c_client/client_room_n64.c:477-507 | the connection goes, the session id stays, the host is stopped if possible |
| RoomSession.RoomContext.Reset | c_client/client_room_n64.c:509-551 | everything is forgotten, unless the host still lives |
| RoomSession.RoomContext.RequestMedia | c_client/client_room_n64.c:554-686 | a living host keeps its session id through failed starts, changed ids and handlers |
| RoomSession.RoomContext.TakeSession | c_client/client_room_n64.c:604-631 | a reconnect never ends with another id |
| RoomSession.RoomContext.Connect | c_client/client_room_n64.c:632-668 | a failed connection clears the id only without a reconnect |
| RoomSession.RoomContext.AskLifecycle | c_client/client_room_n64.c:562-568 | asking about the session starts and connects nothing |
| RoomSession.RoomContext.Reconnect | c_client/client_room_n64.c:853-876 | a lost transport leaves host and session, reconnecting |
| RoomSession.RoomContext.StartHost | c_client/client_room_n64.c:1828-2097 | a started host belongs to the current session; a failed preflight started none |
| RoomSession.RoomContext.RejectPreflight | c_client/client_room_n64.c:2100-2118 | nothing is left running or wanted; the id is kept or forgotten |
| RoomSession.RoomContext.MaybeStartHost | c_client/client_room_n64.c:2120-2160 | never a second host beside a living one, and only for a paired host role |
| RoomSession.RoomContext.PollHost | c_client/client_room_n64.c:1599-1660 | an ended host is reaped and its session finished or left |
| RoomSession.RoomContext.PollTransport | c_client/client_room_n64.c:878-1128 | one turn keeps host and session together |
| RoomSession.RoomContext.PollPairing | c_client/client_room_n64.c:909-940 | pairing ends a reconnect only with a connection |
| RoomSession.RoomContext.ActivateN64 | c_client/client_room_n64.c:1266-1289 | entering a room tells an earlier host to stop, forgets its session if it does, and stays on the screen unless the server answers that there is no room |
| RoomSession.RoomContext.ReadyKey | c_client/client_room_n64.c:1529-1553 | READY is a new attempt, also after a failed preflight; cancelled or refused, nothing of the session is left |
| RoomSession.RoomContext.TurnSlot | c_client/client_room_n64.c:1132-1185 | another ROM forgets the session, no candidate changes nothing |
| RoomSession.RoomContext.ConfirmEnd | c_client/client_room_n64.c:1436-1457 | a pending end is finished only without host and with the server's word |
| RoomSession.RoomContext.RoomKeyPressed | c_client/client_room_n64.c:1434-1561 | a key keeps host and session; while an end is pending only Escape counts, while the game runs none |
| RoomSession.RoomContext.FinishLocally | c_client/client_room_common.c:514-532 | the room is left only without its host |
| RoomSession.RoomContext.HandleHeartbeat | c_client/client_room_common.c:567-699 | a notice of another session changes only the failure counter; a room is left only without its process |
| RoomSession.RoomContext.HeartbeatFailed | c_client/client_room_common.c:539-565 | the third failure or an authoritative one stops the emulator, earlier ones nothing |
| RoomSession.RoomContext.Leave | c_client/client_room_common.c:425-497 | a room is left only without its process, and a host is told to stop |
| RoomSession.RoomContext.LeaveLink | c_client/client_room_common.c:444-497 | the link room is left with client and session gone |
| RoomSession.RoomContext.Refresh | c_client/client_room_common.c:351-397 | a room screen is closed exactly when the server answers that there is no room, a link room's only without its client, an N64 room's also while its host lives |
| RoomSession.RoomContext.HostOutlivesRoom | c_client/client_room_n64.c:1266-1289 | a host that cannot be stopped lives on, owned, after the screen of its room was closed |
| RoomSession.RoomContext.LoadRoom | c_client/client_room_common.c:81-153 | the server's session replaces the own one only when its client is gone |
| RoomSession.RoomContext.StopClient | c_client/client_room_link.c:1376-1444 | success means reaped, and the game over |
| RoomSession.RoomContext.MonitorClientExit | c_client/client_room_link.c:1728-1785 | an exited client is reaped and its game over, however it ended |
| RoomSession.RoomContext.SetSession | c_client/client_room_link.c:182-217 | another session is set only when the old client is reaped |
| RoomSession.RoomContext.ClearSession | c_client/client_room_link.c:220-244 | the session is cleared only when its client is reaped |
| RoomSession.RoomContext.StartClient | c_client/client_room_link.c:772-1028 | a started client belongs to the current session; a failed start gives a child up exactly when it was spawned and neither equipped nor reaped |
| RoomSession.RoomContext.UnownedChild | c_client/client_room_link.c:997-1012 | a child that is neither equipped nor reaped lives without an owner |
| RoomSession.RoomContext.StartRoomSession | c_client/client_room_link.c:1208-1288 | starting or reusing a session keeps an old client with its session |
| RoomSession.RoomContext.ActivateLinkRoom | c_client/client_room_link.c:1291-1344 | a room is entered only when an old client is reaped |
| CivilTime.DaysFromCivilIsDayNumber | c_client/client_runtime_support.c:166-177 | equals the proleptic Gregorian day count from 1970-01-01 for every year |
| CivilTime.NextDateIsNextDay | c_client/client_runtime_support.c:166-177 | the next calendar day has the next number |
| CivilTime.StrictlyMonotone | c_client/client_runtime_support.c:166-177 | later dates have larger numbers, and no two dates share one |
| CivilTime.EraIsFloor | c_client/client_runtime_support.c:169 | the rounding of the division gives the era of negative years too |
| CivilTime.YearStartClosed | c_client/client_runtime_support.c:173-176 | year lengths add up to 365 days and the leap days |
| IsoTime.ParseIso8601Unix | c_client/client_runtime_support.c:180-219 | for any field, the instant of the text in it, moved by the zone that stands nineteen characters into the field; that place lies within an accepted text exactly when it is long enough |
| IsoTime.FixedIsScanned | c_client/client_runtime_support.c:188-192 | a text of fixed width has the numbers one sees |
| IsoTime.FieldText | c_client/client_room_common.c:613 | in a field filled with zeros, nothing stands behind a text shorter than nineteen characters |
| IsoTime.ShortIsUtc | c_client/client_runtime_support.c:193-217 | of an accepted text that is too short any zone is ignored, which is right exactly when it is that of UTC |
| IsoTime.ZoneIsSeen | c_client/client_runtime_support.c:193-199 | the zone that is read is the text's own exactly when the six numbers take up nineteen characters, or there is none in a shorter text |
| IsoTime.SeenIsMeant | c_client/client_runtime_support.c:180-219 | an accepted text whose six numbers take up nineteen characters is read as it says |
| IsoTime.IgnoredZone | c_client/client_runtime_support.c:193-199 | a text can hold six good numbers and a zone, and be five hours off |
| IsoTime.TextNamesInstant | c_client/client_runtime_support.c:180-219 | a printed clock, fraction and zone name the clock's instant moved by the zone |
| IsoTime.BareAndZuluAreUtc | c_client/client_runtime_support.c:193-217 | without a zone, and with Z, a time is in UTC |
| IsoTime.SameInstantInAnyZone | c_client/client_runtime_support.c:193-218 | one instant shown in two zones gives equal results |
| ConfigText.LoadConfigFile | c_client/client_config.c:55-242 | one pass over the text, cut as fgets does, fills the wanted sections, later lines winning |
| ConfigText.SaveConfigFile | c_client/client_config.c:280-354 | writes the text of every section in order, the user name only when it is remembered |
| ConfigText.LoadAfterSave | c_client/client_config.c:55-354 | loading the text that was saved gives the normal form |
| ConfigText.OneName | c_client/client_config.c:85-218 | no line begins with two keys |
| ConfigText.ParseFixed | c_client/client_config.c:85-218 | a line is found by its key, whatever the order of the tests and whatever else is wanted |
| ConfigText.PartsDoNotMix | c_client/client_config.c:83-236 | a section is read the same whichever other sections are wanted |
| ConfigText.ParsePrinted | c_client/client_config.c:83-354 | a printed line is read as the key it was printed for, with its value |
| ConfigText.ParseSlotBody | c_client/client_config.c:218-236 | so is the line of a ROM slot, whose number and field are scanned |
| ConfigText.ParsedSaved | c_client/client_config.c:83-354 | a saved file is read as the lines it was printed from |
| ConfigText.LoadedIsWellFormed | c_client/client_config.c:83-236 | what was loaded can be saved exactly when no text ends in a carriage return |
| ConfigText.ReadSgb | c_client/client_config.c:257-278 | the first chunk of at most 127 characters that says so decides |
| ConfigText.SectionsAreIndependent | c_client/client_config.c:364-463 | saving one section into a file leaves the others as they were |
| ConfigText.SavedLoginIsNormal | c_client/client_config.c:364-372 | a login the program saved is in normal form |
| ConfigText.SavingTwice | c_client/client_config.c:364-463 | saving a section twice gives the file of saving it once |
| ConfigText.SavedSgb | c_client/client_config.c:257-278 | in a saved file the sgb line is read whole and decides |
| ConfigFile.LastPrinted | c_client/client_config.c:280-354 | the last line with a key decides, if it sets it |
| RomEditor.Editor.Edits | c_client/client_rom_editor.c:279-458 | no sequence of keys and texts changes what counts, and nothing else is saved |
| RomEditor.Editor.HandleKey | c_client/client_rom_editor.c:279-449 | a key keeps what counts |
| RomEditor.Editor.ListKey | c_client/client_rom_editor.c:373-449 | what each key does in the list, Return asking for a registration only when one is due |
| RomEditor.Editor.BrowserKey | c_client/client_rom_editor.c:344-371 | the browser goes round, and Return takes the file it stands on |
| RomEditor.Editor.EditKey | c_client/client_rom_editor.c:316-343 | what each key does to the edited text |
| RomEditor.Editor.PreserveRegistration | c_client/client_rom_editor.c:19-25 | the first edit remembers what was confirmed |
| RomEditor.Editor.Discard | c_client/client_rom_editor.c:27-35 | the slots are again exactly what counts |
| RomEditor.Editor.ApplyPath | c_client/client_rom_editor.c:104-132 | a chosen path changes the slot, not what counts |
| RomEditor.Editor.CycleRom | c_client/client_rom_editor.c:144-175 | stepping through the folder keeps what counts |
| RomEditor.Editor.BeginEdit | c_client/client_rom_editor.c:214-234 | an edit begins on a slot that is pending |
| RomEditor.Editor.FinishEdit | c_client/client_rom_editor.c:236-277 | a finished edit keeps what counts, and only that is saved |
| RomEditor.Editor.CancelEdit | c_client/client_rom_editor.c:319-331 | a cancelled edit puts the old text back |
| RomEditor.Editor.TextInput | c_client/client_rom_editor.c:451-458 | typed text keeps what counts |
| RomEditor.Editor.Commit | c_client/client_rom_registration.c:235-242 | a registration changes the registered slot only, and rolls all other edits back |
| RomEditor.Editor.Refresh | c_client/client_rom_registration.c:56-85 | the server's slots replace what counted, and are what is saved |
| RomEditor.Editor.ApplyRegistration | c_client/client_rom_registration.c:104-252 | nothing counts before the server has registered it, and it is asked only with the ROM read and its first save at hand |
| RomEditor.Editor.PrepareSave | c_client/client_rom_registration.c:152-199 | the first save is at hand exactly when a chosen import is new, agreed to, readable and not empty, or without one when a needed save was made |
| RomEditor.Editor.SlotToRegister | c_client/client_rom_registration.c:108-121 | the selected slot, or the first that waits |
| RomEditor.Editor.LeaveScreen | c_client/client_rom_registration.c:94-102 | edits and unregistered slots are dropped |
| RomEditor.Editor.DropLocalOnly | c_client/client_rom_catalog.c:48-63 | exactly the unregistered slots are emptied |
| RomEditor.Editor.Merge | c_client/client_rom_catalog.c:65-83 | every slot is as the server has it |
| RomEditor.MergedTwice | c_client/client_rom_catalog.c:65-83 | merging again changes nothing |
| KeySpec.KeySpecToNames | c_client/client_key_config.c:65-84 | the non-empty tokens, without leading spaces, in order |
| KeySpec.KeyNamesToSpec | c_client/client_key_config.c:198-222 | the names joined by commas, as far as they fit |
| KeySpec.ParsePrint | c_client/client_key_config.c:65-222 | printed names are read back, UNKNOWN for empty ones |
| KeySpec.FoundIffFit | c_client/client_key_config.c:209-222 | names are read back exactly when they fit the spec and none has a comma or a leading space |
| KeySpec.EightFit | c_client/client_key_config.c:198-207 | eight names always fit |
| KeySpec.StepKeeps | c_client/client_key_config.c:592-608 | a capture step sets one name and keeps the others, exactly when a spec can hold the name |
| KeySpec.CommaStep | c_client/client_key_config.c:592-608 | a captured comma disappears, the names behind it move up, and the last is lost |
| KeySpec.CapturedSoFar | c_client/client_key_config.c:592-608 | captured names that a spec can hold stay at their places |
| KeySpec.IncrementalEqualsOneShot | c_client/client_key_config.c:249-253 | eight captures end in the spec of the eight names, from any start, and are read back exactly when a spec can hold each |
| KeySpec.KeyEditor.ApplyToSlot | c_client/client_key_config.c:592-608 | one captured name is one capture step |
| KeySpec.KeyEditor.ApplyToPad | c_client/client_key_config.c:569-590 | the controller's spec is written with the last name |
| KeySpec.KeyEditor.ApplyToAlias | c_client/client_key_config.c:484-516 | an alias is taken exactly when its key is known, free and unused |
| KeySpec.KeyEditor.CaptureSlot | c_client/client_key_config.c:592-608 | a whole capture of either slot ends in the captured names, saved once, and exactly when they are read back |
| KeySpec.KeyEditor.CapturePad | c_client/client_key_config.c:426-590 | a whole controller capture, and exactly when it is read back |
| KeySpec.KeyEditor.CaptureAliases | c_client/client_key_config.c:484-516 | after a capture all aliases are known, free and pairwise different, from any start; different ones stay so when it is abandoned |
| RomSelection.ListedExactly | c_client/client_rom_catalog.c:178-184 | the candidates are exactly the slots that qualify |
| RomSelection.RoundVisitsEachOnce | c_client/client_rom_catalog.c:190-206 | a round of steps visits every candidate once and returns |
| RomSelection.BackUndoesForward | c_client/client_rom_catalog.c:190-206 | a step back undoes a step forward |
| RomSelection.TransferChoices | c_client/client_rom_catalog.c:268-300 | the transfer choices are cycled through like the others |
| RomSelection.CycleLocal | c_client/client_rom_catalog.c:171-222 | the next free slot, keeping the two selections different |
| RomSelection.CycleTransfer | c_client/client_rom_catalog.c:262-312 | the next free slot or none, keeping the four selections different |
| RomSelection.CycleSingle | c_client/client_rom_catalog.c:224-260 | the next qualifying slot |
| RomSelection.Presses | c_client/client_rom_catalog.c:171-312 | any sequence of steps in either menu keeps the selections different |
| RomSelection.CycleRound | c_client/client_rom_catalog.c:171-222 | as many steps as there are candidates select each exactly once, and return |
| RomSelection.ValidateLocal | c_client/client_rom_catalog.c:85-103 | drops what does not qualify, and only that, for both slots and the room |
| WindowFit.PairWindowSize | c_client/client_launch_gb_local.c:22-45 | the wanted size when it fits, else the largest of its shape, raised to the minimum and inside the area when the minimum is |
| WindowFit.Shrink | c_client/client_launch_gb_local.c:33-42 | one side at its limit, the other the largest whole number for the shape |
| WindowFit.ProductsAreExact | c_client/client_launch_gb_local.c:33-42 | no product leaves 64 bits, for all 32-bit sizes |
| ShellQuote.ShellQuotePath | c_client/client_file_io.c:117-144 | all stores stay inside the buffer exactly when the path is not of one family, and then it is quoted exactly when it fits |
| ShellQuote.PlainOverruns | c_client/client_file_io.c:131-140 | every path without quotes two characters shorter than the buffer is in that family |
| ShellQuote.QuotedReadsAsPath | c_client/client_file_io.c:117-144 | a POSIX shell reads the quoted path as one word, the path |
| ShellQuote.QuotedIsInjective | c_client/client_file_io.c:117-144 | no two paths are quoted alike |

## Left out

- SaveUploader.SaveStore.ProcessInflight: two client processes racing on one envelope, and other clients uploading to the same save, because one process per save is assumed.
- SaveMonitor.Monitor.WatchPosix: the loop is bounded by a number of seconds, because an endless loop has no end to state anything about; the number is arbitrary.
- SaveMonitor.Monitor.Release: the rtc file beside a save, the mobile runtime's directory and the cancelling of a rejected mobile session are not modelled.
- OutboxReplay.Outbox.Replay: the manifest outbox.tsv, which nothing writes any more, and the log of replayed uploads; a record is one line of less than 4096 characters, as the writers make it; a crash inside the envelope's own replay is one of SaveProtocol, not of Outbox.
- OutboxReplay.StepProgress: here a directory of records has a server of its own, and a removed SAV was accepted, perhaps not as the last; that the file of a recovery record is the server's content when it goes is SaveGuarantees.RecordUntilAccepted, where marker, file and record go in one step.
- OutboxRecords.WrittenIsFound: texts without tabs, which is what server, account, save id and paths are.
- EnvelopeText.RoundTrip: records with a tab or a zero in a field, or a line break in the error text, are not covered.
- IsoTime.ParseIso8601Unix: numbers of more than 32 bits, which the C language leaves undefined, and fields that end before their zone or without a zero.
- ConfigText.LoadAfterSave: numbers of more than 32 bits and characters of value zero in a file.
- RoomSession.RoomContext.Events: status texts, chat, selections, tickets, file descriptors and statistics of a room; the reconnect deadline is only a flag, as in the code.
- RomEditor.Editor.HandleKey: status texts, the export of saves, and refreshing the slots while a path is being edited, which only other screens do.
- KeySpec.KeyEditor.ApplyCaptured: the five utility keys, whose check against the other specs is the same kind of search as for aliases.
- RomSelection.CycleLocal: saving the selection to the configuration file.
- WindowFit.PairWindowSize: the shape after a side was raised to the minimum, which the code does not promise.
- HTTP, TLS, JSON, the real server, the emulators and the media stream: foreign to these cores.
- Process creation, pipes, permissions and symbolic links: only success and failure are kept.
- Hash functions and ROM headers: functions or arbitrary answers here.

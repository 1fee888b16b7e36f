/** The upload routine itself, over a disk, a network and a server that behave as in SaveProtocol.

    The real code works on the plain fields; the ghost fields keep the protocol state it has reached
    and the script of protocol actions that led there, so Valid() says that everything done so far is
    a run of the protocol.  Every guarantee of SaveGuarantees therefore holds of this code. */
module SaveUploader {
  import opened Options
  import opened SaveProtocol
  import SaveGuarantees
  import EnvelopeText

  /** What the upload call returns: 0, a definite HTTP refusal (> 0), or no usable answer (< 0). */
  datatype PutResult = Accepted(revision: nat) | Refused(text: string) | Unknown(text: string)

  /** The envelope reader rejects a record that is no longer than its header. */
  predicate Readable(e: Envelope) { |e.request.bytes| > 0 }

  /** The request that an envelope on disk still waits with. */
  function LeftOver(disk: Option<Envelope>): Option<Request> {
    if disk.Some? && !Committed(disk.value) then Some(disk.value.request) else None
  }

  predicate Extends(r: Run, r': Run) {
    r.states <= r'.states && r.actions <= r'.actions
  }

  class SaveStore {
    /** Reading, writing and removing files never fails. */
    const diskWorks: bool
    /** The server gets every request and its answer comes back. */
    const answers: bool
    /** Nothing happens between two steps of a call: nobody writes the file, and no late request arrives. */
    const calm: bool
    /** What the emulator, if it is still running, writes before the working file is removed. */
    const late: Option<Bytes>
    // disk and emulator
    var disk: Option<Envelope>
    var writes: seq<Bytes>
    var present: bool
    var running: bool
    /** The expected revision of a recovery record, which points at the working file. */
    var record: Option<nat>
    // network and server
    var sent: seq<Request>
    var server: Server
    // client memory
    var slot: Slot
    // the protocol run this object has gone through
    ghost var run: Run
    ghost var staged: map<Request, nat>
    ghost var replayed: set<Request>
    ghost var pc: Pc

    ghost function State(): Sys
      reads this
    {
      Sys(writes, present, running, disk, record, sent, server, staged, replayed, slot, pc)
    }

    ghost predicate Valid()
      reads this
    {
      IsRun(run) && State() == Last(run)
    }

    /** The save is with the server and nothing is pending. */
    ghost predicate InSync()
      reads this
    {
      disk.None? && writes != [] && server.content == writes[|writes| - 1]
    }

    /** The client knows that the server has the file as it is, and a call will find it so. */
    ghost predicate Known()
      reads this
    {
      calm && diskWorks && disk.None? && writes != [] && slot.last == Some(writes[|writes| - 1])
    }

    /** The file is gone, the server does not have what it held last, and nothing leads back to it. */
    ghost predicate Lost(bytes: Bytes)
      reads this
    {
      !present && writes != [] && writes[|writes| - 1] == bytes && server.content != bytes && disk.None? && record.None?
    }

    /** Everything but the client's memory. */
    ghost function World(): (seq<Bytes>, bool, bool, Option<Envelope>, Option<nat>, seq<Request>, Server)
      reads this
    {
      (writes, present, running, disk, record, sent, server)
    }

    /** Every request since then carries what the working file holds, or is the one left over. */
    ghost predicate OnlyLatest(before: seq<Request>, left: Option<Request>)
      reads this
    {
      && before <= sent
      && forall i | |before| <= i < |sent| :: (writes != [] && sent[i].bytes == writes[|writes| - 1]) || Some(sent[i]) == left
    }

    /** With no writer left, what a call sends is the file or the request left over. */
    twostate lemma SentIsLatest()
      requires old(Valid()) && Valid() && Extends(old(run), run) && writes == old(writes)
      requires old(pc).Down? || Resting(old(pc))
      ensures OnlyLatest(old(sent), LeftOver(old(disk)))
    {
      SaveGuarantees.HistoryGrows(run, |old(run).actions|, |run.actions|);
      SaveGuarantees.NewRequestsCarryTheFile(run, |old(run).actions|, |run.actions|);
      assert run.states[|old(run).actions|] == Last(old(run));
    }

    constructor (initial: Bytes, revision: nat, diskWorks: bool, answers: bool, calm: bool, late: Option<Bytes>)
      ensures Valid() && pc.Down? && disk.None? && !running && !present && record.None?
      ensures server.content == initial && server.revision == revision
      ensures this.diskWorks == diskWorks && this.answers == answers && this.calm == calm && this.late == late
    {
      this.diskWorks, this.answers, this.calm, this.late := diskWorks, answers, calm, late;
      disk, writes, present, running, record := None, [initial], false, false, None;
      sent := [];
      server := Server(revision, initial, revision, initial, map[], []);
      slot := Slot(0, None, false);
      staged, replayed, pc := map[], {}, Down;
      run := Run([Sys([initial], false, false, None, None, [], Server(revision, initial, revision, initial, map[], []),
                      map[], {}, Slot(0, None, false), Down)], []);
    }

    /** What the protocol invariant says about the client's own position. */
    lemma Facts()
      requires Valid()
      ensures PcOk(State()) && writes != [] && (disk.Some? ==> present)
    {
      RunInv(run, |run.actions|);
    }

    /** At the end of a call that goes well. */
    lemma EndingFacts()
      requires Valid() && (pc.Clearing? || pc.Dropping?)
      ensures writes != [] && (pc.Dropping? ==> disk.Some?) && (pc.Clearing? ==> pc.onDisk == disk.Some?)
      ensures pc.call.quiet ==> server.content == writes[|writes| - 1]
      ensures pc.call.recovery ==> disk.Some?
    {
      Facts();
    }

    /** While a request is awaited, the server either has it or will take it. */
    lemma WillAccept()
      requires Valid() && pc.Awaiting?
      ensures pc.request in Accept(server, pc.request).memo
    {
      RunInv(run, |run.actions|);
    }

    lemma MemoIsAbove(q: Request)
      requires Valid() && q in server.memo
      ensures server.memo[q] > q.expected
    {
      RunInv(run, |run.actions|);
      assert Logged(server, q);
      assert Numbered(server, q.expected - server.base);
    }

    /** Account for an effect already made on the plain fields as one protocol action. */
    ghost method Commit(before: Sys, a: Action)
      requires IsRun(run) && Last(run) == before && Enabled(before, a)
      requires State().(pc := Next(before, a).pc, staged := Next(before, a).staged) == Next(before, a)
      modifies `pc, `staged, `run
      ensures Valid() && State() == Next(before, a) && Extends(old(run), run)
    {
      pc, staged, run := Next(before, a).pc, Next(before, a).staged, Continue(run, a);
    }

    // -------------------------------------------------------------- environment

    /** With no request outstanding, a late one changes nothing. */
    lemma NothingOut(i: nat)
      requires Valid() && disk.None? && !pc.Down? && i < |sent|
      ensures Accept(server, sent[i]) == server
    {
      RunInv(run, |run.actions|);
      assert sent[i] in server.memo || Unresolved(State(), sent[i]) || Replaying(State(), sent[i]);
    }

    method WriteLate(bytes: Bytes)
      requires Valid() && running && present
      modifies `writes, `run, `pc, `staged
      ensures Valid() && Extends(old(run), run) && pc == old(pc) && staged == old(staged) && writes == old(writes) + [bytes]
    {
      ghost var before := State();
      writes := writes + [bytes];
      Commit(before, EmulatorWrites(bytes));
    }

    method DeliverLate(i: nat)
      requires Valid() && i < |sent|
      modifies `server, `run, `pc, `staged
      ensures Valid() && Extends(old(run), run) && pc == old(pc) && staged == old(staged)
      ensures forall q | q in old(server).memo :: q in server.memo
      ensures disk.None? && !pc.Down? ==> server == old(server)
    {
      ghost var before := State();
      if disk.None? && !pc.Down? { NothingOut(i); }
      server := Accept(server, sent[i]);
      Commit(before, Deliver(i));
    }

    /** Anything the emulator and the network may do between two steps of the client. */
    method Interleave()
      requires Valid()
      modifies `writes, `running, `server, `run, `pc, `staged
      ensures Valid() && Extends(old(run), run) && pc == old(pc) && staged == old(staged)
      ensures !old(running) ==> !running && writes == old(writes)
      ensures old(writes) <= writes
      ensures forall q | q in old(server).memo :: q in server.memo
      ensures disk.None? && !pc.Down? ==> server == old(server)
      ensures calm ==> World() == old(World())
    {
      if calm { return; }
      var steps: nat := *;
      while steps > 0
        invariant Valid() && Extends(old(run), run) && pc == old(pc) && staged == old(staged)
        invariant !old(running) ==> !running && writes == old(writes)
        invariant old(writes) <= writes
        invariant forall q | q in old(server).memo :: q in server.memo
        invariant disk.None? && !pc.Down? ==> server == old(server)
      {
        var choice: int := *;
        if choice == 0 && running && present {
          var bytes: Bytes := *;
          WriteLate(bytes);
        } else if choice == 1 {
          ObserveExit();
        } else if 0 <= choice < |sent| {
          DeliverLate(choice);
        }
        steps := steps - 1;
      }
    }

    /** The process is seen to be gone: from here on nothing writes the working file. */
    method ObserveExit()
      requires Valid()
      modifies `running, `run, `pc, `staged
      ensures Valid() && Extends(old(run), run) && pc == old(pc) && staged == old(staged) && !running
    {
      if running {
        ghost var before := State();
        running := false;
        Commit(before, EmulatorExits);
      }
    }

    // -------------------------------------------------------------- disk and network

    /** Read the whole working file, or fail. */
    method ReadWorkingFile() returns (content: Option<Bytes>)
      ensures content.Some? ==> present && writes != [] && content.value == writes[|writes| - 1]
      ensures diskWorks && present && writes != [] ==> content.Some?
    {
      var works: bool := *;
      content := if present && writes != [] && (diskWorks || works) then Some(writes[|writes| - 1]) else None;
    }

    /** Atomic replacement of the envelope file: all or nothing. */
    method WriteEnvelope(e: Envelope) returns (ok: bool)
      modifies `disk
      ensures disk == if ok then Some(e) else old(disk)
      ensures diskWorks ==> ok
    {
      var works: bool := *;
      ok := diskWorks || works;
      if ok { disk := Some(e); }
    }

    method RemoveEnvelope() returns (ok: bool)
      modifies `disk
      ensures disk == if ok then None else old(disk)
      ensures diskWorks ==> ok
    {
      var works: bool := *;
      ok := diskWorks || works;
      if ok { disk := None; }
    }

    /** One PUT: the request leaves, the world goes on, and an answer may or may not come back. */
    method Put(request: Request) returns (result: PutResult)
      requires Valid() && pc.Sending? && pc.request == request
      modifies `sent, `writes, `running, `server, `run, `pc, `staged
      ensures Valid() && Extends(old(run), run) && pc == Awaiting(old(pc).call, request)
      ensures sent == old(sent) + [request]
      ensures !old(running) ==> !running && writes == old(writes)
      ensures result.Accepted? ==> request in server.memo && server.memo[request] == result.revision
      ensures answers ==> result.Accepted?
    {
      ghost var before := State();
      sent := sent + [request];
      Commit(before, Send);
      Travel(|sent| - 1);
      var answered: bool := *;
      if (answers || answered) && request in server.memo {
        return Accepted(server.memo[request]);
      }
      var text: string := *;
      var refused: bool := *;
      result := if refused then Refused(text) else Unknown(text);
    }

    /** The request is on its way, and the world goes on. */
    method Travel(i: nat)
      requires Valid() && i < |sent| && pc.Awaiting? && sent[i] == pc.request
      modifies `writes, `running, `server, `run, `pc, `staged
      ensures Valid() && Extends(old(run), run) && pc == old(pc)
      ensures !old(running) ==> !running && writes == old(writes)
      ensures answers ==> pc.request in server.memo
    {
      Interleave();
      var arrives: bool := *;
      if answers || arrives {
        Arrive(i);
      }
      Interleave();
    }

    /** The request just sent reaches the server. */
    method Arrive(i: nat)
      requires Valid() && i < |sent| && pc.Awaiting? && sent[i] == pc.request
      modifies `server, `run, `pc, `staged
      ensures Valid() && Extends(old(run), run) && pc == old(pc) && staged == old(staged)
      ensures pc.request in server.memo
    {
      ghost var before := State();
      WillAccept();
      server := Accept(server, sent[i]);
      Commit(before, Deliver(i));
    }

    // -------------------------------------------------------------- ends of a call

    /** Give up: whatever is on disk stays there, and then so does the working file. */
    method Abandon(onDisk: bool)
      requires Valid() && (pc.Top? || pc.Staging? || pc.Marking? || pc.Dropping? || (pc.Clearing? && pc.onDisk))
      requires onDisk == disk.Some?
      modifies `slot, `run, `pc, `staged
      ensures Valid() && Extends(old(run), run) && pc == Done(old(pc).call, false) && staged == old(staged)
      ensures slot == old(slot).(preserve := old(slot).preserve || onDisk)
    {
      ghost var before := State();
      if onDisk { slot := slot.(preserve := true); }
      Commit(before, Fail);
    }

    method AbandonStaging()
      requires Valid() && pc.Staging?
      modifies `slot, `run, `pc, `staged
      ensures Valid() && Extends(old(run), run) && pc == Done(old(pc).call, false)
    {
      Abandon(disk.Some?);
    }

    method TakeFailure(text: string)
      requires Valid() && pc.Awaiting?
      modifies `run, `pc, `staged
      ensures Valid() && Extends(old(run), run) && pc == Noting(old(pc).call, old(pc).request, text) && staged == old(staged)
    {
      ghost var before := State();
      Commit(before, ReplyFailed(text));
    }

    /** No usable answer: keep the request; only the fenced owner rewrites the error text on disk. */
    method NoteFailure(fenced: bool, entry: Envelope, result: PutResult)
      requires Valid() && pc.Awaiting? && pc.call.fenced == fenced && !result.Accepted?
      requires entry.request == pc.request && !Committed(entry)
      modifies `disk, `slot, `run, `pc, `staged
      ensures Valid() && Extends(old(run), run) && pc == Done(old(pc).call, old(pc).call.final) && staged == old(staged)
      ensures slot == old(slot).(preserve := true)
      ensures disk.Some? && disk.value.request == entry.request && !Committed(disk.value)
    {
      Facts();
      var text := EnvelopeText.FailureText(result.Refused?, result.text);
      TakeFailure(text);
      WriteNote(fenced, entry, text);
    }

    method WriteNote(fenced: bool, entry: Envelope, text: string)
      requires Valid() && pc.Noting? && pc.call.fenced == fenced && pc.text == text
      requires disk.Some? && disk.value.request == entry.request == pc.request && !Committed(disk.value) && !Committed(entry)
      modifies `disk, `slot, `run, `pc, `staged
      ensures Valid() && Extends(old(run), run) && pc == Done(old(pc).call, old(pc).call.final) && staged == old(staged)
      ensures slot == old(slot).(preserve := true)
      ensures disk.Some? && disk.value.request == entry.request && !Committed(disk.value)
    {
      ghost var before := State();
      var written := false;
      if fenced {
        written := WriteEnvelope(entry.(error := text));
      }
      slot := slot.(preserve := true);
      Commit(before, if written then NoteError else SkipNote);
    }

    /** The file matched the known content: remove a committed envelope, if there is one. */
    method ClearEnvelope(onDisk: bool) returns (ok: bool)
      requires Valid() && pc.Clearing? && pc.onDisk == onDisk
      modifies `disk, `writes, `running, `server, `slot, `run, `pc, `staged
      ensures Valid() && Extends(old(run), run) && pc == Done(old(pc).call, ok)
      ensures !old(running) ==> !running && writes == old(writes)
      ensures ok ==> disk.None? && !slot.preserve
      ensures old(pc).call.quiet && ok ==> InSync()
      ensures diskWorks ==> ok
      ensures old(pc).call.recovery && !ok ==> disk.Some?
      ensures !onDisk ==> World() == old(World())
    {
      if onDisk {
        ok := ClearCommitted();
        return;
      }
      ghost var before := State();
      EndingFacts();
      slot := slot.(preserve := false);
      Commit(before, Clear);
      ok := true;
    }

    /** ... when there is one. */
    method ClearCommitted() returns (ok: bool)
      requires Valid() && pc.Clearing? && pc.onDisk
      modifies `disk, `writes, `running, `server, `slot, `run, `pc, `staged
      ensures Valid() && Extends(old(run), run) && pc == Done(old(pc).call, ok)
      ensures !old(running) ==> !running && writes == old(writes)
      ensures ok ==> disk.None? && !slot.preserve
      ensures old(pc).call.quiet && ok ==> InSync()
      ensures diskWorks ==> ok
      ensures !ok ==> disk.Some?
    {
      Interleave();
      EndingFacts();
      ok := RemoveCommitted(Clear);
    }

    /** The file matched the accepted bytes: remove the committed envelope. */
    method DropEnvelope() returns (ok: bool)
      requires Valid() && pc.Dropping?
      modifies `disk, `writes, `running, `server, `slot, `run, `pc, `staged
      ensures Valid() && Extends(old(run), run) && pc == Done(old(pc).call, ok)
      ensures !old(running) ==> !running && writes == old(writes)
      ensures ok ==> disk.None? && !slot.preserve
      ensures old(pc).call.quiet && ok ==> InSync()
      ensures diskWorks ==> ok
      ensures !ok ==> disk.Some?
    {
      Interleave();
      EndingFacts();
      ok := RemoveCommitted(Drop);
    }

    method RemoveCommitted(ghost a: Action) returns (ok: bool)
      requires Valid() && disk.Some? && if a.Clear? then pc.Clearing? && pc.onDisk else a.Drop? && pc.Dropping?
      modifies `disk, `slot, `run, `pc, `staged
      ensures Valid() && Extends(old(run), run) && pc == Done(old(pc).call, ok)
      ensures ok ==> disk.None? && !slot.preserve
      ensures diskWorks ==> ok
      ensures !ok ==> disk.Some?
    {
      ghost var before := State();
      ok := RemoveEnvelope();
      if !ok {
        Abandon(true);
        return;
      }
      slot := slot.(preserve := false);
      Commit(before, a);
    }

    // -------------------------------------------------------------- steps of a call

    method BeginCall(fenced: bool, final: bool, recovery: bool)
      requires Valid() && (if recovery then pc.Down? && disk.Some? else Resting(pc) && present && record.None?)
      modifies `slot, `run, `pc, `staged
      ensures Valid() && Extends(old(run), run)
      ensures pc == Top(Call(fenced, final, recovery, !running, 0), disk)
      ensures !recovery ==> slot == old(slot)
    {
      ghost var before := State();
      if recovery { slot := Slot(0, None, false); }
      Commit(before, Begin(fenced, final, recovery));
    }

    /** Compare what was read with what the server is known to hold. */
    method Compare(ghost call: Call, onDisk: bool, entry: Envelope, latest: Bytes) returns (same: bool, revision: nat)
      requires Valid() && pc == Top(call, if onDisk then Some(entry) else None) && (onDisk ==> Committed(entry))
      requires present && writes != [] && latest == writes[|writes| - 1]
      modifies `slot, `run, `pc, `staged
      ensures Valid() && Extends(old(run), run)
      ensures if same then pc == Clearing(call, onDisk)
              else pc.Staging? && pc.call == call && pc.request == Request(revision, latest)
      ensures !onDisk && old(slot).last == Some(latest) ==> same
    {
      revision := if onDisk then entry.committed else slot.revision;
      var known := if onDisk then Some(entry.request.bytes) else slot.last;
      same := Some(latest) == known;
      ghost var before := State();
      slot := slot.(revision := revision);
      if same { slot := slot.(last := known); }
      Commit(before, ReadLatest);
    }

    /** Read the working file, and compare. */
    method ReadAndCompare(ghost call: Call, onDisk: bool, entry: Envelope)
      returns (latest: Option<Bytes>, same: bool, revision: nat)
      requires Valid() && pc == Top(call, if onDisk then Some(entry) else None) && (onDisk ==> Committed(entry))
      modifies `writes, `running, `server, `slot, `run, `pc, `staged
      ensures Valid() && Extends(old(run), run)
      ensures !old(running) ==> !running && writes == old(writes)
      ensures diskWorks ==> latest.Some?
      ensures latest.None? ==> pc == old(pc)
      ensures latest.Some? && same ==> pc == Clearing(call, onDisk)
      ensures latest.Some? && !same ==>
                pc.Staging? && pc.call == call && pc.request == Request(revision, latest.value)
      ensures latest.Some? && !old(running) ==> writes != [] && latest.value == writes[|writes| - 1]
      ensures old(Known()) && !onDisk ==> latest.Some? && same && World() == old(World())
    {
      Interleave();
      Facts();
      latest := ReadWorkingFile();
      if latest.None? {
        return latest, false, 0;
      }
      same, revision := Compare(call, onDisk, entry, latest.value);
    }

    /** Write the new request to disk before anything is sent. */
    method StageRequest(request: Request) returns (ok: bool)
      requires Valid() && pc.Staging? && pc.request == request
      modifies `disk, `writes, `running, `server, `run, `pc, `staged
      ensures Valid() && Extends(old(run), run)
      ensures !old(running) ==> !running && writes == old(writes)
      ensures diskWorks ==> ok
      ensures if ok then pc == Sending(old(pc).call, request) && disk == Some(Envelope(request, 0, RESPONSE_PENDING))
              else pc == old(pc) && disk == old(disk)
    {
      Interleave();
      ghost var before := State();
      ok := WriteEnvelope(Envelope(request, 0, RESPONSE_PENDING));
      if ok { Commit(before, Stage); }
    }

    /** Record on disk that the server accepted the request, then remember it. */
    method MarkCommitted(request: Request, revision: nat) returns (ok: bool)
      requires Valid() && pc.Awaiting? && pc.request == request
      requires request in server.memo && server.memo[request] == revision > request.expected
      modifies `disk, `writes, `running, `server, `slot, `run, `pc, `staged
      ensures Valid() && Extends(old(run), run)
      ensures !old(running) ==> !running && writes == old(writes)
      ensures diskWorks ==> ok
      ensures if ok then pc == Comparing(old(pc).call, Envelope(request, revision, "")) && disk == Some(Envelope(request, revision, ""))
              else pc == Marking(old(pc).call, request, revision) && disk == old(disk)
    {
      TakeAnswer(request, revision);
      Interleave();
      ok := WriteMark(request, revision);
    }

    method TakeAnswer(request: Request, revision: nat)
      requires Valid() && pc.Awaiting? && pc.request == request
      requires request in server.memo && server.memo[request] == revision > request.expected
      modifies `run, `pc, `staged
      ensures Valid() && Extends(old(run), run) && pc == Marking(old(pc).call, request, revision)
    {
      ghost var before := State();
      Commit(before, ReplyAccepted);
    }

    method WriteMark(request: Request, revision: nat) returns (ok: bool)
      requires Valid() && pc.Marking? && pc.request == request && pc.revision == revision
      modifies `disk, `slot, `run, `pc, `staged
      ensures Valid() && Extends(old(run), run)
      ensures diskWorks ==> ok
      ensures if ok then pc == Comparing(old(pc).call, Envelope(request, revision, "")) && disk == Some(Envelope(request, revision, ""))
              else pc == old(pc) && disk == old(disk)
    {
      ghost var before := State();
      ok := WriteEnvelope(Envelope(request, revision, ""));
      if ok {
        slot := slot.(revision := revision, last := Some(request.bytes));
        Commit(before, Mark);
      }
    }

    /** Compare the working file with the accepted bytes once more. */
    method CompareAgain(ghost call: Call, entry: Envelope, lastAttempt: bool) returns (same: bool)
      requires Valid() && pc == Comparing(call, entry) && lastAttempt == (call.attempt + 1 == 2) && call.attempt < 2
      modifies `writes, `running, `server, `slot, `run, `pc, `staged
      ensures Valid() && Extends(old(run), run)
      ensures !old(running) ==> !running && writes == old(writes)
      ensures same ==> pc == Dropping(call)
      ensures !same && !lastAttempt ==> pc == Top(call.(attempt := call.attempt + 1), Some(entry))
      ensures !same && lastAttempt ==> pc == Done(call, true) && slot.preserve
      ensures diskWorks && !old(running) && writes != [] && entry.request.bytes == writes[|writes| - 1] ==> same
    {
      Interleave();
      Facts();
      var now := ReadWorkingFile();
      same := now == Some(entry.request.bytes);
      TakeComparison(call, entry, same, lastAttempt);
    }

    method TakeComparison(ghost call: Call, ghost entry: Envelope, same: bool, lastAttempt: bool)
      requires Valid() && pc == Comparing(call, entry) && lastAttempt == (call.attempt + 1 == 2) && call.attempt < 2
      requires same ==> present && writes != [] && entry.request.bytes == writes[|writes| - 1]
      modifies `slot, `run, `pc, `staged
      ensures Valid() && Extends(old(run), run)
      ensures same ==> pc == Dropping(call)
      ensures !same && !lastAttempt ==> pc == Top(call.(attempt := call.attempt + 1), Some(entry))
      ensures !same && lastAttempt ==> pc == Done(call, true) && slot.preserve
    {
      ghost var before := State();
      if same {
        Commit(before, CompareEqual);
      } else {
        if lastAttempt { slot := slot.(preserve := true); }   // the committed envelope outlives this call
        Commit(before, CompareDiffers);
      }
    }

    // -------------------------------------------------------------- process_save_inflight

    /** The outcome of a finished call, as its caller sees it. */
    ghost predicate Ended(call: Call, ok: bool)
      reads this
    {
      && pc.Done? && pc.ok == ok && pc.call.(attempt := 0) == call.(attempt := 0)
      && (ok ==> (slot.preserve <==> disk.Some?))
      && (call.quiet && disk.None? && (ok || call.recovery) ==> InSync())
    }

    lemma EndFacts()
      requires Valid() && pc.Done?
      ensures Ended(pc.call, pc.ok)
    {
      Facts();
    }

    lemma OnDisk()
      requires Valid()
      ensures pc.Top? ==> pc.entry.Some? == disk.Some?
      ensures pc.Staging? && pc.call.recovery ==> disk.Some?
      ensures pc.Marking? || pc.Dropping? ==> disk.Some?
    {
      Facts();
    }

    /** A new request is staged, or the call ends. */
    method StageNew(ghost call: Call, request: Request) returns (written: bool)
      requires Valid() && pc.Staging? && pc.call == call && pc.request == request
      modifies `disk, `writes, `running, `server, `slot, `run, `pc, `staged
      ensures Valid() && Extends(old(run), run)
      ensures !old(running) ==> !running && writes == old(writes)
      ensures if written then pc == Sending(call, request) else Ended(call, false)
      ensures diskWorks ==> written
    {
      written := StageRequest(request);
      if !written {
        AbandonStaging();
        EndFacts();
      }
    }

    method AbandonUnread(ghost call: Call, onDisk: bool)
      requires Valid() && pc.Top? && pc.call == call && pc.entry.Some? == onDisk
      modifies `slot, `run, `pc, `staged
      ensures Valid() && Extends(old(run), run) && Ended(call, false)
    {
      OnDisk();
      Abandon(onDisk);
      EndFacts();
    }

    method ClearKnown(ghost call: Call, onDisk: bool) returns (ok: bool)
      requires Valid() && pc == Clearing(call, onDisk)
      modifies `disk, `writes, `running, `server, `slot, `run, `pc, `staged
      ensures Valid() && Extends(old(run), run) && Ended(call, ok)
      ensures !old(running) ==> !running && writes == old(writes)
      ensures diskWorks ==> ok && disk.None?
      ensures !onDisk ==> World() == old(World())
    {
      ok := ClearEnvelope(onDisk);
      EndFacts();
    }

    /** The first half of an attempt: stop if the server holds the working file, else stage it. */
    method StageLatest(ghost call: Call, onDisk: bool, entry: Envelope)
      returns (finished: bool, ok: bool, staging: Envelope)
      requires Valid() && pc == Top(call, if onDisk then Some(entry) else None) && (onDisk ==> Committed(entry))
      modifies `disk, `writes, `running, `server, `slot, `run, `pc, `staged
      ensures Valid() && Extends(old(run), run)
      ensures !old(running) ==> !running && writes == old(writes)
      ensures finished ==> Ended(call, ok)
      ensures !finished ==> pc == Sending(call, staging.request) && !Committed(staging)
      ensures !finished && !old(running) ==> writes != [] && staging.request.bytes == writes[|writes| - 1]
      ensures diskWorks && finished ==> ok && disk.None?
      ensures old(Known()) && !onDisk ==> finished && World() == old(World())
    {
      var latest, same, revision := ReadAndCompare(call, onDisk, entry);
      if latest.None? {
        AbandonUnread(call, onDisk);
        return true, false, entry;
      }
      finished, ok, staging := StageUnlessSame(call, onDisk, latest.value, same, revision);
    }

    method StageUnlessSame(ghost call: Call, onDisk: bool, latest: Bytes, same: bool, revision: nat)
      returns (finished: bool, ok: bool, staging: Envelope)
      requires Valid()
      requires if same then pc == Clearing(call, onDisk)
               else pc.Staging? && pc.call == call && pc.request == Request(revision, latest)
      modifies `disk, `writes, `running, `server, `slot, `run, `pc, `staged
      ensures Valid() && Extends(old(run), run)
      ensures !old(running) ==> !running && writes == old(writes)
      ensures if finished then Ended(call, ok) else pc == Sending(call, staging.request) && !Committed(staging)
      ensures staging.request.bytes == latest
      ensures diskWorks ==> if same then finished && ok && disk.None? else !finished
      ensures same && !onDisk ==> finished && World() == old(World())
    {
      staging := Envelope(Request(revision, latest), 0, RESPONSE_PENDING);
      if same {
        ok := ClearKnown(call, onDisk);
        finished := true;
      } else {
        var written := StageNew(call, staging.request);
        finished, ok := !written, false;
      }
    }

    /** The second half: send the request on disk, and mark the envelope once it is accepted. */
    method SendAndMark(ghost call: Call, entry: Envelope, fenced: bool, final: bool)
      returns (finished: bool, ok: bool, marked: Envelope)
      requires Valid() && pc == Sending(call, entry.request) && !Committed(entry)
      requires call.fenced == fenced && call.final == final
      modifies `disk, `sent, `writes, `running, `server, `slot, `run, `pc, `staged
      ensures Valid() && Extends(old(run), run) && sent == old(sent) + [entry.request]
      ensures !old(running) ==> !running && writes == old(writes)
      ensures finished ==> Ended(call, ok)
      ensures !finished ==> pc == Comparing(call, marked) && marked.request == entry.request && Committed(marked)
      ensures diskWorks && answers ==> !finished
    {
      var result := Put(entry.request);
      if result.Accepted? {
        finished, ok, marked := MarkAccepted(call, entry, result.revision);
      } else {
        NoteFailure(fenced, entry, result);
        EndFacts();
        finished, ok, marked := true, final, entry;      // request and latest working file are both retained
      }
    }

    /** The answer must name a later revision than expected, which the server's always does. */
    method MarkAccepted(ghost call: Call, entry: Envelope, revision: nat) returns (finished: bool, ok: bool, marked: Envelope)
      requires Valid() && pc == Awaiting(call, entry.request) && entry.request in server.memo
      requires server.memo[entry.request] == revision
      modifies `disk, `writes, `running, `server, `slot, `run, `pc, `staged
      ensures Valid() && Extends(old(run), run)
      ensures !old(running) ==> !running && writes == old(writes)
      ensures finished ==> Ended(call, ok)
      ensures !finished ==> pc == Comparing(call, marked) && marked.request == entry.request && Committed(marked)
      ensures diskWorks ==> !finished
    {
      MemoIsAbove(entry.request);
      if revision <= entry.request.expected {
        assert false;
      }
      marked := Envelope(entry.request, revision, "");
      var written := MarkCommitted(entry.request, revision);
      if !written {
        OnDisk();
        Abandon(true);
        EndFacts();
        return true, false, entry;
      }
      finished, ok := false, false;
    }

    /** An earlier call left a request without an answer: it is sent again as it is on disk. */
    method TakeOutstanding()
      requires Valid() && pc.Top? && pc.entry.Some? && !Committed(pc.entry.value)
      modifies `run, `pc, `staged
      ensures Valid() && Extends(old(run), run) && pc == Sending(old(pc).call, old(pc).entry.value.request)
    {
      ghost var before := State();
      Commit(before, Resume);
    }

    /** Compare the working file with the accepted bytes; when they agree the envelope has served. */
    method Settle(ghost call: Call, marked: Envelope, lastAttempt: bool) returns (finished: bool, ok: bool)
      requires Valid() && pc == Comparing(call, marked) && lastAttempt == (call.attempt + 1 == 2) && call.attempt < 2
      modifies `disk, `writes, `running, `server, `slot, `run, `pc, `staged
      ensures Valid() && Extends(old(run), run)
      ensures !old(running) ==> !running && writes == old(writes)
      ensures lastAttempt ==> finished
      ensures finished ==> Ended(call, ok)
      ensures !finished ==> pc == Top(call.(attempt := call.attempt + 1), Some(marked))
      ensures diskWorks && !old(running) && writes != [] && marked.request.bytes == writes[|writes| - 1] ==>
                finished && ok && disk.None?
      ensures diskWorks && finished && !lastAttempt ==> ok && disk.None?
    {
      var equal := CompareAgain(call, marked, lastAttempt);
      if equal {
        ok := DropEnvelope();
        EndFacts();
        return true, ok;
      }
      if lastAttempt { EndFacts(); }
      finished, ok := lastAttempt, true;
    }

    /** What is to be sent: the request left over, or else the newest snapshot, unless the server has it. */
    method NextRequest(ghost call: Call, onDisk: bool, entry: Envelope)
      returns (finished: bool, ok: bool, staging: Envelope)
      requires Valid() && pc == Top(call, if onDisk then Some(entry) else None)
      modifies `disk, `writes, `running, `server, `slot, `run, `pc, `staged
      ensures Valid() && Extends(old(run), run)
      ensures !old(running) ==> !running && writes == old(writes)
      ensures finished ==> Ended(call, ok)
      ensures !finished ==> pc == Sending(call, staging.request) && !Committed(staging)
      ensures diskWorks && finished ==> ok && disk.None? && (!onDisk || Committed(entry))
      ensures !finished && !old(running) && (!onDisk || Committed(entry)) ==> writes != [] && staging.request.bytes == writes[|writes| - 1]
      ensures old(Known()) && !onDisk ==> finished && World() == old(World())
    {
      if !onDisk || Committed(entry) {
        finished, ok, staging := StageLatest(call, onDisk, entry);
      } else {
        TakeOutstanding();
        finished, ok, staging := false, false, entry;
      }
    }

    /** Send, and unless that ends the call, compare once more. */
    method SendAndSettle(ghost call: Call, entry: Envelope, fenced: bool, final: bool, lastAttempt: bool)
      returns (finished: bool, ok: bool, marked: Envelope)
      requires Valid() && pc == Sending(call, entry.request) && !Committed(entry)
      requires call.fenced == fenced && call.final == final && call.attempt < 2 && lastAttempt == (call.attempt + 1 == 2)
      modifies `disk, `sent, `writes, `running, `server, `slot, `run, `pc, `staged
      ensures Valid() && Extends(old(run), run) && |sent| <= |old(sent)| + 1
      ensures !old(running) ==> !running && writes == old(writes)
      ensures lastAttempt ==> finished
      ensures finished ==> Ended(call, ok)
      ensures !finished ==> pc == Top(call.(attempt := call.attempt + 1), Some(marked)) && Committed(marked)
      ensures diskWorks && answers && !old(running) && writes != [] && entry.request.bytes == writes[|writes| - 1] ==>
                finished && ok && disk.None?
      ensures diskWorks && answers && finished && !lastAttempt ==> ok && disk.None?
    {
      finished, ok, marked := SendAndMark(call, entry, fenced, final);
      if finished { return; }
      finished, ok := Settle(call, marked, lastAttempt);
    }

    /** One round of the loop: stage a newer snapshot unless one is outstanding, send, mark, compare. */
    method Attempt(ghost call: Call, onDisk: bool, entry: Envelope, fenced: bool, final: bool, lastAttempt: bool)
      returns (finished: bool, ok: bool, marked: Envelope)
      requires Valid() && pc == Top(call, if onDisk then Some(entry) else None)
      requires call.fenced == fenced && call.final == final && call.attempt < 2 && lastAttempt == (call.attempt + 1 == 2)
      modifies `disk, `sent, `writes, `running, `server, `slot, `run, `pc, `staged
      ensures Valid() && Extends(old(run), run) && |sent| <= |old(sent)| + 1
      ensures !old(running) ==> !running && writes == old(writes)
      ensures lastAttempt ==> finished
      ensures finished ==> Ended(call, ok)
      ensures !finished ==> pc == Top(call.(attempt := call.attempt + 1), Some(marked)) && Committed(marked)
      // only a request left over from an earlier call can need a second round
      ensures diskWorks && answers && !old(running) && (!onDisk || Committed(entry)) ==> finished
      ensures diskWorks && answers && !old(running) && finished && !(lastAttempt && onDisk && !Committed(entry)) ==> ok && disk.None?
      ensures old(Known()) && !onDisk ==> finished && ok && World() == old(World())
    {
      var staging;
      finished, ok, staging := NextRequest(call, onDisk, entry);
      if finished { return finished, ok, staging; }
      finished, ok, marked := SendAndSettle(call, staging, fenced, final, lastAttempt);
    }

    /** Look for an envelope left by an earlier call and read it back. */
    method OpenEnvelope(fenced: bool, final: bool, recovery: bool)
      returns (usable: bool, onDisk: bool, entry: Envelope)
      requires Valid()
      requires if recovery then pc.Down? && disk.Some? else Resting(pc) && present && record.None?
      modifies `slot, `run, `pc, `staged
      ensures Valid() && Extends(old(run), run)
      ensures usable ==> pc == Top(Call(fenced, final, recovery, !running, 0), if onDisk then Some(entry) else None)
      ensures usable ==> onDisk == disk.Some? && (onDisk ==> Readable(entry) && entry == disk.value)
      ensures !usable ==> (run == old(run)) || Ended(Call(fenced, final, recovery, !running, 0), false)
      ensures diskWorks && (disk.Some? ==> Readable(disk.value)) ==> usable
      ensures !recovery && disk.None? ==> slot == old(slot)
    {
      onDisk, entry := disk.Some?, if disk.Some? then disk.value else Envelope(Request(0, []), 0, "");
      var prepared: bool := *;
      if !diskWorks && !prepared {
        return false, onDisk, entry;         // private directory or memory not available
      }
      BeginCall(fenced, final, recovery);
      var readable: bool := *;
      if onDisk && !(Readable(entry) && (diskWorks || readable)) {
        Abandon(onDisk);
        EndFacts();
        return false, onDisk, entry;
      }
      usable := true;
    }

    /** Before a round, the second of which starts from the envelope marked in the first; or after the last. */
    ghost predicate InLoop(call: Call, attempt: nat, onDisk: bool, entry: Envelope, finished: bool, ok: bool)
      reads this
    {
      if finished then attempt > 0 && Ended(call, ok)
      else
        && attempt < 2 && pc == Top(call.(attempt := attempt), if onDisk then Some(entry) else None)
        && (attempt > 0 ==> onDisk && Committed(entry))
    }

    /** At most two rounds: the outstanding request, and one newer snapshot. */
    method Attempts(ghost call: Call, onDisk0: bool, entry0: Envelope, fenced: bool, final: bool) returns (ok: bool)
      requires Valid() && pc == Top(call, if onDisk0 then Some(entry0) else None)
      requires call.attempt == 0 && call.fenced == fenced && call.final == final
      modifies `disk, `sent, `writes, `running, `server, `slot, `run, `pc, `staged
      ensures Valid() && Extends(old(run), run) && |sent| <= |old(sent)| + 2
      ensures !old(running) ==> !running && writes == old(writes)
      ensures Ended(call, ok)
      ensures !old(running) && diskWorks && answers ==> ok && disk.None?
      ensures old(Known()) && !onDisk0 ==> ok && World() == old(World())
    {
      var finished, onDisk, entry := false, onDisk0, entry0;
      var attempt := 0;
      ghost var known := Known() && !onDisk0;
      ok := false;
      while attempt < 2 && !finished
        invariant Valid() && Extends(old(run), run) && |sent| <= |old(sent)| + attempt && attempt <= 2
        invariant !old(running) ==> !running && writes == old(writes)
        invariant InLoop(call, attempt, onDisk, entry, finished, ok)
        invariant !old(running) && diskWorks && answers && finished ==> ok && disk.None?
        invariant known ==> World() == old(World()) && if attempt == 0 then Known() && !onDisk else finished && ok
      {
        finished, ok, entry := Round(call, attempt, onDisk, entry, fenced, final);
        onDisk, attempt := true, attempt + 1;
      }
    }

    method Round(ghost call: Call, attempt: nat, onDisk: bool, entry: Envelope, fenced: bool, final: bool)
      returns (finished: bool, ok: bool, marked: Envelope)
      requires Valid() && InLoop(call, attempt, onDisk, entry, false, false) && call.fenced == fenced && call.final == final
      modifies `disk, `sent, `writes, `running, `server, `slot, `run, `pc, `staged
      ensures Valid() && Extends(old(run), run) && |sent| <= |old(sent)| + 1
      ensures !old(running) ==> !running && writes == old(writes)
      ensures InLoop(call, attempt + 1, true, marked, finished, ok)
      ensures !old(running) && diskWorks && answers && finished ==> ok && disk.None?
      ensures old(Known()) && !onDisk ==> finished && ok && World() == old(World())
    {
      finished, ok, marked := Attempt(call.(attempt := attempt), onDisk, entry, fenced, final, attempt == 1);
    }

    /** Stage, send, mark and compare, for the outstanding request and at most one newer snapshot.
        recovery is the call made by the outbox replay, which starts from a zeroed slot. */
    method ProcessInflight(fenced: bool, final: bool, recovery: bool) returns (ok: bool)
      requires Valid()
      requires if recovery then pc.Down? && disk.Some? else Resting(pc) && present && record.None?
      modifies `disk, `sent, `writes, `running, `server, `slot, `run, `pc, `staged
      // what happened is a run of the protocol
      ensures Valid() && Extends(old(run), run)
      ensures !old(running) ==> !running && writes == old(writes)
      ensures (run == old(run) && !ok) || Ended(Call(fenced, final, recovery, !old(running), 0), ok)
      // at most the outstanding request and one newer snapshot are sent; with the emulator gone the snapshot
      // is what the file holds
      ensures |sent| <= |old(sent)| + 2
      ensures !old(running) ==> OnlyLatest(old(sent), LeftOver(old(disk)))
      // a stopped emulator, a working disk and an answering server: one call converges
      ensures !old(running) && diskWorks && answers && (old(disk).Some? ==> Readable(old(disk).value)) ==>
                ok && !slot.preserve && InSync()
      // an empty payload can be staged but never read back: the call then changes nothing, for ever
      ensures old(disk).Some? && !Readable(old(disk).value) ==>
                !ok && disk == old(disk) && sent == old(sent) && server == old(server) && writes == old(writes)
      // nothing is done about a file that the server is known to have
      ensures old(Known()) && !recovery ==> ok && World() == old(World())
    {
      ok := false;
      ghost var quiet := !running;
      var usable, onDisk, entry := OpenEnvelope(fenced, final, recovery);
      if !usable {
        return false;
      }
      ok := Attempts(Call(fenced, final, recovery, quiet, 0), onDisk, entry, fenced, final);
      if quiet { SentIsLatest(); }
    }

    // -------------------------------------------------------------- upload_changed_save

    /** Nothing is lost if the client stops here: the server has the file and it may go, or the file
        stays and an envelope or a recovery record on disk leads back to it. */
    ghost predicate Covered()
      reads this
    {
      if slot.preserve then present && (disk.Some? || record == Some(slot.revision))
      else InSync() && pc.Done? && pc.call.final && pc.ok
    }

    /** After a final call that reported success: nothing stops the removal of an unprotected file. */
    ghost predicate Concluded()
      reads this
    {
      slot.preserve || (pc.Done? && pc.call.final && pc.ok)
    }

    /** Covered with its working file, or with the server and the file removed. */
    ghost predicate TakenCareOf()
      reads this
    {
      if present then Covered() else InSync()
    }

    /** Between two calls of an open session. */
    ghost predicate Ready()
      reads this
    {
      Valid() && present && Resting(pc)
    }

    /** Leave a record that leads recovery to the working file; an existing envelope already does. */
    method WriteRecoveryPointer() returns (kept: bool)
      requires present
      modifies `record
      ensures record == old(record) || (disk.None? && record == Some(slot.revision))
      ensures kept ==> disk.Some? || record == Some(slot.revision)
      ensures disk.Some? ==> kept && record == old(record)
      ensures diskWorks ==> kept
    {
      if disk.Some? {
        return true;
      }
      var written: bool, readBack: bool, removed: bool := *, *, *;
      kept := diskWorks || (written && readBack);
      if kept || (written && !removed) {     // a record that cannot be read back is removed again, if possible
        record := Some(slot.revision);
      }
    }

    /** Protect the working file with whatever recovery can use, and remember whether that worked. */
    method PreserveForRecovery() returns (kept: bool)
      requires Valid() && Resting(pc) && present
      modifies `record, `slot, `run, `pc, `staged
      ensures Valid() && Extends(old(run), run) && Resting(pc) && slot.preserve == kept
      ensures kept ==> Covered()
      ensures diskWorks ==> kept
    {
      ghost var before := State();
      kept := WriteRecoveryPointer();
      slot := slot.(preserve := kept);
      Commit(before, Protect(kept, record != before.record));
    }

    /** Upload a changed save; the last call of a session falls back to a recovery record. */
    method UploadChanged(fenced: bool, final: bool) returns (ok: bool)
      requires Valid() && Resting(pc) && present && record.None?
      modifies `disk, `sent, `writes, `running, `server, `slot, `run, `pc, `staged, `record
      ensures Valid() && Extends(old(run), run) && Resting(pc)
      ensures !old(running) ==> !running && writes == old(writes)
      ensures final && ok ==> Concluded()
      // with the emulator gone, a final success means that nothing can be lost
      ensures final && ok && !old(running) ==> Covered()
      ensures !final ==> record.None?
      ensures !old(running) ==> OnlyLatest(old(sent), LeftOver(old(disk)))
      // with a working disk the save is taken care of, whatever the server does
      ensures final && diskWorks ==> ok
      ensures old(Known()) ==> ok && World() == old(World()) && !slot.preserve
    {
      ok := ProcessInflight(fenced, final, false);
      if ok || !final {
        return;
      }
      ok := PreserveForRecovery();
    }

    /** Remove the working file of a reflected save; a failed removal is only logged.  An emulator that is
        still there may write before that. */
    method RemoveWorkingFile() returns (removed: bool)
      requires Valid() && present && MayDelete(State())
      modifies `writes, `running, `server, `present, `run, `pc, `staged
      ensures Valid() && Extends(old(run), run) && present == !removed
      ensures !old(running) ==> !running && writes == old(writes)
      ensures old(pc).call.quiet ==> InSync()
      ensures !removed ==> pc == old(pc)
      ensures !old(running) && old(InSync()) ==> InSync()
      ensures calm && diskWorks && old(running) && late.Some? ==>
                removed && server == old(server) && writes == old(writes) + [late.value]
    {
      if running && late.Some? { WriteLate(late.value); }
      Interleave();
      EndFacts();
      var works: bool := *;
      removed := diskWorks || works;
      if removed { Unlink(); }
    }

    method Unlink()
      requires Valid() && present && MayDelete(State())
      modifies `present, `run, `pc, `staged
      ensures Valid() && Extends(old(run), run) && !present
    {
      ghost var before := State();
      present := false;
      Commit(before, DeleteWorkingFile);
    }

    // -------------------------------------------------------------- sessions and recovery

    /** Download the save into the working file and let the emulator run. */
    method StartSession()
      requires Valid() && pc.Down? && disk.None? && record.None? && !running
      modifies this
      ensures Valid() && Extends(old(run), run) && pc.Idle? && present && running
      ensures writes == old(writes) + [server.content] && server == old(server)
      ensures disk.None? && record.None?
      ensures slot == Slot(server.revision, Some(server.content), false)
    {
      ghost var before := State();
      writes, present, running := writes + [server.content], true, true;
      slot := Slot(server.revision, Some(server.content), false);
      Commit(before, Action.StartSession);
    }

    /** The client process is gone, wherever it was; only memory is lost. */
    method CrashNow()
      requires Valid()
      modifies `run, `pc, `staged
      ensures Valid() && Extends(old(run), run) && pc.Down?
    {
      ghost var before := State();
      Commit(before, Crash);
    }

    /** The envelope part of the outbox replay: one unfenced call, then the working file may go.
        managed says that the recorded path lies inside the runtime directory. */
    method ReplayEnvelope(managed: bool) returns (pending: bool, replayed: nat)
      requires Valid() && pc.Down?
      modifies this
      ensures Valid() && Extends(old(run), run) && pc.Down?
      ensures !old(running) ==> !running && writes == old(writes)
      ensures pending <==> disk.Some?
      ensures replayed == if old(disk).Some? && !pending then 1 else 0
      ensures replayed == 1 && !old(running) ==> writes != [] && server.content == writes[|writes| - 1]
      ensures record == old(record)
      ensures old(disk).None? ==> server == old(server) && sent == old(sent) && present == old(present)
      ensures old(present) && !present ==> replayed == 1
      ensures |sent| <= |old(sent)| + 2
      // recovery succeeds exactly for the envelopes it can read back
      ensures old(disk).Some? && !old(running) && diskWorks && answers ==> (pending <==> !managed || !Readable(old(disk).value))
      ensures old(disk).Some? && (!managed || !Readable(old(disk).value)) ==> pending && disk == old(disk) && sent == old(sent)
    {
      Facts();
      if disk.None? {
        return false, 0;
      }
      var valid := managed && Readable(disk.value);
      if valid {
        var ok := ProcessInflight(false, false, true);
      }
      pending, replayed := EndReplay();
    }

    /** When the call left no envelope, the working file goes. */
    method EndReplay() returns (pending: bool, replayed: nat)
      requires Valid() && (disk.None? ==> pc.Done? && pc.call.recovery && present)
      modifies `writes, `running, `server, `present, `run, `pc, `staged
      ensures Valid() && Extends(old(run), run) && pc.Down?
      ensures !old(running) ==> !running && writes == old(writes)
      ensures (pending <==> disk.Some?) && replayed == (if pending then 0 else 1)
      ensures !pending && old(pc).call.quiet ==> InSync()
      ensures pending ==> present == old(present) && server == old(server)
    {
      if disk.Some? {
        CrashNow();
        return true, 0;
      }
      var removed := RemoveWorkingFile();
      CrashNow();
      pending, replayed := false, 1;
    }

    // -------------------------------------------------------------- replaying a recovery record

    /** What the invariant says of a record: it is for the current revision, or its request was accepted. */
    lemma RecordFacts()
      requires Valid() && record.Some?
      ensures present && disk.None? && writes != [] && (pc.Idle? || pc.Down?)
      ensures record.value == server.revision || (!running && pc.Down? && State().RecordRequest() in server.memo)
    {
      RunInv(run, |run.actions|);
    }

    /** Upload the file the record points at.  The same request is sent however often that is tried. */
    method SendRecorded(bytes: Bytes) returns (ok: bool)
      requires Valid() && pc.Down? && record.Some? && !running && writes != [] && bytes == writes[|writes| - 1]
      modifies `sent, `server, `run, `pc, `staged, `replayed, `writes, `running
      ensures Valid() && Extends(old(run), run) && pc.Down? && !running && writes == old(writes)
      ensures sent == old(sent) + [Request(record.value, bytes)]
      ensures ok ==> Request(record.value, bytes) in server.memo
      ensures answers ==> ok
    {
      ghost var before := State();
      RecordFacts();
      var q := Request(record.value, bytes);
      sent := sent + [q];
      replayed := replayed + {q};
      Commit(before, SendRecord);
      TravelRecorded(|sent| - 1);
      var answered: bool := *;
      ok := (answers || answered) && q in server.memo;
    }

    method TravelRecorded(i: nat)
      requires Valid() && pc.Down? && record.Some? && !running && writes != [] && i < |sent|
      requires sent[i] == Request(record.value, writes[|writes| - 1])
      modifies `writes, `running, `server, `run, `pc, `staged
      ensures Valid() && Extends(old(run), run) && pc == old(pc) && !running && writes == old(writes)
      ensures answers ==> sent[i] in server.memo
    {
      Interleave();
      var arrives: bool := *;
      if answers || arrives {
        ArriveRecorded(i);
      }
      Interleave();
    }

    method ArriveRecorded(i: nat)
      requires Valid() && pc.Down? && record.Some? && !running && writes != [] && i < |sent|
      requires sent[i] == Request(record.value, writes[|writes| - 1])
      modifies `server, `run, `pc, `staged
      ensures Valid() && Extends(old(run), run) && pc == old(pc) && sent[i] in server.memo
    {
      ghost var before := State();
      RecordFacts();
      server := Accept(server, sent[i]);
      Commit(before, Deliver(i));
    }

    /** The record part of the outbox replay, with the emulator gone: the file is uploaded for the recorded
        revision, and once the server has it, file and record go. */
    method ReplayRecord() returns (done: bool)
      requires Valid() && pc.Down? && record.Some? && !running
      modifies this
      ensures Valid() && Extends(old(run), run) && pc.Down? && !running && writes == old(writes)
      ensures |sent| <= |old(sent)| + 1
      // done: the server holds the file, which is gone with its record; else both are as they were
      ensures if done then record.None? && !present && InSync() else record == old(record) && present == old(present)
      // a record is never stale: with disk and server working it is done at once
      ensures diskWorks && answers ==> done
    {
      RecordFacts();
      var content := ReadWorkingFile();
      if content.None? { return false; }
      done := SendRecorded(content.value);
      if !done { return; }
      var removed: bool := *;                // marker, file and record, in this order
      done := diskWorks || removed;
      if done { FinishRecorded(); }
    }

    method FinishRecorded()
      requires Valid() && pc.Down? && record.Some? && !running && writes != [] && State().RecordRequest() in server.memo
      modifies `record, `present, `run, `pc, `staged
      ensures Valid() && Extends(old(run), run) && pc.Down? && record.None? && !present && InSync()
    {
      ghost var before := State();
      SaveGuarantees.FinishedIsReflected(before) by { RunInv(run, |run.actions|); }
      record, present := None, false;
      Commit(before, FinishRecord);
    }
  }
}

/** The process that watches a running emulator: it uploads changed saves, keeps the game lock alive,
    and after the emulator is gone decides whether the lock may be released and which working files
    may be removed.  There is one loop for POSIX and one for Windows; the first meets MeetsSpec, the
    second meets it exactly when no wait for the process fails while it runs. */
module SaveMonitor {
  import opened Options
  import opened SaveProtocol
  import opened SaveUploader
  import MobileReceipt

  const HEARTBEAT_SECONDS := 15
  const FAILURE_LIMIT := 3

  /** terminal: the error text says expired, stale, or another active game session. */
  datatype HeartbeatReply = Alive | Failed(terminal: bool)

  /** What a wait of one second for the process can answer. */
  datatype WaitAnswer = TimedOut | Exited | WaitFailed

  function Wait(failing: set<nat>, tick: nat, alive: bool): WaitAnswer {
    if tick in failing then WaitFailed else if alive then TimedOut else Exited
  }

  /** No wait within the given seconds fails before the process is gone. */
  predicate Trustworthy(failing: set<nat>, seconds: nat, lifetime: nat) {
    forall t | t in failing && t < seconds :: lifetime <= t
  }

  predicate NoneBefore(failing: set<nat>, tick: nat) { forall t | t in failing :: tick <= t }

  lemma NoneYet(failing: set<nat>, tick: nat, alive: bool)
    requires NoneBefore(failing, tick) && Wait(failing, tick, alive).TimedOut?
    ensures NoneBefore(failing, tick + 1) && tick !in failing
  {
  }

  lemma WaitDecides(failing: set<nat>, seconds: nat, lifetime: nat, tick: nat)
    requires tick < seconds && tick <= lifetime && NoneBefore(failing, tick)
    requires !Wait(failing, tick, tick < lifetime).TimedOut?
    ensures Trustworthy(failing, seconds, lifetime) <==> lifetime <= tick
  {
  }

  /** One heartbeat for every full fifteen seconds. */
  predicate BeatsDue(seconds: nat, beats: nat) {
    HEARTBEAT_SECONDS * beats <= seconds < HEARTBEAT_SECONDS * (beats + 1)
  }

  /** Seconds in which heartbeats were due, from those sent and the seconds since the last. */
  function Elapsed(beats: nat, beat: nat): nat { HEARTBEAT_SECONDS * beats + beat }

  lemma ElapsedDue(beats: nat, beat: nat, lost: bool, ticks: nat)
    requires beat < HEARTBEAT_SECONDS && (!lost ==> Elapsed(beats, beat) == ticks)
    ensures !lost ==> BeatsDue(ticks, beats)
  {
  }

  class Monitor {
    const stores: seq<SaveStore>
    const guards: seq<bool>
    const active: bool
    const fenced: bool
    /** The server ends the session when it is asked to, and its answer comes back. */
    const answers: bool
    /** The hash of a content, in hexadecimal digits. */
    const digest: Bytes -> string
    /** The emulator is gone. */
    var exited: bool
    /** The loop was left for the final phase. */
    var ended: bool
    var lost: bool
    var receiptValid: bool
    var receipt: string
    /** The server ended the session. */
    var released: bool
    /** Heartbeats sent so far. */
    var beats: nat
    /** How many requests each save had sent when the heartbeat was lost, and when watching began. */
    ghost var sentAtLoss: seq<nat>
    ghost var sentAtStart: seq<nat>
    /** The envelope each save had on disk when watching began. */
    ghost var leftAtStart: seq<Option<Envelope>>

    /** Every save has sent exactly that many requests. */
    ghost predicate SentAre(counts: seq<nat>)
      reads this, stores
    {
      |counts| == |stores| && forall i | 0 <= i < |stores| :: |stores[i].sent| == counts[i]
    }

    /** No save has a recovery record: the session is not over for any of them. */
    ghost predicate Unrecorded()
      reads this, stores
    {
      forall i | 0 <= i < |stores| :: stores[i].record.None?
    }

    /** A guarded save has sent nothing, and has on disk what it had. */
    ghost predicate Untouched()
      reads this, stores
      requires Shape()
    {
      && Unrecorded()
      && forall i | 0 <= i < |stores| && guards[i] ::
           |stores[i].sent| == sentAtStart[i] && stores[i].disk == leftAtStart[i]
    }

    /** Everything a mobile session sent carries bytes that its receipt allows, or was left over before. */
    ghost predicate ReceiptRespected()
      reads this, stores
      requires Shape() && Mobile()
    {
      forall i | sentAtStart[0] <= i < |stores[0].sent| ::
        var bytes := stores[0].sent[i].bytes;
        MobileReceipt.Allows(receipt, |bytes|, digest(bytes)) || Some(stores[0].sent[i]) == LeftOver(leftAtStart[0])
    }

    /** A mobile session has exactly one save, and that save is guarded. */
    predicate Mobile() { |stores| == 1 && |guards| == 1 && guards[0] }

    ghost predicate Shape()
      reads this
    {
      && |guards| == |stores| == |sentAtLoss| == |sentAtStart| == |leftAtStart|
      && forall i, j | 0 <= i < j < |stores| :: stores[i] != stores[j]
    }

    ghost predicate Valid()
      reads this, stores
    {
      Shape() && forall i | 0 <= i < |stores| :: stores[i].Valid()
    }

    ghost predicate DisksWork() { forall i | 0 <= i < |stores| :: stores[i].diskWorks }

    /** Before the final phase: every working file is there and no upload is under way. */
    ghost predicate Watching()
      reads this, stores
    {
      Shape() && !released && forall i | 0 <= i < |stores| :: stores[i].Ready()
    }

    ghost predicate Quiescent()
      reads this, stores
    {
      forall i | 0 <= i < |stores| :: !stores[i].running
    }

    /** Every save is with the server, or on disk in a durable envelope or recovery record. */
    ghost predicate AllTakenCareOf()
      reads this, stores
    {
      forall i | 0 <= i < |stores| :: stores[i].TakenCareOf()
    }

    /** After the last calls reported success. */
    ghost predicate AllConcluded()
      reads this, stores
    {
      forall i | 0 <= i < |stores| :: stores[i].Concluded()
    }

    /** What holds at the end of a loop even when the emulator may still be there. */
    ghost predicate Cautious()
      reads this, stores
    {
      && Valid()
      // the session is ended only in the final phase, and not after the heartbeat was lost
      && (released ==> ended && !lost && active)
      && (forall i | 0 <= i < |stores| && !stores[i].present :: released)
      // nothing is sent after the heartbeat is lost
      && (lost ==> SentAre(sentAtLoss))
      // nothing is sent for a guarded save before the final phase, and for a mobile session without a receipt
      && (!ended ==> Untouched())
      && (Mobile() && !receiptValid ==> SentAre(sentAtStart))
    }

    /** What a loop is to guarantee when it returns. */
    ghost predicate MeetsSpec()
      reads this, stores
    {
      && Cautious()
      // the final phase begins only once the emulator is gone
      && (ended ==> exited)
      // the lock is released only with every save taken care of
      && (released ==> AllTakenCareOf())
      // once the emulator is gone, a working disk is enough for that
      && (ended && DisksWork() ==> AllTakenCareOf())
      // a working file is gone only when the server holds its last content
      && (forall i | 0 <= i < |stores| && !stores[i].present :: stores[i].InSync())
      // what a mobile session sends is what its receipt names
      && (Mobile() && receiptValid ==> ReceiptRespected())
    }

    /** The one save is as the server is known to have it, but the emulator is about to write something else. */
    ghost predicate Early()
      reads this, stores
    {
      && |stores| == 1 && |guards| == 1 && !guards[0] && active && answers
      && stores[0].Known() && stores[0].record.None? && AboutToWrite()
    }

    ghost predicate AboutToWrite()
      reads this, stores
    {
      && |stores| == 1 && stores[0].calm && stores[0].diskWorks && stores[0].running
      && stores[0].late.Some? && stores[0].late.value != stores[0].server.content
    }

    /** ... and its file is about to be removed. */
    ghost predicate Doomed()
      reads this, stores
    {
      AboutToWrite() && stores[0].disk.None? && stores[0].record.None? && !stores[0].slot.preserve
    }

    /** The file of the one save is gone, the server does not have what was in it, and nothing leads back to it. */
    ghost predicate FileLost()
      reads this, stores
    {
      |stores| == 1 && stores[0].late.Some? && stores[0].Lost(stores[0].late.value)
    }

    constructor (stores: seq<SaveStore>, guards: seq<bool>, active: bool, fenced: bool, answers: bool, digest: Bytes -> string)
      requires |stores| == |guards| && (forall i, j | 0 <= i < j < |stores| :: stores[i] != stores[j])
      requires forall i | 0 <= i < |stores| ::
                 stores[i].Valid() && stores[i].present && stores[i].record.None? && Resting(stores[i].pc)
      ensures Fresh() && beats == 0
      ensures this.stores == stores && this.guards == guards && this.active == active && this.fenced == fenced
      ensures this.answers == answers && this.digest == digest
    {
      this.stores, this.guards, this.active, this.fenced, this.answers, this.digest :=
        stores, guards, active, fenced, answers, digest;
      exited, ended, lost, receiptValid, released, beats, receipt := false, false, false, false, false, 0, "";
      sentAtLoss := seq(|stores|, _ => 0);
      sentAtStart, leftAtStart := seq(|stores|, _ => 0), seq(|stores|, _ => None);
      new;
      sentAtStart := Counts();
      leftAtStart := Leftovers();
    }

    /** At the start of a loop. */
    ghost predicate Fresh()
      reads this, stores
    {
      Watching() && Untouched() && SentAre(sentAtStart) && !exited && !ended && !lost && !receiptValid
    }

    ghost method Leftovers() returns (left: seq<Option<Envelope>>)
      ensures |left| == |stores| && forall i | 0 <= i < |stores| :: left[i] == stores[i].disk
    {
      left := [];
      var i := 0;
      while i < |stores|
        invariant 0 <= i <= |stores| && |left| == i
        invariant forall j | 0 <= j < i :: left[j] == stores[j].disk
      {
        left := left + [stores[i].disk];
        i := i + 1;
      }
    }

    ghost method Counts() returns (counts: seq<nat>)
      ensures SentAre(counts)
    {
      counts := [];
      var i := 0;
      while i < |stores|
        invariant 0 <= i <= |stores| && |counts| == i
        invariant forall j | 0 <= j < i :: counts[j] == |stores[j].sent|
      {
        counts := counts + [|stores[i].sent|];
        i := i + 1;
      }
    }

    /** No save has a writer any more. */
    method ObserveExits()
      requires Watching()
      modifies stores
      ensures Watching() && Quiescent()
      ensures forall i | 0 <= i < |stores| ::
                stores[i].sent == old(stores[i].sent) && stores[i].disk == old(stores[i].disk) && stores[i].record == old(stores[i].record)
    {
      var i := 0;
      while i < |stores|
        invariant 0 <= i <= |stores| && Watching()
        invariant forall j | 0 <= j < |stores| ::
                    stores[j].sent == old(stores[j].sent) && stores[j].disk == old(stores[j].disk) && stores[j].record == old(stores[j].record)
        invariant forall j | 0 <= j < i :: !stores[j].running
      {
        stores[i].ObserveExit();
        i := i + 1;
      }
    }

    /** A second passes: while the child runs nothing is known, once it is gone no save has a writer. */
    method ChildAlive(gone: bool) returns (alive: bool)
      requires Watching() && Untouched()
      modifies this`exited, stores
      ensures Watching() && Untouched() && forall i | 0 <= i < |stores| :: stores[i].sent == old(stores[i].sent)
      ensures alive == !gone
      ensures !alive ==> exited && Quiescent()
      ensures alive ==> exited == old(exited)
      ensures alive && old(Early()) ==> Early()
    {
      alive := !gone;
      if alive { return; }
      ObserveExits();
      exited := true;
    }

    /** One upload of a save that is not guarded; the others are as they were. */
    method UploadOne(i: nat)
      requires Watching() && Untouched() && i < |stores| && !guards[i]
      modifies stores[i]
      ensures Watching() && Untouched() && (!old(stores[i].running) ==> !stores[i].running)
    {
      var ok := stores[i].UploadChanged(fenced, false);
    }

    /** One round of uploads while the emulator may still be writing; guarded saves are left alone. */
    method UploadRound(alive: bool)
      requires Watching() && Untouched() && (!alive ==> Quiescent())
      modifies stores
      ensures Watching() && Untouched() && (!alive ==> Quiescent())
    {
      var i := 0;
      while i < |stores|
        invariant 0 <= i <= |stores| && Watching() && Untouched()
        invariant !alive ==> Quiescent()
      {
        if !guards[i] {
          UploadOne(i);
        }
        i := i + 1;
      }
    }

    method Heartbeat() returns (reply: HeartbeatReply)
      modifies this`beats
      ensures beats == old(beats) + 1
    {
      beats := beats + 1;
      var answered: bool := *;
      var terminal: bool := *;
      reply := if answered then Alive else Failed(terminal);
    }

    /** Count seconds and failures; the lock counts as lost on a terminal error or the third failure. */
    method BeatIfDue(seconds: nat, failures: nat) returns (seconds': nat, failures': nat, reply: Option<HeartbeatReply>)
      requires Watching() && !lost && failures < FAILURE_LIMIT && seconds < HEARTBEAT_SECONDS
      modifies this`lost, this`sentAtLoss, this`beats
      ensures Watching() && seconds' < HEARTBEAT_SECONDS
      ensures beats == old(beats) + if reply.Some? then 1 else 0
      // one heartbeat every fifteen seconds, and a success forgives the failures before it
      ensures reply.Some? <==> seconds + 1 == HEARTBEAT_SECONDS
      ensures seconds' == (seconds + 1) % HEARTBEAT_SECONDS
      ensures failures' == if reply.None? then failures else if reply.value.Alive? then 0 else failures + 1
      ensures lost <==> reply.Some? && reply.value.Failed? && (reply.value.terminal || failures + 1 == FAILURE_LIMIT)
      ensures lost ==> SentAre(sentAtLoss)
    {
      seconds', failures', reply := seconds + 1, failures, None;
      if seconds' >= HEARTBEAT_SECONDS {
        var answer := Heartbeat();
        reply := Some(answer);
        if answer.Failed? {
          failures' := failures' + 1;
          if answer.terminal || failures' >= FAILURE_LIMIT {
            lost := true;                    // and the emulator is told to stop
            sentAtLoss := Counts();
          }
        } else {
          failures' := 0;
        }
        seconds' := 0;
      }
    }

    /** Protect one save; the others are as they were. */
    method PreserveOne(i: nat) returns (kept: bool)
      requires Watching() && i < |stores|
      modifies stores[i]
      ensures Watching() && stores[i].sent == old(stores[i].sent)
      ensures kept ==> stores[i].TakenCareOf()
      ensures stores[i].diskWorks ==> kept
    {
      kept := stores[i].PreserveForRecovery();
    }

    /** After a lost heartbeat: no upload, only records that lead back to the working files. */
    method PreserveAll(ghost counts: seq<nat>) returns (preserved: bool)
      requires Watching() && SentAre(counts)
      modifies stores
      ensures Watching() && SentAre(counts)
      ensures preserved ==> AllTakenCareOf()
      ensures DisksWork() ==> preserved
    {
      preserved := true;
      var i := 0;
      while i < |stores|
        invariant 0 <= i <= |stores| && Watching() && SentAre(counts)
        invariant preserved ==> forall j | 0 <= j < i :: stores[j].TakenCareOf()
        invariant DisksWork() ==> preserved
      {
        var kept := PreserveOne(i);
        if !kept { preserved := false; }
        i := i + 1;
      }
    }

    ghost predicate UnrecordedFrom(i: nat)
      reads this, stores
    {
      forall j | i <= j < |stores| :: stores[j].record.None?
    }

    ghost predicate ConcludedBefore(i: nat, quiet: bool)
      reads this, stores
    {
      forall j | 0 <= j < i <= |stores| :: stores[j].Concluded() && (quiet ==> stores[j].TakenCareOf())
    }

    /** The last upload of one save; the others are as they were. */
    method FinalUpload(i: nat, ghost quiet: bool) returns (ok: bool)
      requires Watching() && i < |stores| && UnrecordedFrom(i) && (quiet ==> Quiescent())
      modifies stores[i]
      ensures Watching() && UnrecordedFrom(i + 1) && (quiet ==> Quiescent())
      ensures ok && old(ConcludedBefore(i, quiet)) ==> ConcludedBefore(i + 1, quiet)
      ensures quiet ==> Sent(stores[i], old(stores[i].sent), old(stores[i].writes), old(LeftOver(stores[i].disk)))
      ensures stores[i].diskWorks ==> ok
      ensures old(Early()) ==> Doomed()
    {
      ok := stores[i].UploadChanged(fenced, true);
    }

    /** The last upload of every save.  With no emulator left, success means that nothing can be lost, and
        what was sent is what the files hold. */
    method UploadAllFinally() returns (safe: bool)
      requires Watching() && Unrecorded()
      modifies stores
      ensures Watching() && (old(Quiescent()) ==> Quiescent())
      ensures safe ==> AllConcluded()
      ensures old(Early()) ==> Doomed()
      ensures old(Quiescent()) && safe ==> AllTakenCareOf()
      ensures old(Quiescent()) && Mobile() ==> Sent(stores[0], old(stores[0].sent), old(stores[0].writes), old(LeftOver(stores[0].disk)))
      ensures DisksWork() ==> safe
    {
      safe := true;
      ghost var quiet, early := Quiescent(), Early();
      var i := 0;
      while i < |stores|
        invariant 0 <= i <= |stores| && Watching()
        invariant (quiet ==> Quiescent()) && UnrecordedFrom(i) && (safe ==> ConcludedBefore(i, quiet))
        invariant quiet && Mobile() ==>
                    if i == 0 then unchanged(stores[0])
                    else Sent(stores[0], old(stores[0].sent), old(stores[0].writes), old(LeftOver(stores[0].disk)))
        invariant DisksWork() ==> safe
        invariant early ==> if i == 0 then Early() else Doomed()
      {
        var ok := FinalUpload(i, quiet);
        if !ok { safe := false; }
        i := i + 1;
      }
    }

    /** The file is as it was, and what was sent since carries it or was left over. */
    ghost predicate Sent(store: SaveStore, before: seq<Request>, writes: seq<Bytes>, left: Option<Request>)
      reads store
    {
      store.writes == writes && store.OnlyLatest(before, left)
    }

    /** Remove one working file, if its save is reflected. */
    method RemoveOne(i: nat)
      requires Valid() && i < |stores| && stores[i].present && stores[i].Concluded()
      requires exited ==> stores[i].TakenCareOf() && !stores[i].running
      modifies stores[i]
      ensures Valid() && stores[i].sent == old(stores[i].sent)
      ensures exited ==> stores[i].TakenCareOf() && !stores[i].running
      ensures old(Doomed()) ==> FileLost()
    {
      if !stores[i].slot.preserve {
        var removed := stores[i].RemoveWorkingFile();
      }
    }

    /** Remove the working files of the reflected saves. */
    method RemoveReflected()
      requires Watching() && AllConcluded() && (exited ==> AllTakenCareOf() && Quiescent())
      modifies stores
      ensures Valid() && (exited ==> AllTakenCareOf())
      ensures forall i | 0 <= i < |stores| :: stores[i].sent == old(stores[i].sent)
      ensures old(Doomed()) ==> FileLost()
    {
      var i := 0;
      while i < |stores|
        invariant 0 <= i <= |stores| && Valid()
        invariant exited ==> forall j | 0 <= j < |stores| :: stores[j].TakenCareOf() && !stores[j].running
        invariant forall j | i <= j < |stores| :: stores[j].present && stores[j].Concluded()
        invariant forall j | 0 <= j < |stores| :: stores[j].sent == old(stores[j].sent)
        invariant old(Doomed()) ==> if i == 0 then Doomed() else FileLost()
      {
        RemoveOne(i);
        i := i + 1;
      }
    }

    /** Complete the mobile session, in at most three attempts; an answer can be lost. */
    method CompleteMobile() returns (received: bool, answered: bool)
      ensures answered ==> received
      ensures answers ==> answered
    {
      received, answered := false, false;
      var attempt := 1;
      while attempt <= 3 && !answered
        invariant answered ==> received
        invariant answers ==> attempt == 1 || answered
      {
        var arrives: bool, returned: bool := *, *;
        received := received || arrives || answers;
        answered := received && (returned || answers);
        attempt := attempt + 1;
      }
    }

    /** Ask the server to end the session; only when it answers that it did may working files go. */
    method Release()
      requires Watching() && AllConcluded() && (exited ==> AllTakenCareOf() && Quiescent())
      modifies this`released, stores
      ensures Valid() && (exited ==> AllTakenCareOf())
      ensures forall i | 0 <= i < |stores| && !stores[i].present :: released
      ensures forall i | 0 <= i < |stores| :: stores[i].sent == old(stores[i].sent)
      ensures answers && old(Doomed()) ==> FileLost()
    {
      var received, answered := EndSession();
      if received && answered {
        RemoveReflected();
      }
      released := received;
    }

    method EndSession() returns (received: bool, answered: bool)
      ensures answers ==> received && answered
    {
      if Mobile() {
        received, answered := CompleteMobile();
      } else {
        var arrives: bool, returned: bool := *, *;
        received, answered := arrives || answers, returned || answers;
      }
    }

    /** The first working file has this content. */
    ghost predicate FileIs(bytes: Bytes)
      reads this, stores
    {
      |stores| > 0 && stores[0].writes != [] && stores[0].writes[|stores[0].writes| - 1] == bytes
    }

    ghost predicate ReceiptNamesFile()
      reads this, stores
    {
      && Mobile() && stores[0].writes != []
      && var content := stores[0].writes[|stores[0].writes| - 1]; MobileReceipt.Allows(receipt, |content|, digest(content))
    }

    /** The runtime's receipt lets the working file be uploaded only when it names its size and hash. */
    method ValidateReceipt() returns (valid: bool, text: string)
      requires Watching() && Mobile()
      ensures valid ==>
                var writes := stores[0].writes;
                writes != [] && MobileReceipt.Allows(text, |writes[|writes| - 1]|, digest(writes[|writes| - 1]))
    {
      valid, text := false, *;
      var read := stores[0].ReadWorkingFile();
      var written: bool := *;
      if written && read.Some? {
        valid := MobileReceipt.AllowsCommit(text, |read.value|, digest(read.value));
      }
    }

    /** The last uploads, with a receipt where one is needed. */
    method UploadAllowed(ghost content: Bytes) returns (safe: bool)
      requires Watching() && Unrecorded() && (exited ==> Quiescent())
      requires Mobile() ==> Untouched() && FileIs(content) && MobileReceipt.Allows(receipt, |content|, digest(content))
      modifies stores
      ensures Watching() && (exited ==> Quiescent())
      ensures safe ==> AllConcluded()
      ensures old(Early()) ==> Doomed() && safe
      ensures exited && safe ==> AllTakenCareOf()
      ensures exited && Mobile() ==> ReceiptRespected()
      ensures DisksWork() ==> safe
    {
      safe := UploadAllFinally();
    }

    /** With the emulator gone: upload, and end the session when everything is taken care of. */
    method FinishUploads(ghost content: Bytes)
      requires Watching() && Unrecorded() && !lost && ended && (exited ==> Quiescent())
      requires Mobile() ==> receiptValid && Untouched()
      requires Mobile() ==> FileIs(content) && MobileReceipt.Allows(receipt, |content|, digest(content))
      modifies this`released, stores
      ensures Cautious()
      ensures exited ==> MeetsSpec()
      ensures old(Early()) ==> FileLost()
    {
      var safe := UploadAllowed(content);
      ReleaseIf(safe);
    }

    method ReleaseIf(safe: bool)
      requires Watching() && !lost && ended && (exited ==> Quiescent()) && (DisksWork() ==> safe)
      requires safe ==> AllConcluded() && (exited ==> AllTakenCareOf())
      requires Mobile() ==> receiptValid && (exited ==> ReceiptRespected())
      modifies this`released, stores
      ensures Cautious()
      ensures exited ==> MeetsSpec()
      ensures active && safe && answers && old(Doomed()) ==> FileLost()
    {
      if active && safe {
        Release();
      }
    }

    /** After a lost heartbeat the saves are protected where they are. */
    method FinishLost()
      requires Watching() && lost && ended && !receiptValid && SentAre(sentAtLoss) && Untouched()
      modifies stores
      ensures Cautious()
      ensures exited ==> MeetsSpec()
    {
      ghost var now := Counts();
      assert Mobile() ==> now == sentAtStart;
      assert now == sentAtLoss;
      var preserved := PreserveAll(now);
    }

    /** So is the save of a mobile session without a receipt that allows it. */
    method FinishRejected()
      requires Watching() && !lost && ended && !receiptValid && Mobile() && SentAre(sentAtStart)
      modifies stores
      ensures Cautious()
      ensures exited ==> MeetsSpec()
    {
      var kept := stores[0].PreserveForRecovery();
    }

    /** A mobile session is uploaded only with a receipt for the file as it is now. */
    method FinishMobile()
      requires Watching() && Untouched() && !receiptValid && !lost && ended && Mobile() && (exited ==> Quiescent())
      modifies this`receiptValid, this`receipt, this`released, stores
      ensures Cautious()
      ensures exited ==> MeetsSpec()
    {
      receiptValid, receipt := ValidateReceipt();
      FinishChecked();
    }

    method FinishChecked()
      requires Watching() && Untouched() && !lost && ended && Mobile() && (exited ==> Quiescent())
      requires receiptValid ==> ReceiptNamesFile()
      requires !receiptValid ==> SentAre(sentAtStart)
      modifies this`released, stores
      ensures Cautious()
      ensures exited ==> MeetsSpec()
    {
      if receiptValid {
        FinishAllowed();
      } else {
        FinishRejected();
      }
    }

    method FinishAllowed()
      requires Watching() && Untouched() && receiptValid && !lost && ended && Mobile() && (exited ==> Quiescent())
      requires ReceiptNamesFile()
      modifies this`released, stores
      ensures Cautious()
      ensures exited ==> MeetsSpec()
    {
      FinishUploads(stores[0].writes[|stores[0].writes| - 1]);
    }

    /** Everything after the loop took the emulator to be gone. */
    method Finish()
      requires Watching() && Untouched() && !receiptValid && (exited ==> Quiescent())
      requires lost ==> SentAre(sentAtLoss)
      modifies this`ended, this`receiptValid, this`receipt, this`released, stores
      ensures Cautious() && ended
      ensures MeetsSpec() <==> exited
      ensures old(Early() && !lost) ==> FileLost()
    {
      ended := true;
      FinishEnded();
    }

    method FinishEnded()
      requires Watching() && Untouched() && !receiptValid && ended && (exited ==> Quiescent())
      requires lost ==> SentAre(sentAtLoss)
      modifies this`receiptValid, this`receipt, this`released, stores
      ensures Cautious()
      ensures exited ==> MeetsSpec()
      ensures old(Early() && !lost) ==> FileLost()
    {
      if lost {
        FinishLost();
      } else {
        FinishKept();
      }
    }

    /** The lock is still held: the saves are uploaded. */
    method FinishKept()
      requires Watching() && Untouched() && !receiptValid && !lost && ended && (exited ==> Quiescent())
      modifies this`receiptValid, this`receipt, this`released, stores
      ensures Cautious()
      ensures exited ==> MeetsSpec()
      ensures old(Early()) ==> FileLost()
    {
      if Mobile() {
        FinishMobile();
      } else {
        FinishUploads([]);
      }
    }

    /** One turn while the loop goes on. */
    method Turn(alive: bool, beat: nat, failures: nat) returns (beat': nat, failures': nat)
      requires Watching() && Untouched() && (!alive ==> Quiescent())
      requires beat < HEARTBEAT_SECONDS && (!lost ==> failures < FAILURE_LIMIT) && (lost ==> SentAre(sentAtLoss))
      modifies this`lost, this`sentAtLoss, this`beats, stores
      ensures Watching() && Untouched() && (!alive ==> Quiescent())
      ensures beat' < HEARTBEAT_SECONDS && (!lost ==> failures' < FAILURE_LIMIT) && (lost ==> SentAre(sentAtLoss))
      ensures old(lost) ==> lost
      ensures !lost ==> Elapsed(beats, beat') == Elapsed(old(beats), beat) + if active && alive then 1 else 0
      ensures !active ==> beats == old(beats) && lost == old(lost)
    {
      beat', failures' := beat, failures;
      if lost { return; }
      UploadRound(alive);
      if active && alive {
        var reply;
        beat', failures', reply := BeatIfDue(beat, failures);
      }
    }

    /** Between two seconds of a loop, the given number of which have passed. */
    ghost predicate OnWatch(tick: nat, beat: nat, failures: nat)
      reads this, stores
    {
      && Watching() && Untouched() && !ended && !receiptValid && (exited ==> Quiescent())
      && beat < HEARTBEAT_SECONDS && (!lost ==> failures < FAILURE_LIMIT) && (lost ==> SentAre(sentAtLoss))
      && (if active then !lost ==> Elapsed(beats, beat) == tick else beats == 0 && !lost)
    }

    method Look(tick: nat, beat: nat, failures: nat, gone: bool) returns (alive: bool)
      requires OnWatch(tick, beat, failures) && !exited
      modifies this`exited, stores
      ensures OnWatch(tick, beat, failures) && alive == !gone && exited == gone
      ensures alive && old(Early()) ==> Early()
    {
      alive := ChildAlive(gone);
      if lost { SentStays(); }
    }

    twostate lemma SentStays()
      requires old(SentAre(sentAtLoss)) && sentAtLoss == old(sentAtLoss)
      requires forall i | 0 <= i < |stores| :: stores[i].sent == old(stores[i].sent)
      ensures SentAre(sentAtLoss)
    {
    }

    /** A turn while the child runs. */
    method TurnAlive(tick: nat, beat: nat, failures: nat) returns (beat': nat, failures': nat)
      requires OnWatch(tick, beat, failures) && !exited
      modifies this`lost, this`sentAtLoss, this`beats, stores
      ensures OnWatch(tick + 1, beat', failures')
    {
      beat', failures' := Turn(true, beat, failures);
    }

    /** The turn after it is gone, in which nothing is beaten. */
    method TurnGone(tick: nat, beat: nat, failures: nat) returns (beat': nat, failures': nat)
      requires OnWatch(tick, beat, failures) && exited
      modifies this`lost, this`sentAtLoss, this`beats, stores
      ensures OnWatch(tick, beat', failures')
    {
      beat', failures' := Turn(false, beat, failures);
    }

    /** A loop that is still watching has kept to the specification so far. */
    lemma StillWatching(tick: nat, beat: nat, failures: nat)
      requires OnWatch(tick, beat, failures)
      ensures MeetsSpec() && Cautious() && !ended
      ensures active && !lost ==> BeatsDue(tick, beats)
      ensures !active ==> beats == 0 && !lost
    {
      if active { ElapsedDue(beats, beat, lost, tick); }
    }

    /** The child was gone, or a wait did not time out. */
    method FinishWatch(tick: nat, beat: nat, failures: nat)
      requires OnWatch(tick, beat, failures)
      modifies this`ended, this`receiptValid, this`receipt, this`released, stores
      ensures Cautious() && ended && (MeetsSpec() <==> exited)
      ensures active && !lost ==> BeatsDue(tick, beats)
      ensures !active ==> beats == 0 && !lost
      ensures old(Early() && !lost) ==> FileLost()
    {
      StillWatching(tick, beat, failures);
      Finish();
    }

    /** The last turn, after the child was gone, and the end. */
    method FinishGone(tick: nat, beat: nat, failures: nat)
      requires OnWatch(tick, beat, failures) && exited
      modifies this`ended, this`lost, this`receiptValid, this`receipt, this`released, this`sentAtLoss, this`beats, stores
      ensures MeetsSpec() && ended
      ensures active && !lost ==> BeatsDue(tick, beats)
      ensures !active ==> beats == 0 && !lost
    {
      var beat', failures' := TurnGone(tick, beat, failures);
      FinishWatch(tick, beat', failures');
    }

    /** The POSIX loop: look at the child, upload, beat, and finish once the child was gone.  lifetime is
        how long the child runs, seconds how long it is watched. */
    method WatchPosix(seconds: nat, lifetime: nat)
      requires Fresh() && beats == 0
      modifies this`exited, this`ended, this`lost, this`receiptValid, this`receipt, this`released, this`sentAtLoss, this`beats, stores
      ensures MeetsSpec()
      // an exit is noticed within the second, and until then one heartbeat is sent every fifteen seconds
      ensures ended <==> lifetime < seconds
      ensures active && !lost ==> BeatsDue(if ended then lifetime else seconds, beats)
      ensures !active ==> beats == 0 && !lost
    {
      var beat: nat, failures: nat, tick: nat := 0, 0, 0;
      while tick < seconds
        invariant OnWatch(tick, beat, failures) && !exited && tick <= seconds && tick <= lifetime
      {
        var alive := Look(tick, beat, failures, lifetime <= tick);
        if !alive {
          FinishGone(tick, beat, failures);
          return;
        }
        beat, failures := TurnAlive(tick, beat, failures);
        tick := tick + 1;
      }
      StillWatching(tick, beat, failures);
    }

    /** A wait that did not time out ends the watching. */
    method FinishWaiting(seconds: nat, lifetime: nat, failing: set<nat>, tick: nat, beat: nat, failures: nat)
      requires OnWatch(tick, beat, failures) && (exited <==> lifetime <= tick)
      requires tick < seconds && tick <= lifetime && NoneBefore(failing, tick)
      requires !Wait(failing, tick, tick < lifetime).TimedOut?
      modifies this`ended, this`receiptValid, this`receipt, this`released, stores
      ensures Outcome(seconds, lifetime, failing)
      ensures old(Early() && !lost) ==> FileLost()
    {
      WaitDecides(failing, seconds, lifetime, tick);
      FinishWatch(tick, beat, failures);
    }

    /** The Windows loop: wait for the process first, and only upload and beat while the wait times out.
        Every other answer counts as an exit, also that the wait itself failed. */
    method WatchWindows(seconds: nat, lifetime: nat, failing: set<nat>)
      requires Fresh() && beats == 0
      modifies this`exited, this`ended, this`lost, this`receiptValid, this`receipt, this`released, this`sentAtLoss, this`beats, stores
      ensures Cautious()
      // the specification is met exactly when no wait fails while the process runs
      ensures MeetsSpec() <==> Trustworthy(failing, seconds, lifetime)
      ensures Trustworthy(failing, seconds, lifetime) ==> (ended <==> lifetime < seconds)
      ensures active && !lost && Trustworthy(failing, seconds, lifetime) ==> BeatsDue(if ended then lifetime else seconds, beats)
      ensures !active ==> beats == 0 && !lost
      // when the first wait fails, the file can go before the emulator's last write
      ensures old(Early()) && 0 in failing && 0 < seconds && 0 < lifetime ==> FileLost()
    {
      WatchWaiting(seconds, lifetime, failing, Early() && 0 in failing && 0 < lifetime);
    }

    /** What the Windows loop comes to. */
    ghost predicate Outcome(seconds: nat, lifetime: nat, failing: set<nat>)
      reads this, stores
    {
      && Cautious() && (MeetsSpec() <==> Trustworthy(failing, seconds, lifetime))
      && (Trustworthy(failing, seconds, lifetime) ==> (ended <==> lifetime < seconds))
      && (active && !lost && Trustworthy(failing, seconds, lifetime) ==> BeatsDue(if ended then lifetime else seconds, beats))
      && (!active ==> beats == 0 && !lost)
    }

    method WatchWaiting(seconds: nat, lifetime: nat, failing: set<nat>, ghost early: bool)
      requires Fresh() && beats == 0 && (early ==> Early() && 0 in failing && 0 < lifetime)
      modifies this`exited, this`ended, this`lost, this`receiptValid, this`receipt, this`released, this`sentAtLoss, this`beats, stores
      ensures Outcome(seconds, lifetime, failing)
      ensures early && 0 < seconds ==> FileLost()
    {
      var beat: nat, failures: nat, tick: nat := 0, 0, 0;
      while tick < seconds
        invariant OnWatch(tick, beat, failures) && !exited && tick <= seconds && tick <= lifetime
        invariant NoneBefore(failing, tick)
        invariant early ==> tick == 0 && !lost && Early()
      {
        var alive := Look(tick, beat, failures, lifetime <= tick);
        if !Wait(failing, tick, alive).TimedOut? {
          FinishWaiting(seconds, lifetime, failing, tick, beat, failures);
          return;
        }
        NoneYet(failing, tick, alive);
        beat, failures := TurnAlive(tick, beat, failures);
        tick := tick + 1;
      }
      WatchedThrough(seconds, lifetime, failing, beat, failures);
    }

    lemma WatchedThrough(seconds: nat, lifetime: nat, failing: set<nat>, beat: nat, failures: nat)
      requires OnWatch(seconds, beat, failures) && seconds <= lifetime && NoneBefore(failing, seconds)
      ensures Outcome(seconds, lifetime, failing)
    {
      StillWatching(seconds, beat, failures);
    }
  }

  /** A failed wait loses a save: the Windows loop takes the emulator to be gone in the first second, finds the
      file as the server has it, and removes it after the emulator has written once more. */
  method FailedWaitLoses(content: Bytes, bytes: Bytes, digest: Bytes -> string) returns (store: SaveStore)
    requires bytes != content
    ensures fresh(store) && store.Lost(bytes)
  {
    store := new SaveStore(content, 0, true, true, true, Some(bytes));
    store.StartSession();
    WatchEarly(store, digest);
  }

  method WatchEarly(store: SaveStore, digest: Bytes -> string)
    requires store.Ready() && store.Known() && store.record.None? && store.running
    requires store.late.Some? && store.late.value != store.server.content
    modifies store
    ensures store.Lost(store.late.value)
  {
    var monitor := new Monitor([store], [false], true, false, true, digest);
    assert monitor.Early();
    monitor.WatchWindows(1, 1, {0});
    assert monitor.FileLost();
  }
}

/** The save-upload protocol of one (server, account, save) as a transition system.

    One client process, one envelope file on disk, one working SAV that a running emulator keeps changing,
    at most one recovery record that points at it, and one server that accepts an upload only at its
    current revision and answers a repeated request with its first result.  Every disk or network effect of the upload routine is
    one atomic step; between any two of them the emulator may write, an earlier request may reach
    the server (again), or the client may crash and lose its memory.

    The content hash is taken to be injective, so a hash is modelled by the bytes it stands for, and
    a request id (save id, revision, hash prefix) by the pair (revision, bytes).  The id of a record's
    request is the record's own; with the emulator gone its file no longer changes, so the pair does. */
module SaveProtocol {
  import opened Options

  newtype byte = x: int | 0 <= x < 256
  type Bytes = seq<byte>

  // ---------------------------------------------------------------- data

  /** One immutable upload: the revision it expects the server to hold, and the bytes. */
  datatype Request = Request(expected: nat, bytes: Bytes)

  /** The write-ahead record on disk; committed == 0 means "not known to be accepted". */
  datatype Envelope = Envelope(request: Request, committed: nat, error: string)

  /** base and initial never change; log lists the accepted requests in order. */
  datatype Server = Server(base: nat, initial: Bytes, revision: nat, content: Bytes,
                           memo: map<Request, nat>, log: seq<Request>)

  /** The client's in-memory view of the save; last is None for the empty hash. */
  datatype Slot = Slot(revision: nat, last: Option<Bytes>, preserve: bool)

  /** The parameters of one call of the upload routine, whether it began with the emulator gone (which the
      code does not look at), and its attempt counter. */
  datatype Call = Call(fenced: bool, final: bool, recovery: bool, quiet: bool, attempt: nat)

  /** Where the client stands: between calls, or between two effects of a call. */
  datatype Pc =
    | Down
    | Idle
    | Top(call: Call, entry: Option<Envelope>)
    | Staging(call: Call, entry: Option<Envelope>, request: Request, source: nat)
    | Clearing(call: Call, onDisk: bool)
    | Sending(call: Call, request: Request)
    | Awaiting(call: Call, request: Request)
    | Noting(call: Call, request: Request, text: string)
    | Marking(call: Call, request: Request, revision: nat)
    | Comparing(call: Call, envelope: Envelope)
    | Dropping(call: Call)
    | Done(call: Call, ok: bool)

  /** writes is the history of the working file (its last element is what it holds now), sent the
      history of requests put on the network, staged the history position each request was read at.
      record is the expected revision of a recovery record, which points at the working file, and replayed
      are the requests that were sent for such a record. */
  datatype Sys = Sys(writes: seq<Bytes>, present: bool, running: bool,
                     disk: Option<Envelope>, record: Option<nat>, sent: seq<Request>, server: Server,
                     staged: map<Request, nat>, replayed: set<Request>, slot: Slot, pc: Pc)
  {
    predicate HasFile() { writes != [] }

    function File(): Bytes
      requires HasFile()
    {
      writes[|writes| - 1]
    }

    /** What the replay of the recovery record sends. */
    function RecordRequest(): Request
      requires record.Some? && HasFile()
    {
      Request(record.value, File())
    }
  }

  const RESPONSE_PENDING := "SAVE RESPONSE PENDING"

  // ---------------------------------------------------------------- server

  /** Compare-and-swap on the revision, with a memo of finished requests. */
  function Accept(v: Server, q: Request): Server {
    if q in v.memo || q.expected != v.revision then v
    else v.(revision := v.revision + 1, content := q.bytes,
            memo := v.memo[q := v.revision + 1], log := v.log + [q])
  }

  // ---------------------------------------------------------------- steps

  datatype Action =
    // environment
    | EmulatorWrites(bytes: Bytes)
    | EmulatorExits
    | Deliver(index: nat)
    | Crash
    // sessions
    | StartSession
    | EndSession
    | DeleteWorkingFile
    | Protect(kept: bool, written: bool)
    // the replay of a recovery record
    | SendRecord
    | FinishRecord
    // the upload routine
    | Begin(fenced: bool, final: bool, recovery: bool)
    | ReadLatest
    | Resume
    | Stage
    | Clear
    | Send
    | ReplyAccepted
    | ReplyFailed(text: string)
    | NoteError
    | SkipNote
    | Mark
    | CompareEqual
    | CompareDiffers
    | Drop
    | Fail

  predicate Committed(e: Envelope) { e.committed > 0 }

  /** The state between two calls of an open session. */
  predicate Resting(pc: Pc) { pc.Idle? || (pc.Done? && !pc.call.recovery) }

  /** When the working file may be removed: after a final call reported the save as reflected, or
      after a recovery call left no envelope behind. */
  predicate MayDelete(s: Sys) {
    && s.pc.Done?
    && s.present
    && ((s.pc.call.final && s.pc.ok && !s.slot.preserve) || (s.pc.call.recovery && s.disk.None?))
  }

  predicate Enabled(s: Sys, a: Action) {
    match a
    case EmulatorWrites(_) => s.running && s.present
    case EmulatorExits => s.running
    case Deliver(i) => i < |s.sent|
    case Crash => true
    case StartSession => s.pc.Down? && s.disk.None? && s.record.None? && !s.running
    case EndSession => Resting(s.pc)
    case DeleteWorkingFile => MayDelete(s)
    case Protect(_, _) => Resting(s.pc)
    case SendRecord => s.pc.Down? && s.record.Some? && s.disk.None? && s.present && s.HasFile() && !s.running
    case FinishRecord => s.pc.Down? && s.record.Some? && s.HasFile() && !s.running && s.RecordRequest() in s.server.memo
    case Begin(fenced, final, recovery) =>
      && (recovery ==> s.pc.Down? && s.disk.Some?)
      && (!recovery ==> Resting(s.pc) && s.present && s.record.None?)
    case ReadLatest => s.pc.Top? && s.present && s.HasFile() && (s.pc.entry.None? || Committed(s.pc.entry.value))
    case Resume => s.pc.Top? && s.pc.entry.Some? && !Committed(s.pc.entry.value)
    case Stage => s.pc.Staging?
    case Clear => s.pc.Clearing?
    case Send => s.pc.Sending?
    case ReplyAccepted =>
      s.pc.Awaiting? && s.pc.request in s.server.memo && s.server.memo[s.pc.request] > s.pc.request.expected
    case ReplyFailed(_) => s.pc.Awaiting?
    case NoteError => s.pc.Noting? && s.pc.call.fenced
    case SkipNote => s.pc.Noting?
    case Mark => s.pc.Marking?
    case CompareEqual =>
      s.pc.Comparing? && s.present && s.HasFile() && s.File() == s.pc.envelope.request.bytes
    case CompareDiffers => s.pc.Comparing?
    case Drop => s.pc.Dropping?
    case Fail => s.pc.Top? || s.pc.Staging? || s.pc.Marking? || s.pc.Dropping? || (s.pc.Clearing? && s.pc.onDisk)
  }

  function Next(s: Sys, a: Action): Sys
    requires Enabled(s, a)
  {
    match a
    case EmulatorWrites(bytes) => s.(writes := s.writes + [bytes])
    case EmulatorExits => s.(running := false)
    case Deliver(i) => s.(server := Accept(s.server, s.sent[i]))
    case Crash => s.(pc := Down)
    case StartSession =>
      s.(writes := s.writes + [s.server.content], present := true, running := true,
         slot := Slot(s.server.revision, Some(s.server.content), false), pc := Idle)
    case EndSession => s.(pc := Down)
    case DeleteWorkingFile => s.(present := false, pc := Down)
    case Protect(kept, written) =>
      s.(slot := s.slot.(preserve := kept),
         record := if written && s.disk.None? then Some(s.slot.revision) else s.record, pc := Idle)
    case SendRecord =>
      var q := s.RecordRequest();
      s.(sent := s.sent + [q], replayed := s.replayed + {q},
         staged := if q in s.server.memo then s.staged else s.staged[q := |s.writes| - 1])
    case FinishRecord => s.(record := None, present := false)
    case Begin(fenced, final, recovery) =>
      s.(slot := if recovery then Slot(0, None, false) else s.slot,
         pc := Top(Call(fenced, final, recovery, !s.running, 0), s.disk))
    case ReadLatest =>
      var entry := s.pc.entry;
      var revision := if entry.Some? then entry.value.committed else s.slot.revision;
      var known := if entry.Some? then Some(entry.value.request.bytes) else s.slot.last;
      if known == Some(s.File()) then
        s.(slot := s.slot.(revision := revision, last := known), pc := Clearing(s.pc.call, entry.Some?))
      else
        s.(slot := s.slot.(revision := revision),
           pc := Staging(s.pc.call, entry, Request(revision, s.File()), |s.writes| - 1))
    case Resume => s.(pc := Sending(s.pc.call, s.pc.entry.value.request))
    case Stage =>
      s.(disk := Some(Envelope(s.pc.request, 0, RESPONSE_PENDING)),
         staged := s.staged[s.pc.request := s.pc.source], pc := Sending(s.pc.call, s.pc.request))
    case Clear =>
      s.(disk := if s.pc.onDisk then None else s.disk, slot := s.slot.(preserve := false), pc := Done(s.pc.call, true))
    case Send => s.(sent := s.sent + [s.pc.request], pc := Awaiting(s.pc.call, s.pc.request))
    case ReplyAccepted => s.(pc := Marking(s.pc.call, s.pc.request, s.server.memo[s.pc.request]))
    case ReplyFailed(text) => s.(pc := Noting(s.pc.call, s.pc.request, text))
    case NoteError =>
      s.(disk := Some(Envelope(s.pc.request, 0, s.pc.text)), slot := s.slot.(preserve := true),
         pc := Done(s.pc.call, s.pc.call.final))
    case SkipNote => s.(slot := s.slot.(preserve := true), pc := Done(s.pc.call, s.pc.call.final))
    case Mark =>
      var e := Envelope(s.pc.request, s.pc.revision, "");
      s.(disk := Some(e), slot := s.slot.(revision := s.pc.revision, last := Some(s.pc.request.bytes)),
         pc := Comparing(s.pc.call, e))
    case CompareEqual => s.(pc := Dropping(s.pc.call))
    case CompareDiffers =>
      if s.pc.call.attempt + 1 < 2 then
        s.(pc := Top(s.pc.call.(attempt := s.pc.call.attempt + 1), Some(s.pc.envelope)))
      else
        s.(slot := s.slot.(preserve := true), pc := Done(s.pc.call, true))
    case Drop => s.(disk := None, slot := s.slot.(preserve := false), pc := Done(s.pc.call, true))
    case Fail => s.(slot := s.slot.(preserve := s.slot.preserve || s.disk.Some?), pc := Done(s.pc.call, false))
  }

  predicate Init(s: Sys) {
    && s.writes == [s.server.initial] && !s.present && !s.running
    && s.disk.None? && s.record.None? && s.sent == [] && s.staged == map[] && s.replayed == {} && s.pc.Down?
    && s.server.revision == s.server.base && s.server.content == s.server.initial
    && s.server.memo == map[] && s.server.log == []
  }

  // ---------------------------------------------------------------- runs

  /** A finite run: action k leads from state k to state k + 1. */
  datatype Run = Run(states: seq<Sys>, actions: seq<Action>)

  predicate StepAt(r: Run, k: nat)
    requires k < |r.actions| && |r.states| == |r.actions| + 1
  {
    Enabled(r.states[k], r.actions[k]) && r.states[k + 1] == Next(r.states[k], r.actions[k])
  }

  predicate IsRun(r: Run) {
    && |r.states| == |r.actions| + 1
    && Init(r.states[0])
    && forall k {:trigger StepAt(r, k)} | 0 <= k < |r.actions| :: StepAt(r, k)
  }

  function Last(r: Run): Sys
    requires IsRun(r)
  {
    r.states[|r.actions|]
  }

  /** The run continued by one enabled action. */
  function Continue(r: Run, a: Action): (r': Run)
    requires IsRun(r) && Enabled(Last(r), a)
    ensures IsRun(r') && Last(r') == Next(Last(r), a) && r.actions <= r'.actions && r.states <= r'.states
  {
    var r' := Run(r.states + [Next(Last(r), a)], r.actions + [a]);
    assert forall k | 0 <= k < |r.actions| :: StepAt(r, k) ==> StepAt(r', k);
    r'
  }

  // ---------------------------------------------------------------- the invariant

  /** Entry i of the server's log is the request that took revision base + i to the next one. */
  predicate Numbered(v: Server, i: nat)
    requires i < |v.log|
  {
    v.log[i].expected == v.base + i && v.log[i] in v.memo && v.memo[v.log[i]] == v.base + i + 1
  }

  /** The request is in the log, at the place its expected revision says. */
  predicate Logged(v: Server, q: Request) {
    v.base <= q.expected < v.base + |v.log| && v.log[q.expected - v.base] == q
  }

  /** The log is numbered by revision, the memo is its index, and the content its last entry. */
  predicate ServerOk(v: Server) {
    && v.revision == v.base + |v.log|
    && (forall i {:trigger Numbered(v, i)} | 0 <= i < |v.log| :: Numbered(v, i))
    && (forall q {:trigger Logged(v, q)} | q in v.memo :: Logged(v, q))
    && v.content == (if v.log == [] then v.initial else v.log[|v.log| - 1].bytes)
  }

  /** The request holds what the working file held at its recorded position in the history. */
  predicate Traced(s: Sys, q: Request) {
    q in s.staged && s.staged[q] < |s.writes| && s.writes[s.staged[q]] == q.bytes
  }

  /** Log entry i was read from the working file, at an earlier position than k. */
  predicate ReadBefore(s: Sys, i: nat, k: nat)
    requires i < |s.server.log|
  {
    Traced(s, s.server.log[i]) && s.staged[s.server.log[i]] < k
  }

  /** Everything accepted so far was read from an earlier position than k. */
  predicate NewerThanLog(s: Sys, k: nat) {
    forall i {:trigger ReadBefore(s, i, k)} | 0 <= i < |s.server.log| :: ReadBefore(s, i, k)
  }

  predicate LogOrdered(s: Sys) {
    && (forall i {:trigger s.server.log[i]} | 0 <= i < |s.server.log| :: Traced(s, s.server.log[i]))
    && (forall i, j {:trigger s.server.log[i], s.server.log[j]} | 0 <= i < j < |s.server.log| ::
          s.server.log[i] in s.staged && s.server.log[j] in s.staged && InOrder(s, s.server.log[i], s.server.log[j]))
  }

  /** p was read before q; the replay of a record may send once more what was already accepted. */
  predicate InOrder(s: Sys, p: Request, q: Request)
    requires p in s.staged && q in s.staged
  {
    s.staged[p] < s.staged[q] || (s.staged[p] == s.staged[q] && q in s.replayed)
  }

  predicate SentTraced(s: Sys) {
    forall i {:trigger s.sent[i]} | 0 <= i < |s.sent| :: Traced(s, s.sent[i])
  }

  predicate HistoryOk(s: Sys) { LogOrdered(s) && SentTraced(s) }

  /** Accepted, and nothing accepted since. */
  predicate Landed(s: Sys, q: Request) {
    q in s.server.memo && q.expected + 1 == s.server.revision
  }

  /** Not accepted yet, acceptable now, and newer than everything accepted. */
  predicate Outstanding(s: Sys, q: Request) {
    && q !in s.server.memo && q.expected == s.server.revision
    && q in s.staged && NewerThanLog(s, s.staged[q])
  }

  predicate Unresolved(s: Sys, q: Request) {
    s.disk.Some? && s.disk.value.request == q && !Committed(s.disk.value)
  }

  predicate DiskOk(s: Sys) {
    s.disk.Some? ==>
      && s.present
      && Traced(s, s.disk.value.request)
      && (if Committed(s.disk.value)
          then Landed(s, s.disk.value.request) && s.disk.value.committed == s.server.revision
          else Landed(s, s.disk.value.request) || Outstanding(s, s.disk.value.request))
  }

  /** The request of a recovery record, sent with the emulator gone and not accepted yet. */
  predicate Replaying(s: Sys, q: Request) {
    && s.record.Some? && s.disk.None? && s.pc.Down? && !s.running && s.HasFile()
    && q == s.RecordRequest() && q.expected == s.server.revision
    && q in s.replayed && q in s.staged && s.staged[q] == |s.writes| - 1
  }

  /** A request on the network is finished at the server, or is the one on disk, or that of the record. */
  predicate SentOk(s: Sys) {
    forall i {:trigger s.sent[i]} | 0 <= i < |s.sent| ::
      s.sent[i] in s.server.memo || Unresolved(s, s.sent[i]) || Replaying(s, s.sent[i])
  }

  /** A record is written without an envelope, ends the session, and stays for the current revision until
      exactly its request is accepted. */
  predicate RecordOk(s: Sys) {
    s.record.Some? ==>
      && s.present && s.disk.None? && (s.pc.Idle? || s.pc.Down?) && s.HasFile()
      && (s.record.value == s.server.revision || (!s.running && s.pc.Down? && Landed(s, s.RecordRequest())))
  }

  predicate SlotKnows(s: Sys) {
    s.slot.revision == s.server.revision && s.slot.last == Some(s.server.content)
  }

  predicate Reflected(s: Sys) { s.HasFile() && s.File() == s.server.content }

  predicate PcOk(s: Sys) {
    && (!s.pc.Down? ==> s.present && (s.disk.None? ==> SlotKnows(s)))
    && (!s.pc.Down? && !s.pc.Idle? ==>
          && (s.pc.call.quiet ==> !s.running)
          && (s.pc.call.recovery && !s.pc.Done? ==> s.disk.Some?)
          && s.pc.call.attempt < 2)
    && match s.pc
       case Down => true
       case Idle => true
       case Top(_, entry) =>
         && entry.Some? == s.disk.Some?
         && (entry.Some? ==> entry.value.request == s.disk.value.request && entry.value.committed == s.disk.value.committed)
       case Staging(_, _, q, source) =>
         && (s.disk.Some? ==> Committed(s.disk.value))
         && q.expected == s.server.revision
         && source < |s.writes| && s.writes[source] == q.bytes && NewerThanLog(s, source)
       case Clearing(c, onDisk) =>
         && onDisk == s.disk.Some? && (onDisk ==> Committed(s.disk.value))
         && SlotKnows(s) && (c.quiet ==> Reflected(s))
       case Sending(_, q) => Unresolved(s, q)
       case Awaiting(_, q) => Unresolved(s, q) && q in s.sent
       case Noting(_, q, _) => Unresolved(s, q)
       case Marking(_, q, revision) => Unresolved(s, q) && Landed(s, q) && revision == s.server.revision
       case Comparing(_, e) => s.disk == Some(e) && Committed(e) && SlotKnows(s)
       case Dropping(c) => s.disk.Some? && Committed(s.disk.value) && SlotKnows(s) && (c.quiet ==> Reflected(s))
       case Done(c, ok) =>
         && (c.quiet && ok && !s.slot.preserve ==> s.disk.None? && Reflected(s))
         && (c.quiet && c.recovery && s.disk.None? ==> Reflected(s))
         && (ok ==> (s.slot.preserve <==> s.disk.Some?))
  }

  predicate Inv(s: Sys) {
    && s.HasFile()
    && ServerOk(s.server) && HistoryOk(s) && DiskOk(s) && SentOk(s) && PcOk(s) && RecordOk(s)
  }

  lemma InitInv(s: Sys)
    requires Init(s)
    ensures Inv(s)
  {
  }

  /** Accepting the outstanding request keeps the server's log numbered. */
  lemma AcceptNumbered(v: Server, q: Request)
    requires ServerOk(v) && q !in v.memo && q.expected == v.revision
    ensures ServerOk(Accept(v, q))
  {
    var v' := Accept(v, q);
    var n := |v.log|;
    forall i | 0 <= i < |v'.log| ensures Numbered(v', i) {
      if i < n {
        assert Numbered(v, i) && v'.log[i] == v.log[i];
      }
    }
    forall p | p in v'.memo ensures Logged(v', p) {
      if p != q {
        assert Logged(v, p);
      }
    }
  }

  /** ... and its entries in the order the working file went through them. */
  lemma AcceptOrdered(s: Sys, q: Request)
    requires LogOrdered(s) && Traced(s, q) && q !in s.server.memo && q.expected == s.server.revision
    requires forall i {:trigger s.server.log[i]} | 0 <= i < |s.server.log| ::
               s.server.log[i] in s.staged && InOrder(s, s.server.log[i], q)
    ensures LogOrdered(s.(server := Accept(s.server, q)))
  {
    var s' := s.(server := Accept(s.server, q));
    var n := |s.server.log|;
    forall i | 0 <= i < |s'.server.log| ensures Traced(s', s'.server.log[i]) {
      if i < n { assert s'.server.log[i] == s.server.log[i]; assert Traced(s, s.server.log[i]); }
    }
    forall i, j | 0 <= i < j < |s'.server.log|
      ensures s'.server.log[i] in s'.staged && s'.server.log[j] in s'.staged
      ensures InOrder(s', s'.server.log[i], s'.server.log[j])
    {
      assert s'.server.log[i] == s.server.log[i];
      if j < n {
        assert s'.server.log[j] == s.server.log[j];
        assert InOrder(s, s.server.log[i], s.server.log[j]);
      } else {
        assert InOrder(s, s.server.log[i], q);
      }
    }
  }

  /** An outstanding request is newer than what was accepted, and that of a record not older. */
  lemma NextInOrder(s: Sys, q: Request)
    requires Inv(s) && q !in s.server.memo && (Outstanding(s, q) || Replaying(s, q))
    ensures forall i {:trigger s.server.log[i]} | 0 <= i < |s.server.log| ::
              s.server.log[i] in s.staged && InOrder(s, s.server.log[i], q)
  {
    forall i | 0 <= i < |s.server.log| ensures s.server.log[i] in s.staged && InOrder(s, s.server.log[i], q) {
      assert Traced(s, s.server.log[i]);
      if Outstanding(s, q) { assert ReadBefore(s, i, s.staged[q]); }
    }
  }

  /** With nothing outstanding, a late or duplicated request cannot move the server. */
  lemma DeliverInv(s: Sys, i: nat)
    requires Inv(s) && i < |s.sent|
    ensures Inv(Next(s, Deliver(i)))
  {
    var q := s.sent[i];
    var s' := Next(s, Deliver(i));
    if q !in s.server.memo && q.expected == s.server.revision {
      assert Traced(s, q) && (Unresolved(s, q) || Replaying(s, q));
      NextInOrder(s, q);
      AcceptNumbered(s.server, q);
      AcceptOrdered(s, q);
      assert SentTraced(s') by { assert forall k | 0 <= k < |s.sent| :: Traced(s, s.sent[k]); }
      assert Landed(s', q);
      DeliverSent(s, q);
      if Unresolved(s, q) { DeliverPc(s, q); }
    } else {
      assert s' == s;
    }
  }

  lemma DeliverSent(s: Sys, q: Request)
    requires Inv(s) && q !in s.server.memo && q.expected == s.server.revision && (Unresolved(s, q) || Replaying(s, q))
    ensures SentOk(s.(server := Accept(s.server, q)))
  {
    var s' := s.(server := Accept(s.server, q));
    forall k | 0 <= k < |s.sent| ensures s'.sent[k] in s'.server.memo || Unresolved(s', s'.sent[k]) {
      assert s.sent[k] in s.server.memo || Unresolved(s, s.sent[k]) || Replaying(s, s.sent[k]);
    }
  }

  lemma DeliverPc(s: Sys, q: Request)
    requires Inv(s) && Unresolved(s, q) && q !in s.server.memo && q.expected == s.server.revision
    ensures PcOk(s.(server := Accept(s.server, q)))
  {
  }

  /** Growing the history of the working file changes nothing recorded about it. */
  lemma WriteHistory(s: Sys, bytes: Bytes)
    requires Inv(s) && (s.running || s.record.None?)
    ensures var s' := s.(writes := s.writes + [bytes]);
            HistoryOk(s') && DiskOk(s') && SentOk(s') && (s.pc.Staging? && NewerThanLog(s, s.pc.source) ==> NewerThanLog(s', s.pc.source))
  {
    var s' := s.(writes := s.writes + [bytes]);
    assert forall k | 0 <= k < |s.writes| :: s'.writes[k] == s.writes[k];
    forall q | Traced(s, q) ensures Traced(s', q) {}
    forall k: nat | NewerThanLog(s, k) ensures NewerThanLog(s', k) {
      forall i | 0 <= i < |s'.server.log| ensures ReadBefore(s', i, k) { assert ReadBefore(s, i, k); }
    }
    LogInMemo(s.server);
    SameOrder(s, s');
    assert LogOrdered(s') by { assert forall i | 0 <= i < |s.server.log| :: Traced(s, s.server.log[i]); }
    assert SentTraced(s') by { assert forall i | 0 <= i < |s.sent| :: Traced(s, s.sent[i]); }
    assert forall i | 0 <= i < |s.sent| && Unresolved(s, s.sent[i]) :: Unresolved(s', s.sent[i]);
  }

  /** Where requests were read is all that their order depends on. */
  lemma SameOrder(s: Sys, s': Sys)
    requires LogOrdered(s) && s'.server == s.server && s.replayed <= s'.replayed
    requires forall q | q in s.server.memo && q in s.staged :: q in s'.staged && s'.staged[q] == s.staged[q]
    requires forall i {:trigger s.server.log[i]} | 0 <= i < |s.server.log| :: s.server.log[i] in s.server.memo
    ensures forall i, j {:trigger s'.server.log[i], s'.server.log[j]} | 0 <= i < j < |s'.server.log| ::
              s'.server.log[i] in s'.staged && s'.server.log[j] in s'.staged && InOrder(s', s'.server.log[i], s'.server.log[j])
  {
    forall i, j | 0 <= i < j < |s'.server.log|
      ensures s'.server.log[i] in s'.staged && s'.server.log[j] in s'.staged && InOrder(s', s'.server.log[i], s'.server.log[j])
    {
      assert InOrder(s, s.server.log[i], s.server.log[j]);
    }
  }

  lemma LogInMemo(v: Server)
    requires ServerOk(v)
    ensures forall i {:trigger v.log[i]} | 0 <= i < |v.log| :: v.log[i] in v.memo
  {
    forall i | 0 <= i < |v.log| ensures v.log[i] in v.memo { assert Numbered(v, i); }
  }

  lemma WriteInv(s: Sys, bytes: Bytes)
    requires Inv(s) && Enabled(s, EmulatorWrites(bytes))
    ensures Inv(Next(s, EmulatorWrites(bytes)))
  {
    WriteHistory(s, bytes);
  }

  lemma StartInv(s: Sys)
    requires Inv(s) && Enabled(s, StartSession)
    ensures Inv(Next(s, StartSession))
  {
    var s' := Next(s, StartSession);
    WriteHistory(s, s.server.content);
    assert LogOrdered(s') by { assert forall i | 0 <= i < |s.server.log| :: Traced(s, s.server.log[i]); }
    assert SentTraced(s') by { assert forall i | 0 <= i < |s.sent| :: Traced(s, s.sent[i]); }
  }

  /** What the file holds now, when it differs from the server, is newer than everything accepted. */
  lemma DifferentIsNewer(s: Sys)
    requires Inv(s) && s.File() != s.server.content
    ensures NewerThanLog(s, |s.writes| - 1)
  {
    var now := |s.writes| - 1;
    forall i | 0 <= i < |s.server.log| ensures ReadBefore(s, i, now) {
      var last := |s.server.log| - 1;
      assert Traced(s, s.server.log[last]) && Traced(s, s.server.log[i]);
    }
  }

  lemma ReadInv(s: Sys)
    requires Inv(s) && Enabled(s, ReadLatest)
    ensures Inv(Next(s, ReadLatest))
  {
    var s' := Next(s, ReadLatest);
    EntryKnowsServer(s);
    SameHistory(s, s');
    SameSent(s, s');
    if s.File() != s.server.content {
      DifferentIsNewer(s);
    }
  }

  /** The last accepted request is what the server holds, and its memo holds the current revision. */
  lemma LandedIsCurrent(s: Sys, q: Request)
    requires ServerOk(s.server) && Landed(s, q)
    ensures s.server.content == q.bytes && s.server.memo[q] == s.server.revision
  {
    assert Logged(s.server, q);
    assert Numbered(s.server, q.expected - s.server.base);
  }

  /** At the head of the loop, what the client compares the file with is what the server holds. */
  lemma EntryKnowsServer(s: Sys)
    requires Inv(s) && Enabled(s, ReadLatest)
    ensures var entry := s.pc.entry;
            && (if entry.Some? then entry.value.committed else s.slot.revision) == s.server.revision
            && (if entry.Some? then Some(entry.value.request.bytes) else s.slot.last) == Some(s.server.content)
  {
    if s.disk.Some? {
      LandedIsCurrent(s, s.disk.value.request);
    }
  }

  lemma StageInv(s: Sys)
    requires Inv(s) && Enabled(s, Stage)
    ensures Inv(Next(s, Stage))
  {
    var s' := Next(s, Stage);
    var q := s.pc.request;
    assert q !in s.server.memo by { assert q in s.server.memo ==> Logged(s.server, q); }
    forall i | 0 <= i < |s.sent| ensures Traced(s', s.sent[i]) && s.sent[i] in s.server.memo {
      assert Traced(s, s.sent[i]);
    }
    forall i | 0 <= i < |s.server.log|
      ensures Traced(s', s.server.log[i]) && s'.staged[s.server.log[i]] == s.staged[s.server.log[i]]
    {
      assert Traced(s, s.server.log[i]) && Numbered(s.server, i);
    }
    forall i | 0 <= i < |s'.server.log| ensures ReadBefore(s', i, s.pc.source) {
      assert ReadBefore(s, i, s.pc.source);
    }
    LogInMemo(s.server);
    SameOrder(s, s');
    assert Outstanding(s', q);
  }

  lemma SendInv(s: Sys)
    requires Inv(s) && Enabled(s, Send)
    ensures Inv(Next(s, Send))
  {
    var s' := Next(s, Send);
    var n := |s.sent|;
    assert s'.sent[n] == s.pc.request;
    forall k | 0 <= k < |s'.sent|
      ensures Traced(s', s'.sent[k]) && (s'.sent[k] in s'.server.memo || Unresolved(s', s'.sent[k]))
    {
      if k < n {
        assert s'.sent[k] == s.sent[k] && Traced(s, s.sent[k]);
      }
    }
    SameHistory(s, s');
  }

  /** Steps that leave the network and the unresolved request alone. */
  lemma SameSent(s: Sys, s': Sys)
    requires Inv(s) && s'.server == s.server && s'.staged == s.staged && s'.writes == s.writes && s'.sent == s.sent
    requires forall q | Unresolved(s, q) :: q in s'.server.memo || Unresolved(s', q)
    requires forall q | Replaying(s, q) :: q in s'.server.memo || Replaying(s', q)
    ensures SentTraced(s') && SentOk(s')
  {
    forall i | 0 <= i < |s.sent|
      ensures Traced(s', s'.sent[i]) && (s'.sent[i] in s'.server.memo || Unresolved(s', s'.sent[i]) || Replaying(s', s'.sent[i]))
    {
      assert Traced(s, s.sent[i]);
      assert s.sent[i] in s.server.memo || Unresolved(s, s.sent[i]) || Replaying(s, s.sent[i]);
    }
  }

  /** Steps that touch neither the server nor the recorded history. */
  lemma SameHistory(s: Sys, s': Sys)
    requires Inv(s) && s'.server == s.server && s'.staged == s.staged && s'.writes == s.writes && s'.replayed == s.replayed
    ensures LogOrdered(s')
    ensures forall k: nat | NewerThanLog(s, k) :: NewerThanLog(s', k)
    ensures forall q | Traced(s, q) :: Traced(s', q)
  {
    LogInMemo(s.server);
    SameOrder(s, s');
    assert forall i | 0 <= i < |s.server.log| :: Traced(s, s.server.log[i]);
    forall k: nat | NewerThanLog(s, k) ensures NewerThanLog(s', k) {
      forall i | 0 <= i < |s'.server.log| ensures ReadBefore(s', i, k) { assert ReadBefore(s, i, k); }
    }
  }

  /** The replay of a record sends the file as it is, newer than or the same as what was accepted last. */
  lemma RecordInv(s: Sys)
    requires Inv(s) && Enabled(s, SendRecord)
    ensures Inv(Next(s, SendRecord))
  {
    var s', q, n := Next(s, SendRecord), s.RecordRequest(), |s.sent|;
    LogInMemo(s.server);
    SameOrder(s, s');
    forall i | 0 <= i < |s.server.log| ensures Traced(s', s'.server.log[i]) { assert Traced(s, s.server.log[i]); }
    if q in s.server.memo { LandedTraced(s, q); }
    forall k | 0 <= k < |s'.sent|
      ensures Traced(s', s'.sent[k]) && (s'.sent[k] in s'.server.memo || Unresolved(s', s'.sent[k]) || Replaying(s', s'.sent[k]))
    {
      if k < n {
        assert s'.sent[k] == s.sent[k] && Traced(s, s.sent[k]);
        assert s.sent[k] in s.server.memo || Replaying(s, s.sent[k]);
      }
    }
  }

  lemma LandedTraced(s: Sys, q: Request)
    requires Inv(s) && q in s.server.memo
    ensures Traced(s, q)
  {
    assert Logged(s.server, q);
    assert Traced(s, s.server.log[q.expected - s.server.base]);
  }

  /** Once its request is accepted, the record goes and its file with it. */
  lemma FinishInv(s: Sys)
    requires Inv(s) && Enabled(s, FinishRecord)
    ensures Inv(Next(s, FinishRecord))
  {
    SameHistory(s, Next(s, FinishRecord));
    SameSent(s, Next(s, FinishRecord));
  }

  /** Steps that are not those of the upload routine, and do not only change the client's memory. */
  predicate Outside(a: Action) { a.EmulatorWrites? || a.Deliver? || a.StartSession? || a.SendRecord? || a.FinishRecord? }

  /** Steps that move neither the server, the network, the envelope, nor the history of the working file. */
  predicate Local(a: Action) {
    !Outside(a) && !a.ReadLatest? && !a.Stage? && !a.Send? && !a.Clear? && !a.NoteError? && !a.Mark? && !a.Drop?
  }

  /** Every step keeps the invariant. */
  lemma StepInv(s: Sys, a: Action)
    requires Inv(s) && Enabled(s, a)
    ensures Inv(Next(s, a))
  {
    if Outside(a) {
      OutsideInv(s, a);
    } else if Local(a) {
      LocalInv(s, a);
    } else {
      RoutineInv(s, a);
    }
  }

  lemma OutsideInv(s: Sys, a: Action)
    requires Inv(s) && Enabled(s, a) && Outside(a)
    ensures Inv(Next(s, a))
  {
    match a
    case EmulatorWrites(bytes) => WriteInv(s, bytes);
    case Deliver(i) => DeliverInv(s, i);
    case StartSession => StartInv(s);
    case SendRecord => RecordInv(s);
    case FinishRecord => FinishInv(s);
  }

  lemma RoutineInv(s: Sys, a: Action)
    requires Inv(s) && Enabled(s, a) && !Outside(a) && !Local(a)
    ensures Inv(Next(s, a))
  {
    match a
    case ReadLatest => ReadInv(s);
    case Stage => StageInv(s);
    case Send => SendInv(s);
    case _ => EnvelopeInv(s, a);
  }

  /** Marking, rewriting the error text and removing the envelope. */
  lemma EnvelopeInv(s: Sys, a: Action)
    requires Inv(s) && Enabled(s, a) && (a.Clear? || a.NoteError? || a.Mark? || a.Drop?)
    ensures Inv(Next(s, a))
  {
    var s' := Next(s, a);
    SameHistory(s, s');
    SameSent(s, s');
    if s.disk.Some? && Landed(s, s.disk.value.request) {
      LandedIsCurrent(s, s.disk.value.request);
    }
    assert DiskOk(s');
    assert PcOk(s');
  }

  /** The remaining steps. */
  lemma LocalInv(s: Sys, a: Action)
    requires Inv(s) && Enabled(s, a) && Local(a)
    ensures Inv(Next(s, a))
  {
    LocalWorld(s, a);
    SameWorld(s, Next(s, a));
    LocalPc(s, a);
    LocalRecord(s, a);
  }

  lemma LocalWorld(s: Sys, a: Action)
    requires Inv(s) && Enabled(s, a) && Local(a)
    ensures var s' := Next(s, a);
            && s'.server == s.server && s'.staged == s.staged && s'.writes == s.writes && s'.sent == s.sent
            && s'.disk == s.disk && (s'.present == s.present || s.disk.None?) && s'.replayed == s.replayed
    ensures forall q | Replaying(s, q) :: Replaying(Next(s, a), q)
  {
  }

  lemma LocalRecord(s: Sys, a: Action)
    requires Inv(s) && Enabled(s, a) && Local(a)
    ensures RecordOk(Next(s, a))
  {
  }

  /** Steps of the client's memory only. */
  lemma SameWorld(s: Sys, s': Sys)
    requires Inv(s) && s'.server == s.server && s'.staged == s.staged && s'.writes == s.writes && s'.sent == s.sent
    requires s'.disk == s.disk && (s'.present == s.present || s.disk.None?) && s'.replayed == s.replayed
    requires forall q | Replaying(s, q) :: q in s'.server.memo || Replaying(s', q)
    ensures HistoryOk(s') && SentOk(s') && DiskOk(s')
  {
    SameHistory(s, s');
    SameSent(s, s');
  }

  lemma LocalPc(s: Sys, a: Action)
    requires Inv(s) && Enabled(s, a) && Local(a)
    ensures PcOk(Next(s, a))
  {
    if a.ReplyAccepted? || a.CompareEqual? {
      LandedIsCurrent(s, s.disk.value.request);
    } else if a.EmulatorExits? && s.pc.Staging? {
      SameHistory(s, Next(s, a));
    }
  }

  /** Every state of every run satisfies the invariant. */
  lemma {:induction false} RunInv(r: Run, k: nat)
    requires IsRun(r) && k < |r.states|
    ensures Inv(r.states[k])
  {
    if k == 0 {
      InitInv(r.states[0]);
    } else {
      RunInv(r, k - 1);
      assert StepAt(r, k - 1);
      StepInv(r.states[k - 1], r.actions[k - 1]);
    }
  }
}

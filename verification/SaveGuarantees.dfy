/** What every run of the save-upload protocol guarantees, with crashes, lost replies, late and
    duplicated deliveries and an emulator that writes at any moment. */
module SaveGuarantees {
  import opened Options
  import opened SaveProtocol

  /** A record is written for every save, also for one the server holds already: the replay then uploads the
      same content once more. */
  lemma UnchangedIsSentAgain(start: Sys) returns (r: Run)
    requires Init(start)
    ensures IsRun(r) && r.states[0] == start
    ensures Last(r).server.log == [Request(start.server.revision, start.server.content)]
    ensures Last(r).server.content == start.server.content
  {
    r := UnchangedRecord(start);
    r := Continue(r, SendRecord);
    assert Last(r).sent == [Request(start.server.revision, start.server.content)];
    r := Continue(r, Deliver(0));
  }

  lemma UnchangedRecord(start: Sys) returns (r: Run)
    requires Init(start)
    ensures IsRun(r) && r.states[0] == start
    ensures var s := Last(r);
            && s.pc.Down? && s.record == Some(start.server.revision) && s.disk.None? && s.present && !s.running
            && s.HasFile() && s.File() == start.server.content && s.server == start.server && s.sent == []
  {
    r := FirstSession(start);
    r := Continue(r, Protect(true, true));
    r := Continue(r, EmulatorExits);
    r := Continue(r, EndSession);
  }

  lemma {:induction false} SameServerStart(r: Run, k: nat)
    requires IsRun(r) && k < |r.states|
    ensures r.states[k].server.base == r.states[0].server.base
    ensures r.states[k].server.initial == r.states[0].server.initial
  {
    if k > 0 {
      SameServerStart(r, k - 1);
      assert StepAt(r, k - 1);
    }
  }

  /** The accepted snapshots are pairwise different requests, each read from the working file, in the
      order the file went through them; the revision counts them, and the last one is the content.  Only
      the replay of a recovery record can send a snapshot a second time, as another revision. */
  lemma AcceptedInOrder(r: Run, k: nat)
    requires IsRun(r) && k < |r.states|
    ensures var s := r.states[k];
            var log := s.server.log;
            && s.server.revision == r.states[0].server.revision + |log|
            && s.server.content == (if log == [] then r.states[0].server.content else log[|log| - 1].bytes)
            && (forall i | 0 <= i < |log| ::
                  log[i] in s.staged && s.staged[log[i]] < |s.writes| && log[i].bytes == s.writes[s.staged[log[i]]])
            && (forall i, j | 0 <= i < j < |log| ::
                  && log[i] != log[j] && s.staged[log[i]] <= s.staged[log[j]]
                  && (s.staged[log[i]] == s.staged[log[j]] ==> log[j] in s.replayed))
  {
    RunInv(r, k);
    SameServerStart(r, k);
    var s := r.states[k];
    assert forall i | 0 <= i < |s.server.log| :: Numbered(s.server, i) && Traced(s, s.server.log[i]);
    assert forall i, j | 0 <= i < j < |s.server.log| :: InOrder(s, s.server.log[i], s.server.log[j]);
  }

  /** Requests count as replayed only when a record was replayed; a run without that is strictly in order. */
  lemma {:induction false} ReplayedAreSent(r: Run, k: nat)
    requires IsRun(r) && k < |r.states| && forall j | 0 <= j < k :: !r.actions[j].SendRecord?
    ensures r.states[k].replayed == {}
  {
    if k > 0 {
      ReplayedAreSent(r, k - 1);
      assert StepAt(r, k - 1);
    }
  }

  /** Every accepted snapshot was read at a later place of the history than those before. */
  predicate Strict(s: Sys) {
    forall i, j {:trigger s.server.log[i], s.server.log[j]} | 0 <= i < j < |s.server.log| ::
      s.server.log[i] in s.staged && s.server.log[j] in s.staged && s.staged[s.server.log[i]] < s.staged[s.server.log[j]]
  }

  /** The server is about to accept what a record points at, and nobody has written that file since the last
      accepted snapshot was read from it. */
  predicate Repeats(s: Sys, a: Action) {
    && a.Deliver? && a.index < |s.sent| && s.record.Some? && s.HasFile()
    && s.sent[a.index] == s.RecordRequest() && s.RecordRequest() !in s.server.memo
    && s.server.log != []
    && var last := s.server.log[|s.server.log| - 1]; last in s.staged && s.staged[last] == |s.writes| - 1
  }

  /** Appending one request. */
  lemma StrictAppend(s: Sys, s': Sys, q: Request)
    requires s'.server.log == s.server.log + [q] && s'.staged == s.staged && LogOrdered(s) && q in s.staged
    ensures Strict(s') <==> Strict(s) && (s.server.log != [] ==> s.staged[s.server.log[|s.server.log| - 1]] < s.staged[q])
  {
    var n := |s.server.log|;
    assert forall i | 0 <= i < n :: s'.server.log[i] == s.server.log[i];
    assert s'.server.log[n] == q;
    assert forall i | 0 <= i < n :: Traced(s, s.server.log[i]);
    if n > 0 {
      assert forall i | 0 <= i < n - 1 :: InOrder(s, s.server.log[i], s.server.log[n - 1]);
      if Strict(s') { StrictBelow(s, s'); }
    }
  }

  lemma StrictBelow(s: Sys, s': Sys)
    requires s.server.log <= s'.server.log && s'.staged == s.staged && Strict(s')
    ensures Strict(s)
  {
    forall i, j | 0 <= i < j < |s.server.log|
      ensures s.server.log[i] in s.staged && s.server.log[j] in s.staged && s.staged[s.server.log[i]] < s.staged[s.server.log[j]]
    {
      assert s.server.log[i] == s'.server.log[i] && s.server.log[j] == s'.server.log[j];
    }
  }

  /** Steps after which the same snapshots are accepted, read at the same places. */
  lemma StrictKept(s: Sys, s': Sys)
    requires s'.server.log == s.server.log
    requires forall i {:trigger s.server.log[i]} | 0 <= i < |s.server.log| ::
               s.server.log[i] in s.staged && s.server.log[i] in s'.staged && s'.staged[s.server.log[i]] == s.staged[s.server.log[i]]
    ensures Strict(s') <==> Strict(s)
  {
  }

  lemma DeliverStrict(s: Sys, i: nat)
    requires Inv(s) && i < |s.sent|
    ensures Strict(Next(s, Deliver(i))) <==> Strict(s) && !Repeats(s, Deliver(i))
  {
    var q, s', log := s.sent[i], Next(s, Deliver(i)), s.server.log;
    if q in s.server.memo || q.expected != s.server.revision {
      assert s' == s;
      assert q !in s.server.memo ==> Unresolved(s, q) || Replaying(s, q);
    } else {
      assert Traced(s, q) && (Unresolved(s, q) || Replaying(s, q));
      StrictAppend(s, s', q);
      if log != [] {
        assert Traced(s, log[|log| - 1]);
        if Unresolved(s, q) { assert ReadBefore(s, |log| - 1, s.staged[q]); }
      }
    }
  }

  /** Where an accepted request was read is never changed. */
  lemma StagedKept(s: Sys, a: Action, q: Request)
    requires Inv(s) && Enabled(s, a) && q in s.server.memo && q in s.staged
    ensures q in Next(s, a).staged && Next(s, a).staged[q] == s.staged[q]
  {
    if a.Stage? {
      assert Logged(s.server, q) && s.pc.request.expected == s.server.revision;
    } else if !a.SendRecord? {
      StagedAlone(s, a);
    }
  }

  lemma StagedAlone(s: Sys, a: Action)
    requires Enabled(s, a) && !a.Stage? && !a.SendRecord?
    ensures Next(s, a).staged == s.staged
  {
  }

  lemma OtherStrict(s: Sys, a: Action)
    requires Inv(s) && Enabled(s, a) && !a.Deliver?
    ensures Strict(Next(s, a)) <==> Strict(s)
  {
    var s' := Next(s, a);
    LogInMemo(s.server);
    forall i | 0 <= i < |s.server.log|
      ensures s.server.log[i] in s.staged && s.server.log[i] in s'.staged && s'.staged[s.server.log[i]] == s.staged[s.server.log[i]]
    {
      assert Traced(s, s.server.log[i]);
      StagedKept(s, a, s.server.log[i]);
    }
    SameLog(s, a);
    StrictKept(s, s');
  }

  lemma SameLog(s: Sys, a: Action)
    requires Enabled(s, a) && !a.Deliver?
    ensures Next(s, a).server == s.server
  {
  }

  /** The accepted snapshots are strictly in order up to the first time that the server accepts a record's
      file which nobody has written since it was accepted before; after that they are not. */
  lemma {:induction false} StrictUnlessRepeated(r: Run, k: nat)
    requires IsRun(r) && k < |r.states|
    ensures Strict(r.states[k]) <==> forall m {:trigger r.actions[m]} | 0 <= m < k :: !Repeats(r.states[m], r.actions[m])
  {
    if k > 0 {
      StrictUnlessRepeated(r, k - 1);
      RunInv(r, k - 1);
      assert StepAt(r, k - 1);
      var s, a := r.states[k - 1], r.actions[k - 1];
      if a.Deliver? { DeliverStrict(s, a.index); } else { OtherStrict(s, a); }
    }
  }

  /** What the upload routine wants accepted is not what the server holds. */
  predicate Differs(s: Sys) {
    && (s.disk.Some? && !Committed(s.disk.value) && s.disk.value.request !in s.server.memo ==>
          s.disk.value.request.bytes != s.server.content)
    && (s.pc.Staging? ==> s.pc.request.bytes != s.server.content)
  }

  lemma StepDiffers(s: Sys, a: Action)
    requires Inv(s) && Differs(s) && Enabled(s, a)
    ensures Differs(Next(s, a))
  {
    match a
    case Deliver(i) => assert s.sent[i] in s.server.memo || Unresolved(s, s.sent[i]) || Replaying(s, s.sent[i]);
    case ReadLatest => EntryKnowsServer(s);
    case _ =>
  }

  lemma {:induction false} RunDiffers(r: Run, k: nat)
    requires IsRun(r) && k < |r.states|
    ensures Differs(r.states[k])
  {
    if k > 0 {
      RunDiffers(r, k - 1);
      RunInv(r, k - 1);
      assert StepAt(r, k - 1);
      StepDiffers(r.states[k - 1], r.actions[k - 1]);
    }
  }

  /** An accepted upload leaves the server's content as it was exactly when a record is being replayed whose
      file already was that content. */
  lemma RepeatedContent(r: Run, k: nat)
    requires IsRun(r) && k < |r.actions| && r.states[k + 1].server.log != r.states[k].server.log
    ensures var s, s' := r.states[k], r.states[k + 1];
            s'.server.content == s.server.content <==> s.record.Some? && s.HasFile() && s.File() == s.server.content
  {
    RunInv(r, k);
    RunDiffers(r, k);
    assert StepAt(r, k);
    var s, a := r.states[k], r.actions[k];
    assert a.Deliver?;
    assert s.sent[a.index] in s.server.memo || Unresolved(s, s.sent[a.index]) || Replaying(s, s.sent[a.index]);
  }

  lemma StepGrows(s: Sys, a: Action)
    requires Enabled(s, a)
    ensures var s' := Next(s, a);
            s.server.log <= s'.server.log && s.writes <= s'.writes && s.sent <= s'.sent
  {
  }

  /** The history only grows: what was accepted, written or sent is never taken back or reordered. */
  lemma {:induction false} HistoryGrows(r: Run, j: nat, k: nat)
    requires IsRun(r) && j <= k < |r.states|
    ensures var early, late := r.states[j], r.states[k];
            early.server.log <= late.server.log && early.writes <= late.writes && early.sent <= late.sent
  {
    if j < k {
      HistoryGrows(r, j, k - 1);
      assert StepAt(r, k - 1);
      StepGrows(r.states[k - 1], r.actions[k - 1]);
    }
  }

  lemma OneRequestPerRevision(s: Sys, p: Request, q: Request)
    requires Inv(s) && p in s.sent && q in s.sent && p.expected == q.expected
    ensures p == q
  {
    if p in s.server.memo { assert Logged(s.server, p); } else { assert Unresolved(s, p) || Replaying(s, p); }
    if q in s.server.memo { assert Logged(s.server, q); } else { assert Unresolved(s, q) || Replaying(s, q); }
  }

  /** Every request ever put on the network for one revision is the same request: a retry, also one
      made by a later process after a crash, repeats revision, bytes and id unchanged. */
  lemma RetriesAreIdentical(r: Run, k: nat, i: nat, j: nat)
    requires IsRun(r) && k < |r.states|
    requires var s := r.states[k]; i < |s.sent| && j < |s.sent| && s.sent[i].expected == s.sent[j].expected
    ensures r.states[k].sent[i] == r.states[k].sent[j]
  {
    RunInv(r, k);
    OneRequestPerRevision(r.states[k], r.states[k].sent[i], r.states[k].sent[j]);
  }

  /** Write-ahead: what is sent is already on disk, uncommitted, with the same revision and bytes; or a
      record with that revision is, and the bytes are those of its file. */
  lemma WriteAhead(r: Run, k: nat)
    requires IsRun(r) && k < |r.actions| && |r.states[k + 1].sent| != |r.states[k].sent|
    ensures var s, s' := r.states[k], r.states[k + 1];
            && |s'.sent| == |s.sent| + 1 && s'.disk == s.disk && s'.record == s.record
            && if s.record.None? then s.disk.Some? && s.disk.value.request == s'.sent[|s.sent|] && !Committed(s.disk.value)
               else s.present && s.HasFile() && !s.running && s'.sent[|s.sent|] == Request(s.record.value, s.File())
  {
    RunInv(r, k);
    assert StepAt(r, k);
    assert r.actions[k].Send? || r.actions[k].SendRecord?;
  }

  /** No step takes an outstanding request off the disk or changes it before the server has it. */
  lemma OutstandingStays(s: Sys, a: Action, q: Request)
    requires Inv(s) && Enabled(s, a) && (Unresolved(s, q) || q in s.server.memo)
    ensures Unresolved(Next(s, a), q) || q in Next(s, a).server.memo
  {
  }

  /** Once staged, a request stays on disk unchanged, through crashes and error-text rewrites, until
      the server has accepted exactly it. */
  lemma {:induction false} StagedUntilAccepted(r: Run, j: nat, k: nat, q: Request)
    requires IsRun(r) && j <= k < |r.states|
    requires Unresolved(r.states[j], q)
    ensures Unresolved(r.states[k], q) || q in r.states[k].server.memo
  {
    if j < k {
      StagedUntilAccepted(r, j, k - 1, q);
      RunInv(r, k - 1);
      assert StepAt(r, k - 1);
      OutstandingStays(r.states[k - 1], r.actions[k - 1], q);
    }
  }

  /** A committed envelope leaves the disk only for its successor, which expects exactly the recovered
      revision, or after the working file was found to hold the committed bytes. */
  lemma CommittedKeptForSuccessor(r: Run, k: nat)
    requires IsRun(r) && k < |r.actions|
    requires var s := r.states[k]; s.disk.Some? && Committed(s.disk.value)
    ensures var s, s' := r.states[k], r.states[k + 1];
            || s'.disk == s.disk
            || (s'.disk.Some? && !Committed(s'.disk.value) && s'.disk.value.request.expected == s.disk.value.committed)
            || (s'.disk.None? && (s.pc.Clearing? || s.pc.Dropping?) && SlotKnows(s')
                && (s.pc.call.quiet ==> s.HasFile() && s.File() == s.disk.value.request.bytes))
  {
    RunInv(r, k);
    assert StepAt(r, k);
    LandedIsCurrent(r.states[k], r.states[k].disk.value.request);
  }

  /** What the file holds, or the request that an envelope was waiting with before. */
  predicate Fitting(s0: Sys, q: Request) {
    (s0.HasFile() && q.bytes == s0.File()) || Unresolved(s0, q)
  }

  /** Since s0, in which no call was under way, only such requests were sent, staged or kept in mind. */
  predicate SentFitting(s0: Sys, s: Sys) {
    && (forall i {:trigger s.sent[i]} | |s0.sent| <= i < |s.sent| :: Fitting(s0, s.sent[i]))
    && (s.disk.Some? && !Committed(s.disk.value) ==> Fitting(s0, s.disk.value.request))
    && KeptFitting(s0, s.pc)
  }

  predicate KeptFitting(s0: Sys, pc: Pc) {
    match pc
    case Top(_, entry) => entry.Some? && !Committed(entry.value) ==> Fitting(s0, entry.value.request)
    case Staging(_, _, q, _) => Fitting(s0, q)
    case Sending(_, q) => Fitting(s0, q)
    case Awaiting(_, q) => Fitting(s0, q)
    case Noting(_, q, _) => Fitting(s0, q)
    case Marking(_, q, _) => Fitting(s0, q)
    case Comparing(_, e) => Fitting(s0, e.request)
    case _ => true
  }

  lemma StepKeptFitting(s0: Sys, s: Sys, a: Action)
    requires Enabled(s, a) && SentFitting(s0, s) && s.writes == s0.writes && Next(s, a).writes == s.writes
    ensures KeptFitting(s0, Next(s, a).pc)
  {
  }

  lemma StepFitting(s0: Sys, s: Sys, a: Action)
    requires Enabled(s, a) && SentFitting(s0, s) && s.writes == s0.writes && Next(s, a).writes == s.writes
    ensures SentFitting(s0, Next(s, a))
  {
    StepKeptFitting(s0, s, a);
    assert a.Send? ==> Fitting(s0, s.pc.request);
    assert a.SendRecord? ==> Fitting(s0, s.RecordRequest());
  }

  /** While the working file does not change, every request sent carries what the file holds, or is the one
      that was left over from before. */
  lemma {:induction false} NewRequestsCarryTheFile(r: Run, j: nat, k: nat)
    requires IsRun(r) && j <= k < |r.states|
    requires r.states[j].writes == r.states[k].writes && (r.states[j].pc.Down? || Resting(r.states[j].pc))
    ensures SentFitting(r.states[j], r.states[k])
  {
    if j < k {
      HistoryGrows(r, j, k - 1);
      assert StepAt(r, k - 1);
      StepGrows(r.states[k - 1], r.actions[k - 1]);
      SameLength(r.states[j].writes, r.states[k - 1].writes, r.states[k].writes);
      NewRequestsCarryTheFile(r, j, k - 1);
      StepFitting(r.states[j], r.states[k - 1], r.actions[k - 1]);
    }
  }

  lemma SameLength(a: seq<Bytes>, b: seq<Bytes>, c: seq<Bytes>)
    requires a <= b <= c && a == c
    ensures a == b
  {
  }

  lemma DeletableIsReflected(s: Sys)
    requires Inv(s) && MayDelete(s)
    ensures s.disk.None? && (s.pc.call.quiet ==> s.HasFile() && s.server.content == s.File() && !s.running)
  {
  }

  lemma FinishedIsReflected(s: Sys)
    requires Inv(s) && Enabled(s, FinishRecord)
    ensures s.disk.None? && s.server.content == s.File() && !s.running
  {
    assert Logged(s.server, s.RecordRequest());
    LandedIsCurrent(s, s.RecordRequest());
  }

  lemma OnlyTheseRemoveFile(s: Sys, a: Action)
    requires Enabled(s, a) && s.present && !Next(s, a).present
    ensures a.DeleteWorkingFile? || a.FinishRecord?
  {
  }

  /** Whenever the working SAV disappears, nothing is pending on disk; and unless that is the end of a call
      that began while the emulator ran, the server holds exactly its bytes. */
  lemma DeletedOnlyWhenReflected(r: Run, k: nat)
    requires IsRun(r) && k < |r.actions| && r.states[k].present && !r.states[k + 1].present
    ensures var s := r.states[k];
            && s.disk.None? && r.states[k + 1].record.None? && (s.pc.Done? || s.pc.Down?)
            && (s.pc.Down? || s.pc.call.quiet ==> s.HasFile() && s.server.content == s.File() && !s.running)
  {
    RunInv(r, k);
    assert StepAt(r, k);
    OnlyTheseRemoveFile(r.states[k], r.actions[k]);
    if r.actions[k].FinishRecord? {
      FinishedIsReflected(r.states[k]);
    } else {
      DeletableIsReflected(r.states[k]);
    }
  }

  /** A recovery record leaves the disk only when the server holds exactly the file it points at, which goes
      with it; and until then no new session begins and no other upload does. */
  lemma RecordUntilAccepted(r: Run, k: nat)
    requires IsRun(r) && k < |r.actions| && r.states[k].record.Some?
    ensures var s, s' := r.states[k], r.states[k + 1];
            if s'.record.Some? then s'.present && s'.record == s.record && s'.disk.None?
            else !s'.present && s.HasFile() && s.server.content == s.File()
  {
    RunInv(r, k);
    assert StepAt(r, k);
    if r.actions[k].FinishRecord? { FinishedIsReflected(r.states[k]); }
  }

  lemma FirstSession(start: Sys) returns (r: Run)
    requires Init(start)
    ensures IsRun(r) && r.states[0] == start
    ensures var s := Last(r);
            && s.pc.Idle? && s.present && s.running && s.disk.None? && s.record.None? && s.server == start.server
            && s.HasFile() && s.File() == start.server.content && s.sent == []
            && s.slot == Slot(start.server.revision, Some(start.server.content), false)
  {
    r := Continue(Run([start], []), StartSession);
  }

  /** The first session's final call, made while the emulator still runs, finds the file as the server has it. */
  lemma EarlyFinalCall(start: Sys) returns (r: Run)
    requires Init(start)
    ensures IsRun(r) && r.states[0] == start
    ensures var s := Last(r);
            && s.present && s.running && s.disk.None? && s.server == start.server && s.HasFile()
            && s.pc == Done(Call(false, true, false, false, 0), true) && !s.slot.preserve
  {
    r := FirstSession(start);
    r := Continue(r, Begin(false, true, false));
    r := Continue(r, ReadLatest);
    r := Continue(r, Clear);
  }

  /** That is not enough: the emulator writes once more, and then the file is removed with bytes that the
      server never saw. */
  lemma EarlyFinalCallLoses(start: Sys, bytes: Bytes) returns (r: Run, k: nat)
    requires Init(start) && bytes != start.server.content
    ensures IsRun(r) && k < |r.actions| && r.states[0] == start
    ensures r.states[k].present && !r.states[k + 1].present
    ensures r.states[k].HasFile() && r.states[k].File() == bytes != r.states[k].server.content
    ensures r.states[k + 1].server.log == []
  {
    r := EarlyFinalCall(start);
    r := Continue(r, EmulatorWrites(bytes));
    k := |r.actions|;
    r := Continue(r, DeleteWorkingFile);
  }

  /** A successful final call leaves the save on disk in a durable envelope with the working file kept, or
      nothing pending; and in the second case the server has the file, if the emulator was gone. */
  lemma FinalCallIsSafe(r: Run, k: nat)
    requires IsRun(r) && k < |r.states|
    requires var s := r.states[k]; s.pc.Done? && s.pc.call.final && s.pc.ok
    ensures var s := r.states[k];
            || (s.disk.None? && !s.slot.preserve && (s.pc.call.quiet ==> s.HasFile() && s.File() == s.server.content))
            || (s.disk.Some? && s.slot.preserve && s.present)
  {
    RunInv(r, k);
  }
}

/** Replaying the older outbox records of one save: upload the SAV a record points at, mark it complete,
    remove the SAV, remove the record, with a crash possible before every single effect. */
module OutboxReplay {
  import opened OutboxRecords
  import SaveUploader

  type Bytes = string

  /** The server as uploads by request id see it; accepted collects every content it ever took. */
  datatype UploadServer = UploadServer(revision: int, memo: map<string, Bytes>, accepted: set<Bytes>)

  /** The outbox directory, the SAVs its records name, and the server. */
  datatype World = World(records: map<string, string>, savs: map<string, Bytes>, markers: set<string>, server: UploadServer)

  predicate Known(v: UploadServer, request: string) { request != "" && request in v.memo }

  /** The server answers with success: it has the request already, or takes it now. */
  predicate Takes(v: UploadServer, expected: int, request: string) { Known(v, request) || expected == v.revision }

  function Accept(v: UploadServer, expected: int, request: string, bytes: Bytes): UploadServer {
    if Known(v, request) || expected != v.revision then v
    else UploadServer(v.revision + 1, if request == "" then v.memo else v.memo[request := bytes], v.accepted + {bytes})
  }

  function Entry(w: World, o: Owner, name: string): Verdict
    requires name in w.records
  {
    Classify(w.records[name], o)
  }

  /** Not known to be complete. */
  predicate Open(w: World, o: Owner, name: string)
    requires name in w.records
  {
    Entry(w, o, name).Upload? && Entry(w, o, name).path !in w.markers
  }

  /** An open record's SAV is there; and if the server has its request, that request carried this SAV. */
  predicate Sound(w: World, o: Owner, name: string)
    requires name in w.records
  {
    Open(w, o, name) ==>
      var e := Entry(w, o, name);
      e.path in w.savs && (Known(w.server, e.request) ==> w.server.memo[e.request] == w.savs[e.path])
  }

  /** Two open records never share a request id. */
  predicate Apart(w: World, o: Owner, m: string, n: string)
    requires m in w.records && n in w.records
  {
    m != n && Open(w, o, m) && Open(w, o, n) ==>
      Entry(w, o, m).request == "" || Entry(w, o, m).request != Entry(w, o, n).request
  }

  /** A SAV marked complete was accepted. */
  predicate MarkedAccepted(w: World, p: string) {
    p in w.markers && p in w.savs ==> w.savs[p] in w.server.accepted
  }

  ghost predicate Valid(w: World, o: Owner) {
    && (forall p {:trigger MarkedAccepted(w, p)} :: MarkedAccepted(w, p))
    && (forall id {:trigger id in w.server.memo} | id in w.server.memo :: w.server.memo[id] in w.server.accepted)
    && (forall n {:trigger Sound(w, o, n)} | n in w.records :: Sound(w, o, n))
    && (forall m, n {:trigger Apart(w, o, m, n)} | m in w.records && n in w.records :: Apart(w, o, m, n))
  }

  // ---------------------------------------------------------------- what one record's replay may do

  /** The effects on one record, in their order, cut off anywhere. */
  ghost predicate RecordStep(w: World, o: Owner, name: string, w': World)
    requires name in w.records
  {
    var e := Entry(w, o, name);
    if !e.Upload? then w' == w
    else
      && (w'.server == w.server || (Open(w, o, name) && e.path in w.savs &&
                                    w'.server == Accept(w.server, e.expected, e.request, w.savs[e.path])))
      && ((w'.markers == w.markers && w'.savs == w.savs && w'.records == w.records && Open(w, o, name)) ||
          (w'.markers == w.markers + {e.path} && (w'.savs == w.savs || w'.savs == w.savs - {e.path}) && w'.records == w.records) ||
          (w'.markers == w.markers + {e.path} && w'.savs == w.savs - {e.path} && w'.records == w.records - {name}))
      && (e.path in w'.markers && e.path in w.savs ==> w.savs[e.path] in w'.server.accepted)
  }

  /** What a replay as a whole may do. */
  ghost predicate Progress(w: World, w': World) {
    && w'.records.Keys <= w.records.Keys && (forall n {:trigger w'.records[n]} | n in w'.records :: w'.records[n] == w.records[n])
    && w.markers <= w'.markers && w.server.accepted <= w'.server.accepted
    && w'.savs.Keys <= w.savs.Keys && (forall p {:trigger w'.savs[p]} | p in w'.savs :: w'.savs[p] == w.savs[p])
    && (forall p {:trigger p in w'.savs} | p in w.savs && p !in w'.savs :: p in w'.markers && w.savs[p] in w'.server.accepted)
  }

  lemma ProgressTrans(a: World, b: World, c: World)
    requires Progress(a, b) && Progress(b, c)
    ensures Progress(a, c)
  {
  }

  lemma StepProgress(w: World, o: Owner, name: string, w': World)
    requires Valid(w, o) && name in w.records && RecordStep(w, o, name, w')
    ensures Progress(w, w')
  {
  }

  lemma AcceptSound(w: World, o: Owner, name: string)
    requires Valid(w, o) && name in w.records && Open(w, o, name)
    ensures var e := Entry(w, o, name);
            e.path in w.savs && Valid(w.(server := Accept(w.server, e.expected, e.request, w.savs[e.path])), o)
  {
    var e := Entry(w, o, name);
    assert Sound(w, o, name);
    var w' := w.(server := Accept(w.server, e.expected, e.request, w.savs[e.path]));
    forall p ensures MarkedAccepted(w', p) { assert MarkedAccepted(w, p); }
    forall n | n in w'.records ensures Sound(w', o, n) {
      assert Sound(w, o, n) && Apart(w, o, name, n);
    }
    forall m, n | m in w'.records && n in w'.records ensures Apart(w', o, m, n) { assert Apart(w, o, m, n); }
  }

  /** Growing markers and shrinking files and records, in order, keeps the directory valid. */
  lemma FewerValid(w: World, o: Owner, w': World)
    requires Valid(w, o) && w'.server == w.server && w.markers <= w'.markers
    requires w'.records.Keys <= w.records.Keys && forall n | n in w'.records :: w'.records[n] == w.records[n]
    requires w'.savs.Keys <= w.savs.Keys && forall p | p in w'.savs :: w'.savs[p] == w.savs[p]
    requires forall p | p in w.savs && p !in w'.savs :: p in w'.markers
    requires forall p | p in w'.markers && p in w'.savs && p !in w.markers :: w'.savs[p] in w.server.accepted
    ensures Valid(w', o)
  {
    forall p ensures MarkedAccepted(w', p) { assert MarkedAccepted(w, p); }
    forall n | n in w'.records ensures Sound(w', o, n) { assert Sound(w, o, n); }
    forall m, n | m in w'.records && n in w'.records ensures Apart(w', o, m, n) { assert Apart(w, o, m, n); }
  }

  // ---------------------------------------------------------------- where a replay can get to

  ghost predicate NothingMine(w: World, o: Owner) {
    forall n {:trigger Entry(w, o, n)} | n in w.records :: Entry(w, o, n).NotMine?
  }

  /** Still needs the server. */
  predicate Due(w: World, o: Owner, n: string)
    requires n in w.records
  {
    Open(w, o, n) && !Known(w.server, Entry(w, o, n).request)
  }

  /** The server has every open record's request, though perhaps nobody here knows. */
  ghost predicate AllSettled(w: World, o: Owner) {
    forall n {:trigger Due(w, o, n)} | n in w.records :: !Due(w, o, n)
  }

  /** Every record can be touched, and at most one still needs the server, at its current revision. */
  ghost predicate AtMostOneDue(w: World, o: Owner) {
    && (forall n {:trigger Entry(w, o, n)} | n in w.records :: !Entry(w, o, n).Blocked?)
    && (forall n {:trigger Due(w, o, n)} | n in w.records && Due(w, o, n) :: Entry(w, o, n).expected == w.server.revision)
    && (forall m, n {:trigger Due(w, o, m), Due(w, o, n)} | m in w.records && n in w.records && Due(w, o, m) && Due(w, o, n) :: m == n)
  }

  lemma DueShrinks(w: World, o: Owner, name: string, w': World, n: string)
    requires name in w.records && RecordStep(w, o, name, w') && n in w'.records
    ensures Entry(w', o, n) == Entry(w, o, n)
    ensures Due(w', o, n) ==> Due(w, o, n)
  {
  }

  lemma StepSettled(w: World, o: Owner, name: string, w': World)
    requires AllSettled(w, o) && name in w.records && RecordStep(w, o, name, w')
    ensures AllSettled(w', o) && w'.server == w.server
  {
    forall n | n in w'.records ensures !Due(w', o, n) { DueShrinks(w, o, name, w', n); assert !Due(w, o, n); }
    assert !Due(w, o, name);
  }

  lemma StepDue(w: World, o: Owner, name: string, w': World)
    requires AtMostOneDue(w, o) && name in w.records && RecordStep(w, o, name, w') && (w' == w || name !in w'.records)
    ensures AtMostOneDue(w', o)
  {
    if w' == w { return; }
    forall n | n in w'.records
      ensures !Entry(w', o, n).Blocked? && (Due(w', o, n) ==> Due(w, o, n) && Entry(w', o, n).expected == w'.server.revision)
    {
      DueShrinks(w, o, name, w', n);
      assert !Entry(w, o, n).Blocked?;
      if Due(w', o, n) { assert Due(w, o, n); assert !Due(w, o, name); }
    }
    forall m, n | m in w'.records && n in w'.records && Due(w', o, m) && Due(w', o, n) ensures m == n {
      assert Due(w, o, m) && Due(w, o, n);
    }
  }

  lemma DueIsTaken(w: World, o: Owner, name: string)
    requires AtMostOneDue(w, o) && name in w.records
    ensures !Entry(w, o, name).Blocked?
    ensures Open(w, o, name) ==> Takes(w.server, Entry(w, o, name).expected, Entry(w, o, name).request)
  {
    assert Due(w, o, name) || !Due(w, o, name);
  }

  /** Of the records outside the given names, none is this save's. */
  ghost predicate Cleared(w: World, o: Owner, names: set<string>) {
    forall n {:trigger Entry(w, o, n)} | n in w.records && n !in names :: Entry(w, o, n).NotMine?
  }

  lemma StepCleared(w: World, o: Owner, names: set<string>, name: string, w': World)
    requires name in names && name in w.records && Cleared(w, o, names) && RecordStep(w, o, name, w')
    requires name !in w'.records || Entry(w, o, name).NotMine?
    ensures Cleared(w', o, names - {name})
  {
    forall n | n in w'.records && n !in names - {name} ensures Entry(w', o, n).NotMine? {
      DueShrinks(w, o, name, w', n);
      assert n != name ==> Entry(w, o, n).NotMine?;
    }
  }

  ghost predicate AnyReported(w: World, o: Owner) {
    exists n :: n in w.records && Reported(w.records[n], o, w.markers)
  }

  ghost predicate AnyOrphan(w: World, o: Owner) {
    exists n :: n in w.records && Orphan(w.records[n], o, w.markers)
  }

  /** With no record of this save left, the pending question can only be about orphans. */
  lemma NothingReported(w: World, o: Owner)
    requires NothingMine(w, o)
    ensures AnyReported(w, o) <==> AnyOrphan(w, o)
  {
    forall n | n in w.records
      ensures Reported(w.records[n], o, w.markers) <==> Orphan(w.records[n], o, w.markers)
    {
      assert Entry(w, o, n).NotMine?;
      ReadersAgree(w.records[n], o, w.markers);
    }
  }

  class Outbox {
    const owner: Owner
    /** The newer scheme of the same save, with its envelope. */
    const store: SaveUploader.SaveStore
    /** Reading, writing, listing and removing files never fails. */
    const diskWorks: bool
    /** The server gets every request and its answer comes back. */
    const answers: bool
    /** The process has not crashed yet; once it has, nothing it would do still happens. */
    var alive: bool
    var w: World
    var puts: nat

    ghost predicate Ok()
      reads `w
    {
      Valid(w, owner)
    }

    /** The envelope of the newer scheme is on disk. */
    predicate Inflight()
      reads store
    {
      store.disk.Some?
    }

    constructor (owner: Owner, store: SaveUploader.SaveStore, diskWorks: bool, answers: bool, server: UploadServer)
      requires forall id | id in server.memo :: server.memo[id] in server.accepted
      ensures Ok() && alive && w == World(map[], map[], {}, server)
      ensures this.owner == owner && this.store == store && this.diskWorks == diskWorks && this.answers == answers
    {
      this.owner, this.store, this.diskWorks, this.answers := owner, store, diskWorks, answers;
      alive, w, puts := true, World(map[], map[], {}, server), 0;
    }

    /** A new process starts from what the old one left on disk and at the server. */
    method Restart()
      modifies `alive
      ensures alive
    {
      alive := true;
    }

    /** One chance to crash. */
    method Survive() returns (go: bool)
      modifies `alive
      ensures go == alive && (alive ==> old(alive))
    {
      var crash: bool := *;
      alive := alive && !crash;
      go := alive;
    }

    /** An effect on disk that happens unless the process has crashed or the disk refuses. */
    method Effect() returns (ok: bool)
      modifies `alive
      ensures (alive ==> old(alive)) && (ok ==> alive) && (alive && diskWorks ==> ok)
    {
      var go := Survive();
      var works: bool := *;
      ok := go && (diskWorks || works);
    }

    // -------------------------------------------------------------- the writers

    /** Put a written record in the directory. */
    method AddRecord(name: string, r: Written)
      requires Ok() && WellFormed(r) && name !in w.records
      requires r.path in w.savs && !Known(w.server, r.request)
      requires forall n | n in w.records && Entry(w, owner, n).Upload? :: Entry(w, owner, n).request != r.request
      modifies `w
      ensures Ok() && w == old(w).(records := old(w).records[name := RecordLine(r)])
    {
      var next := w.(records := w.records[name := RecordLine(r)]);
      WrittenIsFound(r, owner, w.markers);
      forall p ensures MarkedAccepted(next, p) { assert MarkedAccepted(w, p); }
      forall n | n in next.records ensures Sound(next, owner, n) { assert n != name ==> Sound(w, owner, n); }
      forall m, n | m in next.records && n in next.records ensures Apart(next, owner, m, n) {
        assert m != name && n != name ==> Apart(w, owner, m, n);
      }
      w := next;
    }

    /** Keep a SAV of its own for a failed upload: first the SAV, then the record that names it. */
    method WriteUpload(name: string, r: Written, bytes: Bytes) returns (ok: bool)
      requires Ok() && WellFormed(r) && name !in w.records
      // names carry time, process, save and revision; nothing of the same name is there
      requires r.path !in w.savs && r.path !in w.markers && !Known(w.server, r.request)
      requires forall n | n in w.records && Entry(w, owner, n).Upload? ::
                 Entry(w, owner, n).path != r.path && Entry(w, owner, n).request != r.request
      modifies `alive, `w
      ensures Ok()
      ensures ok ==> alive && w == old(w).(savs := old(w).savs[r.path := bytes], records := old(w).records[name := RecordLine(r)])
      ensures !ok ==> w == old(w) || w == old(w).(savs := old(w).savs[r.path := bytes])
      ensures alive && diskWorks ==> ok
    {
      ok := Effect();
      if !ok { return; }
      var next := w.(savs := w.savs[r.path := bytes]);
      forall p ensures MarkedAccepted(next, p) { assert MarkedAccepted(w, p); }
      forall n | n in next.records ensures Sound(next, owner, n) { assert Sound(w, owner, n); }
      forall m, n | m in next.records && n in next.records ensures Apart(next, owner, m, n) { assert Apart(w, owner, m, n); }
      w := next;
      ok := Effect();
      if !ok { return; }
      AddRecord(name, r);
    }

    /** Point at a working SAV that was not taken; with an envelope on disk that already does. */
    method WritePointer(name: string, r: Written) returns (ok: bool)
      requires Ok() && WellFormed(r) && name !in w.records
      requires r.path in w.savs && !Known(w.server, r.request)
      requires forall n | n in w.records && Entry(w, owner, n).Upload? :: Entry(w, owner, n).request != r.request
      modifies `alive, `w
      ensures Ok()
      ensures w == old(w) || (!Inflight() && w == old(w).(records := old(w).records[name := RecordLine(r)]))
      ensures ok ==> alive && (Inflight() || name in w.records)
      ensures alive && diskWorks ==> ok
    {
      if Inflight() {
        ok := Survive();
        return;
      }
      ok := Effect();
      if !ok { return; }
      ghost var before := w;
      AddRecord(name, r);
      ok := Effect();                        // read back; a record that cannot be is removed again
      if !ok {
        var removed := Effect();
        if removed {
          w := w.(records := w.records - {name});
          assert w.records == before.records;
        }
      }
    }

    // -------------------------------------------------------------- replaying one record

    /** Finish an entry whose upload the server has: marker first, then the SAV goes, then the record. */
    method CompleteEntry(name: string, path: string, uploaded: bool) returns (ok: bool)
      requires Ok() && name in w.records && Entry(w, owner, name).Upload? && Entry(w, owner, name).path == path
      requires path in w.markers || (path in w.savs && w.savs[path] in w.server.accepted)
      modifies `alive, `w
      ensures Ok() && (alive ==> old(alive)) && RecordStep(old(w), owner, name, w) && w.server == old(w).server
      ensures ok ==> alive && name !in w.records
      ensures alive && diskWorks && (uploaded || path in old(w).markers) ==> ok
    {
      assert MarkedAccepted(w, path);
      if path !in w.markers {
        if !uploaded { return false; }
        ok := Effect();
        if !ok { return; }
        FewerValid(w, owner, w.(markers := w.markers + {path}));
        w := w.(markers := w.markers + {path});
      }
      assert w.markers == old(w).markers + {path};
      ok := Effect();
      if !ok { return; }
      FewerValid(w, owner, w.(savs := w.savs - {path}));
      w := w.(savs := w.savs - {path});
      ok := Effect();
      if !ok { return; }
      FewerValid(w, owner, w.(records := w.records - {name}));
      w := w.(records := w.records - {name});
    }

    /** Upload a record's SAV. */
    method Put(name: string, e: Verdict, bytes: Bytes) returns (ok: bool)
      requires Ok() && name in w.records && Entry(w, owner, name) == e && Open(w, owner, name)
      requires e.path in w.savs && w.savs[e.path] == bytes
      modifies `alive, `w, `puts
      ensures Ok() && (alive ==> old(alive)) && old(puts) <= puts <= old(puts) + 1
      ensures w == old(w) || w == old(w).(server := Accept(old(w).server, e.expected, e.request, bytes))
      ensures ok ==> alive && Takes(old(w).server, e.expected, e.request) && bytes in w.server.accepted
                     && w.server == Accept(old(w).server, e.expected, e.request, bytes) && puts == old(puts) + 1
      ensures alive && answers && Takes(old(w).server, e.expected, e.request) ==> ok
    {
      ok := Survive();
      if !ok { return; }
      puts := puts + 1;
      var taken := Takes(w.server, e.expected, e.request);
      var arrives: bool := *;
      var answered: bool := *;
      assert Sound(w, owner, name);
      if answers || arrives {
        AcceptSound(w, owner, name);
        w := w.(server := Accept(w.server, e.expected, e.request, bytes));
      }
      ok := Survive();
      ok := ok && taken && (answers || (arrives && answered));
    }

    /** One record, as the replay treats it. */
    method ReplayRecord(name: string) returns (replayed: bool, pending: bool)
      requires Ok() && name in w.records
      modifies `alive, `w, `puts
      ensures Ok() && (alive ==> old(alive)) && old(puts) <= puts <= old(puts) + 1
      // what happened was a beginning of the ordered effects on this one record
      ensures RecordStep(old(w), owner, name, w)
      ensures var e := Entry(old(w), owner, name);
              // not this save's record: nothing to do; not to be touched: pending
              && (e.NotMine? ==> !replayed && !pending)
              && (e.Blocked? ==> !replayed && pending)
              && (replayed <==> Open(old(w), owner, name) && !pending) && (replayed ==> puts == old(puts) + 1)
              // only an open record is sent
              && (puts != old(puts) ==> Open(old(w), owner, name))
              // not pending means finished
              && (e.Upload? && !pending ==> alive && name !in w.records && e.path in w.markers)
              // a marked record needs the disk only, an open one also the server
              && (e.Upload? && alive && diskWorks && !Open(old(w), owner, name) ==> !pending)
              && (e.Upload? && alive && diskWorks && answers && Takes(old(w).server, e.expected, e.request) ==> !pending)
    {
      var e := Entry(w, owner, name);
      replayed, pending := false, false;
      if e.NotMine? { return; }
      if e.Blocked? { return false, true; }
      if e.path in w.markers {
        var ok := CompleteEntry(name, e.path, false);
        return false, !ok;
      }
      var readable := Effect();
      assert Sound(w, owner, name);
      if !readable { return false, true; }
      var taken := Put(name, e, w.savs[e.path]);
      if !taken { return false, true; }
      var done := CompleteEntry(name, e.path, true);
      replayed, pending := done, !done;
    }

    // -------------------------------------------------------------- replaying the directory

    /** One record of those that the directory still has to offer. */
    method ReplayNext(name: string, ghost names: set<string>) returns (sent: bool, left: bool)
      requires Ok() && name in names && names <= w.records.Keys
      modifies `alive, `w, `puts
      ensures Ok() && (alive ==> old(alive)) && Progress(old(w), w) && names - {name} <= w.records.Keys
      ensures alive && !left && Cleared(old(w), owner, names) ==> Cleared(w, owner, names - {name})
      ensures puts >= old(puts) + if sent then 1 else 0
      ensures NothingMine(old(w), owner) ==> !sent && !left && puts == old(puts) && w == old(w)
      ensures AllSettled(old(w), owner) ==> AllSettled(w, owner) && w.server == old(w).server
      ensures AtMostOneDue(old(w), owner) && alive && diskWorks && answers ==> AtMostOneDue(w, owner) && !left
    {
      ghost var before := w;
      sent, left := ReplayRecord(name);
      StepProgress(before, owner, name, w);
      if AllSettled(before, owner) { StepSettled(before, owner, name, w); }
      if AtMostOneDue(before, owner) {
        DueIsTaken(before, owner, name);
        if !left { StepDue(before, owner, name, w); }
      }
      if alive && !left && Cleared(before, owner, names) { StepCleared(before, owner, names, name, w); }
    }

    /** Go through the directory once, in any order. */
    method ReplayDirectory() returns (replayed: nat, pending: nat)
      requires Ok()
      modifies `alive, `w, `puts
      ensures Ok() && (alive ==> old(alive)) && Progress(old(w), w)
      ensures alive && pending == 0 ==> NothingMine(w, owner)
      ensures replayed <= puts - old(puts)
      ensures NothingMine(old(w), owner) ==> replayed == 0 && pending == 0 && puts == old(puts) && w == old(w)
      ensures AllSettled(old(w), owner) ==> w.server == old(w).server
      ensures AtMostOneDue(old(w), owner) && alive && diskWorks && answers ==> pending == 0
    {
      replayed, pending := 0, 0;
      var names := w.records.Keys;
      while names != {}
        invariant Ok() && (alive ==> old(alive)) && Progress(old(w), w) && names <= w.records.Keys
        invariant alive && pending == 0 ==> Cleared(w, owner, names)
        invariant replayed <= puts - old(puts)
        invariant NothingMine(old(w), owner) ==> replayed == 0 && pending == 0 && puts == old(puts) && w == old(w)
        invariant AllSettled(old(w), owner) ==> AllSettled(w, owner) && w.server == old(w).server
        invariant AtMostOneDue(old(w), owner) && alive && diskWorks && answers ==> AtMostOneDue(w, owner) && pending == 0
        decreases |names|
      {
        var name :| name in names;
        ghost var before := w;
        var sent, left := ReplayNext(name, names);
        ProgressTrans(old(w), before, w);
        names := names - {name};
        if sent { replayed := replayed + 1; }
        if left { pending := pending + 1; }
      }
    }

    /** Replay what is left of earlier sessions: first the envelope, whose path is managed or not, and only
        when that is gone the records.  listed says that the directory could be read. */
    method Replay(managed: bool) returns (replayed: nat, pending: nat, listed: bool)
      requires Ok() && store.Valid() && store.pc.Down?
      modifies `alive, `w, `puts, store
      ensures Ok() && store.Valid() && store.pc.Down? && SaveUploader.Extends(old(store.run), store.run)
      ensures (alive ==> old(alive)) && Progress(old(w), w) && (Inflight() ==> old(Inflight()))
      // as long as the envelope is there, no record is touched
      ensures Inflight() ==> w == old(w) && puts == old(puts) && pending > 0
      // the envelope is gone only when the server has what it protected
      ensures old(Inflight()) && !Inflight() && !old(store.running) ==> store.InSync()
      // nothing pending means that nothing of this save is left, and that nothing but orphans is reported
      ensures alive && listed && pending == 0 ==>
                !Inflight() && NothingMine(w, owner) && (AnyReported(w, owner) <==> AnyOrphan(w, owner))
      // replaying again sends nothing and changes nothing
      ensures NothingMine(old(w), owner) ==> puts == old(puts) && w == old(w)
      ensures !old(Inflight()) ==> store.sent == old(store.sent) && store.server == old(store.server)
      ensures NothingMine(old(w), owner) && !old(Inflight()) && listed ==> replayed == 0 && pending == 0
      // what an earlier replay got to the server before it crashed is finished without the server taking anything
      ensures AllSettled(old(w), owner) ==> w.server == old(w).server
      ensures AtMostOneDue(old(w), owner) && alive && !Inflight() && diskWorks && answers ==> listed && pending == 0
      // with the emulator gone, everything working and a readable envelope under a managed path, the envelope goes
      ensures old(store.disk).Some? && !old(store.running) && store.diskWorks && store.answers && diskWorks && alive ==>
                (Inflight() <==> !managed || !SaveUploader.Readable(old(store.disk).value))
    {
      replayed, pending, listed := 0, 0, false;
      var prepared := Effect();              // private directory, and no manifest or a private one
      if !prepared {
        return 0, 1, false;
      }
      if Inflight() {
        var left;
        left, replayed := store.ReplayEnvelope(managed);
        if left {
          return 0, 1, false;
        }
      }
      listed := Effect();
      if listed {
        var more;
        more, pending := ReplayDirectory();
        replayed := replayed + more;
        if alive && pending == 0 { NothingReported(w, owner); }
      }
    }

    /** Whether anything keeps a new session of this save from starting; listed says that the directory can
        be read, and one that cannot is taken for empty. */
    method UploadOutboxPending(listed: bool) returns (pending: bool)
      ensures pending <==> Inflight() || (listed && AnyReported(w, owner))
    {
      if Inflight() { return true; }
      if !listed { return false; }
      pending := false;
      var names := w.records.Keys;
      while names != {} && !pending
        invariant names <= w.records.Keys
        invariant pending ==> AnyReported(w, owner)
        invariant !pending ==> forall n | n in w.records && n !in names :: !Reported(w.records[n], owner, w.markers)
        decreases |names|, !pending
      {
        var name :| name in names;
        names := names - {name};
        pending := Reported(w.records[name], owner, w.markers);
      }
    }
  }
}

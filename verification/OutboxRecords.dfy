/** The one-line records of the older outbox scheme: what the two writers put in them, what the replay
    makes of one, and what the question "is anything pending?" makes of it. */
module OutboxRecords {
  import opened Options
  import opened Texts
  import opened EnvelopeText
  import opened ManagedPath

  const COMPLETE := ".complete"
  const PATH_MAX := 1024

  /** Whose uploads are looked for. */
  datatype Owner = Owner(server: string, saveId: string, account: string)

  /** A record line as the replay sees it. */
  datatype Verdict = NotMine | Blocked | Upload(path: string, expected: int, request: string)

  function Server(line: string): Option<string> { Field(line, "server", 160) }
  function SaveId(line: string): Option<string> { Field(line, "save_id", 96) }
  function Account(line: string): Option<string> { Field(line, "account", 64) }
  function Expected(line: string): Option<string> { Field(line, "expected_revision", 32) }
  function Path(line: string): Option<string> { Field(line, "path", PATH_MAX) }
  function RequestOf(line: string): Option<string> { Field(line, "request_id", 192) }

  predicate SameSave(line: string, o: Owner) { Server(line) == Some(o.server) && SaveId(line) == Some(o.saveId) }

  function Classify(line: string, o: Owner): Verdict {
    if Expected(line).None? || Path(line).None? || !SameSave(line, o) then NotMine
    else if Account(line).None? then Blocked
    else if Account(line).value != o.account then NotMine
    else if !Managed(Path(line).value) || |Path(line).value| + |COMPLETE| >= PATH_MAX then Blocked
    else Upload(Path(line).value, Atoi(Expected(line).value),
                if RequestOf(line).Some? then RequestOf(line).value else "")
  }

  /** What the pending question answers for one line, given the paths with a completion marker. */
  predicate Reported(line: string, o: Owner, markers: set<string>) {
    SameSave(line, o) &&
    (Account(line).None? ||
     (Account(line).value == o.account &&
      (Path(line).None? || !Managed(Path(line).value) || Path(line).value !in markers)))
  }

  /** A line of this save that the replay passes over, for want of a revision or a path. */
  predicate Orphan(line: string, o: Owner, markers: set<string>) {
    Reported(line, o, markers) && (Expected(line).None? || Path(line).None?)
  }

  /** The two readers agree on which lines concern the save, except for orphans. */
  lemma ReadersAgree(line: string, o: Owner, markers: set<string>)
    ensures Classify(line, o) == NotMine ==> (Reported(line, o, markers) <==> Orphan(line, o, markers))
    ensures Classify(line, o) == Blocked ==> Reported(line, o, markers) || |Path(line).value| + |COMPLETE| >= PATH_MAX
    ensures Classify(line, o).Upload? ==> (Reported(line, o, markers) <==> Classify(line, o).path !in markers)
  {
  }

  // ---------------------------------------------------------------- the writers

  /** What a writer knows; bytes and hash are "unknown" in a record that only points at a working file. */
  datatype Written = Written(stamp: string, server: string, saveId: string, expected: nat, bytes: string,
                             hash: string, path: string, game: string, fence: string, request: string,
                             account: string, error: string)

  function Entries(w: Written): seq<Pair> {
    [Pair("server", w.server), Pair("save_id", w.saveId), Pair("expected_revision", Decimal(w.expected)),
     Pair("bytes", w.bytes), Pair("sha256", w.hash), Pair("path", w.path), Pair("game_session_id", w.game),
     Pair("fencing_token", w.fence), Pair("request_id", w.request), Pair("account", w.account)]
  }

  function RecordLine(w: Written): string {
    Line([w.stamp] + Render(Entries(w)), '\t', "error=" + w.error)
  }

  /** Texts within their buffers and without tabs; the time stamp is all digits. */
  predicate WellFormed(w: Written) {
    && '=' !in w.stamp && '\t' !in w.stamp
    && (forall i {:trigger Entries(w)[i]} | 0 <= i < |Entries(w)| :: '\t' !in Entries(w)[i].value)
    && |w.server| < 160 && |w.saveId| < 96 && |w.path| < PATH_MAX && |w.request| < 192 && |w.account| < 64
    && w.expected < INT_LIMIT
  }

  lemma KeyIsPlain(w: Written, i: nat)
    requires i < |Entries(w)|
    ensures '\t' !in Entries(w)[i].key && '=' !in Entries(w)[i].key
  {
    var key := Entries(w)[i].key;
    forall k | 0 <= k < |key| ensures key[k] > '\t' && key[k] != '=' {
    }
  }

  lemma KeysArePlain(w: Written)
    ensures forall i {:trigger Entries(w)[i]} | 0 <= i < |Entries(w)| ::
              '\t' !in Entries(w)[i].key && '=' !in Entries(w)[i].key
  {
    forall i | 0 <= i < |Entries(w)| ensures '\t' !in Entries(w)[i].key && '=' !in Entries(w)[i].key {
      KeyIsPlain(w, i);
    }
  }

  /** Keys of equal length differ in one of their first two characters. */
  lemma KeysDiffer(w: Written, i: nat, j: nat)
    requires i < j < |Entries(w)|
    ensures Entries(w)[i].key != Entries(w)[j].key
  {
    var p := Entries(w);
    if |p[i].key| == |p[j].key| {
      assert p[i].key[0] != p[j].key[0] || p[i].key[1] != p[j].key[1];
    }
  }

  lemma EntriesDistinct(w: Written)
    ensures Distinct(Entries(w))
  {
    KeysArePlain(w);
    forall i, j | 0 <= i < j < |Entries(w)| ensures Entries(w)[i].key != Entries(w)[j].key {
      KeysDiffer(w, i, j);
    }
  }

  lemma PiecesHaveNoTab(w: Written)
    requires WellFormed(w)
    ensures NoneHas([w.stamp] + Render(Entries(w)), '\t')
  {
    KeysArePlain(w);
    var pieces := [w.stamp] + Render(Entries(w));
    forall i | 0 <= i < |pieces| ensures '\t' !in pieces[i] {
      if i > 0 { PairWithout(Entries(w)[i - 1], '\t'); }
    }
  }

  /** Every field of a written record is read back, whatever its error text holds. */
  lemma RecordField(w: Written, k: nat)
    requires WellFormed(w) && k < |Entries(w)|
    ensures Value(Fields(RecordLine(w)), Entries(w)[k].key) == Some(Entries(w)[k].value)
  {
    PiecesHaveNoTab(w);
    EntriesDistinct(w);
    var more := Fields("error=" + w.error);
    SplitLine([w.stamp] + Render(Entries(w)), '\t', "error=" + w.error);
    assert [w.stamp] + Render(Entries(w)) + more == [w.stamp] + (Render(Entries(w)) + more);
    ValueOfPair(Entries(w), more, k);
  }

  lemma OwnerFields(w: Written)
    requires WellFormed(w)
    ensures var line := RecordLine(w);
            Server(line) == Some(w.server) && SaveId(line) == Some(w.saveId) && Account(line) == Some(w.account)
  {
    RecordField(w, 0); RecordField(w, 1); RecordField(w, 9);
  }

  lemma ExpectedField(w: Written)
    requires WellFormed(w)
    ensures Expected(RecordLine(w)) == Some(Decimal(w.expected))
  {
    RecordField(w, 2);
    assert Pow10(10) == 10_000_000_000;
    DecimalLength(w.expected, 10);
  }

  lemma UploadFields(w: Written)
    requires WellFormed(w)
    ensures var line := RecordLine(w);
            Expected(line) == Some(Decimal(w.expected)) && Path(line) == Some(w.path) && RequestOf(line) == Some(w.request)
  {
    ExpectedField(w);
    RecordField(w, 5);
    RecordField(w, 8);
  }

  /** The replay finds in a written record exactly what was written, and both readers see it as pending
      for its owner, and for nobody else, until it is marked complete. */
  lemma WrittenIsFound(w: Written, o: Owner, markers: set<string>)
    requires WellFormed(w)
    ensures var line, mine := RecordLine(w), o == Owner(w.server, w.saveId, w.account);
            && Expected(line).Some? && Path(line) == Some(w.path)
            && Classify(line, o) == (if !mine then NotMine
                                     else if !Managed(w.path) || |w.path| + |COMPLETE| >= PATH_MAX then Blocked
                                     else Upload(w.path, w.expected, w.request))
            && (Reported(line, o, markers) <==> mine && (!Managed(w.path) || w.path !in markers))
  {
    OwnerFields(w);
    UploadFields(w);
    NumberOfDecimal(w.expected);
  }

  function OwnerPairs(o: Owner): seq<Pair> {
    [Pair("server", o.server), Pair("save_id", o.saveId), Pair("account", o.account)]
  }

  /** A line without a revision. */
  function Unnumbered(o: Owner): string { Line(Render(OwnerPairs(o)), '\t', "path=") }

  lemma OwnerPairsDistinct(o: Owner)
    ensures Distinct(OwnerPairs(o))
  {
    var pairs := OwnerPairs(o);
    assert pairs[1].key[0] == 's' && pairs[2].key[0] == 'a';
  }

  lemma OwnerPairsSplit(o: Owner)
    requires '\t' !in o.server && '\t' !in o.saveId && '\t' !in o.account
    ensures Fields(Unnumbered(o)) == Render(OwnerPairs(o)) + ["path="]
  {
    var pairs := OwnerPairs(o);
    PairWithout(pairs[0], '\t');
    PairWithout(pairs[1], '\t');
    PairWithout(pairs[2], '\t');
    SplitLine(Render(pairs), '\t', "path=");
    assert "path="[0..5] == "path=";
    FindIs("path=", '\t', 0, 5);
  }

  lemma UnnumberedFields(o: Owner)
    requires '\t' !in o.server && '\t' !in o.saveId && '\t' !in o.account
    ensures var all := Fields(Unnumbered(o));
            Value(all, "server") == Some(o.server) && Value(all, "save_id") == Some(o.saveId)
            && Value(all, "account") == Some(o.account) && Value(all, "expected_revision") == Value(["path="], "expected_revision")
            && Value(all, "path") == Value(["path="], "path")
  {
    var pairs := OwnerPairs(o);
    OwnerPairsSplit(o);
    OwnerPairsDistinct(o);
    ValueOfPair(pairs, ["path="], 0);
    ValueOfPair(pairs, ["path="], 1);
    ValueOfPair(pairs, ["path="], 2);
    ValueBeyond(pairs, ["path="], "path");
    ValueBeyond(pairs, ["path="], "expected_revision");
  }

  /** Not every line is a written record: one without a revision blocks the save for ever, since the
      replay passes over it and the pending question does not. */
  lemma OrphanExists(o: Owner, markers: set<string>)
    requires '\t' !in o.server && '\t' !in o.saveId && '\t' !in o.account
    requires |o.server| < 160 && |o.saveId| < 96 && |o.account| < 64
    ensures Classify(Unnumbered(o), o) == NotMine && Orphan(Unnumbered(o), o, markers)
  {
    UnnumberedFields(o);
    assert "path="[..4] == "path" && "path="[5..] == "" && LineOf("") == "";
    assert Path(Unnumbered(o)) == Some("") && !Managed("");
  }
}

/** The text side of the envelope file: a 4096-byte header of tab-separated key=value fields, padded
    with zeros, then the payload.  A byte string is written here as a string of characters. */
module EnvelopeText {

  import opened Options
  import opened Texts

  const HEADER := 4096
  const NUL := '\0'
  const MAX_SAVE := 128 * 1024 + 48

  // ---------------------------------------------------------------- fields of a line

  /** The tab-separated fields of a line. */
  function Fields(s: string): seq<string> { Split(s, '\t') }

  predicate HasKey(field: string, key: string) {
    |key| < |field| && field[..|key|] == key && field[|key|] == '='
  }

  /** Text up to the first line break. */
  function LineOf(s: string): (r: string)
    ensures r <= s
  {
    var cr := Find(s, '\r', 0);
    s[..Find(s[..cr], '\n', 0)]
  }

  /** The value of the first field with the key; only the last field of the line ends at a line break. */
  function Value(fs: seq<string>, key: string): Option<string> {
    if fs == [] then None
    else if HasKey(fs[0], key) then
      var v := fs[0][|key| + 1..];
      Some(if |fs| == 1 then LineOf(v) else v)
    else Value(fs[1..], key)
  }

  function Capped(v: Option<string>, capacity: nat): Option<string>
    requires capacity > 0
  {
    if v.Some? then Some(Fit(v.value, capacity)) else None
  }

  /** The key, and an equals sign, stand at position p of the line, before the next tab. */
  predicate KeyAt(line: string, key: string, p: nat, tab: nat)
    requires p <= tab <= |line|
  {
    p + |key| < tab && line[p..p + |key|] == key && line[p + |key|] == '='
  }

  lemma KeyOfField(line: string, key: string, p: nat, tab: nat)
    requires p <= tab <= |line|
    ensures KeyAt(line, key, p, tab) <==> HasKey(line[p..tab], key)
    ensures KeyAt(line, key, p, tab) ==> line[p..tab][|key| + 1..] == line[p + |key| + 1..tab]
  {
    assert p + |key| < tab ==>
      line[p..tab][..|key|] == line[p..p + |key|] && line[p..tab][|key|] == line[p + |key|];
  }

  /** What the scan from a field start finds. */
  function Scan(line: string, key: string, p: nat): Option<string>
    requires p <= |line|
    decreases |line| - p
  {
    if p == |line| then None
    else
      var tab := Find(line, '\t', p);
      if KeyAt(line, key, p, tab) then Some(ValueText(line, p + |key| + 1, tab))
      else if tab == |line| then None
      else Scan(line, key, tab + 1)
  }

  function ValueText(line: string, value: nat, tab: nat): string
    requires value <= tab <= |line|
  {
    if tab == |line| then LineOf(line[value..]) else line[value..tab]
  }

  /** Scanning finds the value of the first field with the key. */
  lemma {:induction false} ScanFindsFirst(line: string, key: string, p: nat, fs: seq<string>)
    requires p <= |line| && fs == Fields(line[p..])
    ensures Scan(line, key, p) == Value(fs, key)
    decreases |line| - p
  {
    var tab := Find(line, '\t', p);
    SplitAt(line, '\t', p, tab);
    KeyOfField(line, key, p, tab);
    if tab == |line| {
      assert line[p..] == line[p..tab];
    } else if !KeyAt(line, key, p, tab) {
      ScanFindsFirst(line, key, tab + 1, fs[1..]);
    }
  }

  /** The walk from field to field, and the copy into a buffer of the given capacity. */
  method ExtractTsvField(line: string, key: string, capacity: nat) returns (r: Option<string>)
    requires capacity > 0
    ensures r == Field(line, key, capacity)
  {
    assert line[0..] == line;
    ScanFindsFirst(line, key, 0, Fields(line));
    var p := 0;
    while p < |line|
      invariant p <= |line| && Scan(line, key, 0) == Scan(line, key, p)
    {
      var tab := Find(line, '\t', p);
      if KeyAt(line, key, p, tab) {
        return Some(Fit(ValueText(line, p + |key| + 1, tab), capacity));
      }
      if tab == |line| {
        return None;
      }
      p := tab + 1;
    }
    r := None;
  }

  /** One key=value field. */
  datatype Pair = Pair(key: string, value: string)

  function Render(pairs: seq<Pair>): (fs: seq<string>)
    ensures |fs| == |pairs| && forall i | 0 <= i < |fs| :: fs[i] == pairs[i].key + "=" + pairs[i].value
  {
    seq(|pairs|, i requires 0 <= i < |pairs| => pairs[i].key + "=" + pairs[i].value)
  }

  predicate Distinct(pairs: seq<Pair>) {
    && (forall i {:trigger pairs[i]} | 0 <= i < |pairs| :: '=' !in pairs[i].key)
    && (forall i, j | 0 <= i < j < |pairs| :: pairs[i].key != pairs[j].key)
  }

  lemma KeyOfPair(p: Pair, key: string)
    requires '=' !in p.key && '=' !in key
    ensures HasKey(p.key + "=" + p.value, key) <==> p.key == key
  {
    var f := p.key + "=" + p.value;
    assert f[|p.key|] == '=' && f[..|p.key|] == p.key;
    assert |p.key| < |key| < |f| ==> f[..|key|][|p.key|] == '=';
  }

  /** A key is looked up in rendered pairs as in a table, whatever follows them. */
  lemma {:induction false} ValueOfPair(pairs: seq<Pair>, more: seq<string>, k: nat)
    requires k < |pairs| && Distinct(pairs) && |more| > 0
    ensures Value(Render(pairs) + more, pairs[k].key) == Some(pairs[k].value)
    decreases k
  {
    var fs := Render(pairs);
    KeyOfPair(pairs[0], pairs[k].key);
    if k == 0 {
      assert fs[0][|pairs[0].key| + 1..] == pairs[0].value;
    } else {
      assert fs[1..] == Render(pairs[1..]);
      assert (fs + more)[1..] == Render(pairs[1..]) + more;
      ValueOfPair(pairs[1..], more, k - 1);
    }
  }

  /** A key none of the pairs has is looked up in what follows them. */
  lemma {:induction false} ValueBeyond(pairs: seq<Pair>, more: seq<string>, key: string)
    requires Distinct(pairs) && '=' !in key && forall i | 0 <= i < |pairs| :: pairs[i].key != key
    ensures Value(Render(pairs) + more, key) == Value(more, key)
  {
    var fs := Render(pairs);
    if pairs == [] {
      assert fs + more == more;
    } else {
      KeyOfPair(pairs[0], key);
      assert fs[1..] == Render(pairs[1..]);
      assert (fs + more)[1..] == Render(pairs[1..]) + more;
      ValueBeyond(pairs[1..], more, key);
    }
  }

  // ---------------------------------------------------------------- the envelope

  datatype Record = Record(server: string, account: string, saveId: string, path: string, revision: nat,
                           committed: nat, hash: string, request: string, error: string, bytes: string)

  function Entries(e: Record): (pairs: seq<Pair>) {
    [Pair("inflight", "1"), Pair("server", e.server), Pair("account", e.account), Pair("save_id", e.saveId),
     Pair("path", e.path), Pair("expected_revision", Decimal(e.revision)),
     Pair("committed", Decimal(e.committed)), Pair("sha256", e.hash), Pair("request_id", e.request)]
  }

  function Header(e: Record): string {
    Line(Render(Entries(e)), '\t', "error=" + e.error + "\n")
  }

  function Zeros(n: nat): (z: string)
    ensures |z| == n && forall i | 0 <= i < n :: z[i] == NUL
  {
    seq(n, _ => NUL)
  }

  /** The file that replaces the envelope, or None when the header does not fit. */
  function Write(e: Record): (file: Option<string>)
    ensures file.Some? <==> |Header(e)| < HEADER
    ensures file.Some? ==> |file.value| == HEADER + |e.bytes|
  {
    var text := Header(e);
    if |text| < HEADER then Some(text + Zeros(HEADER - |text|) + e.bytes) else None
  }

  /** Reading a file back; None for every record the reader refuses. */
  method Read(file: string, sha: string -> string) returns (r: Option<Record>)
    ensures r == Parsed(file, sha)
  {
    if |file| <= HEADER || |file| > HEADER + MAX_SAVE || NUL !in file[..HEADER] {
      return None;
    }
    var text := file[..Find(file, NUL, 0)];
    var server := ExtractTsvField(text, "server", 160);
    var account := ExtractTsvField(text, "account", 64);
    var saveId := ExtractTsvField(text, "save_id", 96);
    var path := ExtractTsvField(text, "path", 1024);
    var hash := ExtractTsvField(text, "sha256", 65);
    var request := ExtractTsvField(text, "request_id", 192);
    var error := ExtractTsvField(text, "error", 160);
    var revision := ExtractTsvField(text, "expected_revision", 32);
    var committed := ExtractTsvField(text, "committed", 32);
    if server.None? || account.None? || saveId.None? || path.None? || hash.None? || request.None? || error.None?
       || revision.None? || committed.None? {
      return None;
    }
    var bytes := file[HEADER..];
    var revisionNumber, committedNumber := Atoi(revision.value), Atoi(committed.value);
    if revisionNumber < 0 || committedNumber < 0 || sha(bytes) != hash.value {
      return None;
    }
    r := Some(Record(server.value, account.value, saveId.value, path.value, revisionNumber, committedNumber,
                     hash.value, request.value, error.value, bytes));
  }

  function Field(text: string, key: string, capacity: nat): Option<string>
    requires capacity > 0
  {
    Capped(Value(Fields(text), key), capacity)
  }

  predicate Complete(text: string) {
    && Field(text, "server", 160).Some? && Field(text, "account", 64).Some? && Field(text, "save_id", 96).Some?
    && Field(text, "path", 1024).Some? && Field(text, "sha256", 65).Some?
    && Field(text, "request_id", 192).Some? && Field(text, "error", 160).Some?
    && Field(text, "expected_revision", 32).Some? && Field(text, "committed", 32).Some?
  }

  function ParsedText(text: string, bytes: string, sha: string -> string): Option<Record> {
    if !Complete(text) then None
    else
      var revision := Atoi(Field(text, "expected_revision", 32).value);
      var committed := Atoi(Field(text, "committed", 32).value);
      if revision < 0 || committed < 0 || sha(bytes) != Field(text, "sha256", 65).value then None
      else Some(Record(Field(text, "server", 160).value, Field(text, "account", 64).value,
                       Field(text, "save_id", 96).value, Field(text, "path", 1024).value, revision, committed,
                       Field(text, "sha256", 65).value, Field(text, "request_id", 192).value,
                       Field(text, "error", 160).value, bytes))
  }

  /** What the reader makes of a file. */
  function Parsed(file: string, sha: string -> string): Option<Record> {
    if |file| <= HEADER || |file| > HEADER + MAX_SAVE || NUL !in file[..HEADER] then None
    else ParsedText(file[..Find(file, NUL, 0)], file[HEADER..], sha)
  }

  // ---------------------------------------------------------------- round trip

  const INT_LIMIT := 0x8000_0000

  predicate Plain(s: string) { '\t' !in s && NUL !in s }

  /** A record as the upload routine fills it in: every text within its buffer, without tab or NUL, and
      the error text without line breaks. */
  predicate WellFormed(e: Record, sha: string -> string) {
    && Plain(e.server) && |e.server| < 160 && Plain(e.account) && |e.account| < 64
    && Plain(e.saveId) && |e.saveId| < 96 && Plain(e.path) && |e.path| < 1024
    && Plain(e.hash) && |e.hash| < 65 && Plain(e.request) && |e.request| < 192
    && Plain(e.error) && |e.error| < 160 && '\r' !in e.error && '\n' !in e.error
    && e.revision < INT_LIMIT && e.committed < INT_LIMIT
    && |e.bytes| <= MAX_SAVE && e.hash == sha(e.bytes)
  }

  lemma KeyIsPlain(e: Record, i: nat)
    requires i < |Entries(e)|
    ensures '=' !in Entries(e)[i].key
  {
    var key := Entries(e)[i].key;
    forall k | 0 <= k < |key| ensures key[k] != '=' {
    }
  }

  /** Keys of equal length differ in one of their first two characters. */
  lemma KeysDiffer(e: Record, i: nat, j: nat)
    requires i < j < |Entries(e)|
    ensures Entries(e)[i].key != Entries(e)[j].key
  {
    var p := Entries(e);
    if |p[i].key| == |p[j].key| {
      assert p[i].key[0] != p[j].key[0] || p[i].key[1] != p[j].key[1];
    }
  }

  lemma EntriesDistinct(e: Record)
    ensures Distinct(Entries(e))
  {
    forall i | 0 <= i < |Entries(e)| ensures '=' !in Entries(e)[i].key { KeyIsPlain(e, i); }
    forall i, j | 0 <= i < j < |Entries(e)| ensures Entries(e)[i].key != Entries(e)[j].key { KeysDiffer(e, i, j); }
  }

  /** No field before the error text has the character. */
  predicate Without(e: Record, c: char) {
    c !in e.server && c !in e.account && c !in e.saveId && c !in e.path && c !in e.hash && c !in e.request
  }

  lemma PairWithout(p: Pair, c: char)
    requires c !in p.key && c !in p.value && c != '='
    ensures c !in p.key + "=" + p.value
  {
  }

  lemma EntriesWithout(e: Record, c: char)
    requires Without(e, c) && (c == '\t' || c == NUL)
    ensures forall i {:trigger Render(Entries(e))[i]} | 0 <= i < |Entries(e)| :: c !in Render(Entries(e))[i]
  {
    KeysWithout(e, c);
    forall i | 0 <= i < |Entries(e)| ensures c !in Render(Entries(e))[i] {
      PairWithout(Entries(e)[i], c);
    }
  }

  lemma KeysWithout(e: Record, c: char)
    requires c == '\t' || c == NUL
    ensures forall i {:trigger Entries(e)[i]} | 0 <= i < |Entries(e)| :: c !in Entries(e)[i].key
  {
  }

  lemma HeaderFields(e: Record)
    requires Without(e, '\t')
    ensures Fields(Header(e)) == Render(Entries(e)) + Fields("error=" + e.error + "\n")
  {
    EntriesWithout(e, '\t');
    SplitLine(Render(Entries(e)), '\t', "error=" + e.error + "\n");
  }

  /** Every field before the error text is read back as written, whatever the error text holds. */
  lemma FieldsSurviveErrorText(e: Record, k: nat)
    requires Without(e, '\t') && k < |Entries(e)|
    ensures Value(Fields(Header(e)), Entries(e)[k].key) == Some(Entries(e)[k].value)
  {
    HeaderFields(e);
    EntriesDistinct(e);
    ValueOfPair(Entries(e), Fields("error=" + e.error + "\n"), k);
  }

  /** The error text itself is read back when it has no tab and no line break. */
  lemma ErrorText(e: Record)
    requires Without(e, '\t') && '\t' !in e.error && '\r' !in e.error && '\n' !in e.error
    ensures Value(Fields(Header(e)), "error") == Some(e.error)
  {
    HeaderFields(e);
    EntriesDistinct(e);
    var last := "error=" + e.error + "\n";
    assert last[0..|last|] == last;
    FindIs(last, '\t', 0, |last|);
    ValueBeyond(Entries(e), [last], "error");
    assert last[..5] == "error" && last[6..] == e.error + "\n";
    LineOfText(e.error);
  }

  lemma LineOfText(text: string)
    requires '\r' !in text && '\n' !in text
    ensures LineOf(text + "\n") == text
  {
    var t := text + "\n";
    assert t[0..|t|] == t && t[..|t|] == t && t[0..|text|] == text;
    FindIs(t, '\r', 0, |t|);
    FindIs(t, '\n', 0, |text|);
  }

  /** Buffers of these sizes never overflow the header. */
  lemma HeaderFits(e: Record, sha: string -> string)
    requires WellFormed(e, sha)
    ensures |Header(e)| < HEADER
  {
    var fs, rest := Render(Entries(e)), "error=" + e.error + "\n";
    assert fs[0..] == fs && fs[9..] == [];
    LineStep(fs, '\t', rest, 0); LineStep(fs, '\t', rest, 1); LineStep(fs, '\t', rest, 2);
    LineStep(fs, '\t', rest, 3); LineStep(fs, '\t', rest, 4); LineStep(fs, '\t', rest, 5);
    LineStep(fs, '\t', rest, 6); LineStep(fs, '\t', rest, 7); LineStep(fs, '\t', rest, 8);
    assert Pow10(10) == 10_000_000_000;
    DecimalLength(e.revision, 10);
    DecimalLength(e.committed, 10);
  }

  /** Reading what was written gives back every field and every byte; a record without payload is
      refused, for the reader wants something after the header. */
  lemma RoundTrip(e: Record, sha: string -> string)
    requires WellFormed(e, sha)
    ensures Write(e).Some?
    ensures Parsed(Write(e).value, sha) == if |e.bytes| > 0 then Some(e) else None
  {
    HeaderFits(e, sha);
    if |e.bytes| > 0 {
      HeaderHasNoNul(e, sha);
      HeaderEnds(Header(e), e.bytes);
      HeaderReadBack(e, sha);
    }
  }

  lemma HeaderHasNoNul(e: Record, sha: string -> string)
    requires WellFormed(e, sha)
    ensures NUL !in Header(e)
  {
    EntriesWithout(e, NUL);
    LineWithout(Render(Entries(e)), '\t', "error=" + e.error + "\n", NUL);
  }

  /** The first zero of the file ends the header text. */
  lemma HeaderEnds(text: string, bytes: string)
    requires |text| < HEADER && NUL !in text
    ensures var file := text + Zeros(HEADER - |text|) + bytes;
            NUL in file[..HEADER] && Find(file, NUL, 0) == |text| && file[..|text|] == text && file[HEADER..] == bytes
  {
    var file := text + Zeros(HEADER - |text|) + bytes;
    assert file[|text|] == NUL && file[..HEADER][|text|] == NUL;
    assert file[0..|text|] == text;
    FindIs(file, NUL, 0, |text|);
  }

  lemma HeaderReadBack(e: Record, sha: string -> string)
    requires WellFormed(e, sha)
    ensures ParsedText(Header(e), e.bytes, sha) == Some(e)
  {
    ErrorText(e);
    FieldsSurviveErrorText(e, 1); FieldsSurviveErrorText(e, 2); FieldsSurviveErrorText(e, 3);
    FieldsSurviveErrorText(e, 4); FieldsSurviveErrorText(e, 5); FieldsSurviveErrorText(e, 6);
    FieldsSurviveErrorText(e, 7); FieldsSurviveErrorText(e, 8);
    assert Pow10(10) == 10_000_000_000;
    DecimalLength(e.revision, 10);
    DecimalLength(e.committed, 10);
    NumberOfDecimal(e.revision);
    NumberOfDecimal(e.committed);
  }

  // ---------------------------------------------------------------- texts the upload routine makes

  /** The text with tabs and line breaks replaced by spaces. */
  function Cleaned(text: string): (r: string)
    ensures |r| == |text|
    ensures forall i | 0 <= i < |r| :: r[i] !in {'\t', '\n', '\r'}
    ensures forall i | 0 <= i < |r| :: text[i] !in {'\t', '\n', '\r'} ==> r[i] == text[i]
  {
    seq(|text|, i requires 0 <= i < |text| => if text[i] in {'\t', '\n', '\r'} then ' ' else text[i])
  }

  /** The error text of a failed upload always fits its field and can be read back. */
  function FailureText(refused: bool, error: string): (r: string)
    ensures |r| < 160 && '\t' !in r && '\n' !in r && '\r' !in r
  {
    var kind := if refused then "SAVE REJECTED" else "SAVE RESULT UNKNOWN";
    Cleaned(kind + ": " + if |error| <= 120 then error else error[..120])
  }

  /** The request id: save id, revision and the first 24 digits of the content hash. */
  function RequestId(saveId: string, revision: nat, hash: string): string
    requires |hash| >= 24
  {
    "save-" + saveId + "-r" + Decimal(revision) + "-" + hash[..24]
  }

  /** Two requests of one save have the same id only for the same revision and hash prefix. */
  lemma RequestIdDistinguishes(saveId: string, r1: nat, h1: string, r2: nat, h2: string)
    requires |h1| >= 24 && |h2| >= 24 && RequestId(saveId, r1, h1) == RequestId(saveId, r2, h2)
    ensures r1 == r2 && h1[..24] == h2[..24]
  {
    var a, b := RequestId(saveId, r1, h1), RequestId(saveId, r2, h2);
    var d1, d2 := Decimal(r1), Decimal(r2);
    var n := |saveId| + 7;
    assert a[|a| - 24..] == h1[..24] && b[|b| - 24..] == h2[..24];
    assert |d1| == |d2|;
    assert a[n..n + |d1|] == d1 && b[n..n + |d2|] == d2;
    DecimalInjective(r1, r2);
  }
}

/** The receipt a mobile runtime leaves: it lets the working file be uploaded only when it says that the
    runtime ended cleanly, and names the size and the hash that the file really has. */
module MobileReceipt {
  import opened Options
  import opened Texts
  import opened EnvelopeText

  const LIMIT64 := 0x1_0000_0000_0000_0000

  predicate PlainChar(c: char) { 'a' <= c <= 'z' || '0' <= c <= '9' || c == '_' || c == '-' || c == '.' }

  predicate PlainText(s: string) { forall i | 0 <= i < |s| :: PlainChar(s[i]) }

  /** The line gives the key a value, and the value fits the buffer. */
  predicate Gives(line: string, key: string, capacity: nat) {
    |line| > |key| + 1 && HasKey(line, key) && |line| - |key| <= capacity
  }

  /** The value in the first line that gives one; nothing when that value has an odd character. */
  function FieldOf(lines: seq<string>, key: string, capacity: nat): Option<string> {
    if lines == [] then None
    else if Gives(lines[0], key, capacity) then
      if PlainText(lines[0][|key| + 1..]) then Some(lines[0][|key| + 1..]) else None
    else FieldOf(lines[1..], key, capacity)
  }

  function FieldFrom(text: string, key: string, capacity: nat, p: nat): Option<string>
    requires p <= |text|
    decreases |text| - p
  {
    var end := Find(text, '\n', p);
    if Gives(text[p..end], key, capacity) then
      if PlainText(text[p..end][|key| + 1..]) then Some(text[p..end][|key| + 1..]) else None
    else if end == |text| then None
    else FieldFrom(text, key, capacity, end + 1)
  }

  lemma {:induction false} FieldFromLines(text: string, key: string, capacity: nat, p: nat, lines: seq<string>)
    requires p <= |text| && lines == Split(text[p..], '\n')
    ensures FieldFrom(text, key, capacity, p) == FieldOf(lines, key, capacity)
    decreases |text| - p
  {
    var end := Find(text, '\n', p);
    SplitAt(text, '\n', p, end);
    if end == |text| {
      assert lines[0] == text[p..end];
    } else {
      FieldFromLines(text, key, capacity, end + 1, lines[1..]);
    }
  }

  /** The scan from line to line. */
  method ExecutionResultField(text: string, key: string, capacity: nat) returns (r: Option<string>)
    ensures r == FieldOf(Split(text, '\n'), key, capacity)
  {
    assert text[0..] == text;
    FieldFromLines(text, key, capacity, 0, Split(text, '\n'));
    var p := 0;
    while true
      invariant p <= |text| && FieldFrom(text, key, capacity, 0) == FieldFrom(text, key, capacity, p)
      decreases |text| - p
    {
      var end := Find(text, '\n', p);
      var line := text[p..end];
      if Gives(line, key, capacity) {
        var value := line[|key| + 1..];
        return if PlainText(value) then Some(value) else None;
      }
      if end == |text| { return None; }
      p := end + 1;
    }
  }

  /** The whole text as an unsigned number that a save can have as its size; a minus sign wraps around. */
  function SizeOf(text: string): Option<nat> {
    var digits := if text != "" && text[0] == '-' then text[1..] else text;
    if digits == "" || exists i | 0 <= i < |digits| :: !IsDigit(digits[i]) then None
    else
      var n := Number(digits);
      var size := if text[0] == '-' && n > 0 then LIMIT64 - n else n;
      if n >= LIMIT64 || size > MAX_SAVE then None else Some(size)
  }

  /** The receipt lets a file of that size and hash be uploaded. */
  predicate Allows(text: string, size: nat, hash: string) {
    var lines := Split(text, '\n');
    && FieldOf(lines, "schema_version", 8) == Some("1")
    && FieldOf(lines, "clean_exit", 8) == Some("1")
    && FieldOf(lines, "battery_flush", 8) == Some("1")
    && FieldOf(lines, "sav_size", 32).Some? && SizeOf(FieldOf(lines, "sav_size", 32).value) == Some(size)
    && FieldOf(lines, "sav_sha256", 65) == Some(hash) && |hash| == 64
  }

  method AllowsCommit(text: string, size: nat, hash: string) returns (ok: bool)
    ensures ok == Allows(text, size, hash)
  {
    var schema := ExecutionResultField(text, "schema_version", 8);
    if schema != Some("1") { return false; }
    var clean := ExecutionResultField(text, "clean_exit", 8);
    if clean != Some("1") { return false; }
    var flushed := ExecutionResultField(text, "battery_flush", 8);
    if flushed != Some("1") { return false; }
    var sizeText := ExecutionResultField(text, "sav_size", 32);
    var reported := ExecutionResultField(text, "sav_sha256", 65);
    if sizeText.None? || reported.None? { return false; }
    var reportedSize := SizeOf(sizeText.value);
    if reportedSize.None? { return false; }
    ok := size == reportedSize.value && |reported.value| == 64 && reported.value == hash;
  }

  /** A receipt allows one file at most: its size and its hash. */
  lemma AllowsOne(text: string, size1: nat, hash1: string, size2: nat, hash2: string)
    requires Allows(text, size1, hash1) && Allows(text, size2, hash2)
    ensures size1 == size2 && hash1 == hash2
  {
  }

  // ---------------------------------------------------------------- receipts as they are written

  function Receipt(clean: string, flushed: string, size: nat, hash: string): seq<Pair> {
    [Pair("schema_version", "1"), Pair("clean_exit", clean), Pair("battery_flush", flushed),
     Pair("sav_size", Decimal(size)), Pair("sav_sha256", hash)]
  }

  function ReceiptText(clean: string, flushed: string, size: nat, hash: string): string {
    Line(Render(Receipt(clean, flushed, size, hash)), '\n', "")
  }

  lemma {:induction false} FieldOfPair(pairs: seq<Pair>, more: seq<string>, k: nat, capacity: nat)
    requires k < |pairs| && Distinct(pairs)
    requires PlainText(pairs[k].value) && 0 < |pairs[k].value| < capacity
    ensures FieldOf(Render(pairs) + more, pairs[k].key, capacity) == Some(pairs[k].value)
    decreases k
  {
    var fs := Render(pairs);
    KeyOfPair(pairs[0], pairs[k].key);
    if k == 0 {
      assert fs[0][|pairs[0].key| + 1..] == pairs[0].value;
    } else {
      assert fs[1..] == Render(pairs[1..]);
      assert (fs + more)[1..] == Render(pairs[1..]) + more;
      FieldOfPair(pairs[1..], more, k - 1, capacity);
    }
  }

  lemma ReceiptDistinct(clean: string, flushed: string, size: nat, hash: string)
    ensures Distinct(Receipt(clean, flushed, size, hash))
  {
  }

  lemma DecimalIsPlain(n: nat)
    ensures PlainText(Decimal(n))
  {
    var d := Decimal(n);
    assert forall i | 0 <= i < |d| :: IsDigit(d[i]);
  }

  lemma PlainHasNoBreak(s: string)
    requires PlainText(s)
    ensures '\n' !in s
  {
    assert forall i | 0 <= i < |s| :: PlainChar(s[i]);
  }

  lemma ReceiptLines(clean: string, flushed: string, size: nat, hash: string)
    requires PlainText(clean) && PlainText(flushed) && PlainText(hash)
    ensures var r := Receipt(clean, flushed, size, hash);
            Split(ReceiptText(clean, flushed, size, hash), '\n') == Render(r) + Split("", '\n')
  {
    var r := Receipt(clean, flushed, size, hash);
    PlainHasNoBreak(clean);
    PlainHasNoBreak(flushed);
    PlainHasNoBreak(hash);
    DecimalIsPlain(size);
    PlainHasNoBreak(Decimal(size));
    forall i | 0 <= i < |r| ensures '\n' !in Render(r)[i] {
      PairWithoutBreak(r[i]);
    }
    SplitLine(Render(r), '\n', "");
  }

  lemma PairWithoutBreak(p: Pair)
    requires '\n' !in p.key && '\n' !in p.value
    ensures '\n' !in p.key + "=" + p.value
  {
  }

  /** A written receipt allows exactly the file it was written for, after a clean exit and a flush. */
  lemma ReceiptAllowsItsFile(clean: string, flushed: string, size: nat, hash: string, fileSize: nat, fileHash: string)
    requires PlainText(clean) && PlainText(flushed) && PlainText(hash)
    requires 0 < |clean| < 8 && 0 < |flushed| < 8 && |hash| == 64 && size <= MAX_SAVE
    ensures Allows(ReceiptText(clean, flushed, size, hash), fileSize, fileHash) <==>
              clean == "1" && flushed == "1" && fileSize == size && fileHash == hash
  {
    var r, more := Receipt(clean, flushed, size, hash), Split("", '\n');
    ReceiptLines(clean, flushed, size, hash);
    ReceiptDistinct(clean, flushed, size, hash);
    DecimalIsPlain(size);
    assert Pow10(6) == 1_000_000;
    DecimalLength(size, 6);
    FieldOfPair(r, more, 0, 8);
    FieldOfPair(r, more, 1, 8);
    FieldOfPair(r, more, 2, 8);
    FieldOfPair(r, more, 3, 32);
    FieldOfPair(r, more, 4, 65);
    NumberOfDecimal(size);
    assert IsDigit(Decimal(size)[0]);
  }
}

/** The configuration file as text: how keys are spelled, how a line is recognised, and how the file is cut
    into lines.  The theorems about sections are stated here, for files as they are on disk. */
module ConfigText {
  import opened Options
  import opened ConfigFile
  import Texts

  const HEADER := "# INTEGRAL EMULATOR client config"
  /** fgets reads one character less than its buffer has. */
  const LINE_READ := 4095
  const SGB_READ := 127

  datatype Part = LoginPart | LocalPart | WindowPart | KeysPart | SlotsPart

  const ALL := {LoginPart, LocalPart, WindowPart, KeysPart, SlotsPart}

  // ---------------------------------------------------------------- keys

  function TextName(i: nat): string {
    match i
    case 0 => "slot1"
    case 1 => "slot2"
    case 2 => "n64_p1"
    case 3 => "n64_p2"
    case 4 => "n64_p3"
    case 5 => "n64_p4"
    case 6 => "fast"
    case 7 => "screenshot"
    case 8 => "escape"
    case 9 => "turbo_hold"
    case 10 => "reset"
    case 11 => "client_alias_right"
    case 12 => "client_alias_left"
    case 13 => "client_alias_up"
    case 14 => "client_alias_down"
    case 15 => "client_alias_enter"
    case _ => "client_alias_escape"
  }

  function SlotName(i: nat): string { "slot" + Texts.Decimal(i + 1) }

  function KeyName(k: Key): string {
    match k
    case Sgb => "sgb"
    case Server => "login.server"
    case ServerId => "login.server_id"
    case Remember => "login.remember"
    case Username => "login.username"
    case LocalSlot(i) => if i == 0 then "local.slot1_index" else "local.slot2_index"
    case Delay => "gb.ir_off_delay_ticks"
    case Width => "window.width"
    case Height => "window.height"
    case KeyText(i) => "keys." + TextName(i)
    case RomPath(i) => SlotName(i) + ".rom_path"
    case RomId(i) => SlotName(i) + ".rom_id"
    case SaveId(i) => SlotName(i) + ".save_id"
  }

  /** The keys a line is compared with by their whole name; those of the ROM slots are scanned instead. */
  predicate Fixed(k: Key) {
    match k
    case Sgb => false
    case LocalSlot(i) => i < 2
    case KeyText(i) => i < KEY_TEXTS
    case RomPath(_) => false
    case RomId(_) => false
    case SaveId(_) => false
    case _ => true
  }

  function PartOf(k: Key): Part {
    match k
    case Server => LoginPart
    case ServerId => LoginPart
    case Remember => LoginPart
    case Username => LoginPart
    case LocalSlot(_) => LocalPart
    case Delay => LocalPart
    case Width => WindowPart
    case Height => WindowPart
    case KeyText(_) => KeysPart
    case _ => SlotsPart
  }

  predicate NameChar(c: char) { 'a' <= c <= 'z' || Texts.IsDigit(c) || c == '.' || c == '_' }

  predicate IsName(s: string) { forall i | 0 <= i < |s| :: NameChar(s[i]) }

  /** The key with this name, told by its length and two of its characters. */
  function Decode(s: string): Key
    requires |s| >= 11
  {
    var last := s[|s| - 1];
    match |s|
    case 11 => if last == '1' then KeyText(2) else if last == '2' then KeyText(3) else if last == '3' then KeyText(4)
               else if last == '4' then KeyText(5) else KeyText(8)
    case 12 => if s[0] == 'l' then Server else Width
    case 13 => Height
    case 14 => if last == 'r' then Remember else Username
    case 15 => if s[8] == 'r' then ServerId else if s[8] == 'e' then KeyText(7) else KeyText(9)
    case 17 => if s[10] == '1' then LocalSlot(0) else LocalSlot(1)
    case 20 => KeyText(13)
    case 21 => Delay
    case 22 => if last == 't' then KeyText(12) else KeyText(14)
    case 23 => if last == 't' then KeyText(11) else KeyText(15)
    case _ => KeyText(16)
  }

  function DecodeShort(s: string): Key
    requires 9 <= |s| <= 10
  {
    var last := s[|s| - 1];
    if |s| == 9 then KeyText(6) else if last == '1' then KeyText(0) else if last == '2' then KeyText(1) else KeyText(10)
  }

  /** A fixed name stands for one key, has no odd character, and does not begin like a slot. */
  predicate NameOk(k: Key) {
    var s := KeyName(k);
    && 9 <= |s| <= 24 && IsName(s) && s[0] in "lgwk"
    && k == if |s| < 11 then DecodeShort(s) else Decode(s)
  }

  lemma LoginNames()
    ensures NameOk(Server) && NameOk(ServerId) && NameOk(Remember) && NameOk(Username)
  {
  }

  lemma LocalNames()
    ensures NameOk(LocalSlot(0)) && NameOk(LocalSlot(1)) && NameOk(Delay)
  {
  }

  lemma SizeNames()
    ensures NameOk(Width) && NameOk(Height)
  {
  }

  lemma PadNames(i: nat)
    requires i < 6
    ensures NameOk(KeyText(i))
  {
  }

  lemma UtilityNames(i: nat)
    requires 6 <= i < 11
    ensures NameOk(KeyText(i))
  {
  }

  lemma AliasNames(i: nat)
    requires 11 <= i < 14
    ensures NameOk(KeyText(i))
  {
  }

  lemma LastAliasNames()
    ensures NameOk(KeyText(14)) && NameOk(KeyText(15))
  {
  }

  lemma LastName()
    ensures NameOk(KeyText(16))
  {
  }

  lemma Names(k: Key)
    requires Fixed(k)
    ensures NameOk(k)
  {
    LoginNames();
    LocalNames();
    SizeNames();
    if k.KeyText? {
      if k.i < 6 { PadNames(k.i); }
      else if k.i < 11 { UtilityNames(k.i); }
      else if k.i < 14 { AliasNames(k.i); }
      else { LastAliasNames(); LastName(); }
    }
  }

  // ---------------------------------------------------------------- recognising a line

  /** Whether the test for the key takes the rest of a line that begins with its name: a number, any text,
      or a text that is not empty.  A line that is taken is not tested any further, even if it sets nothing. */
  predicate Takes(k: Key, value: string) {
    match k
    case Delay => true
    case LocalSlot(_) => HasInt(value)
    case Width => Texts.ScanUnsigned(value).Some?
    case Height => Texts.ScanUnsigned(value).Some?
    case KeyText(i) => value != "" || TakesEmpty(i)
    case _ => value != ""
  }

  function Prefix(k: Key): string { KeyName(k) + "=" }

  predicate Matches(k: Key, s: string) { Prefix(k) <= s && Takes(k, s[|Prefix(k)|..]) }

  /** The tests of each part, in their order. */
  function Tests(part: Part): seq<Key> {
    match part
    case LoginPart => [Remember, Server, ServerId, Username]
    case LocalPart => [Delay, LocalSlot(0), LocalSlot(1)]
    case WindowPart => [Width, Height]
    case KeysPart => [KeyText(3), KeyText(4), KeyText(5), KeyText(0), KeyText(1), KeyText(2), KeyText(6), KeyText(7), KeyText(8),
                      KeyText(9), KeyText(10), KeyText(11), KeyText(12), KeyText(13), KeyText(14), KeyText(15), KeyText(16)]
    case SlotsPart => []
  }

  function TestsIf(part: Part, parts: set<Part>): seq<Key> { if part in parts then Tests(part) else [] }

  /** The tests of a call that wants these parts. */
  function AllTests(parts: set<Part>): seq<Key> {
    TestsIf(LoginPart, parts) + TestsIf(LocalPart, parts) + TestsIf(WindowPart, parts) + TestsIf(KeysPart, parts)
  }

  /** The first test that takes the line. */
  function FirstTest(tests: seq<Key>, s: string): (k: Option<Key>)
    ensures k.Some? ==> k.value in tests && Matches(k.value, s)
  {
    if tests == [] then None else if Matches(tests[0], s) then Some(tests[0]) else FirstTest(tests[1..], s)
  }

  /** slot%u.%31[^=]=%255[^\n], of which the value is cut later. */
  function SlotLine(s: string): Option<Line> {
    if !("slot" <= s) then None
    else
      var number := Texts.ScanUnsigned(s[4..]);
      if number.None? then None else SlotField(number.value.0, number.value.1)
  }

  function SlotField(n: nat, r: string): Option<Line> {
    if r == "" || r[0] != '.' then None
    else
      var e := Texts.Find(r, '=', 1);
      if e == 1 || e > 32 || e + 1 >= |r| || n == 0 || n > SLOTS then None
      else
        var name, value := r[1..e], r[e + 1..];
        if name == "rom_path" then Some(Line(RomPath(n - 1), value))
        else if name == "rom_id" then Some(Line(RomId(n - 1), value))
        else if name == "save_id" then Some(Line(SaveId(n - 1), value))
        else None
  }

  /** What a line says to a call that wants these parts. */
  function ParseLine(s: string, parts: set<Part>): Option<Line> {
    var k := FirstTest(AllTests(parts), s);
    if k.Some? then Some(Line(k.value, s[|Prefix(k.value)|..]))
    else if SlotsPart in parts then SlotLine(s)
    else None
  }

  // ---------------------------------------------------------------- no line is two keys

  lemma EqualsEndsName(k: Key, s: string, i: nat)
    requires Fixed(k) && Prefix(k) <= s && i <= |KeyName(k)|
    ensures i < |s| && (s[i] == '=' <==> i == |KeyName(k)|) && s[..|KeyName(k)|] == KeyName(k)
  {
    Names(k);
    assert s[..|KeyName(k)| + 1] == Prefix(k);
    assert i < |KeyName(k)| ==> NameChar(KeyName(k)[i]);
  }

  /** The name before the first equals sign decides. */
  lemma OneName(j: Key, k: Key, s: string)
    requires Fixed(j) && Fixed(k) && Prefix(j) <= s && Prefix(k) <= s
    ensures j == k
  {
    var m, n := |KeyName(j)|, |KeyName(k)|;
    EqualsEndsName(j, s, m);
    EqualsEndsName(k, s, n);
    if m <= n { EqualsEndsName(k, s, m); } else { EqualsEndsName(j, s, n); }
    Names(j);
    Names(k);
  }

  lemma {:induction false} FirstTestIs(tests: seq<Key>, s: string, k: Key)
    requires forall j | j in tests :: Fixed(j)
    requires k in tests && Matches(k, s)
    ensures FirstTest(tests, s) == Some(k)
  {
    assert Fixed(tests[0]);
    if Matches(tests[0], s) {
      OneName(tests[0], k, s);
    } else {
      FirstTestIs(tests[1..], s, k);
    }
  }

  lemma {:induction false} NoTest(tests: seq<Key>, s: string)
    requires forall j | j in tests :: !Matches(j, s)
    ensures FirstTest(tests, s) == None
  {
    if tests != [] {
      assert tests[0] in tests;
      NoTest(tests[1..], s);
    }
  }

  lemma TestsOf(part: Part, k: Key)
    ensures k in Tests(part) <==> Fixed(k) && PartOf(k) == part
  {
    if k.KeyText? && k.i < KEY_TEXTS && part == KeysPart {
      assert Tests(part)[if k.i < 3 then k.i + 3 else if k.i < 6 then k.i - 3 else k.i] == k;
    }
  }

  lemma TestsAre(parts: set<Part>, k: Key)
    ensures k in AllTests(parts) <==> Fixed(k) && PartOf(k) in parts
  {
    TestsOf(LoginPart, k);
    TestsOf(LocalPart, k);
    TestsOf(WindowPart, k);
    TestsOf(KeysPart, k);
  }

  /** The order of the tests does not matter, and a wanted key is found whatever else is wanted. */
  lemma ParseFixed(s: string, parts: set<Part>, k: Key)
    requires Fixed(k) && Matches(k, s)
    ensures ParseLine(s, parts) == if PartOf(k) in parts then Some(Line(k, s[|Prefix(k)|..])) else None
  {
    forall j ensures j in AllTests(parts) <==> Fixed(j) && PartOf(j) in parts { TestsAre(parts, j); }
    if PartOf(k) in parts {
      FirstTestIs(AllTests(parts), s, k);
    } else {
      forall j | j in AllTests(parts) ensures !Matches(j, s) {
        if Matches(j, s) { OneName(j, k, s); }
      }
      NoTest(AllTests(parts), s);
      Names(k);
      assert s[0] == KeyName(k)[0];
    }
  }

  lemma ParseOther(s: string, parts: set<Part>)
    requires forall j | Fixed(j) :: !Matches(j, s)
    ensures ParseLine(s, parts) == if SlotsPart in parts then SlotLine(s) else None
  {
    forall j | j in AllTests(parts) ensures !Matches(j, s) { TestsAre(parts, j); }
    NoTest(AllTests(parts), s);
  }

  /** A part is read the same whichever other parts are wanted. */
  lemma PartsDoNotMix(s: string, parts: set<Part>)
    ensures var all := ParseLine(s, ALL);
            ParseLine(s, parts) == if all.Some? && PartOf(all.value.key) in parts then all else None
  {
    if k :| Fixed(k) && Matches(k, s) {
      ParseFixed(s, parts, k);
      ParseFixed(s, ALL, k);
    } else {
      ParseOther(s, parts);
      ParseOther(s, ALL);
    }
  }

  // ---------------------------------------------------------------- reading back a printed line

  function Body(line: Line): string { Prefix(line.key) + line.value }

  lemma ParseFixedBody(k: Key, v: string, parts: set<Part>)
    requires Fixed(k)
    ensures ParseLine(Body(Line(k, v)), parts) == if PartOf(k) in parts && Takes(k, v) then Some(Line(k, v)) else None
  {
    var s := Body(Line(k, v));
    assert s[|Prefix(k)|..] == v;
    if Takes(k, v) {
      ParseFixed(s, parts, k);
    } else {
      forall j | Fixed(j) ensures !Matches(j, s) {
        if Matches(j, s) { OneName(j, k, s); }
      }
      ParseOther(s, parts);
      Names(k);
      assert s[0] == KeyName(k)[0];
    }
  }

  lemma {:induction false} DigitsThen(d: string, t: string)
    requires forall i | 0 <= i < |d| :: Texts.IsDigit(d[i])
    requires t == "" || !Texts.IsDigit(t[0])
    ensures Texts.SkipDigits(d + t) == t
  {
    if d == "" {
      assert d + t == t;
    } else {
      assert (d + t)[1..] == d[1..] + t;
      DigitsThen(d[1..], t);
    }
  }

  /** %u reads a printed number and stops at a point. */
  lemma ScanDecimal(n: nat, rest: string)
    ensures Texts.ScanUnsigned(Texts.Decimal(n) + "." + rest) == Some((n, "." + rest))
  {
    var d := Texts.Decimal(n);
    var t := "." + rest;
    assert d + "." + rest == d + t;
    assert (d + t)[0] == d[0];
    DigitsThen(d, t);
    Texts.NumberAppend(d, t, 0);
    Texts.NumberOfDecimal(n);
  }

  /** The field of a slot, without the number of the slot. */
  function FieldName(k: Key): string
    requires k.RomPath? || k.RomId? || k.SaveId?
  {
    if k.RomPath? then "rom_path" else if k.RomId? then "rom_id" else "save_id"
  }

  lemma FieldReads(k: Key, v: string)
    requires (k.RomPath? || k.RomId? || k.SaveId?) && k.i < SLOTS
    ensures SlotField(k.i + 1, "." + FieldName(k) + "=" + v) == if v == "" then None else Some(Line(k, v))
  {
    FieldNameOk(k);
    FieldEnds(FieldName(k), v);
  }

  lemma FieldNameOk(k: Key)
    requires k.RomPath? || k.RomId? || k.SaveId?
    ensures '=' !in FieldName(k) && '\n' !in FieldName(k) && |FieldName(k)| <= 8
  {
  }

  lemma FieldEnds(f: string, v: string)
    requires '=' !in f
    ensures var r, e := "." + f + "=" + v, |f| + 1;
            |r| > e && r[0] == '.' && Texts.Find(r, '=', 1) == e && r[1..e] == f && r[e + 1..] == v
  {
    var r, e := "." + f + "=" + v, |f| + 1;
    assert r[1..e] == f;
    Texts.FindIs(r, '=', 1, e);
  }

  lemma SlotShape(k: Key, v: string)
    requires k.RomPath? || k.RomId? || k.SaveId?
    ensures Body(Line(k, v)) == "slot" + (Texts.Decimal(k.i + 1) + "." + (FieldName(k) + "=" + v))
  {
    SlotKeyName(k);
    Regroup("slot", Texts.Decimal(k.i + 1), FieldName(k), v);
  }

  lemma SlotKeyName(k: Key)
    requires k.RomPath? || k.RomId? || k.SaveId?
    ensures KeyName(k) == "slot" + Texts.Decimal(k.i + 1) + ("." + FieldName(k))
  {
    assert "." + "rom_path" == ".rom_path" && "." + "rom_id" == ".rom_id" && "." + "save_id" == ".save_id";
  }

  lemma Regroup(a: string, d: string, f: string, v: string)
    ensures a + d + ("." + f) + "=" + v == a + (d + "." + (f + "=" + v))
  {
  }

  lemma RegroupField(f: string, v: string)
    ensures "." + (f + "=" + v) == "." + f + "=" + v
  {
  }

  lemma ScanSlot(k: Key, v: string)
    requires (k.RomPath? || k.RomId? || k.SaveId?) && k.i < SLOTS
    ensures SlotLine("slot" + (Texts.Decimal(k.i + 1) + "." + (FieldName(k) + "=" + v))) == if v == "" then None else Some(Line(k, v))
  {
    var rest := FieldName(k) + "=" + v;
    var digits := Texts.Decimal(k.i + 1) + "." + rest;
    assert ("slot" + digits)[4..] == digits;
    ScanDecimal(k.i + 1, rest);
    RegroupField(FieldName(k), v);
    FieldReads(k, v);
  }

  lemma ParseSlotBody(k: Key, v: string, parts: set<Part>)
    requires (k.RomPath? || k.RomId? || k.SaveId?) && k.i < SLOTS
    ensures ParseLine(Body(Line(k, v)), parts) == if SlotsPart in parts && v != "" then Some(Line(k, v)) else None
  {
    var s := Body(Line(k, v));
    SlotShape(k, v);
    ScanSlot(k, v);
    assert s[0] == 's';
    forall j | Fixed(j) ensures !Matches(j, s) { Names(j); }
    ParseOther(s, parts);
  }

  /** The lines that only the sgb reader looks at, and the comment. */
  lemma ParseForeign(s: string, parts: set<Part>)
    requires s != "" && s[0] !in "lgwk" && !("slot" <= s)
    ensures ParseLine(s, parts) == None
  {
    forall j | Fixed(j) ensures !Matches(j, s) { Names(j); }
    ParseOther(s, parts);
  }

  /** A printed line is read as the key it was printed for, if its value is one that the test takes. */
  lemma ParsePrinted(k: Key, v: string, parts: set<Part>)
    requires Written(true, k)
    ensures ParseLine(Body(Line(k, v)), parts) ==
            if !k.Sgb? && PartOf(k) in parts && Takes(k, v) then Some(Line(k, v)) else None
  {
    if k.Sgb? {
      var s := Body(Line(k, v));
      assert s[0] == 's' && s[1] == 'g';
      ParseForeign(s, parts);
    } else if Fixed(k) {
      ParseFixedBody(k, v, parts);
    } else {
      ParseSlotBody(k, v, parts);
    }
  }

  // ---------------------------------------------------------------- lines of a file

  /** What one fgets call takes: up to and with a line feed, but no more than the limit. */
  function ChunkEnd(text: string, limit: nat): (e: nat)
    requires text != "" && limit > 0
    ensures 0 < e <= |text| && e <= limit
  {
    var i := Texts.Find(text, '\n', 0);
    if i < |text| && i < limit then i + 1 else if |text| <= limit then |text| else limit
  }

  function Chunks(text: string, limit: nat): (chunks: seq<string>)
    requires limit > 0
    decreases |text|
  {
    if text == "" then [] else [text[..ChunkEnd(text, limit)]] + Chunks(text[ChunkEnd(text, limit)..], limit)
  }

  function One(line: Option<Line>): seq<Line> { if line.Some? then [line.value] else [] }

  function ParseAll(chunks: seq<string>, parts: set<Part>): seq<Line> {
    if chunks == [] then [] else One(ParseLine(Strip(chunks[0]), parts)) + ParseAll(chunks[1..], parts)
  }

  function Parsed(text: string, parts: set<Part>): seq<Line> { ParseAll(Chunks(text, LINE_READ), parts) }

  /** The first line that says so decides; without one it is enabled. */
  function FirstSgb(chunks: seq<string>): bool {
    if chunks == [] then true
    else if Strip(chunks[0]) == "sgb=disable" then false
    else if Strip(chunks[0]) == "sgb=enable" then true
    else FirstSgb(chunks[1..])
  }

  function SgbEnabled(text: string): bool { FirstSgb(Chunks(text, SGB_READ)) }

  function LoadText(text: string, parts: set<Part>): Config { Load(Parsed(text, parts), SgbEnabled(text)) }

  function LinesText(lines: seq<Line>): string {
    if lines == [] then "" else Body(lines[0]) + "\n" + LinesText(lines[1..])
  }

  function SavedText(c: Config): string { HEADER + "\n" + LinesText(Saved(c)) }

  lemma ChunksLine(body: string, rest: string, limit: nat)
    requires '\n' !in body && |body| < limit
    ensures Chunks(body + "\n" + rest, limit) == [body + "\n"] + Chunks(rest, limit)
  {
    var text := body + "\n" + rest;
    assert text[0..|body|] == body;
    Texts.FindIs(text, '\n', 0, |body|);
    assert text[..|body| + 1] == body + "\n" && text[|body| + 1..] == rest;
  }

  lemma StripLine(body: string)
    requires !EndsInBreak(body)
    ensures Strip(body + "\n") == body
  {
    assert (body + "\n")[..|body|] == body;
  }

  /** A line that fits the buffer, has no line feed inside and none at its end. */
  predicate Printable(line: Line) {
    var body := Body(line);
    |body| < LINE_READ && '\n' !in body && !EndsInBreak(body)
  }

  /** What the loader keeps of printed lines. */
  function Kept(lines: seq<Line>, parts: set<Part>): seq<Line> {
    if lines == [] then []
    else
      var k, v := lines[0].key, lines[0].value;
      (if !k.Sgb? && PartOf(k) in parts && Takes(k, v) then [lines[0]] else []) + Kept(lines[1..], parts)
  }

  lemma {:induction false} ParsedLines(lines: seq<Line>, parts: set<Part>)
    requires forall i {:trigger lines[i]} | 0 <= i < |lines| :: Printable(lines[i]) && Written(true, lines[i].key)
    ensures Parsed(LinesText(lines), parts) == Kept(lines, parts)
  {
    if lines != [] {
      var line, rest := lines[0], LinesText(lines[1..]);
      assert Printable(line) && Written(true, line.key);
      ChunksLine(Body(line), rest, LINE_READ);
      StripLine(Body(line));
      ParsePrinted(line.key, line.value, parts);
      ParsedLines(lines[1..], parts);
    }
  }

  /** What is not kept sets nothing. */
  lemma {:induction false} LastCons(line: Line, lines: seq<Line>, k: Key)
    ensures Last([line] + lines, k) == if Last(lines, k).Some? then Last(lines, k) else Last([line], k)
  {
    if lines != [] {
      var n := |lines| - 1;
      assert [line] + lines == ([line] + lines[..n]) + [lines[n]] && lines == lines[..n] + [lines[n]];
      LastSnoc([line] + lines[..n], lines[n], k);
      LastSnoc(lines[..n], lines[n], k);
      LastCons(line, lines[..n], k);
    } else {
      assert [line] + lines == [line];
    }
  }

  lemma LastOne(line: Line, k: Key)
    requires !EndsInBreak(line.value)
    ensures Last([line], k) == if line.key == k && Sets(k, line.value) then Some(line.value) else None
  {
    assert [line][..0] == [];
  }

  lemma SetsOnlyTaken(k: Key, value: string)
    requires Sets(k, value)
    ensures Takes(k, value)
  {
  }

  lemma {:induction false} LastKept(lines: seq<Line>, parts: set<Part>, k: Key)
    requires forall i {:trigger lines[i]} | 0 <= i < |lines| :: !EndsInBreak(lines[i].value)
    requires !k.Sgb? && PartOf(k) in parts
    ensures Last(Kept(lines, parts), k) == Last(lines, k)
  {
    if lines != [] {
      var line, rest := lines[0], Kept(lines[1..], parts);
      assert lines == [line] + lines[1..];
      LastKept(lines[1..], parts, k);
      LastCons(line, lines[1..], k);
      LastOne(line, k);
      if !line.key.Sgb? && PartOf(line.key) in parts && Takes(line.key, line.value) {
        assert Kept(lines, parts) == [line] + rest;
        LastCons(line, rest, k);
      } else {
        assert Kept(lines, parts) == rest;
        if Sets(line.key, line.value) { SetsOnlyTaken(line.key, line.value); }
      }
    }
  }

  // ---------------------------------------------------------------- sections from lines

  /** Two ways to come to lines that give every key of these parts the same value. */
  predicate Agree(a: seq<Line>, b: seq<Line>, parts: set<Part>) {
    && (LoginPart in parts ==> LoadLogin(a) == LoadLogin(b))
    && (LocalPart in parts ==> LoadLocal(a) == LoadLocal(b))
    && (WindowPart in parts ==> LoadWindow(a) == LoadWindow(b))
    && (KeysPart in parts ==> LoadKeys(a) == LoadKeys(b))
    && (SlotsPart in parts ==> LoadSlots(a) == LoadSlots(b))
  }

  lemma SameSections(a: seq<Line>, b: seq<Line>, parts: set<Part>)
    requires forall k: Key | !k.Sgb? && PartOf(k) in parts :: Last(a, k) == Last(b, k)
    ensures Agree(a, b, parts)
  {
    forall i | 0 <= i < SLOTS && SlotsPart in parts ensures LoadSlots(a)[i] == LoadSlots(b)[i] {
      assert PartOf(RomPath(i)) == PartOf(RomId(i)) == PartOf(SaveId(i)) == SlotsPart;
    }
    forall i | 0 <= i < KEY_TEXTS && KeysPart in parts ensures LoadKeys(a)[i] == LoadKeys(b)[i] {
      assert PartOf(KeyText(i)) == KeysPart;
    }
    assert PartOf(Remember) == PartOf(Server) == PartOf(ServerId) == PartOf(Username) == LoginPart;
    assert PartOf(Delay) == PartOf(LocalSlot(0)) == PartOf(LocalSlot(1)) == LocalPart;
    assert PartOf(Width) == PartOf(Height) == WindowPart;
  }

  /** A call that wants some parts gets in them what a call for all parts gets. */
  lemma {:induction false} SomeParts(chunks: seq<string>, parts: set<Part>)
    ensures ParseAll(chunks, parts) == Wanted(ParseAll(chunks, ALL), parts)
  {
    if chunks != [] {
      var s := Strip(chunks[0]);
      PartsDoNotMix(s, parts);
      SomeParts(chunks[1..], parts);
      WantedCons(ParseLine(s, ALL), ParseAll(chunks[1..], ALL), parts);
    }
  }

  lemma WantedCons(line: Option<Line>, lines: seq<Line>, parts: set<Part>)
    ensures Wanted(One(line) + lines, parts) ==
            One(if line.Some? && PartOf(line.value.key) in parts then line else None) + Wanted(lines, parts)
  {
    if line.Some? {
      assert (One(line) + lines)[1..] == lines;
    } else {
      assert One(line) + lines == lines;
    }
  }

  function Wanted(lines: seq<Line>, parts: set<Part>): seq<Line> {
    if lines == [] then [] else (if PartOf(lines[0].key) in parts then [lines[0]] else []) + Wanted(lines[1..], parts)
  }

  lemma {:induction false} LastWanted(lines: seq<Line>, parts: set<Part>, k: Key)
    requires PartOf(k) in parts
    ensures Last(Wanted(lines, parts), k) == Last(lines, k)
  {
    if lines != [] {
      var line, rest := lines[0], Wanted(lines[1..], parts);
      assert lines == [line] + lines[1..];
      LastWanted(lines[1..], parts, k);
      LastCons(line, lines[1..], k);
      if PartOf(line.key) in parts {
        assert Wanted(lines, parts) == [line] + rest;
        LastCons(line, rest, k);
      } else {
        assert Wanted(lines, parts) == rest;
        assert [line][..0] == [] && line.key != k;
      }
    }
  }

  lemma PartsAgree(text: string, parts: set<Part>)
    ensures Agree(Parsed(text, parts), Parsed(text, ALL), parts)
  {
    SomeParts(Chunks(text, LINE_READ), parts);
    forall k: Key | !k.Sgb? && PartOf(k) in parts ensures Last(Parsed(text, parts), k) == Last(Parsed(text, ALL), k) {
      LastWanted(Parsed(text, ALL), parts, k);
    }
    SameSections(Parsed(text, parts), Parsed(text, ALL), parts);
  }

  // ---------------------------------------------------------------- a saved file

  lemma Spelled(k: Key)
    requires Written(true, k)
    ensures |KeyName(k)| <= 24 && '\n' !in KeyName(k)
  {
    if Fixed(k) {
      Names(k);
    } else if !k.Sgb? {
      SlotSpelled(k);
    }
  }

  lemma SlotSpelled(k: Key)
    requires (k.RomPath? || k.RomId? || k.SaveId?) && k.i < SLOTS
    ensures |KeyName(k)| <= 24 && '\n' !in KeyName(k)
  {
    SlotKeyName(k);
    FieldNameOk(k);
    Texts.DecimalLength(k.i + 1, 1);
    var d := Texts.Decimal(k.i + 1);
    assert '\n' !in d by { assert forall i | 0 <= i < |d| :: Texts.IsDigit(d[i]); }
    NotIn4("slot", d, ".", FieldName(k));
  }

  lemma NotIn4(a: string, b: string, c: string, d: string)
    requires '\n' !in a && '\n' !in b && '\n' !in c && '\n' !in d
    ensures '\n' !in a + b + (c + d)
  {
  }

  lemma ShortNumber(n: nat)
    requires n <= 0x1_0000_0000
    ensures |Texts.Decimal(n)| <= 10
  {
    assert Texts.Pow10(5) == 100000;
    assert Texts.Pow10(10) == 100000 * 100000;
    Texts.DecimalLength(n, 10);
  }

  predicate ValueFits(v: string) { |v| < 1536 && '\n' !in v && !EndsInBreak(v) }

  lemma NumberFits(n: nat)
    requires n <= 0x1_0000_0000
    ensures ValueFits(Texts.Decimal(n)) && ValueFits("-" + Texts.Decimal(n))
  {
    ShortNumber(n);
    var d := Texts.Decimal(n);
    assert Texts.IsDigit(d[|d| - 1]);
  }

  lemma ValuesFit(c: Config, k: Key)
    requires WellFormed(c) && Written(true, k)
    ensures ValueFits(ValueOf(c, k))
  {
    match k
    case LocalSlot(i) => NumberFits(if c.local.slots[i] < 0 then -c.local.slots[i] else c.local.slots[i]);
    case Delay => NumberFits(c.local.delay);
    case Width => NumberFits(c.window.width);
    case Height => NumberFits(c.window.height);
    case KeyText(i) => assert Holds(c.keys[i], Capacity(i));
    case RomPath(i) => assert SlotHolds(c.slots[i]);
    case RomId(i) => assert SlotHolds(c.slots[i]);
    case SaveId(i) => assert SlotHolds(c.slots[i]);
    case _ =>
  }

  lemma SavedIsPrintable(c: Config, i: nat)
    requires WellFormed(c) && i < |Saved(c)|
    ensures Printable(Saved(c)[i]) && Written(true, Saved(c)[i].key) && !EndsInBreak(Saved(c)[i].value)
  {
    var k := Keys(c.login.remember)[i];
    KeysComplete(c.login.remember, k);
    Spelled(k);
    ValuesFit(c, k);
    BodyFits(k, ValueOf(c, k));
  }

  lemma BodyFits(k: Key, v: string)
    requires |KeyName(k)| <= 24 && '\n' !in KeyName(k) && ValueFits(v)
    ensures Printable(Line(k, v)) && !EndsInBreak(v)
  {
    var body := Body(Line(k, v));
    assert body == KeyName(k) + "=" + v;
  }

  lemma ParsedFirst(body: string, rest: string, parts: set<Part>)
    requires '\n' !in body && |body| < LINE_READ && !EndsInBreak(body)
    ensures Parsed(body + "\n" + rest, parts) == One(ParseLine(body, parts)) + Parsed(rest, parts)
  {
    ChunksLine(body, rest, LINE_READ);
    StripLine(body);
  }

  lemma SgbFirst(body: string, rest: string)
    requires '\n' !in body && |body| < SGB_READ && !EndsInBreak(body)
    ensures SgbEnabled(body + "\n" + rest) ==
            if body == "sgb=disable" then false else if body == "sgb=enable" then true else SgbEnabled(rest)
  {
    ChunksLine(body, rest, SGB_READ);
    StripLine(body);
  }

  lemma ParsedSaved(c: Config, parts: set<Part>)
    requires WellFormed(c)
    ensures Parsed(SavedText(c), parts) == Kept(Saved(c), parts)
  {
    var lines := Saved(c);
    forall i | 0 <= i < |lines| ensures Printable(lines[i]) && Written(true, lines[i].key) { SavedIsPrintable(c, i); }
    ParsedLines(lines, parts);
    ParsedComment(LinesText(lines), parts);
  }

  lemma ParsedComment(rest: string, parts: set<Part>)
    ensures Parsed(HEADER + "\n" + rest, parts) == Parsed(rest, parts)
    ensures SgbEnabled(HEADER + "\n" + rest) == SgbEnabled(rest)
  {
    Comment();
    ParseForeign(HEADER, parts);
    ParsedFirst(HEADER, rest, parts);
    SgbFirst(HEADER, rest);
  }

  lemma Comment()
    ensures HEADER[0] == '#' && |HEADER| < SGB_READ && '\n' !in HEADER && !EndsInBreak(HEADER)
  {
  }

  lemma SavedAgree(c: Config)
    requires WellFormed(c)
    ensures Agree(Parsed(SavedText(c), ALL), Saved(c), ALL)
  {
    ParsedSaved(c, ALL);
    forall i | 0 <= i < |Saved(c)| ensures !EndsInBreak(Saved(c)[i].value) { SavedIsPrintable(c, i); }
    forall k: Key | !k.Sgb? && PartOf(k) in ALL ensures Last(Kept(Saved(c), ALL), k) == Last(Saved(c), k) {
      LastKept(Saved(c), ALL, k);
    }
    SameSections(Kept(Saved(c), ALL), Saved(c), ALL);
  }

  /** The sgb line is the first after the comment, and is read whole. */
  lemma SavedSgb(c: Config)
    ensures SgbEnabled(SavedText(c)) == c.sgb
  {
    var lines := Saved(c);
    assert lines[0] == Line(Sgb, if c.sgb then "enable" else "disable");
    ParsedComment(LinesText(lines), ALL);
    SgbLine(c.sgb);
    SgbFirst(Body(lines[0]), LinesText(lines[1..]));
  }

  lemma SgbLine(sgb: bool)
    ensures var body := Body(Line(Sgb, if sgb then "enable" else "disable"));
            && body == (if sgb then "sgb=enable" else "sgb=disable")
            && '\n' !in body && |body| < SGB_READ && !EndsInBreak(body)
  {
    assert "sgb" + "=" + "enable" == "sgb=enable" && "sgb" + "=" + "disable" == "sgb=disable";
  }

  /** Loading the file that was saved gives the configuration back in normal form, ROM paths cut to 255. */
  lemma LoadAfterSave(c: Config)
    requires WellFormed(c)
    ensures LoadText(SavedText(c), ALL) == Normal(c)
  {
    SavedAgree(c);
    SavedSgb(c);
    LoadedLines(c);
  }

  // ---------------------------------------------------------------- loading, line by line

  /** strip_newline: take off line feeds and carriage returns one by one. */
  method StripNewline(line: string) returns (text: string)
    ensures text == Strip(line)
  {
    text := line;
    while text != "" && (text[|text| - 1] == '\n' || text[|text| - 1] == '\r')
      invariant Strip(text) == Strip(line)
      decreases |text|
    {
      text := text[..|text| - 1];
    }
  }

  lemma ParsedSnoc(seen: seq<Line>, line: Option<Line>, rest: seq<Line>)
    ensures seen + (One(line) + rest) == (seen + One(line)) + rest
    ensures line.None? ==> seen + One(line) == seen
  {
  }

  /** One pass over the file fills the wanted sections; what comes later wins. */
  method LoadConfigFile(text: string, parts: set<Part>)
    returns (login: Login, local: Local, window: Window, keys: seq<string>, slots: seq<Slot>)
    ensures Config(SgbEnabled(text), login, local, window, keys, slots) == LoadText(text, parts)
  {
    login, local := Login(false, "", "", ""), Local([-1, -1], DEFAULT_DELAY);
    window := Window(DEFAULT_SIZE, DEFAULT_SIZE);
    keys, slots := seq(KEY_TEXTS, _ => ""), seq(SLOTS, _ => Slot("", "", ""));
    ghost var seen: seq<Line> := [];
    var rest := text;
    while rest != ""
      invariant Parsed(text, parts) == seen + Parsed(rest, parts)
      invariant login == LoadLogin(seen) && local == LoadLocal(seen) && window == LoadWindow(seen)
      invariant keys == LoadKeys(seen) && slots == LoadSlots(seen)
      decreases |rest|
    {
      var e := ChunkEnd(rest, LINE_READ);
      var s := StripNewline(rest[..e]);
      var line := ParseLine(s, parts);
      ParsedSnoc(seen, line, Parsed(rest[e..], parts));
      if line.Some? {
        OneMoreLine(seen, line.value);
        login, local, window := LoginSet(login, line.value), LocalSet(local, line.value), WindowSet(window, line.value);
        keys, slots := KeysSet(keys, line.value), SlotsSet(slots, line.value);
      }
      seen, rest := seen + One(line), rest[e..];
    }
    assert seen + [] == seen;
  }

  /** The reader of the sgb line alone. */
  method ReadSgb(text: string) returns (enabled: bool)
    ensures enabled == SgbEnabled(text)
  {
    var rest := text;
    while rest != ""
      invariant SgbEnabled(text) == SgbEnabled(rest)
      decreases |rest|
    {
      var e := ChunkEnd(rest, SGB_READ);
      var s := StripNewline(rest[..e]);
      if s == "sgb=disable" { return false; }
      if s == "sgb=enable" { return true; }
      rest := rest[e..];
    }
    enabled := true;
  }

  // ---------------------------------------------------------------- writing

  function Print(c: Config, k: Key): string { Body(Line(k, ValueOf(c, k))) + "\n" }

  lemma {:induction false} LinesAppend(a: seq<Line>, b: seq<Line>)
    ensures LinesText(a + b) == LinesText(a) + LinesText(b)
  {
    if a == [] {
      assert a + b == b;
    } else {
      assert (a + b)[1..] == a[1..] + b;
      LinesAppend(a[1..], b);
    }
  }

  /** The text of these keys. */
  function KeysText(c: Config, keys: seq<Key>): string { LinesText(Printed(c, keys)) }

  lemma KeysTextSnoc(c: Config, keys: seq<Key>, k: Key)
    ensures KeysText(c, keys + [k]) == KeysText(c, keys) + Print(c, k)
  {
    PrintedAppend(c, keys, [k]);
    LinesAppend(Printed(c, keys), Printed(c, [k]));
    assert Printed(c, [k])[1..] == [];
  }

  lemma KeysTextAppend(c: Config, a: seq<Key>, b: seq<Key>)
    ensures KeysText(c, a + b) == KeysText(c, a) + KeysText(c, b)
  {
    PrintedAppend(c, a, b);
    LinesAppend(Printed(c, a), Printed(c, b));
  }

  method PrintAll(c: Config, keys: seq<Key>) returns (text: string)
    ensures text == KeysText(c, keys)
  {
    text := "";
    var i := 0;
    while i < |keys|
      invariant 0 <= i <= |keys| && text == KeysText(c, keys[..i])
    {
      assert keys[..i + 1] == keys[..i] + [keys[i]];
      KeysTextSnoc(c, keys[..i], keys[i]);
      text := text + Print(c, keys[i]);
      i := i + 1;
    }
    assert keys[..i] == keys;
  }

  lemma OneMoreSlot(c: Config, printed: seq<Key>, i: nat)
    requires i < SLOTS
    ensures var three := [RomPath(i), RomId(i), SaveId(i)];
            && printed + SlotKeys(i) == (printed + three) + SlotKeys(i + 1)
            && KeysText(c, printed + three) == KeysText(c, printed) + KeysText(c, three)
  {
    var three := [RomPath(i), RomId(i), SaveId(i)];
    assert printed + (three + SlotKeys(i + 1)) == (printed + three) + SlotKeys(i + 1);
    KeysTextAppend(c, printed, three);
  }

  method PrintSlots(c: Config, ghost all: seq<Key>) returns (text: string)
    requires all == SlotKeys(0)
    ensures text == KeysText(c, all)
  {
    text := "";
    ghost var printed: seq<Key> := [];
    var i := 0;
    while i < SLOTS
      invariant 0 <= i <= SLOTS && text == KeysText(c, printed) && all == printed + SlotKeys(i)
    {
      OneMoreSlot(c, printed, i);
      var three := [RomPath(i), RomId(i), SaveId(i)];
      var slot := PrintAll(c, three);
      text, printed := text + slot, printed + three;
      i := i + 1;
    }
    assert printed + [] == printed;
  }

  /** The file of a configuration, section by section. */
  method SaveConfigFile(c: Config) returns (text: string)
    ensures text == SavedText(c)
  {
    var head := [Sgb, Server, ServerId, Remember] + (if c.login.remember then [Username] else []) +
                [LocalSlot(0), LocalSlot(1), Delay, Width, Height];
    var first := PrintAll(c, head);
    var texts := PrintAll(c, TextKeys());
    var slots := PrintSlots(c, SlotKeys(0));
    KeysTextAppend(c, head, TextKeys());
    KeysTextAppend(c, head + TextKeys(), SlotKeys(0));
    text := HEADER + "\n" + (first + texts + slots);
  }

  // ---------------------------------------------------------------- what was loaded can be saved

  /** Slot indexes are C ints, and no text ends in a carriage return that would be taken for a line break. */
  predicate Clean(c: Config) {
    && |c.local.slots| == 2 && IsInt(c.local.slots[0]) && IsInt(c.local.slots[1])
    && !EndsInBreak(c.login.server) && !EndsInBreak(c.login.serverId) && !EndsInBreak(c.login.username)
    && (forall i {:trigger c.keys[i]} | 0 <= i < |c.keys| :: !EndsInBreak(c.keys[i]))
    && (forall i {:trigger c.slots[i]} | 0 <= i < |c.slots| :: SlotClean(c.slots[i]))
  }

  predicate SlotClean(s: Slot) { !EndsInBreak(s.path) && !EndsInBreak(s.romId) && !EndsInBreak(s.saveId) }

  predicate NoFeed(lines: seq<Line>) { forall i {:trigger lines[i]} | 0 <= i < |lines| :: '\n' !in lines[i].value }

  lemma {:induction false} FeedSpaces(s: string)
    requires '\n' !in s
    ensures '\n' !in Texts.SkipSpaces(s)
  {
    if s != "" { FeedSpaces(s[1..]); }
  }

  lemma {:induction false} FeedDigits(s: string)
    requires '\n' !in s
    ensures '\n' !in Texts.SkipDigits(s)
  {
    if s != "" { FeedDigits(s[1..]); }
  }

  lemma FeedScan(s: string)
    requires '\n' !in s && Texts.ScanUnsigned(s).Some?
    ensures '\n' !in Texts.ScanUnsigned(s).value.1
  {
    var t := Texts.SkipSpaces(s);
    FeedSpaces(s);
    FeedDigits(t);
    FeedDigits(t[1..]);
  }

  lemma FeedParse(s: string, parts: set<Part>)
    requires '\n' !in s
    ensures NoFeed(One(ParseLine(s, parts)))
  {
    if FirstTest(AllTests(parts), s).Some? {
      FeedTest(s, parts);
    } else if "slot" <= s && Texts.ScanUnsigned(s[4..]).Some? {
      FeedScan(s[4..]);
    }
  }

  lemma FeedTest(s: string, parts: set<Part>)
    requires '\n' !in s && FirstTest(AllTests(parts), s).Some?
    ensures NoFeed(One(ParseLine(s, parts)))
  {
  }

  /** A line feed ends the chunk it is in. */
  lemma FeedChunk(text: string, limit: nat)
    requires text != "" && limit > 0
    ensures '\n' !in Strip(text[..ChunkEnd(text, limit)])
  {
    var i := Texts.Find(text, '\n', 0);
    Texts.FindIs(text, '\n', 0, i);
    var chunk := text[..ChunkEnd(text, limit)];
    assert forall j | 0 <= j < |chunk| - 1 :: chunk[j] == text[0..i][j];
    if chunk[|chunk| - 1] != '\n' {
      assert '\n' !in chunk;
    }
  }

  lemma {:induction false} FeedParsed(text: string, parts: set<Part>)
    ensures NoFeed(Parsed(text, parts))
    decreases |text|
  {
    if text != "" {
      var e := ChunkEnd(text, LINE_READ);
      FeedChunk(text, LINE_READ);
      FeedParse(Strip(text[..e]), parts);
      FeedParsed(text[e..], parts);
    }
  }

  lemma {:induction false} FeedLast(lines: seq<Line>, k: Key)
    requires NoFeed(lines)
    ensures Last(lines, k).Some? ==> '\n' !in Last(lines, k).value
  {
    if lines != [] {
      var n := |lines| - 1;
      assert '\n' !in lines[n].value;
      FeedLast(lines[..n], k);
    }
  }

  lemma LoadedHolds(lines: seq<Line>, k: Key, capacity: nat)
    requires NoFeed(lines) && capacity > 0
    ensures Holds(Text(lines, k, capacity), capacity) <==> !EndsInBreak(Text(lines, k, capacity))
  {
    FeedLast(lines, k);
  }

  lemma LoadedLoginHolds(lines: seq<Line>)
    requires NoFeed(lines)
    ensures var l := LoadLogin(lines);
            Holds(l.server, 128) && Holds(l.serverId, 32) && Holds(l.username, 64) <==>
            !EndsInBreak(l.server) && !EndsInBreak(l.serverId) && !EndsInBreak(l.username)
  {
    LoadedHolds(lines, Server, 128);
    LoadedHolds(lines, ServerId, 32);
    LoadedHolds(lines, Username, 64);
  }

  lemma LoadedKeysHold(lines: seq<Line>)
    requires NoFeed(lines)
    ensures var keys := LoadKeys(lines);
            (forall i {:trigger keys[i]} | 0 <= i < KEY_TEXTS :: Holds(keys[i], Capacity(i))) <==>
            (forall i {:trigger keys[i]} | 0 <= i < KEY_TEXTS :: !EndsInBreak(keys[i]))
  {
    var keys := LoadKeys(lines);
    forall i | 0 <= i < KEY_TEXTS ensures Holds(keys[i], Capacity(i)) <==> !EndsInBreak(keys[i]) {
      LoadedHolds(lines, KeyText(i), Capacity(i));
    }
  }

  lemma LoadedSlotsHold(lines: seq<Line>)
    requires NoFeed(lines)
    ensures var slots := LoadSlots(lines);
            (forall i {:trigger slots[i]} | 0 <= i < SLOTS :: SlotHolds(slots[i])) <==>
            (forall i {:trigger slots[i]} | 0 <= i < SLOTS :: SlotClean(slots[i]))
  {
    var slots := LoadSlots(lines);
    forall i | 0 <= i < SLOTS ensures SlotHolds(slots[i]) <==> SlotClean(slots[i]) { LoadedSlotHolds(lines, i); }
  }

  /** What was loaded can be saved exactly when it is clean. */
  lemma LoadedIsWellFormed(text: string)
    ensures WellFormed(LoadText(text, ALL)) <==> Clean(LoadText(text, ALL))
  {
    var lines := Parsed(text, ALL);
    FeedParsed(text, ALL);
    LoadedLoginHolds(lines);
    LoadedKeysHold(lines);
    LoadedSlotsHold(lines);
  }

  lemma LoadedSlotHolds(lines: seq<Line>, i: nat)
    requires NoFeed(lines)
    ensures SlotHolds(LoadSlot(lines, i)) <==> SlotClean(LoadSlot(lines, i))
  {
    LoadedHolds(lines, RomPath(i), PATH_READ + 1);
    LoadedHolds(lines, RomId(i), 96);
    LoadedHolds(lines, SaveId(i), 96);
  }

  // ---------------------------------------------------------------- saving one section

  /** The other sections are loaded from the file and written again with the new one. */
  function SaveLogin(text: string, login: Login): string { SavedText(LoadText(text, ALL - {LoginPart}).(login := login)) }
  function SaveLocal(text: string, local: Local): string { SavedText(LoadText(text, ALL - {LocalPart}).(local := local)) }
  function SaveWindow(text: string, window: Window): string { SavedText(LoadText(text, ALL - {WindowPart}).(window := window)) }
  function SaveKeys(text: string, keys: seq<string>): string { SavedText(LoadText(text, ALL - {KeysPart}).(keys := keys)) }
  function SaveSlots(text: string, slots: seq<Slot>): string { SavedText(LoadText(text, ALL - {SlotsPart}).(slots := slots)) }
  function SaveSgb(text: string, sgb: bool): string { SavedText(LoadText(text, ALL).(sgb := sgb)) }

  /** The section that is replaced need not be read. */
  lemma LoginIsNotRead(text: string, login: Login)
    ensures SaveLogin(text, login) == SavedText(LoadText(text, ALL).(login := login))
  {
    PartsAgree(text, ALL - {LoginPart});
  }

  lemma LocalIsNotRead(text: string, local: Local)
    ensures SaveLocal(text, local) == SavedText(LoadText(text, ALL).(local := local))
  {
    PartsAgree(text, ALL - {LocalPart});
  }

  lemma WindowIsNotRead(text: string, window: Window)
    ensures SaveWindow(text, window) == SavedText(LoadText(text, ALL).(window := window))
  {
    PartsAgree(text, ALL - {WindowPart});
  }

  lemma KeysAreNotRead(text: string, keys: seq<string>)
    ensures SaveKeys(text, keys) == SavedText(LoadText(text, ALL).(keys := keys))
  {
    PartsAgree(text, ALL - {KeysPart});
  }

  lemma SlotsAreNotRead(text: string, slots: seq<Slot>)
    ensures SaveSlots(text, slots) == SavedText(LoadText(text, ALL).(slots := slots))
  {
    PartsAgree(text, ALL - {SlotsPart});
  }

  /** A loaded configuration, once its login is in normal form. */
  function Settled(text: string): Config {
    var c := LoadText(text, ALL);
    c.(login := NormalLogin(c.login))
  }

  /** Writing a clean loaded configuration with one section exchanged, and loading it again. */
  lemma Rewritten(text: string, d: Config)
    requires WellFormed(d)
    ensures LoadText(SavedText(d), ALL) == Normal(d)
    ensures var l := LoadText(text, ALL); Normal(l) == Settled(text)
  {
    LoadAfterSave(d);
    LoadedIsNormal(Parsed(text, ALL), SgbEnabled(text));
  }

  lemma FirstSectionsSaved(text: string, c: Config)
    requires WellFormed(LoadText(text, ALL)) && WellFormed(c)
    ensures var l := LoadText(text, ALL);
            && LoadText(SavedText(l.(login := c.login)), ALL) == Settled(text).(login := NormalLogin(c.login))
            && LoadText(SavedText(l.(local := c.local)), ALL) == Settled(text).(local := Normal(c).local)
            && LoadText(SavedText(l.(window := c.window)), ALL) == Settled(text).(window := Normal(c).window)
  {
    var l := LoadText(text, ALL);
    Rewritten(text, l.(login := c.login));
    Rewritten(text, l.(local := c.local));
    Rewritten(text, l.(window := c.window));
  }

  lemma LastSectionsSaved(text: string, c: Config)
    requires WellFormed(LoadText(text, ALL)) && WellFormed(c)
    ensures var l := LoadText(text, ALL);
            && LoadText(SavedText(l.(keys := c.keys)), ALL) == Settled(text).(keys := c.keys)
            && LoadText(SavedText(l.(slots := c.slots)), ALL) == Settled(text).(slots := NormalSlots(c.slots))
            && LoadText(SavedText(l.(sgb := c.sgb)), ALL) == Settled(text).(sgb := c.sgb)
  {
    var l := LoadText(text, ALL);
    Rewritten(text, l.(keys := c.keys));
    Rewritten(text, l.(slots := c.slots));
    Rewritten(text, l.(sgb := c.sgb));
  }

  /** Saving one section into a file changes that section only, but for a user name that is not to be
      remembered and a missing server id. */
  lemma SectionsAreIndependent(text: string, c: Config)
    requires Clean(LoadText(text, ALL)) && WellFormed(c)
    ensures LoadText(SaveLogin(text, c.login), ALL) == Settled(text).(login := NormalLogin(c.login))
    ensures LoadText(SaveLocal(text, c.local), ALL) == Settled(text).(local := Normal(c).local)
    ensures LoadText(SaveWindow(text, c.window), ALL) == Settled(text).(window := Normal(c).window)
    ensures LoadText(SaveKeys(text, c.keys), ALL) == Settled(text).(keys := c.keys)
    ensures LoadText(SaveSlots(text, c.slots), ALL) == Settled(text).(slots := NormalSlots(c.slots))
    ensures LoadText(SaveSgb(text, c.sgb), ALL) == Settled(text).(sgb := c.sgb)
  {
    LoadedIsWellFormed(text);
    LoginIsNotRead(text, c.login);
    LocalIsNotRead(text, c.local);
    WindowIsNotRead(text, c.window);
    KeysAreNotRead(text, c.keys);
    SlotsAreNotRead(text, c.slots);
    FirstSectionsSaved(text, c);
    LastSectionsSaved(text, c);
  }

  /** A login that was saved by the program is in normal form: then nothing else changes at all. */
  lemma SavedLoginIsNormal(c: Config)
    requires WellFormed(c)
    ensures Settled(SavedText(c)) == LoadText(SavedText(c), ALL)
  {
    LoadAfterSave(c);
  }

  lemma FirstSectionsTwice(text: string, c: Config)
    requires Clean(LoadText(text, ALL)) && WellFormed(c)
    ensures SaveLogin(SaveLogin(text, c.login), c.login) == SaveLogin(text, c.login)
    ensures SaveLocal(SaveLocal(text, c.local), c.local) == SaveLocal(text, c.local)
    ensures SaveWindow(SaveWindow(text, c.window), c.window) == SaveWindow(text, c.window)
  {
    var l, n := LoadText(text, ALL), Settled(text);
    LoadedIsWellFormed(text);
    FirstSectionsSaved(text, c);
    LoginIsNotRead(text, c.login);
    LocalIsNotRead(text, c.local);
    WindowIsNotRead(text, c.window);
    LoginIsNotRead(SaveLogin(text, c.login), c.login);
    LocalIsNotRead(SaveLocal(text, c.local), c.local);
    WindowIsNotRead(SaveWindow(text, c.window), c.window);
    AlikeSaved(l.(login := c.login), n.(login := c.login));
    AlikeSaved(l.(local := c.local), n.(local := c.local));
    AlikeSaved(l.(window := c.window), n.(window := c.window));
  }

  lemma LastSectionsTwice(text: string, c: Config)
    requires Clean(LoadText(text, ALL)) && WellFormed(c)
    ensures SaveKeys(SaveKeys(text, c.keys), c.keys) == SaveKeys(text, c.keys)
    ensures SaveSlots(SaveSlots(text, c.slots), c.slots) == SaveSlots(text, c.slots)
    ensures SaveSgb(SaveSgb(text, c.sgb), c.sgb) == SaveSgb(text, c.sgb)
  {
    var l, n := LoadText(text, ALL), Settled(text);
    LoadedIsWellFormed(text);
    LastSectionsSaved(text, c);
    KeysAreNotRead(text, c.keys);
    SlotsAreNotRead(text, c.slots);
    KeysAreNotRead(SaveKeys(text, c.keys), c.keys);
    SlotsAreNotRead(SaveSlots(text, c.slots), c.slots);
    AlikeSaved(l.(keys := c.keys), n.(keys := c.keys));
    AlikeSaved(l.(slots := c.slots), n.(slots := c.slots));
    AlikeSaved(l.(sgb := c.sgb), n.(sgb := c.sgb));
  }

  /** Saving a section twice leaves the file as saving it once does. */
  lemma SavingTwice(text: string, c: Config)
    requires Clean(LoadText(text, ALL)) && WellFormed(c)
    ensures SaveLogin(SaveLogin(text, c.login), c.login) == SaveLogin(text, c.login)
    ensures SaveLocal(SaveLocal(text, c.local), c.local) == SaveLocal(text, c.local)
    ensures SaveWindow(SaveWindow(text, c.window), c.window) == SaveWindow(text, c.window)
    ensures SaveKeys(SaveKeys(text, c.keys), c.keys) == SaveKeys(text, c.keys)
    ensures SaveSlots(SaveSlots(text, c.slots), c.slots) == SaveSlots(text, c.slots)
    ensures SaveSgb(SaveSgb(text, c.sgb), c.sgb) == SaveSgb(text, c.sgb)
  {
    FirstSectionsTwice(text, c);
    LastSectionsTwice(text, c);
  }
}

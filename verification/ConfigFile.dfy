/** The configuration as keys with values, in the sections it is loaded and saved by.  ConfigText says how
    the lines are spelled and read. */
module ConfigFile {
  import opened Options
  import opened Texts

  const SLOTS := 8
  const KEY_TEXTS := 17
  const DEFAULT_SIZE := 360
  const MIN_SIZE := 360
  const MAX_SIZE := 16384
  const DEFAULT_DELAY := 32
  const MAX_DELAY := 256
  /** Longer ROM paths are cut when they are read. */
  const PATH_READ := 255

  datatype Key = Sgb | Server | ServerId | Remember | Username | LocalSlot(i: nat) | Delay | Width | Height
               | KeyText(i: nat) | RomPath(i: nat) | RomId(i: nat) | SaveId(i: nat)

  datatype Line = Line(key: Key, value: string)

  datatype Login = Login(remember: bool, server: string, serverId: string, username: string)

  datatype Local = Local(slots: seq<int>, delay: nat)

  datatype Window = Window(width: nat, height: nat)

  datatype Slot = Slot(path: string, romId: string, saveId: string)

  /** keys are the six key specs, the five utility keys and the six client aliases. */
  datatype Config = Config(sgb: bool, login: Login, local: Local, window: Window, keys: seq<string>, slots: seq<Slot>)

  // ---------------------------------------------------------------- printing

  /** %d */
  function IntText(n: int): string { if n < 0 then "-" + Decimal(-n) else Decimal(n) }

  function ValueOf(c: Config, k: Key): string {
    match k
    case Sgb => if c.sgb then "enable" else "disable"
    case Server => c.login.server
    case ServerId => if c.login.serverId == "" then "primary" else c.login.serverId
    case Remember => if c.login.remember then "1" else "0"
    case Username => c.login.username
    case LocalSlot(i) => if i < |c.local.slots| then IntText(c.local.slots[i]) else ""
    case Delay => Decimal(c.local.delay)
    case Width => Decimal(c.window.width)
    case Height => Decimal(c.window.height)
    case KeyText(i) => if i < |c.keys| then c.keys[i] else ""
    case RomPath(i) => if i < |c.slots| then c.slots[i].path else ""
    case RomId(i) => if i < |c.slots| then c.slots[i].romId else ""
    case SaveId(i) => if i < |c.slots| then c.slots[i].saveId else ""
  }

  function SlotKeys(i: nat): seq<Key>
    requires i <= SLOTS
    decreases SLOTS - i
  {
    if i == SLOTS then [] else [RomPath(i), RomId(i), SaveId(i)] + SlotKeys(i + 1)
  }

  function TextKeys(): (keys: seq<Key>)
    ensures |keys| == KEY_TEXTS && forall i | 0 <= i < KEY_TEXTS :: keys[i] == KeyText(i)
  {
    seq(KEY_TEXTS, i requires 0 <= i < KEY_TEXTS => KeyText(i))
  }

  /** The keys of a saved file, in order; the user name only when it is to be remembered. */
  function Keys(remember: bool): seq<Key> {
    [Sgb, Server, ServerId, Remember] + (if remember then [Username] else []) +
    [LocalSlot(0), LocalSlot(1), Delay, Width, Height] + TextKeys() + SlotKeys(0)
  }

  function Printed(c: Config, keys: seq<Key>): (lines: seq<Line>)
    ensures |lines| == |keys|
    ensures forall i | 0 <= i < |lines| :: lines[i] == Line(keys[i], ValueOf(c, keys[i]))
  {
    seq(|keys|, i requires 0 <= i < |keys| => Line(keys[i], ValueOf(c, keys[i])))
  }

  /** The file a configuration is saved as. */
  function Saved(c: Config): seq<Line> { Printed(c, Keys(c.login.remember)) }

  // ---------------------------------------------------------------- reading one value

  predicate EndsInBreak(s: string) { s != "" && (s[|s| - 1] == '\n' || s[|s| - 1] == '\r') }

  /** Line feeds and carriage returns at the end belong to the line break. */
  function Strip(s: string): (r: string)
    ensures !EndsInBreak(r) && r <= s && (!EndsInBreak(s) ==> r == s)
  {
    if EndsInBreak(s) then Strip(s[..|s| - 1]) else s
  }

  /** sscanf finds a number at the start. */
  predicate HasInt(s: string) {
    var t := SkipSpaces(s);
    t != "" && (IsDigit(t[0]) || ((t[0] == '-' || t[0] == '+') && |t| > 1 && IsDigit(t[1])))
  }

  /** strtoul takes the whole text and finds a delay in range. */
  function DelayOf(s: string): Option<nat> {
    var t := SkipSpaces(s);
    if t == "" || !IsDigit(t[0]) || SkipDigits(t) != "" || Number(t) > MAX_DELAY then None else Some(Number(t))
  }

  function SizeOf(s: string): Option<nat> {
    var n := ScanUnsigned(s);
    if n.None? || n.value.0 < MIN_SIZE || n.value.0 > MAX_SIZE then None else Some(n.value.0)
  }

  /** An empty value is only noticed for the specs of controllers 2 to 4 and for the aliases. */
  predicate TakesEmpty(i: nat) { 3 <= i <= 5 || i >= 11 }

  /** Whether a line sets its key at all. */
  predicate Sets(k: Key, value: string) {
    match k
    case LocalSlot(_) => HasInt(value)
    case Delay => DelayOf(value).Some?
    case Width | Height => SizeOf(value).Some?
    case KeyText(i) => value != "" || TakesEmpty(i)
    case _ => value != ""
  }

  /** The value of the last line that sets the key. */
  function Last(lines: seq<Line>, k: Key): Option<string> {
    if lines == [] then None
    else
      var n := |lines| - 1;
      var value := Strip(lines[n].value);
      if lines[n].key == k && Sets(k, value) then Some(value) else Last(lines[..n], k)
  }

  function Text(lines: seq<Line>, k: Key, capacity: nat): string
    requires capacity > 0
  {
    var v := Last(lines, k);
    if v.None? then "" else Fit(v.value, capacity)
  }

  function Capacity(i: nat): (n: nat) ensures n > 0 { if i < 6 then 1536 else 96 }

  // ---------------------------------------------------------------- loading

  function LoadLogin(lines: seq<Line>): Login {
    Login(Last(lines, Remember) == Some("1"), Text(lines, Server, 128), Text(lines, ServerId, 32), Text(lines, Username, 64))
  }

  function SlotIndex(lines: seq<Line>, i: nat): int {
    var v := Last(lines, LocalSlot(i));
    if v.None? then -1 else Atoi(v.value)
  }

  function LoadLocal(lines: seq<Line>): Local {
    var delay := Last(lines, Delay);
    Local([SlotIndex(lines, 0), SlotIndex(lines, 1)],
          if delay.Some? && DelayOf(delay.value).Some? then DelayOf(delay.value).value else DEFAULT_DELAY)
  }

  function Size(lines: seq<Line>, k: Key): nat {
    var v := Last(lines, k);
    if v.Some? && SizeOf(v.value).Some? then SizeOf(v.value).value else DEFAULT_SIZE
  }

  function LoadWindow(lines: seq<Line>): Window { Window(Size(lines, Width), Size(lines, Height)) }

  function LoadKeys(lines: seq<Line>): seq<string> { seq(KEY_TEXTS, i requires 0 <= i < KEY_TEXTS => Text(lines, KeyText(i), Capacity(i))) }

  function LoadSlot(lines: seq<Line>, i: nat): Slot {
    Slot(Text(lines, RomPath(i), PATH_READ + 1), Text(lines, RomId(i), 96), Text(lines, SaveId(i), 96))
  }

  function LoadSlots(lines: seq<Line>): seq<Slot> { seq(SLOTS, i requires 0 <= i < SLOTS => LoadSlot(lines, i)) }

  function Load(lines: seq<Line>, sgb: bool): Config {
    Config(sgb, LoadLogin(lines), LoadLocal(lines), LoadWindow(lines), LoadKeys(lines), LoadSlots(lines))
  }

  // ---------------------------------------------------------------- the loop over the lines

  /** One line of the login section. */
  function LoginSet(l: Login, line: Line): Login {
    var v := Strip(line.value);
    if !Sets(line.key, v) then l
    else match line.key
      case Remember => l.(remember := v == "1")
      case Server => l.(server := Fit(v, 128))
      case ServerId => l.(serverId := Fit(v, 32))
      case Username => l.(username := Fit(v, 64))
      case _ => l
  }

  function LocalSet(l: Local, line: Line): Local {
    var v := Strip(line.value);
    if !Sets(line.key, v) then l
    else match line.key
      case LocalSlot(i) => if i < |l.slots| then l.(slots := l.slots[i := Atoi(v)]) else l
      case Delay => l.(delay := DelayOf(v).value)
      case _ => l
  }

  function WindowSet(w: Window, line: Line): Window {
    var v := Strip(line.value);
    if !Sets(line.key, v) then w
    else match line.key
      case Width => w.(width := SizeOf(v).value)
      case Height => w.(height := SizeOf(v).value)
      case _ => w
  }

  function KeysSet(keys: seq<string>, line: Line): seq<string> {
    var v := Strip(line.value);
    if line.key.KeyText? && line.key.i < |keys| && Sets(line.key, v) then keys[line.key.i := Fit(v, Capacity(line.key.i))]
    else keys
  }

  function SlotSet(s: Slot, i: nat, line: Line): Slot {
    var v := Strip(line.value);
    if !Sets(line.key, v) then s
    else if line.key == RomPath(i) then s.(path := Fit(v, PATH_READ + 1))
    else if line.key == RomId(i) then s.(romId := Fit(v, 96))
    else if line.key == SaveId(i) then s.(saveId := Fit(v, 96))
    else s
  }

  function SlotsSet(slots: seq<Slot>, line: Line): (r: seq<Slot>)
    ensures |r| == |slots| && forall i | 0 <= i < |r| :: r[i] == SlotSet(slots[i], i, line)
  {
    seq(|slots|, i requires 0 <= i < |slots| => SlotSet(slots[i], i, line))
  }

  lemma LastSnoc(lines: seq<Line>, line: Line, k: Key)
    ensures Last(lines + [line], k) ==
            if line.key == k && Sets(k, Strip(line.value)) then Some(Strip(line.value)) else Last(lines, k)
  {
    assert (lines + [line])[..|lines|] == lines;
  }

  lemma LoginSnoc(lines: seq<Line>, line: Line)
    ensures LoadLogin(lines + [line]) == LoginSet(LoadLogin(lines), line)
  {
    LastSnoc(lines, line, Server);
    LastSnoc(lines, line, ServerId);
    LastSnoc(lines, line, Remember);
    LastSnoc(lines, line, Username);
  }

  lemma LocalSnoc(lines: seq<Line>, line: Line)
    ensures LoadLocal(lines + [line]) == LocalSet(LoadLocal(lines), line)
  {
    LastSnoc(lines, line, LocalSlot(0));
    LastSnoc(lines, line, LocalSlot(1));
    LastSnoc(lines, line, Delay);
  }

  lemma WindowSnoc(lines: seq<Line>, line: Line)
    ensures LoadWindow(lines + [line]) == WindowSet(LoadWindow(lines), line)
  {
    LastSnoc(lines, line, Width);
    LastSnoc(lines, line, Height);
  }

  lemma KeysSnoc(lines: seq<Line>, line: Line)
    ensures LoadKeys(lines + [line]) == KeysSet(LoadKeys(lines), line)
  {
    forall i | 0 <= i < KEY_TEXTS ensures LoadKeys(lines + [line])[i] == KeysSet(LoadKeys(lines), line)[i] {
      LastSnoc(lines, line, KeyText(i));
    }
  }

  lemma SlotSnoc(lines: seq<Line>, line: Line, i: nat)
    ensures LoadSlot(lines + [line], i) == SlotSet(LoadSlot(lines, i), i, line)
  {
    LastSnoc(lines, line, RomPath(i));
    LastSnoc(lines, line, RomId(i));
    LastSnoc(lines, line, SaveId(i));
  }

  lemma SlotsSnoc(lines: seq<Line>, line: Line)
    ensures LoadSlots(lines + [line]) == SlotsSet(LoadSlots(lines), line)
  {
    forall i | 0 <= i < SLOTS ensures LoadSlots(lines + [line])[i] == SlotsSet(LoadSlots(lines), line)[i] {
      SlotSnoc(lines, line, i);
    }
  }

  /** What one more line does to each section. */
  lemma OneMoreLine(lines: seq<Line>, line: Line)
    ensures LoadLogin(lines + [line]) == LoginSet(LoadLogin(lines), line)
    ensures LoadLocal(lines + [line]) == LocalSet(LoadLocal(lines), line)
    ensures LoadWindow(lines + [line]) == WindowSet(LoadWindow(lines), line)
    ensures LoadKeys(lines + [line]) == KeysSet(LoadKeys(lines), line)
    ensures LoadSlots(lines + [line]) == SlotsSet(LoadSlots(lines), line)
  {
    LoginSnoc(lines, line);
    LocalSnoc(lines, line);
    WindowSnoc(lines, line);
    KeysSnoc(lines, line);
    SlotsSnoc(lines, line);
  }

  lemma PrintedAppend(c: Config, a: seq<Key>, b: seq<Key>)
    ensures Printed(c, a + b) == Printed(c, a) + Printed(c, b)
  {
  }

  // ---------------------------------------------------------------- normal form

  /** Within its buffer, and not ending in what is taken for a line break. */
  predicate Holds(s: string, capacity: nat) { |s| < capacity && '\n' !in s && !EndsInBreak(s) }

  /** A C int, and an unsigned one. */
  predicate IsInt(n: int) { -0x8000_0000 <= n < 0x8000_0000 }
  predicate IsUnsigned(n: nat) { n < UNSIGNED_LIMIT }

  predicate WellFormed(c: Config) {
    && Holds(c.login.server, 128) && Holds(c.login.serverId, 32) && Holds(c.login.username, 64)
    && |c.local.slots| == 2 && IsInt(c.local.slots[0]) && IsInt(c.local.slots[1])
    && IsUnsigned(c.local.delay) && IsUnsigned(c.window.width) && IsUnsigned(c.window.height)
    && |c.keys| == KEY_TEXTS && |c.slots| == SLOTS
    && (forall i {:trigger c.keys[i]} | 0 <= i < KEY_TEXTS :: Holds(c.keys[i], Capacity(i)))
    && (forall i {:trigger c.slots[i]} | 0 <= i < SLOTS :: SlotHolds(c.slots[i]))
  }

  predicate SlotHolds(s: Slot) { Holds(s.path, 1024) && Holds(s.romId, 96) && Holds(s.saveId, 96) }

  function NormalLogin(l: Login): Login {
    l.(serverId := if l.serverId == "" then "primary" else l.serverId, username := if l.remember then l.username else "")
  }

  function NormalSize(n: nat): nat { if MIN_SIZE <= n <= MAX_SIZE then n else DEFAULT_SIZE }

  function NormalSlot(s: Slot): Slot { s.(path := Fit(s.path, PATH_READ + 1)) }

  function NormalSlots(slots: seq<Slot>): (r: seq<Slot>)
    ensures |r| == |slots| && forall i | 0 <= i < |r| :: r[i] == NormalSlot(slots[i])
  {
    seq(|slots|, i requires 0 <= i < |slots| => NormalSlot(slots[i]))
  }

  /** What is left of a configuration after saving and loading it. */
  function Normal(c: Config): Config {
    Config(c.sgb, NormalLogin(c.login),
           Local(c.local.slots, if c.local.delay <= MAX_DELAY then c.local.delay else DEFAULT_DELAY),
           Window(NormalSize(c.window.width), NormalSize(c.window.height)), c.keys, NormalSlots(c.slots))
  }

  // ---------------------------------------------------------------- numbers

  lemma {:induction false} DigitsOnly(d: string)
    requires forall i | 0 <= i < |d| :: IsDigit(d[i])
    ensures SkipDigits(d) == ""
  {
    if d != "" {
      DigitsOnly(d[1..]);
    }
  }

  /** A printed number is read back by all three ways of reading numbers. */
  lemma DecimalReads(n: nat)
    ensures var d := Decimal(n);
            SkipSpaces(d) == d && SkipDigits(d) == "" && Number(d) == n && Atoi(d) == n && HasInt(d)
            && ScanUnsigned(d) == Some((n, ""))
  {
    var d := Decimal(n);
    NumberOfDecimal(n);
    assert IsDigit(d[0]);
    DigitsOnly(d);
  }

  lemma IntReads(n: int)
    ensures HasInt(IntText(n)) && Atoi(IntText(n)) == n
  {
    if n < 0 {
      var d := Decimal(-n);
      NumberOfDecimal(-n);
      var t := "-" + d;
      assert t[1..] == d && IsDigit(t[1]);
    } else {
      DecimalReads(n);
    }
  }

  lemma NumbersDoNotEndInReturn(c: Config, k: Key)
    requires k.LocalSlot? || k.Delay? || k.Width? || k.Height?
    ensures Strip(ValueOf(c, k)) == ValueOf(c, k)
  {
    match k
    case LocalSlot(i) =>
      if i < |c.local.slots| { assert IsDigit(IntText(c.local.slots[i])[|IntText(c.local.slots[i])| - 1]); }
    case Delay => assert IsDigit(Decimal(c.local.delay)[|Decimal(c.local.delay)| - 1]);
    case Width => assert IsDigit(Decimal(c.window.width)[|Decimal(c.window.width)| - 1]);
    case Height => assert IsDigit(Decimal(c.window.height)[|Decimal(c.window.height)| - 1]);
  }

  // ---------------------------------------------------------------- looking up what was printed

  /** In printed lines a key has the value it was printed with, if it was and if that sets it. */
  lemma {:induction false} LastPrinted(c: Config, keys: seq<Key>, k: Key)
    ensures var v := Strip(ValueOf(c, k));
            Last(Printed(c, keys), k) == if k in keys && Sets(k, v) then Some(v) else None
  {
    if keys != [] {
      var n := |keys| - 1;
      assert Printed(c, keys) == Printed(c, keys[..n]) + [Line(keys[n], ValueOf(c, keys[n]))];
      LastSnoc(Printed(c, keys[..n]), Line(keys[n], ValueOf(c, keys[n])), k);
      assert keys == keys[..n] + [keys[n]];
      LastPrinted(c, keys[..n], k);
    }
  }

  lemma {:induction false} SlotKeysComplete(from: nat, k: Key)
    requires from <= SLOTS
    ensures k in SlotKeys(from) <==> (k.RomPath? || k.RomId? || k.SaveId?) && from <= k.i < SLOTS
    decreases SLOTS - from
  {
    if from < SLOTS { SlotKeysComplete(from + 1, k); }
  }

  /** Every key is printed, but for the user name of a login that is not remembered. */
  predicate Written(remember: bool, k: Key) {
    match k
    case Username => remember
    case LocalSlot(i) => i < 2
    case KeyText(i) => i < KEY_TEXTS
    case RomPath(i) => i < SLOTS
    case RomId(i) => i < SLOTS
    case SaveId(i) => i < SLOTS
    case _ => true
  }

  lemma KeysComplete(remember: bool, k: Key)
    ensures k in Keys(remember) <==> Written(remember, k)
  {
    SlotKeysComplete(0, k);
    if k.KeyText? && k.i < KEY_TEXTS { assert TextKeys()[k.i] == k; }
  }

  lemma SavedValue(c: Config, k: Key)
    ensures var v := Strip(ValueOf(c, k));
            Last(Saved(c), k) == if Written(c.login.remember, k) && Sets(k, v) then Some(v) else None
  {
    KeysComplete(c.login.remember, k);
    LastPrinted(c, Keys(c.login.remember), k);
  }

  /** A text is loaded as far as it fits. */
  lemma LoadedText(c: Config, k: Key, capacity: nat)
    requires capacity > 0 && Written(c.login.remember, k)
    requires !k.LocalSlot? && !k.Delay? && !k.Width? && !k.Height?
    requires !EndsInBreak(ValueOf(c, k))
    ensures Text(Saved(c), k, capacity) == Fit(ValueOf(c, k), capacity)
  {
    SavedValue(c, k);
  }

  lemma LoadedRemember(c: Config)
    ensures Last(Saved(c), Remember) == Some(if c.login.remember then "1" else "0")
  {
    SavedValue(c, Remember);
  }

  lemma LoadedUsername(c: Config)
    requires Holds(c.login.username, 64)
    ensures Text(Saved(c), Username, 64) == NormalLogin(c.login).username
  {
    SavedValue(c, Username);
  }

  lemma LoadedLogin(c: Config)
    requires WellFormed(c)
    ensures LoadLogin(Saved(c)) == NormalLogin(c.login)
  {
    LoadedText(c, Server, 128);
    LoadedText(c, ServerId, 32);
    LoadedRemember(c);
    LoadedUsername(c);
  }

  lemma LoadedIndex(c: Config, i: nat)
    requires |c.local.slots| == 2 && i < 2
    ensures SlotIndex(Saved(c), i) == c.local.slots[i]
  {
    SavedValue(c, LocalSlot(i));
    NumbersDoNotEndInReturn(c, LocalSlot(i));
    IntReads(c.local.slots[i]);
  }

  lemma LoadedDelay(c: Config)
    ensures LoadLocal(Saved(c)).delay == Normal(c).local.delay
  {
    SavedValue(c, Delay);
    NumbersDoNotEndInReturn(c, Delay);
    DecimalReads(c.local.delay);
  }

  lemma LoadedLocal(c: Config)
    requires WellFormed(c)
    ensures LoadLocal(Saved(c)) == Normal(c).local
  {
    LoadedIndex(c, 0);
    LoadedIndex(c, 1);
    LoadedDelay(c);
    assert c.local.slots == [c.local.slots[0], c.local.slots[1]];
  }

  lemma LoadedSize(c: Config, k: Key, n: nat)
    requires (k.Width? && n == c.window.width) || (k.Height? && n == c.window.height)
    ensures Size(Saved(c), k) == NormalSize(n)
  {
    SavedValue(c, k);
    NumbersDoNotEndInReturn(c, k);
    SizeReads(Saved(c), k, n, Decimal(n));
  }

  lemma SizeReads(lines: seq<Line>, k: Key, n: nat, d: string)
    requires d == Decimal(n) && (k.Width? || k.Height?)
    requires Last(lines, k) == if Sets(k, d) then Some(d) else None
    ensures Size(lines, k) == NormalSize(n)
  {
    DecimalReads(n);
  }

  lemma LoadedWindow(c: Config)
    ensures LoadWindow(Saved(c)) == Normal(c).window
  {
    LoadedSize(c, Width, c.window.width);
    LoadedSize(c, Height, c.window.height);
  }

  lemma LoadedKeys(c: Config)
    requires WellFormed(c)
    ensures LoadKeys(Saved(c)) == c.keys
  {
    forall i | 0 <= i < KEY_TEXTS ensures LoadKeys(Saved(c))[i] == c.keys[i] {
      assert Holds(c.keys[i], Capacity(i));
      LoadedText(c, KeyText(i), Capacity(i));
    }
  }

  lemma LoadedSlot(c: Config, i: nat)
    requires WellFormed(c) && i < SLOTS
    ensures LoadSlot(Saved(c), i) == NormalSlot(c.slots[i])
  {
    assert SlotHolds(c.slots[i]);
    LoadedText(c, RomPath(i), PATH_READ + 1);
    LoadedText(c, RomId(i), 96);
    LoadedText(c, SaveId(i), 96);
  }

  /** The sections of what was saved are in normal form, ROM paths cut to 255. */
  lemma LoadedLines(c: Config)
    requires WellFormed(c)
    ensures Load(Saved(c), c.sgb) == Normal(c)
  {
    LoadedLogin(c);
    LoadedLocal(c);
    LoadedWindow(c);
    LoadedKeys(c);
    forall i | 0 <= i < SLOTS ensures LoadSlots(Saved(c))[i] == NormalSlots(c.slots)[i] { LoadedSlot(c, i); }
    assert LoadSlots(Saved(c)) == NormalSlots(c.slots);
  }

  lemma SizeInRange(lines: seq<Line>, k: Key)
    ensures NormalSize(Size(lines, k)) == Size(lines, k)
  {
  }

  /** All of a loaded configuration but its login is in normal form. */
  lemma LoadedIsNormal(lines: seq<Line>, sgb: bool)
    ensures var c := Load(lines, sgb); Normal(c) == c.(login := NormalLogin(c.login))
  {
    var c := Load(lines, sgb);
    SizeInRange(lines, Width);
    SizeInRange(lines, Height);
    assert NormalSlots(c.slots) == c.slots;
  }

  // ---------------------------------------------------------------- printing alike

  /** Configurations that print alike are saved alike. */
  lemma SamePrint(c: Config, d: Config)
    requires c.login.remember == d.login.remember
    requires forall k | k in Keys(c.login.remember) :: ValueOf(c, k) == ValueOf(d, k)
    ensures Saved(c) == Saved(d)
  {
    var keys := Keys(c.login.remember);
    forall i | 0 <= i < |keys| ensures Saved(c)[i] == Saved(d)[i] { assert keys[i] in keys; }
  }

  /** The same configuration, but that its login may be in normal form. */
  predicate Alike(c: Config, d: Config) {
    && d.sgb == c.sgb && (d.login == c.login || d.login == NormalLogin(c.login))
    && d.local == c.local && d.window == c.window && d.keys == c.keys && d.slots == c.slots
  }

  lemma AlikeValue(c: Config, d: Config, k: Key)
    requires Alike(c, d) && (k.Username? ==> c.login.remember)
    ensures ValueOf(c, k) == ValueOf(d, k)
  {
  }

  lemma AlikeSaved(c: Config, d: Config)
    requires Alike(c, d)
    ensures Saved(c) == Saved(d)
  {
    KeysComplete(c.login.remember, Username);
    forall k | k in Keys(c.login.remember) ensures ValueOf(c, k) == ValueOf(d, k) { AlikeValue(c, d, k); }
    SamePrint(c, d);
  }
}

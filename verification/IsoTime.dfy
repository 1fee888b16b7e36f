/** The instant a date-time text names, in seconds since 1970-01-01T00:00:00Z. */
module IsoTime {
  import opened Options
  import opened Texts
  import opened CivilTime

  function D(c: char): (n: nat)
    requires IsDigit(c)
    ensures n < 10
  {
    c as int - '0' as int
  }

  predicate DigitsAt(v: string, p: nat, n: nat) {
    p + n <= |v| && forall i | p <= i < p + n :: IsDigit(v[i])
  }

  /** yyyy-mm-ddThh:mm:ss, followed by anything. */
  predicate FixedWidth(v: string) {
    && |v| >= 19
    && DigitsAt(v, 0, 4) && v[4] == '-' && DigitsAt(v, 5, 2) && v[7] == '-' && DigitsAt(v, 8, 2)
    && v[10] == 'T' && DigitsAt(v, 11, 2) && v[13] == ':' && DigitsAt(v, 14, 2) && v[16] == ':' && DigitsAt(v, 17, 2)
  }

  function Two(v: string, p: nat): (n: nat)
    requires DigitsAt(v, p, 2)
    ensures n < 100
  {
    10 * D(v[p]) + D(v[p + 1])
  }

  datatype Clock = Clock(year: int, month: nat, day: nat, hour: nat, minute: nat, second: nat)

  /** What the six numbers may be: every month has 31 days here, and every minute 60 seconds and one more. */
  predicate InRange(c: Clock) {
    1 <= c.month <= 12 && 1 <= c.day <= 31 && c.hour <= 23 && c.minute <= 59 && c.second <= 60
  }

  function ClockOf(v: string): Clock
    requires FixedWidth(v)
  {
    Clock(100 * Two(v, 0) + Two(v, 2), Two(v, 5), Two(v, 8), Two(v, 11), Two(v, 14), Two(v, 17))
  }

  /** %d, and what follows. */
  function ScanSigned(s: string): Option<(int, string)> {
    var t := SkipSpaces(s);
    var signed := t != [] && (t[0] == '+' || t[0] == '-');
    var digits := if signed then t[1..] else t;
    if digits == [] || !IsDigit(digits[0]) then None
    else Some((if signed && t[0] == '-' then -(Number(digits) as int) else Number(digits), SkipDigits(digits)))
  }

  /** A character of the format, then %u. */
  function ScanAfter(c: char, s: string): Option<(nat, string)> {
    if s == [] || s[0] != c then None else ScanUnsigned(s[1..])
  }

  /** Six numbers, and what follows them. */
  datatype Scanned = Scanned(clock: Clock, rest: string)

  /** The six numbers of %d-%u-%uT%u:%u:%u, whatever their widths. */
  function ScanClock(v: string): Option<Scanned> {
    var year := ScanSigned(v);
    if year.None? then None else
    var month := ScanAfter('-', year.value.1);
    if month.None? then None else
    var day := ScanAfter('-', month.value.1);
    if day.None? then None else
    var hour := ScanAfter('T', day.value.1);
    if hour.None? then None else
    var minute := ScanAfter(':', hour.value.1);
    if minute.None? then None else
    var second := ScanAfter(':', minute.value.1);
    if second.None? then None else
    Some(Scanned(Clock(year.value.0, month.value.0, day.value.0, hour.value.0, minute.value.0, second.value.0), second.value.1))
  }

  /** Six numbers that may be a clock. */
  predicate Accepted(v: string) { ScanClock(v).Some? && InRange(ScanClock(v).value.clock) }

  /** The zone is looked for behind nineteen characters, which a text with six good numbers may not have. */
  const ZONE_PLACE := 19

  predicate Inside(v: string) { Accepted(v) ==> |v| >= ZONE_PLACE }

  function Seconds(c: Clock): int
    requires 1 <= c.month <= 12
  {
    DayNumber(c.year, c.month, c.day) * 86400 + c.hour * 3600 + c.minute * 60 + c.second
  }

  // ---------------------------------------------------------------- zones

  /** The offset in minutes that a zone text stands for: nothing and Z are zero. */
  function Offset(zone: string): Option<int> {
    if zone == [] || zone[0] == 'Z' then Some(0)
    else if zone[0] != '+' && zone[0] != '-' then None
    else
      var hour := ScanUnsigned(zone[1..]);
      if hour.None? || hour.value.1 == [] || hour.value.1[0] != ':' then None
      else
        var minute := ScanUnsigned(hour.value.1[1..]);
        if minute.None? || hour.value.0 > 23 || minute.value.0 > 59 then None
        else
          var minutes := hour.value.0 * 60 + minute.value.0;
          Some(if zone[0] == '-' then -minutes else minutes)
  }

  predicate StartsZone(c: char) { c == 'Z' || c == '+' || c == '-' }

  /** A fraction of a second is passed over, whatever it holds. */
  function AfterFraction(s: string): string { if s == [] || StartsZone(s[0]) then s else AfterFraction(s[1..]) }

  function ZoneOf(s: string): string { if s != [] && s[0] == '.' then AfterFraction(s) else s }

  /** The instant of the six numbers of v, in the zone of another text. */
  function Instant(v: string, zone: string): Option<int> {
    if !Accepted(v) then None
    else
      var offset := Offset(ZoneOf(zone));
      if offset.None? then None else Some(Seconds(ScanClock(v).value.clock) - offset.value * 60)
  }

  /** What a text says: the zone is what follows its six numbers. */
  function Meant(v: string): Option<int> { if !Accepted(v) then None else Instant(v, ScanClock(v).value.rest) }

  // ---------------------------------------------------------------- reading it from a field

  /** The text that begins at a place of a field and ends before the next zero. */
  function TextAt(field: string, p: nat): (v: string)
    requires p < |field| && '\0' in field[p..]
    ensures '\0' !in v && p + |v| < |field| && field[p + |v|] == '\0' && v == field[p..p + |v|]
  {
    var end := Find(field, '\0', p);
    FindIs(field, '\0', p, end);
    FindsZero(field, p);
    field[p..end]
  }

  lemma FindsZero(field: string, p: nat)
    requires p < |field| && '\0' in field[p..]
    ensures Find(field, '\0', p) < |field|
  {
    FindIs(field, '\0', p, |field|);
    assert field[p..|field|] == field[p..];
  }

  lemma {:induction false} TextEnds(field: string, p: nat, n: nat)
    requires p + n < |field| && field[p + n] == '\0' && '\0' !in field[p..p + n]
    ensures '\0' in field[p..] && TextAt(field, p) == field[p..p + n]
  {
    assert field[p..][n] == '\0';
    FindIs(field, '\0', p, p + n);
  }

  /** The text of a field whose zone is looked for. */
  predicate Readable(field: string) { |field| > ZONE_PLACE && '\0' in field[ZONE_PLACE..] }

  lemma ReadableHasText(field: string)
    requires Readable(field)
    ensures '\0' in field[0..]
  {
    var end := ZONE_PLACE + |TextAt(field, ZONE_PLACE)|;
    assert field[0..][end] == '\0';
  }

  lemma LongTextGoesOn(field: string)
    requires Readable(field) && '\0' in field[0..]
    ensures |TextAt(field, 0)| >= ZONE_PLACE ==> TextAt(field, ZONE_PLACE) == TextAt(field, 0)[ZONE_PLACE..]
  {
    var v := TextAt(field, 0);
    if |v| >= ZONE_PLACE {
      assert field[ZONE_PLACE..|v|] == v[ZONE_PLACE..];
      TextEnds(field, ZONE_PLACE, |v| - ZONE_PLACE);
    }
  }

  /** From p on the field has this text and its terminator. */
  predicate Holds(field: string, p: nat, text: string) {
    p + |text| < |field| && field[p + |text|] == '\0' && '\0' !in text && text == field[p..p + |text|]
  }

  /** Walk over a fraction of a second; zone ends up where the zone is read. */
  method WalkToZone(field: string, ghost behind: string) returns (zone: nat)
    requires Holds(field, ZONE_PLACE, behind)
    ensures ZONE_PLACE <= zone <= ZONE_PLACE + |behind| && Holds(field, zone, ZoneOf(behind))
  {
    zone := ZONE_PLACE;
    if field[zone] == '.' {
      while field[zone] != '\0' && !StartsZone(field[zone])
        invariant ZONE_PLACE <= zone <= ZONE_PLACE + |behind|
        invariant AfterFraction(behind[zone - ZONE_PLACE..]) == AfterFraction(behind)
        decreases |field| - zone
      {
        StepOverFraction(field, ZONE_PLACE, behind, zone - ZONE_PLACE);
        zone := zone + 1;
      }
      StepOverFraction(field, ZONE_PLACE, behind, zone - ZONE_PLACE);
    }
    TailIsHeld(field, ZONE_PLACE, behind, zone - ZONE_PLACE);
  }

  lemma StepOverFraction(field: string, p: nat, text: string, k: nat)
    requires Holds(field, p, text) && k <= |text|
    ensures field[p + k] == '\0' <==> k == |text|
    ensures k == |text| || StartsZone(field[p + k]) ==> AfterFraction(text[k..]) == text[k..]
    ensures k < |text| && !StartsZone(field[p + k]) ==> AfterFraction(text[k..]) == AfterFraction(text[k + 1..])
  {
    if k < |text| {
      assert field[p + k] == text[k] && text[k..][1..] == text[k + 1..];
    }
  }

  lemma TailIsHeld(field: string, p: nat, text: string, k: nat)
    requires Holds(field, p, text) && k <= |text|
    ensures Holds(field, p + k, text[k..])
  {
  }

  /** Read the six numbers of the text in the field, walk over the fraction, read the zone at looked.  For an
      accepted text that place lies within the text, terminator included, exactly when the text is long
      enough; otherwise it is whatever stands behind it in the field. */
  method ParseIso8601Unix(field: string) returns (r: Option<int>, looked: nat)
    requires Readable(field)
    ensures '\0' in field[0..]
    ensures r == Instant(TextAt(field, 0), TextAt(field, ZONE_PLACE))
    ensures Accepted(TextAt(field, 0)) ==> (looked <= |TextAt(field, 0)| <==> Inside(TextAt(field, 0)))
  {
    ReadableHasText(field);
    LongTextGoesOn(field);
    r, looked := ParseText(TextAt(field, 0), field, TextAt(field, ZONE_PLACE));
  }

  method ParseText(v: string, field: string, ghost behind: string) returns (r: Option<int>, looked: nat)
    requires Holds(field, ZONE_PLACE, behind) && (|v| >= ZONE_PLACE ==> behind == v[ZONE_PLACE..])
    ensures r == Instant(v, behind) && (Accepted(v) ==> (looked <= |v| <==> Inside(v)))
  {
    looked := 0;
    var clock := ScanClock(v);
    if clock.None? || !InRange(clock.value.clock) { return None, 0; }
    r, looked := ReadBehind(clock.value.clock, field, v, behind);
    InstantOfClock(v, behind, clock.value.clock);
  }

  lemma InstantOfClock(v: string, zone: string, c: Clock)
    requires Accepted(v) && ScanClock(v).value.clock == c
    ensures var offset := Offset(ZoneOf(zone));
            Instant(v, zone) == if offset.None? then None else Some(Seconds(c) - offset.value * 60)
  {
  }

  method ReadBehind(c: Clock, field: string, ghost v: string, ghost behind: string) returns (r: Option<int>, looked: nat)
    requires InRange(c) && Holds(field, ZONE_PLACE, behind) && (|v| >= ZONE_PLACE ==> behind == v[ZONE_PLACE..])
    ensures looked <= |v| <==> |v| >= ZONE_PLACE
    ensures var offset := Offset(ZoneOf(behind)); r == if offset.None? then None else Some(Seconds(c) - offset.value * 60)
  {
    looked := WalkToZone(field, behind);
    r := ReadZone(c, field, looked, ZoneOf(behind));
  }

  method ReadZone(c: Clock, field: string, p: nat, ghost zone: string) returns (r: Option<int>)
    requires InRange(c) && Holds(field, p, zone)
    ensures r == if Offset(zone).None? then None else Some(Seconds(c) - Offset(zone).value * 60)
  {
    TextEnds(field, p, |zone|);
    var offset := Offset(TextAt(field, p));
    if offset.None? { return None; }
    DaysFromCivilIsDayNumber(c.year, c.month, c.day);
    r := Some(DaysFromCivil(c.year, c.month, c.day) * 86400 + c.hour * 3600 + c.minute * 60 + c.second - offset.value * 60);
  }

  // ---------------------------------------------------------------- a field filled with zeros

  /** A text in a field that was cleared before. */
  function Field(v: string, size: nat): (field: string)
    requires |v| < size
    ensures |field| == size && field[..|v|] == v && forall i | |v| <= i < size :: field[i] == '\0'
  {
    v + seq(size - |v|, _ => '\0')
  }

  lemma FieldText(v: string, size: nat)
    requires '\0' !in v && |v| < size && ZONE_PLACE < size
    ensures var field := Field(v, size);
            && Readable(field) && '\0' in field[0..] && TextAt(field, 0) == v
            && TextAt(field, ZONE_PLACE) == if |v| >= ZONE_PLACE then v[ZONE_PLACE..] else ""
  {
    var field := Field(v, size);
    assert field[ZONE_PLACE..][size - 1 - ZONE_PLACE] == '\0';
    assert field[0..|v|] == v;
    TextEnds(field, 0, |v|);
    if |v| < ZONE_PLACE {
      TextEnds(field, ZONE_PLACE, 0);
    } else {
      LongTextGoesOn(field);
    }
  }

  /** What the parser makes of a text in such a field. */
  function FromField(v: string): Option<int> { Instant(v, if |v| >= ZONE_PLACE then v[ZONE_PLACE..] else "") }

  /** Of an accepted text that is too short any zone is ignored: it is read as in UTC. */
  lemma ShortIsUtc(v: string)
    requires Accepted(v) && !Inside(v)
    ensures FromField(v) == Some(Seconds(ScanClock(v).value.clock))
    // which is what it says exactly when its zone is that of UTC
    ensures FromField(v) == Meant(v) <==> Offset(ZoneOf(ScanClock(v).value.rest)) == Some(0)
  {
  }

  /** The zone that is read is the text's own exactly when the six numbers take up the nineteen characters,
      or when the text is too short and has none. */
  lemma ZoneIsSeen(v: string)
    requires Accepted(v)
    ensures var rest := ScanClock(v).value.rest;
            (if |v| >= ZONE_PLACE then v[ZONE_PLACE..] else "") == rest <==>
            |v| - |rest| == ZONE_PLACE || (|v| < ZONE_PLACE && rest == "")
  {
    RestIsSuffix(v);
  }

  lemma SeenIsMeant(v: string)
    requires Accepted(v) && |v| - |ScanClock(v).value.rest| == ZONE_PLACE
    ensures FromField(v) == Meant(v)
  {
    ZoneIsSeen(v);
  }

  predicate IsSuffix(t: string, s: string) { |t| <= |s| && t == s[|s| - |t|..] }

  lemma {:induction false} SpacesSuffix(s: string)
    ensures IsSuffix(SkipSpaces(s), s)
  {
    if s != [] && IsSpace(s[0]) { SpacesSuffix(s[1..]); }
  }

  lemma {:induction false} DigitsSuffix(s: string)
    ensures IsSuffix(SkipDigits(s), s)
  {
    if s != [] && IsDigit(s[0]) { DigitsSuffix(s[1..]); }
  }

  lemma SuffixTrans(a: string, b: string, c: string)
    requires IsSuffix(a, b) && IsSuffix(b, c)
    ensures IsSuffix(a, c)
  {
  }

  lemma TailSuffix(t: string, s: string)
    requires s != [] && IsSuffix(t, s[1..])
    ensures IsSuffix(t, s)
  {
  }

  /** What follows the digits, with or without a sign before them. */
  lemma DigitsAfterSpaces(s: string)
    ensures var t := SkipSpaces(s); IsSuffix(SkipDigits(t), s) && (t != [] ==> IsSuffix(SkipDigits(t[1..]), s))
  {
    var t := SkipSpaces(s);
    SpacesSuffix(s);
    DigitsSuffix(t);
    SuffixTrans(SkipDigits(t), t, s);
    if t != [] {
      DigitsSuffix(t[1..]);
      TailSuffix(SkipDigits(t[1..]), t);
      SuffixTrans(SkipDigits(t[1..]), t, s);
    }
  }

  lemma SignedSuffix(s: string)
    ensures ScanSigned(s).Some? ==> IsSuffix(ScanSigned(s).value.1, s)
  {
    DigitsAfterSpaces(s);
    SignedRest(s);
  }

  lemma SignedRest(s: string)
    ensures ScanSigned(s).Some? ==>
              var t := SkipSpaces(s); ScanSigned(s).value.1 == SkipDigits(t) || (t != [] && ScanSigned(s).value.1 == SkipDigits(t[1..]))
  {
  }

  lemma UnsignedSuffix(s: string)
    ensures ScanUnsigned(s).Some? ==> IsSuffix(ScanUnsigned(s).value.1, s)
  {
    DigitsAfterSpaces(s);
    UnsignedRest(s);
  }

  lemma UnsignedRest(s: string)
    ensures ScanUnsigned(s).Some? ==>
              var t := SkipSpaces(s); ScanUnsigned(s).value.1 == SkipDigits(t) || (t != [] && ScanUnsigned(s).value.1 == SkipDigits(t[1..]))
  {
  }

  lemma AfterSuffix(c: char, s: string, v: string)
    requires IsSuffix(s, v)
    ensures ScanAfter(c, s).Some? ==> IsSuffix(ScanAfter(c, s).value.1, v)
  {
    if ScanAfter(c, s).Some? {
      UnsignedSuffix(s[1..]);
      TailSuffix(ScanAfter(c, s).value.1, s);
      SuffixTrans(ScanAfter(c, s).value.1, s, v);
    }
  }

  lemma RestIsSuffix(v: string)
    requires ScanClock(v).Some?
    ensures IsSuffix(ScanClock(v).value.rest, v)
  {
    SignedSuffix(v);
    var year := ScanSigned(v).value.1;
    AfterSuffix('-', year, v);
    var month := ScanAfter('-', year).value.1;
    AfterSuffix('-', month, v);
    var day := ScanAfter('-', month).value.1;
    AfterSuffix('T', day, v);
    var hour := ScanAfter('T', day).value.1;
    AfterSuffix(':', hour, v);
    AfterSuffix(':', ScanAfter(':', hour).value.1, v);
  }

  // ---------------------------------------------------------------- a text that is too short

  /** Five hours off: the zone of this text is not seen. */
  const SHORT := "1-1-1T1:1:1+05:00"

  lemma IgnoredZone()
    ensures Accepted(SHORT) && !Inside(SHORT)
    ensures var t := Seconds(Clock(1, 1, 1, 1, 1, 1)); FromField(SHORT) == Some(t) && Meant(SHORT) == Some(t - 5 * 3600)
  {
    ShortScanned();
    FiveHours();
    Ignored(SHORT, Clock(1, 1, 1, 1, 1, 1), "+05:00", 300);
  }

  lemma Ignored(v: string, c: Clock, zone: string, offset: int)
    requires ScanClock(v) == Some(Scanned(c, zone)) && InRange(c) && |v| < ZONE_PLACE && Offset(ZoneOf(zone)) == Some(offset)
    ensures FromField(v) == Some(Seconds(c)) && Meant(v) == Some(Seconds(c) - offset * 60)
  {
    ShortIsUtc(v);
  }

  lemma FiveHours()
    ensures Offset(ZoneOf("+05:00")) == Some(300)
  {
    OffsetOfZoneText(300);
    assert ZoneText(300) == "+05:00";
  }

  function Then(c: char, rest: string): string { [c] + "1" + rest }

  lemma ShortScanned()
    ensures ScanClock(SHORT) == Some(Scanned(Clock(1, 1, 1, 1, 1, 1), "+05:00")) && |SHORT| == 17
  {
    var d := Then(':', Then(':', "+05:00"));
    var a := Then('-', Then('-', Then('T', d)));
    assert SHORT == "1" + a;
    OnesScanned("+05:00");
  }

  lemma OnesScanned(f: string)
    requires f == "" || !IsDigit(f[0])
    ensures var v := "1" + Then('-', Then('-', Then('T', Then(':', Then(':', f)))));
            ScanClock(v) == Some(Scanned(Clock(1, 1, 1, 1, 1, 1), f))
  {
    var e := Then(':', f);
    var d := Then(':', e);
    var c := Then('T', d);
    var b := Then('-', c);
    var a := Then('-', b);
    ScanOne(a);
    ScanOneAfter('-', b);
    ScanOneAfter('-', c);
    ScanOneAfter('T', d);
    ScanOneAfter(':', e);
    ScanOneAfter(':', f);
    SixScanned("1" + a, Clock(1, 1, 1, 1, 1, 1), a, b, c, d, e, f);
  }

  lemma SixScanned(v: string, k: Clock, a: string, b: string, c: string, d: string, e: string, f: string)
    requires ScanSigned(v) == Some((k.year, a)) && ScanAfter('-', a) == Some((k.month, b)) && ScanAfter('-', b) == Some((k.day, c))
    requires ScanAfter('T', c) == Some((k.hour, d)) && ScanAfter(':', d) == Some((k.minute, e)) && ScanAfter(':', e) == Some((k.second, f))
    ensures ScanClock(v) == Some(Scanned(k, f))
  {
  }

  lemma ScanOne(rest: string)
    requires rest == "" || !IsDigit(rest[0])
    ensures ScanUnsigned("1" + rest) == Some((1, rest)) && ScanSigned("1" + rest) == Some((1, rest))
  {
    assert ("1" + rest)[1..] == rest;
    assert Number("1" + rest) == Number(rest, 1) == 1;
    assert SkipDigits("1" + rest) == SkipDigits(rest) == rest;
  }

  lemma ScanOneAfter(c: char, rest: string)
    requires rest == "" || !IsDigit(rest[0])
    ensures ScanAfter(c, Then(c, rest)) == Some((1, rest))
  {
    assert Then(c, rest)[1..] == "1" + rest;
    ScanOne(rest);
  }

  // ---------------------------------------------------------------- printing

  function Pad2(n: nat): string
    requires n < 100
  {
    [Digit(n / 10), Digit(n % 10)]
  }

  predicate Printable(c: Clock) { 0 <= c.year <= 9999 && InRange(c) }

  function ClockText(c: Clock): string
    requires Printable(c)
  {
    Pad2(c.year / 100) + Pad2(c.year % 100) + "-" + Pad2(c.month) + "-" + Pad2(c.day) + "T" +
    Pad2(c.hour) + ":" + Pad2(c.minute) + ":" + Pad2(c.second)
  }

  const DAY_MINUTES := 24 * 60

  function ZoneText(minutes: int): string
    requires -DAY_MINUTES < minutes < DAY_MINUTES
  {
    var m := if minutes < 0 then -minutes else minutes;
    [if minutes < 0 then '-' else '+'] + Pad2(m / 60) + ":" + Pad2(m % 60)
  }

  predicate IsFraction(s: string) {
    s == "" || (s[0] == '.' && forall i | 0 <= i < |s| :: !StartsZone(s[i]))
  }

  lemma {:induction false} AfterFractionText(fraction: string, zone: string)
    requires forall i | 0 <= i < |fraction| :: !StartsZone(fraction[i])
    requires zone == "" || StartsZone(zone[0])
    ensures AfterFraction(fraction + zone) == zone
  {
    if fraction == "" {
      assert fraction + zone == zone;
    } else {
      assert (fraction + zone)[1..] == fraction[1..] + zone;
      AfterFractionText(fraction[1..], zone);
    }
  }

  lemma ScanPad2(n: nat, rest: string)
    requires n < 100 && (rest == "" || !IsDigit(rest[0]))
    ensures ScanUnsigned(Pad2(n) + rest) == Some((n, rest))
  {
    var s := Pad2(n) + rest;
    assert s[1..] == [Digit(n % 10)] + rest && s[1..][1..] == rest;
    assert SkipDigits(s) == SkipDigits(s[1..]) == SkipDigits(rest) == rest;
    assert Number(s) == Number(s[1..], n / 10) == Number(rest, n);
  }

  lemma OffsetOfZoneText(minutes: int)
    requires -DAY_MINUTES < minutes < DAY_MINUTES
    ensures Offset(ZoneText(minutes)) == Some(minutes)
  {
    var m := if minutes < 0 then -minutes else minutes;
    var zone, tail := ZoneText(minutes), ":" + Pad2(m % 60);
    assert zone[1..] == Pad2(m / 60) + tail;
    ScanPad2(m / 60, tail);
    assert tail[1..] == Pad2(m % 60) + "";
    ScanPad2(m % 60, "");
  }

  lemma ClockReadBack(c: Clock, rest: string)
    requires Printable(c)
    ensures var v := ClockText(c) + rest; FixedWidth(v) && ClockOf(v) == c && v[19..] == rest
  {
  }

  lemma ScanFour(v: string)
    requires DigitsAt(v, 0, 4) && |v| > 4 && !IsDigit(v[4])
    ensures ScanSigned(v) == Some((100 * Two(v, 0) + Two(v, 2), v[4..]))
  {
    assert v[1..][1..] == v[2..] && v[2..][1..] == v[3..] && v[3..][1..] == v[4..];
    assert SkipDigits(v) == SkipDigits(v[1..]) == SkipDigits(v[2..]) == SkipDigits(v[3..]) == SkipDigits(v[4..]) == v[4..];
    assert Number(v) == Number(v[1..], D(v[0])) == Number(v[2..], Two(v, 0))
        == Number(v[3..], 10 * Two(v, 0) + D(v[2])) == Number(v[4..], 100 * Two(v, 0) + Two(v, 2));
  }

  lemma ScanTwo(v: string, p: nat, c: char)
    requires DigitsAt(v, p, 2) && p > 0 && v[p - 1] == c && (p + 2 == |v| || !IsDigit(v[p + 2]))
    ensures ScanAfter(c, v[p - 1..]) == Some((Two(v, p), v[p + 2..]))
  {
    assert v[p - 1..][1..] == v[p..] == Pad2(Two(v, p)) + v[p + 2..];
    ScanPad2(Two(v, p), v[p + 2..]);
  }

  /** A text of fixed width in which no digit follows has the numbers one sees. */
  lemma FixedIsScanned(v: string)
    requires FixedWidth(v) && (|v| == 19 || !IsDigit(v[19]))
    ensures ScanClock(v) == Some(Scanned(ClockOf(v), v[ZONE_PLACE..]))
  {
    ScanFour(v);
    ScanTwo(v, 5, '-');
    ScanTwo(v, 8, '-');
    ScanTwo(v, 11, 'T');
    ScanTwo(v, 14, ':');
    ScanTwo(v, 17, ':');
    SixScanned(v, ClockOf(v), v[4..], v[7..], v[10..], v[13..], v[16..], v[19..]);
  }

  /** A printed clock is scanned as it is. */
  lemma ClockIsScanned(c: Clock, rest: string)
    requires Printable(c) && (rest == "" || !IsDigit(rest[0]))
    ensures var v := ClockText(c) + rest;
            Accepted(v) && |v| >= ZONE_PLACE && ScanClock(v) == Some(Scanned(c, rest)) && v[ZONE_PLACE..] == rest
  {
    ClockReadBack(c, rest);
    FixedIsScanned(ClockText(c) + rest);
  }

  /** A wall clock in a zone, with or without a fraction of a second. */
  function TimeText(c: Clock, fraction: string, minutes: int): string
    requires Printable(c) && -DAY_MINUTES < minutes < DAY_MINUTES
  {
    ClockText(c) + (fraction + ZoneText(minutes))
  }

  lemma ZoneBehindFraction(fraction: string, zone: string)
    requires IsFraction(fraction) && (zone == "" || StartsZone(zone[0]))
    ensures ZoneOf(fraction + zone) == zone
  {
    AfterFractionText(fraction, zone);
    assert fraction == "" ==> fraction + zone == zone;
  }

  lemma ReadInZone(v: string, c: Clock, rest: string, offset: int)
    requires Accepted(v) && |v| >= ZONE_PLACE && v[ZONE_PLACE..] == rest
    requires ScanClock(v) == Some(Scanned(c, rest)) && Offset(ZoneOf(rest)) == Some(offset)
    ensures FromField(v) == Meant(v) == Some(Seconds(c) - offset * 60)
  {
  }

  /** A printed clock before a zone of known offset. */
  lemma ClockInZone(c: Clock, fraction: string, zone: string, offset: int)
    requires Printable(c) && IsFraction(fraction) && (zone == "" || StartsZone(zone[0])) && Offset(zone) == Some(offset)
    ensures var v := ClockText(c) + (fraction + zone); Inside(v) && FromField(v) == Meant(v) == Some(Seconds(c) - offset * 60)
  {
    var rest := fraction + zone;
    ZoneBehindFraction(fraction, zone);
    ClockIsScanned(c, rest);
    ReadInZone(ClockText(c) + rest, c, rest, offset);
  }

  /** Reading a printed time gives the instant of its clock, moved by its zone, whatever the fraction. */
  lemma TextNamesInstant(c: Clock, fraction: string, minutes: int)
    requires Printable(c) && IsFraction(fraction) && -DAY_MINUTES < minutes < DAY_MINUTES
    ensures Inside(TimeText(c, fraction, minutes))
    ensures FromField(TimeText(c, fraction, minutes)) == Some(Seconds(c) - minutes * 60)
  {
    OffsetOfZoneText(minutes);
    ClockInZone(c, fraction, ZoneText(minutes), minutes);
  }

  lemma ClockInUtc(c: Clock, fraction: string, zone: string)
    requires Printable(c) && IsFraction(fraction) && (zone == "" || zone[0] == 'Z')
    ensures var v := ClockText(c) + (fraction + zone); Inside(v) && FromField(v) == Some(Seconds(c))
  {
    ClockInZone(c, fraction, zone, 0);
  }

  /** Without a zone, and with Z, a time is in UTC. */
  lemma BareAndZuluAreUtc(c: Clock, fraction: string)
    requires Printable(c) && IsFraction(fraction)
    ensures var v := ClockText(c) + (fraction + "Z"); Inside(v) && FromField(v) == Some(Seconds(c))
    ensures var v := ClockText(c) + (fraction + ""); Inside(v) && FromField(v) == Some(Seconds(c))
  {
    ClockInUtc(c, fraction, "Z");
    ClockInUtc(c, fraction, "");
  }

  // ---------------------------------------------------------------- the same instant elsewhere

  predicate IsClock(c: Clock) { Printable(c) && IsDate(Date(c.year, c.month, c.day)) }

  /** The wall clock one minute later, over the ends of hours, days, months and years. */
  function NextMinute(c: Clock): Clock
    requires IsClock(c)
  {
    if c.minute < 59 then c.(minute := c.minute + 1)
    else if c.hour < 23 then c.(minute := 0, hour := c.hour + 1)
    else
      var d := NextDate(Date(c.year, c.month, c.day));
      Clock(d.year, d.month, d.day, 0, 0, c.second)
  }

  lemma NextDayNumber(d: Date)
    requires IsDate(d)
    ensures var n := NextDate(d); DayNumber(n.year, n.month, n.day) == DayNumber(d.year, d.month, d.day) + 1
  {
    var n := NextDate(d);
    NextDateIsNextDay(d);
    DaysFromCivilIsDayNumber(d.year, d.month, d.day);
    DaysFromCivilIsDayNumber(n.year, n.month, n.day);
  }

  lemma NextMinuteIsLater(c: Clock)
    requires IsClock(c)
    ensures Seconds(NextMinute(c)) == Seconds(c) + 60
  {
    if c.minute == 59 && c.hour == 23 {
      NextDayNumber(Date(c.year, c.month, c.day));
    }
  }

  /** The wall clock some minutes later, as far as years have four digits. */
  function Later(c: Clock, n: nat): Option<Clock>
    requires IsClock(c)
    decreases n
  {
    if n == 0 then Some(c)
    else
      var next := NextMinute(c);
      if IsClock(next) then Later(next, n - 1) else None
  }

  lemma {:induction false} LaterSeconds(c: Clock, n: nat)
    requires IsClock(c) && Later(c, n).Some?
    ensures IsClock(Later(c, n).value) && Seconds(Later(c, n).value) == Seconds(c) + n * 60
    decreases n
  {
    if n > 0 {
      NextMinuteIsLater(c);
      LaterSeconds(NextMinute(c), n - 1);
    }
  }

  /** One instant shown in two zones, with or without fractions, is read as the same number: the clock
      that is n minutes ahead stands in the zone that is n minutes ahead. */
  lemma SameInstantInAnyZone(c: Clock, n: nat, minutes: int, f: string, g: string)
    requires IsClock(c) && Later(c, n).Some? && IsFraction(f) && IsFraction(g)
    requires -DAY_MINUTES < minutes && minutes + n < DAY_MINUTES
    ensures IsClock(Later(c, n).value)
    ensures Inside(TimeText(c, f, minutes)) && Inside(TimeText(Later(c, n).value, g, minutes + n))
    ensures FromField(TimeText(c, f, minutes)) == FromField(TimeText(Later(c, n).value, g, minutes + n))
  {
    LaterSeconds(c, n);
    var later, t := Later(c, n).value, Seconds(c) - minutes * 60;
    NamesInstant(TimeText(c, f, minutes), c, f, minutes, t);
    NamesInstant(TimeText(later, g, minutes + n), later, g, minutes + n, t);
  }

  lemma NamesInstant(v: string, c: Clock, f: string, minutes: int, t: int)
    requires Printable(c) && IsFraction(f) && -DAY_MINUTES < minutes < DAY_MINUTES
    requires v == TimeText(c, f, minutes) && t == Seconds(c) - minutes * 60
    ensures Inside(v) && FromField(v) == Some(t)
  {
    TextNamesInstant(c, f, minutes);
  }
}

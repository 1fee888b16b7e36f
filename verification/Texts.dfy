/** Decimal numbers, and texts made of pieces with a separator between them. */
module Texts {
  import opened Options

  // ---------------------------------------------------------------- decimal numbers

  predicate IsDigit(c: char) { '0' <= c <= '9' }

  function Digit(d: nat): (c: char)
    requires d < 10
    ensures IsDigit(c) && c as int - '0' as int == d
  {
    '0' + d as char
  }

  /** %d of a number that is not negative. */
  function Decimal(n: nat): (s: string)
    ensures |s| > 0 && forall i | 0 <= i < |s| :: IsDigit(s[i])
  {
    if n < 10 then [Digit(n)] else Decimal(n / 10) + [Digit(n % 10)]
  }

  /** The digits at the start of a text, after those already seen. */
  function Number(s: string, seen: nat := 0): nat
    decreases |s|
  {
    if s == [] || !IsDigit(s[0]) then seen else Number(s[1..], 10 * seen + (s[0] as int - '0' as int))
  }

  predicate IsSpace(c: char) { c == ' ' || 9 <= c as int <= 13 }

  /** atoi: leading white space, an optional sign, then digits. */
  function Atoi(s: string): int
    decreases |s|
  {
    if s == [] then 0
    else if IsSpace(s[0]) then Atoi(s[1..])
    else if s[0] == '-' then -(Number(s[1..]) as int)
    else if s[0] == '+' then Number(s[1..])
    else Number(s)
  }

  lemma {:induction false} NumberAppend(s: string, t: string, seen: nat)
    requires forall i | 0 <= i < |s| :: IsDigit(s[i])
    ensures Number(s + t, seen) == Number(t, Number(s, seen))
    decreases |s|
  {
    if s == [] {
      assert s + t == t;
    } else {
      assert (s + t)[1..] == s[1..] + t;
      NumberAppend(s[1..], t, 10 * seen + (s[0] as int - '0' as int));
    }
  }

  /** Reading back a printed number. */
  lemma {:induction false} NumberOfDecimal(n: nat)
    ensures Number(Decimal(n)) == n && Atoi(Decimal(n)) == n
  {
    if n < 10 {
      assert Number(Decimal(n)[1..], n) == n;
    } else {
      NumberOfDecimal(n / 10);
      NumberAppend(Decimal(n / 10), [Digit(n % 10)], 0);
      assert [Digit(n % 10)][1..] == [];
    }
  }

  lemma {:induction false} DecimalInjective(m: nat, n: nat)
    requires Decimal(m) == Decimal(n)
    ensures m == n
  {
    NumberOfDecimal(m);
    NumberOfDecimal(n);
  }

  function Pow10(k: nat): (p: nat)
    ensures p > 0
  {
    if k == 0 then 1 else 10 * Pow10(k - 1)
  }

  lemma {:induction false} DecimalLength(n: nat, k: nat)
    requires 0 < k && n < Pow10(k)
    ensures |Decimal(n)| <= k
  {
    if n >= 10 {
      assert k > 1;
      DecimalLength(n / 10, k - 1);
    }
  }

  const UNSIGNED_LIMIT := 0x1_0000_0000

  function SkipSpaces(s: string): (r: string)
    ensures |r| <= |s|
  {
    if s == [] || !IsSpace(s[0]) then s else SkipSpaces(s[1..])
  }

  function SkipDigits(s: string): (r: string)
    ensures |r| <= |s|
  {
    if s == [] || !IsDigit(s[0]) then s else SkipDigits(s[1..])
  }

  /** %u: white space, an optional sign, digits; a minus sign wraps around. Also what follows. */
  function ScanUnsigned(s: string): Option<(nat, string)> {
    var t := SkipSpaces(s);
    var signed := t != [] && (t[0] == '+' || t[0] == '-');
    var digits := if signed then t[1..] else t;
    if digits == [] || !IsDigit(digits[0]) then None
    else
      var n := Number(digits);
      Some((if signed && t[0] == '-' then (UNSIGNED_LIMIT - n % UNSIGNED_LIMIT) % UNSIGNED_LIMIT else n, SkipDigits(digits)))
  }

  /** The part of a text that fits a buffer of the given capacity, terminator included. */
  function Fit(s: string, capacity: nat): (r: string)
    requires capacity > 0
    ensures |r| < capacity && r <= s && (|s| < capacity ==> r == s)
  {
    if |s| < capacity then s else s[..capacity - 1]
  }

  // ---------------------------------------------------------------- separators

  /** Index of the first occurrence of c at or after from, or the end of the text. */
  function Find(s: string, c: char, from: nat): (i: nat)
    requires from <= |s|
    ensures from <= i <= |s|
    ensures i < |s| ==> s[i] == c
    decreases |s| - from
  {
    if from == |s| || s[from] == c then from else Find(s, c, from + 1)
  }

  /** It is the first: nothing before it is c. */
  lemma {:induction false} FindIs(s: string, c: char, from: nat, i: nat)
    requires from <= i <= |s|
    ensures Find(s, c, from) == i <==> c !in s[from..i] && (i < |s| ==> s[i] == c)
    decreases |s| - from
  {
    if from < i {
      assert s[from..i] == [s[from]] + s[from + 1..i];
      FindIs(s, c, from + 1, i);
    }
  }

  /** The pieces between separators; an empty text has one empty piece. */
  function Split(s: string, c: char): (pieces: seq<string>)
    ensures |pieces| > 0
    decreases |s|
  {
    var t := Find(s, c, 0);
    if t == |s| then [s] else [s[..t]] + Split(s[t + 1..], c)
  }

  /** Splitting a tail of the text. */
  lemma SplitAt(s: string, c: char, p: nat, t: nat)
    requires p <= |s| && t == Find(s, c, p)
    ensures t == |s| ==> Split(s[p..], c) == [s[p..]]
    ensures t < |s| ==> Split(s[p..], c) == [s[p..t]] + Split(s[t + 1..], c)
  {
    FindShift(s, c, p);
    Slices(s, p, t);
    SplitStep(s[p..], c, t - p, s[p..t], if t < |s| then s[t + 1..] else "");
  }

  lemma Slices(s: string, p: nat, t: nat)
    requires p <= t <= |s|
    ensures s[p..][..t - p] == s[p..t] && (t < |s| ==> s[p..][t - p + 1..] == s[t + 1..])
  {
  }

  lemma SplitStep(u: string, c: char, t: nat, first: string, rest: string)
    requires t == Find(u, c, 0) && first == u[..t] && (t < |u| ==> rest == u[t + 1..])
    ensures Split(u, c) == if t == |u| then [u] else [first] + Split(rest, c)
  {
  }

  lemma FindShift(s: string, c: char, p: nat)
    requires p <= |s|
    ensures Find(s[p..], c, 0) == Find(s, c, p) - p
  {
    var i := Find(s, c, p);
    FindIs(s, c, p, i);
    assert s[p..][0..i - p] == s[p..i];
    FindIs(s[p..], c, 0, i - p);
  }

  /** Pieces, each followed by the separator, and then the rest. */
  function Line(pieces: seq<string>, c: char, rest: string): string {
    if pieces == [] then rest else pieces[0] + [c] + Line(pieces[1..], c, rest)
  }

  predicate NoneHas(pieces: seq<string>, c: char) {
    forall i {:trigger pieces[i]} | 0 <= i < |pieces| :: c !in pieces[i]
  }

  lemma FindAppend(a: string, c: char, b: string)
    requires c !in a
    ensures Find(a + [c] + b, c, 0) == |a|
  {
    var s := a + [c] + b;
    assert s[0..|a|] == a;
    FindIs(s, c, 0, |a|);
  }

  lemma SplitCons(a: string, c: char, rest: string)
    requires c !in a
    ensures Split(a + [c] + rest, c) == [a] + Split(rest, c)
  {
    var s := a + [c] + rest;
    FindAppend(a, c, rest);
    assert s[|a| + 1..] == rest && s[..|a|] == a;
  }

  /** Splitting pieces that lack the separator, followed by anything at all, gives those pieces first. */
  lemma {:induction false} SplitLine(pieces: seq<string>, c: char, rest: string)
    requires NoneHas(pieces, c)
    ensures Split(Line(pieces, c, rest), c) == pieces + Split(rest, c)
    decreases |pieces|
  {
    if pieces != [] {
      var first, tail := pieces[0], Line(pieces[1..], c, rest);
      assert c !in pieces[0];
      SplitCons(first, c, tail);
      SplitLine(pieces[1..], c, rest);
      assert Line(pieces, c, rest) == first + [c] + tail;
      assert pieces + Split(rest, c) == [first] + (pieces[1..] + Split(rest, c));
    }
  }

  lemma SplitWhole(s: string, c: char)
    requires c !in s
    ensures Split(s, c) == [s]
  {
    assert s[0..|s|] == s;
    FindIs(s, c, 0, |s|);
  }

  lemma LineStep(pieces: seq<string>, c: char, rest: string, k: nat)
    requires k < |pieces|
    ensures |Line(pieces[k..], c, rest)| == |pieces[k]| + 1 + |Line(pieces[k + 1..], c, rest)|
  {
    assert pieces[k..][1..] == pieces[k + 1..];
  }

  /** A character that is in no piece is not in the whole. */
  lemma {:induction false} LineWithout(pieces: seq<string>, c: char, rest: string, d: char)
    requires NoneHas(pieces, d) && d !in rest && c != d
    ensures d !in Line(pieces, c, rest)
    decreases |pieces|
  {
    if pieces != [] {
      assert d !in pieces[0];
      LineWithout(pieces[1..], c, rest, d);
    }
  }
}

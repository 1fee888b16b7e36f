/** Key specs: names separated by commas, rewritten one name at a time while keys are captured. */
module KeySpec {
  import opened Texts

  /** Buffer sizes, terminators included, and numbers of buttons. */
  const NAME := 96
  const SPEC := 1536
  const BUTTONS := 8
  const N64_BUTTONS := 18

  function StripSpaces(s: string): (r: string)
    ensures r == [] || r[0] != ' '
    ensures s == [] || s[0] != ' ' ==> r == s
  {
    if s == [] || s[0] != ' ' then s else StripSpaces(s[1..])
  }

  // ---------------------------------------------------------------- parsing

  /** The first n non-empty pieces, without leading spaces; the rest of the n names is empty. */
  function Names(pieces: seq<string>, n: nat): (names: seq<string>)
    ensures |names| == n
    decreases |pieces|
  {
    if n == 0 || pieces == [] then seq(n, _ => "")
    else if pieces[0] == "" then Names(pieces[1..], n)
    else [Fit(StripSpaces(pieces[0]), NAME)] + Names(pieces[1..], n - 1)
  }

  function Parse(spec: string, n: nat): (names: seq<string>)
    ensures |names| == n
  {
    Names(Split(Fit(spec, SPEC), ','), n)
  }

  /** The names found from a position of the spec on. */
  function NamesFrom(spec: string, p: nat, n: nat): (names: seq<string>)
    requires p <= |spec| + 1
    decreases |spec| + 1 - p
  {
    if n == 0 || p > |spec| then seq(n, _ => "")
    else
      var end := Find(spec, ',', p);
      if end == p then NamesFrom(spec, end + 1, n)
      else [Fit(StripSpaces(spec[p..end]), NAME)] + NamesFrom(spec, end + 1, n - 1)
  }

  lemma NamesCons(first: string, rest: seq<string>, n: nat)
    ensures Names([first] + rest, n) ==
            if n == 0 then [] else if first == "" then Names(rest, n)
            else [Fit(StripSpaces(first), NAME)] + Names(rest, n - 1)
  {
    assert ([first] + rest)[1..] == rest;
  }

  lemma {:induction false} NamesFromSplits(spec: string, p: nat, n: nat)
    requires p <= |spec|
    ensures NamesFrom(spec, p, n) == Names(Split(spec[p..], ','), n)
    decreases |spec| - p
  {
    var end := Find(spec, ',', p);
    SplitAt(spec, ',', p, end);
    if end == |spec| {
      NamesFromLast(spec, p, n);
      NamesAlone(spec[p..], n);
    } else {
      if n > 0 {
        NamesFromSplits(spec, end + 1, if end == p then n else n - 1);
      }
      NamesFromAgrees(spec, p, end, n, Split(spec[end + 1..], ','));
    }
  }

  lemma NamesFromAgrees(spec: string, p: nat, end: nat, n: nat, rest: seq<string>)
    requires p <= |spec| && end == Find(spec, ',', p)
    requires n > 0 ==> var m := if end == p then n else n - 1; NamesFrom(spec, end + 1, m) == Names(rest, m)
    ensures NamesFrom(spec, p, n) == Names([spec[p..end]] + rest, n)
  {
    NamesFromStep(spec, p, end, n);
    NamesCons(spec[p..end], rest, n);
  }

  lemma NamesFromStep(spec: string, p: nat, end: nat, n: nat)
    requires p <= |spec| && end == Find(spec, ',', p)
    ensures NamesFrom(spec, p, n) ==
            if n == 0 then [] else if spec[p..end] == "" then NamesFrom(spec, end + 1, n)
            else [Fit(StripSpaces(spec[p..end]), NAME)] + NamesFrom(spec, end + 1, n - 1)
  {
  }

  lemma NamesFromLast(spec: string, p: nat, n: nat)
    requires p <= |spec| == Find(spec, ',', p)
    ensures NamesFrom(spec, p, n) == OneName(spec[p..], n)
  {
    assert spec[p..|spec|] == spec[p..];
    NamesFromStep(spec, p, |spec|, n);
  }

  lemma NamesAlone(piece: string, n: nat)
    ensures Names([piece], n) == OneName(piece, n)
  {
    assert [piece] + [] == [piece];
    NamesCons(piece, [], n);
  }

  /** The names of a spec without commas. */
  function OneName(piece: string, n: nat): seq<string> {
    if n == 0 then [] else if piece == "" then seq(n, _ => "")
    else [Fit(StripSpaces(piece), NAME)] + seq(n - 1, _ => "")
  }

  lemma OneMoreName(spec: string, p: nat, n: nat, names: seq<string>)
    requires p <= |spec| && |names| < n
    ensures var end := Find(spec, ',', p);
            var found := if end == p then names else names + [Fit(StripSpaces(spec[p..end]), NAME)];
            names + NamesFrom(spec, p, n - |names|) == found + NamesFrom(spec, end + 1, n - |found|)
  {
  }

  /** The tokens of the spec, one after the other. */
  method KeySpecToNames(spec: string, n: nat) returns (names: seq<string>)
    ensures names == Parse(spec, n)
  {
    var copy := Fit(spec, SPEC);
    assert copy[0..] == copy;
    NamesFromSplits(copy, 0, n);
    names := Scan(copy, n);
  }

  method Scan(copy: string, n: nat) returns (names: seq<string>)
    ensures names == NamesFrom(copy, 0, n)
  {
    names := [];
    var p := 0;
    while p <= |copy| && |names| < n
      invariant p <= |copy| + 1 && |names| <= n
      invariant NamesFrom(copy, 0, n) == names + NamesFrom(copy, p, n - |names|)
    {
      OneMoreName(copy, p, n, names);
      var end := Find(copy, ',', p);
      if end > p {
        names := names + [Fit(StripSpaces(copy[p..end]), NAME)];
      }
      p := end + 1;
    }
    names := names + seq(n - |names|, _ => "");
  }

  // ---------------------------------------------------------------- printing

  function Shown(name: string): (r: string)
    ensures r != ""
  {
    if name == "" then "UNKNOWN" else name
  }

  function AllShown(names: seq<string>): (r: seq<string>)
    ensures |r| == |names| && forall i | 0 <= i < |r| :: r[i] == Shown(names[i])
  {
    seq(|names|, i requires 0 <= i < |names| => Shown(names[i]))
  }

  function Joined(names: seq<string>): string {
    if names == [] then "" else Line(AllShown(names[..|names| - 1]), ',', Shown(names[|names| - 1]))
  }

  function Print(names: seq<string>): string { Fit(Joined(names), SPEC) }

  lemma {:induction false} LineAppend(pieces: seq<string>, c: char, a: string, b: string)
    ensures Line(pieces + [a], c, b) == Line(pieces, c, a) + [c] + b
  {
    if pieces == [] {
      assert [a][1..] == [] && pieces + [a] == [a];
    } else {
      assert (pieces + [a])[1..] == pieces[1..] + [a];
      LineAppend(pieces[1..], c, a, b);
    }
  }

  lemma JoinedAppend(names: seq<string>, name: string)
    requires names != []
    ensures Joined(names + [name]) == Joined(names) + "," + Shown(name)
  {
    var all := names + [name];
    assert all[..|names|] == names;
    assert AllShown(names) == AllShown(names[..|names| - 1]) + [Shown(names[|names| - 1])];
    LineAppend(AllShown(names[..|names| - 1]), ',', Shown(names[|names| - 1]), Shown(name));
  }

  /** Append to a buffer as far as there is room. */
  function Appended(s: string, t: string): string { Fit(s + t, SPEC) }

  lemma AppendedFits(s: string, t: string)
    ensures Appended(Fit(s, SPEC), t) == Fit(s + t, SPEC)
  {
    if |s| >= SPEC {
      assert (Fit(s, SPEC) + t)[..SPEC - 1] == s[..SPEC - 1] == (s + t)[..SPEC - 1];
    }
  }

  /** Printing one name more. */
  lemma PrintStep(names: seq<string>, name: string)
    ensures Print(names + [name]) == Appended(if names == [] then "" else Appended(Print(names), ","), Shown(name))
  {
    if names == [] {
      assert names + [name] == [name];
      AppendedFits("", Shown(name));
    } else {
      JoinedAppend(names, name);
      AppendedFits(Joined(names), ",");
      AppendedFits(Joined(names) + ",", Shown(name));
    }
  }

  method KeyNamesToSpec(names: seq<string>) returns (spec: string)
    ensures spec == Print(names)
  {
    spec := "";
    var i := 0;
    while i < |names|
      invariant 0 <= i <= |names| && spec == Print(names[..i])
    {
      PrintStep(names[..i], names[i]);
      if i > 0 {
        spec := Appended(spec, ",");
      }
      spec := Appended(spec, Shown(names[i]));
      assert names[..i + 1] == names[..i] + [names[i]];
      i := i + 1;
    }
    assert names[..|names|] == names;
  }

  // ---------------------------------------------------------------- parsing what was printed

  /** A name that a spec can hold. */
  predicate Tidy(name: string) { ',' !in name && |name| < NAME && (name == "" || name[0] != ' ') }

  predicate AllTidy(names: seq<string>) { forall i {:trigger names[i]} | 0 <= i < |names| :: Tidy(names[i]) }

  lemma {:induction false} NamesAreTidy(pieces: seq<string>, n: nat)
    requires NoneHas(pieces, ',')
    ensures AllTidy(Names(pieces, n))
    decreases |pieces|
  {
    if n > 0 && pieces != [] {
      NamesAreTidy(pieces[1..], n);
      NamesAreTidy(pieces[1..], n - 1);
      var first := Fit(StripSpaces(pieces[0]), NAME);
      StripKeeps(pieces[0], ',');
      assert ',' !in pieces[0];
      assert forall i | 0 <= i < |first| :: first[i] == StripSpaces(pieces[0])[i];
    }
  }

  lemma {:induction false} StripKeeps(s: string, c: char)
    ensures c !in s ==> c !in StripSpaces(s)
  {
    if s != [] && s[0] == ' ' { StripKeeps(s[1..], c); }
  }

  lemma {:induction false} PiecesLackSeparator(s: string, c: char)
    ensures NoneHas(Split(s, c), c)
    decreases |s|
  {
    var t := Find(s, c, 0);
    FindIs(s, c, 0, t);
    assert s[0..t] == s[..t];
    if t < |s| {
      PiecesLackSeparator(s[t + 1..], c);
    } else {
      assert s[..t] == s;
    }
  }

  lemma ParseIsTidy(spec: string, n: nat)
    ensures AllTidy(Parse(spec, n))
  {
    PiecesLackSeparator(Fit(spec, SPEC), ',');
    NamesAreTidy(Split(Fit(spec, SPEC), ','), n);
  }

  lemma {:induction false} NamesOfShown(names: seq<string>)
    requires AllTidy(names) && forall i | 0 <= i < |names| :: names[i] != ""
    ensures Names(names, |names|) == names
  {
    if names != [] {
      assert Tidy(names[0]);
      NamesOfShown(names[1..]);
    }
  }

  lemma SplitJoined(names: seq<string>)
    requires AllTidy(names) && names != []
    ensures Split(Joined(names), ',') == AllShown(names)
  {
    var n := |names| - 1;
    var most, last := AllShown(names[..n]), Shown(names[n]);
    assert Tidy(names[n]);
    forall i | 0 <= i < n ensures ',' !in most[i] { assert Tidy(names[i]); }
    SplitLine(most, ',', last);
    SplitWhole(last, ',');
    assert AllShown(names) == most + [last];
  }

  /** Printing and parsing give the names back, with UNKNOWN for the empty ones, if the spec fits. */
  lemma ParsePrint(names: seq<string>)
    requires AllTidy(names) && names != [] && |Joined(names)| < SPEC
    ensures Parse(Print(names), |names|) == AllShown(names)
  {
    SplitJoined(names);
    forall i | 0 <= i < |names| ensures Tidy(AllShown(names)[i]) { assert Tidy(names[i]); }
    NamesOfShown(AllShown(names));
  }

  lemma {:induction false} LineShort(pieces: seq<string>, c: char, rest: string)
    requires forall i | 0 <= i < |pieces| :: |pieces[i]| < NAME
    ensures |Line(pieces, c, rest)| <= |pieces| * NAME + |rest|
  {
    if pieces != [] { LineShort(pieces[1..], c, rest); }
  }

  /** Eight names always fit. */
  lemma EightFit(names: seq<string>)
    requires |names| == BUTTONS && forall i | 0 <= i < BUTTONS :: |names[i]| < NAME
    ensures |Joined(names)| < SPEC
  {
    var most := names[..BUTTONS - 1];
    LineShort(AllShown(most), ',', Shown(names[BUTTONS - 1]));
  }

  /** The length of the pieces with one separator after each. */
  function Length(pieces: seq<string>): nat { if pieces == [] then 0 else |pieces[0]| + 1 + Length(pieces[1..]) }

  lemma {:induction false} LineLength(pieces: seq<string>, c: char, rest: string)
    ensures |Line(pieces, c, rest)| == Length(pieces) + |rest|
  {
    if pieces != [] { LineLength(pieces[1..], c, rest); }
  }

  lemma {:induction false} LengthAppend(pieces: seq<string>, last: string)
    ensures Length(pieces + [last]) == Length(pieces) + |last| + 1
  {
    if pieces == [] {
      assert [] + [last] == [last];
    } else {
      assert (pieces + [last])[1..] == pieces[1..] + [last];
      LengthAppend(pieces[1..], last);
    }
  }

  lemma {:induction false} SplitLength(s: string, c: char)
    ensures Length(Split(s, c)) == |s| + 1
    decreases |s|
  {
    var t := Find(s, c, 0);
    if t < |s| {
      SplitLength(s[t + 1..], c);
      assert Split(s, c)[1..] == Split(s[t + 1..], c);
    }
  }

  lemma StripShortens(s: string)
    ensures |StripSpaces(s)| <= |s|
  {
  }

  lemma {:induction false} NamesLength(pieces: seq<string>, n: nat)
    requires forall i | 0 <= i < n :: Names(pieces, n)[i] != ""
    ensures Length(Names(pieces, n)) <= Length(pieces)
    decreases |pieces|
  {
    assert n > 0 ==> Names(pieces, n)[0] != "";
    if n > 0 && pieces != [] {
      if pieces[0] == "" {
        NamesLength(pieces[1..], n);
      } else {
        var rest := Names(pieces[1..], n - 1);
        assert Names(pieces, n)[1..] == rest;
        assert forall i | 0 <= i < n - 1 :: rest[i] == Names(pieces, n)[i + 1];
        StripShortens(pieces[0]);
        NamesLength(pieces[1..], n - 1);
      }
    }
  }

  /** A name as it is after being copied into its buffer. */
  predicate Nameable(name: string) { 0 < |name| < NAME }

  /** Printed names are found again exactly when they fit, and none has a comma in it or begins with a space. */
  lemma FoundIffFit(names: seq<string>)
    requires names != [] && forall i | 0 <= i < |names| :: Nameable(names[i])
    ensures Parse(Print(names), |names|) == names <==> AllTidy(names) && |Joined(names)| < SPEC
  {
    assert AllShown(names) == names;
    if AllTidy(names) && |Joined(names)| < SPEC {
      ParsePrint(names);
    } else if Parse(Print(names), |names|) == names {
      ParseIsTidy(Print(names), |names|);
      FoundFits(names);
    }
  }

  lemma JoinedLength(names: seq<string>)
    requires names != [] && forall i | 0 <= i < |names| :: names[i] != ""
    ensures |Joined(names)| + 1 == Length(names)
  {
    var n := |names| - 1;
    assert AllShown(names[..n]) == names[..n];
    LineLength(names[..n], ',', names[n]);
    LengthAppend(names[..n], names[n]);
    assert names == names[..n] + [names[n]];
  }

  lemma FoundFits(names: seq<string>)
    requires names != [] && forall i | 0 <= i < |names| :: names[i] != ""
    requires Parse(Print(names), |names|) == names
    ensures |Joined(names)| < SPEC
  {
    var spec := Print(names);
    NamesLength(Split(spec, ','), |names|);
    SplitLength(spec, ',');
    JoinedLength(names);
  }

  // ---------------------------------------------------------------- capturing eight buttons

  /** Which name each capture step sets: the buttons first, then the directions. */
  function Position(step: nat): (i: nat)
    requires step < BUTTONS
    ensures i == if step < 4 then step + 4 else step - 4
  {
    [4, 5, 6, 7, 0, 1, 2, 3][step]
  }

  /** One step: parse the spec, change one name, print it again. */
  function CaptureStep(spec: string, step: nat, name: string): string
    requires step < BUTTONS
  {
    Print(Parse(spec, BUTTONS)[Position(step) := name])
  }

  /** The spec after the first k captured names. */
  function Captured(spec: string, names: seq<string>, k: nat): string
    requires |names| == BUTTONS && k <= BUTTONS
  {
    if k == 0 then spec else CaptureStep(Captured(spec, names, k - 1), k - 1, names[k - 1])
  }

  /** One step changes its own name and keeps the others, exactly when the name is one that a spec can hold. */
  lemma StepKeeps(spec: string, step: nat, name: string)
    requires step < BUTTONS && Nameable(name)
    ensures var before, after := Parse(spec, BUTTONS), Parse(CaptureStep(spec, step, name), BUTTONS);
            Tidy(name) <==> after[Position(step)] == name
                            && forall i | 0 <= i < BUTTONS && i != Position(step) :: after[i] == Shown(before[i])
  {
    var names := Parse(spec, BUTTONS)[Position(step) := name];
    ParseIsTidy(spec, BUTTONS);
    if Tidy(name) {
      EightFit(names);
      ParsePrint(names);
    } else {
      ParseIsTidy(CaptureStep(spec, step, name), BUTTONS);
    }
  }

  // ---------------------------------------------------------------- a comma as a name

  lemma {:induction false} LineCat(a: seq<string>, b: seq<string>, c: char, rest: string)
    ensures Line(a + b, c, rest) == Line(a, c, Line(b, c, rest))
  {
    if a == [] {
      assert a + b == b;
    } else {
      assert (a + b)[1..] == a[1..] + b;
      LineCat(a[1..], b, c, rest);
    }
  }

  /** Between separators, a comma is two empty pieces. */
  lemma CommaIsTwoPieces(pre: seq<string>, post: seq<string>, last: string)
    ensures Line(pre + [","] + post, ',', last) == Line(pre + ["", ""] + post, ',', last)
    ensures Line(pre, ',', ",") == Line(pre + [""], ',', "")
  {
    LineCat(pre + [","], post, ',', last);
    LineCat(pre, [","], ',', Line(post, ',', last));
    LineCat(pre + ["", ""], post, ',', last);
    LineCat(pre, ["", ""], ',', Line(post, ',', last));
    LineCat(pre, [""], ',', "");
    TwoCommas(Line(post, ',', last));
  }

  lemma TwoCommas(rest: string)
    ensures Line([","], ',', rest) == Line(["", ""], ',', rest) && Line([""], ',', "") == ","
  {
    assert [","][1..] == [] && ["", ""][1..] == [""] && [""][1..] == [];
    assert Line([","], ',', rest) == "," + "," + rest;
    assert Line(["", ""], ',', rest) == "" + "," + ("" + "," + rest);
  }

  predicate AllNames(pieces: seq<string>) {
    forall i {:trigger pieces[i]} | 0 <= i < |pieces| :: Tidy(pieces[i]) && pieces[i] != ""
  }

  lemma {:induction false} NamesOfNames(pieces: seq<string>, rest: seq<string>, n: nat)
    requires AllNames(pieces) && n >= |pieces|
    ensures Names(pieces + rest, n) == pieces + Names(rest, n - |pieces|)
    decreases |pieces|
  {
    if pieces == [] {
      assert pieces + rest == rest;
    } else {
      NamesOfName(pieces[0], pieces[1..] + rest, n);
      NamesOfNames(pieces[1..], rest, n - 1);
      Regroup(pieces, rest);
      Regroup(pieces, Names(rest, n - |pieces|));
    }
  }

  lemma NamesOfName(name: string, rest: seq<string>, n: nat)
    requires Tidy(name) && name != "" && n > 0
    ensures Names([name] + rest, n) == [name] + Names(rest, n - 1)
  {
    NamesCons(name, rest, n);
  }

  lemma Regroup(pieces: seq<string>, rest: seq<string>)
    requires pieces != []
    ensures [pieces[0]] + (pieces[1..] + rest) == pieces + rest
  {
  }

  lemma {:induction false} NamesOfGap(gap: seq<string>, rest: seq<string>, n: nat)
    requires forall i {:trigger gap[i]} | 0 <= i < |gap| :: gap[i] == ""
    ensures Names(gap + rest, n) == Names(rest, n)
    decreases |gap|
  {
    if gap == [] {
      assert gap + rest == rest;
    } else {
      NamesCons(gap[0], gap[1..] + rest, n);
      NamesOfGap(gap[1..], rest, n);
      Regroup(gap, rest);
    }
  }

  /** Empty pieces between names are passed over. */
  lemma NamesSkip(pre: seq<string>, gap: seq<string>, post: seq<string>, n: nat)
    requires AllNames(pre) && AllNames(post) && (forall i {:trigger gap[i]} | 0 <= i < |gap| :: gap[i] == "")
    requires n == |pre| + |post| + 1
    ensures Names(pre + gap + post, n) == pre + post + [""]
  {
    assert pre + gap + post == pre + (gap + post) && post == post + [];
    NamesOfNames(pre, gap + post, n);
    NamesOfGap(gap, post, n - |pre|);
    NamesOfNames(post, [], n - |pre|);
    assert pre + (post + [""]) == pre + post + [""];
  }

  lemma ShownNames(names: seq<string>)
    requires AllTidy(names)
    ensures AllNames(AllShown(names)) && NoneHas(AllShown(names), ',')
  {
    forall i | 0 <= i < |names| ensures Tidy(Shown(names[i])) { assert Tidy(names[i]); }
  }

  /** The comma key's name is a comma, and it is stored like any other: it disappears, the names behind it
      move up, and the last one is lost. */
  lemma CommaStep(spec: string, step: nat)
    requires step < BUTTONS
    ensures var before, p := Parse(spec, BUTTONS), Position(step);
            Parse(CaptureStep(spec, step, ","), BUTTONS) == AllShown(before[..p]) + AllShown(before[p + 1..]) + [""]
  {
    var before, p := Parse(spec, BUTTONS), Position(step);
    var names := before[p := ","];
    ParseIsTidy(spec, BUTTONS);
    EightFit(names);
    var pre, post := AllShown(before[..p]), AllShown(before[p + 1..]);
    ShownNames(before[..p]);
    ShownNames(before[p + 1..]);
    SplitComma(names, p, pre, post);
    NamesSkip(pre, ["", ""], post, BUTTONS);
  }

  lemma NoneHasAppend(a: seq<string>, b: seq<string>, c: char)
    requires NoneHas(a, c) && NoneHas(b, c)
    ensures NoneHas(a + b, c)
  {
    forall i | 0 <= i < |a + b| ensures c !in (a + b)[i] {
      if i < |a| {
        assert c !in a[i];
      } else {
        assert c !in b[i - |a|];
      }
    }
  }

  /** The pieces of a text in which a comma stands for a name before the last. */
  lemma SplitInner(pre: seq<string>, post: seq<string>, last: string)
    requires NoneHas(pre, ',') && NoneHas(post, ',') && ',' !in last
    ensures Split(Line(pre + [","] + post, ',', last), ',') == pre + ["", ""] + (post + [last])
  {
    CommaIsTwoPieces(pre, post, last);
    var pieces := pre + ["", ""] + post;
    NoneHasAppend(pre, ["", ""], ',');
    NoneHasAppend(pre + ["", ""], post, ',');
    SplitLine(pieces, ',', last);
    SplitWhole(last, ',');
    assert pieces + [last] == pre + ["", ""] + (post + [last]);
  }

  /** ... and for the last. */
  lemma SplitOuter(pre: seq<string>)
    requires NoneHas(pre, ',')
    ensures Split(Line(pre, ',', ","), ',') == pre + ["", ""]
  {
    CommaIsTwoPieces(pre, [], "");
    NoneHasAppend(pre, [""], ',');
    SplitLine(pre + [""], ',', "");
    SplitWhole("", ',');
    assert (pre + [""]) + [""] == pre + ["", ""];
  }

  lemma ShownAround(names: seq<string>, p: nat, n: nat)
    requires p < n < |names| && names[p] == ","
    ensures AllShown(names[..n]) == AllShown(names[..p]) + [","] + AllShown(names[p + 1..n])
    ensures AllShown(names[p + 1..n + 1]) == AllShown(names[p + 1..n]) + [Shown(names[n])]
  {
  }

  /** A comma among the names leaves two empty pieces in its place. */
  lemma SplitComma(names: seq<string>, p: nat, pre: seq<string>, post: seq<string>)
    requires p < |names| && names[p] == ","
    requires pre == AllShown(names[..p]) && post == AllShown(names[p + 1..]) && NoneHas(pre, ',') && NoneHas(post, ',')
    ensures Split(Joined(names), ',') == pre + ["", ""] + post
  {
    var n := |names| - 1;
    if p < n {
      var most, last := AllShown(names[p + 1..n]), Shown(names[n]);
      ShownAround(names, p, n);
      assert names[p + 1..n + 1] == names[p + 1..] && post == most + [last];
      NoneHasPrefix(post, most, last);
      SplitInner(pre, most, last);
    } else {
      assert names[..n] == names[..p] && post == [];
      SplitOuter(pre);
      assert pre + ["", ""] + post == pre + ["", ""];
    }
  }

  lemma NoneHasPrefix(all: seq<string>, most: seq<string>, last: string)
    requires all == most + [last] && NoneHas(all, ',')
    ensures NoneHas(most, ',') && ',' !in last
  {
    assert ',' !in all[|most|];
    forall i | 0 <= i < |most| ensures ',' !in most[i] { assert ',' !in all[i]; }
  }

  lemma {:induction false} CapturedSoFar(spec: string, names: seq<string>, k: nat)
    requires |names| == BUTTONS && k <= BUTTONS && forall i | 0 <= i < k :: Nameable(names[i]) && Tidy(names[i])
    ensures forall j | 0 <= j < k :: Parse(Captured(spec, names, k), BUTTONS)[Position(j)] == names[j]
  {
    if k > 0 {
      var before := Captured(spec, names, k - 1);
      CapturedSoFar(spec, names, k - 1);
      StepKeeps(before, k - 1, names[k - 1]);
      forall j | 0 <= j < k ensures Parse(CaptureStep(before, k - 1, names[k - 1]), BUTTONS)[Position(j)] == names[j] {
        assert j < k - 1 ==> Position(j) != Position(k - 1);
      }
    }
  }

  /** The captured names, each at its place. */
  function Filled(names: seq<string>): (r: seq<string>)
    requires |names| == BUTTONS
    ensures |r| == BUTTONS && forall j | 0 <= j < BUTTONS :: r[Position(j)] == names[j]
  {
    names[4..] + names[..4]
  }

  /** Eight captures one after the other end in the spec of the eight names, whatever was there before; and
      they are read back exactly when each is a name that a spec can hold. */
  lemma IncrementalEqualsOneShot(spec: string, names: seq<string>)
    requires |names| == BUTTONS && forall i | 0 <= i < BUTTONS :: Nameable(names[i])
    ensures AllTidy(names) ==> Captured(spec, names, BUTTONS) == Print(Filled(names))
    ensures Parse(Captured(spec, names, BUTTONS), BUTTONS) == Filled(names) <==> AllTidy(names)
  {
    if AllTidy(names) {
      TidyOneShot(spec, names);
    }
    ParseIsTidy(Captured(spec, names, BUTTONS), BUTTONS);
    assert AllTidy(Filled(names)) ==> AllTidy(names) by {
      forall j | 0 <= j < BUTTONS && AllTidy(Filled(names)) ensures Tidy(names[j]) { assert Tidy(Filled(names)[Position(j)]); }
    }
  }

  lemma TidyOneShot(spec: string, names: seq<string>)
    requires |names| == BUTTONS && AllTidy(names) && forall i | 0 <= i < BUTTONS :: Nameable(names[i])
    ensures Captured(spec, names, BUTTONS) == Print(Filled(names))
    ensures Parse(Captured(spec, names, BUTTONS), BUTTONS) == Filled(names)
  {
    var last := BUTTONS - 1;
    CapturedSoFar(spec, names, last);
    AtPositions(Parse(Captured(spec, names, last), BUTTONS)[Position(last) := names[last]], names);
    CapturedSoFar(spec, names, BUTTONS);
    AtPositions(Parse(Captured(spec, names, BUTTONS), BUTTONS), names);
  }

  /** The eight places determine the eight names. */
  lemma AtPositions(all: seq<string>, names: seq<string>)
    requires |all| == |names| == BUTTONS && forall j | 0 <= j < BUTTONS :: all[Position(j)] == names[j]
    ensures all == Filled(names)
  {
    forall i | 0 <= i < BUTTONS ensures all[i] == Filled(names)[i] {
      var j := if i < 4 then i + 4 else i - 4;
      assert Position(j) == i;
    }
  }

  // ---------------------------------------------------------------- the N64 controllers

  /** B is presented before A. */
  function N64Position(step: nat): nat { if step == 6 then 7 else if step == 7 then 6 else step }

  function N64Filled(names: seq<string>): (r: seq<string>)
    requires |names| == N64_BUTTONS
    ensures |r| == N64_BUTTONS && forall j | 0 <= j < N64_BUTTONS :: r[N64Position(j)] == names[j]
  {
    names[6 := names[7]][7 := names[6]]
  }

  // ---------------------------------------------------------------- the key editor

  datatype Target = Idle | Slot1 | Slot2 | Pad(controller: nat) | Aliases

  const ALIASES := 6

  class KeyEditor {
    /** The key a name stands for, 0 when there is none; and which keys the client keeps for itself. */
    const code: string -> int
    const reserved: int -> bool
    var slot1: string
    var slot2: string
    var pads: seq<string>
    var aliases: seq<string>
    var target: Target
    var step: nat
    var padNames: seq<string>
    var saves: nat

    predicate Valid()
      reads this
    {
      && |pads| == 4 && |aliases| == ALIASES && |padNames| == N64_BUTTONS
      && (target.Slot1? || target.Slot2? ==> step < BUTTONS)
      && (target.Pad? ==> step < N64_BUTTONS && target.controller < 4)
      && (target.Aliases? ==> step < ALIASES)
    }

    constructor (code: string -> int, reserved: int -> bool, slot1: string, slot2: string, pads: seq<string>, aliases: seq<string>)
      requires |pads| == 4 && |aliases| == ALIASES
      ensures Valid() && target == Idle && saves == 0
      ensures this.code == code && this.reserved == reserved && this.slot1 == slot1 && this.slot2 == slot2
      ensures this.pads == pads && this.aliases == aliases
    {
      this.code, this.reserved, this.slot1, this.slot2, this.pads, this.aliases := code, reserved, slot1, slot2, pads, aliases;
      target, step, saves := Idle, 0, 0;
      padNames := seq(N64_BUTTONS, _ => "");
    }

    method BeginCapture(t: Target)
      requires Valid() && (t.Pad? ==> t.controller < 4)
      modifies `target, `step, `padNames
      ensures Valid() && target == t && step == 0
      ensures t.Pad? ==> padNames == Parse(pads[t.controller], N64_BUTTONS)
      ensures !t.Pad? ==> padNames == old(padNames)
    {
      target, step := t, 0;
      if t.Pad? {
        padNames := KeySpecToNames(pads[t.controller], N64_BUTTONS);
      }
    }

    /** The next step, or the end of the capture, when the configuration is saved. */
    method Advance(steps: nat)
      requires step < steps
      modifies `target, `step, `saves
      ensures if old(step) + 1 == steps then target == Idle && step == 0 && saves == old(saves) + 1
              else target == old(target) && step == old(step) + 1 && saves == old(saves)
    {
      step := step + 1;
      if step >= steps {
        target, step, saves := Idle, 0, saves + 1;
      }
    }

    // -------------------------------------------------------------- one captured name

    method ApplyToSlot(name: string)
      requires Valid() && (target.Slot1? || target.Slot2?)
      modifies `slot1, `slot2, `target, `step, `saves
      ensures Valid() && (target == old(target) || target == Idle)
      ensures old(target).Slot1? ==> slot1 == CaptureStep(old(slot1), old(step), Fit(name, NAME)) && slot2 == old(slot2)
      ensures old(target).Slot2? ==> slot2 == CaptureStep(old(slot2), old(step), Fit(name, NAME)) && slot1 == old(slot1)
      ensures if old(step) + 1 == BUTTONS then target == Idle && saves == old(saves) + 1
              else target == old(target) && step == old(step) + 1 && saves == old(saves)
    {
      var names := KeySpecToNames(if target.Slot1? then slot1 else slot2, BUTTONS);
      names := names[Position(step) := Fit(name, NAME)];
      var spec := KeyNamesToSpec(names);
      if target.Slot1? { slot1 := spec; } else { slot2 := spec; }
      Advance(BUTTONS);
    }

    method ApplyToPad(name: string)
      requires Valid() && target.Pad?
      modifies `pads, `padNames, `target, `step, `saves
      ensures Valid() && padNames == old(padNames)[N64Position(old(step)) := Fit(name, NAME)]
      ensures if old(step) + 1 == N64_BUTTONS
              then target == Idle && saves == old(saves) + 1 && pads == old(pads)[old(target).controller := Print(padNames)]
              else target == old(target) && step == old(step) + 1 && saves == old(saves) && pads == old(pads)
    {
      padNames := padNames[N64Position(step) := Fit(name, NAME)];
      if step + 1 == N64_BUTTONS {
        var spec := KeyNamesToSpec(padNames);
        pads := pads[target.controller := spec];
      }
      Advance(N64_BUTTONS);
    }

    /** Two different aliases that are both set stand for different keys. */
    predicate Apart(i: nat, j: nat)
      requires i < |aliases| && j < |aliases|
      reads `aliases
    {
      i != j && aliases[i] != "" && aliases[j] != "" ==> code(aliases[i]) != code(aliases[j])
    }

    /** The first k aliases stand for known keys the client does not keep, different from all others. */
    ghost predicate GoodUpTo(k: nat)
      requires k <= ALIASES == |aliases|
      reads `aliases
    {
      && (forall i | 0 <= i < k :: aliases[i] != "" && code(aliases[i]) != 0 && !reserved(code(aliases[i])))
      && (forall i, j {:trigger Apart(i, j)} | 0 <= i < k && 0 <= j < ALIASES :: Apart(i, j))
    }

    /** No two aliases that are set stand for the same key. */
    ghost predicate AllApart()
      requires |aliases| == ALIASES
      reads `aliases
    {
      forall i, j {:trigger Apart(i, j)} | 0 <= i < ALIASES && 0 <= j < ALIASES :: Apart(i, j)
    }

    /** A key that is unknown, kept, or used by another alias is refused; otherwise the alias is set. */
    method ApplyToAlias(name: string) returns (taken: bool)
      requires Valid() && target.Aliases? && Fit(name, NAME) != ""
      modifies `aliases, `target, `step, `saves
      ensures Valid()
      ensures taken <==>
                && code(Fit(name, NAME)) != 0 && !reserved(code(Fit(name, NAME)))
                && forall i | 0 <= i < ALIASES && i != old(step) && old(aliases)[i] != "" :: code(old(aliases)[i]) != code(Fit(name, NAME))
      ensures !taken ==> aliases == old(aliases) && target == old(target) && step == old(step) && saves == old(saves)
      ensures taken ==> aliases == old(aliases)[old(step) := Fit(name, NAME)]
      ensures taken ==> if old(step) + 1 == ALIASES then target == Idle && saves == old(saves) + 1
                        else target == old(target) && step == old(step) + 1 && saves == old(saves)
      // what was good stays good, and the captured one becomes so
      ensures forall k: nat | k <= ALIASES && old(GoodUpTo(k)) :: GoodUpTo(k)
      ensures taken && old(GoodUpTo(step)) ==> GoodUpTo(old(step) + 1)
      ensures old(AllApart()) ==> AllApart()
    {
      var key := Fit(name, NAME);
      if code(key) == 0 || reserved(code(key)) { return false; }
      var i := 0;
      while i < ALIASES
        invariant 0 <= i <= ALIASES
        invariant forall j | 0 <= j < i && j != step && aliases[j] != "" :: code(aliases[j]) != code(key)
      {
        if i != step && aliases[i] != "" && code(aliases[i]) == code(key) { return false; }
        i := i + 1;
      }
      aliases := aliases[step := key];
      Advance(ALIASES);
      taken := true;
      forall k: nat | k <= ALIASES && (old(GoodUpTo(k)) || (k == old(step) + 1 && old(GoodUpTo(step)))) ensures GoodUpTo(k) {
        forall i, j | 0 <= i < k && 0 <= j < ALIASES ensures Apart(i, j) {
          assert i != old(step) ==> old(Apart(i, j));
        }
      }
      forall i, j | 0 <= i < ALIASES && 0 <= j < ALIASES && old(AllApart()) ensures Apart(i, j) {
        assert old(Apart(i, j));
      }
    }

    /** What a pressed key does: an unknown one nothing. */
    method ApplyCaptured(name: string)
      requires Valid() && !target.Idle? && Fit(name, NAME) != ""
      modifies this
      ensures Valid()
      ensures Fit(name, NAME) == "UNKNOWN" ==>
                && slot1 == old(slot1) && slot2 == old(slot2) && pads == old(pads) && aliases == old(aliases)
                && target == old(target) && step == old(step) && saves == old(saves)
      ensures Fit(name, NAME) != "UNKNOWN" && old(target).Slot1? ==>
                && slot1 == CaptureStep(old(slot1), old(step), Fit(name, NAME))
                && (if old(step) + 1 == BUTTONS then target == Idle && saves == old(saves) + 1
                    else target == old(target) && step == old(step) + 1 && saves == old(saves))
      ensures Fit(name, NAME) != "UNKNOWN" && old(target).Slot2? ==>
                && slot2 == CaptureStep(old(slot2), old(step), Fit(name, NAME))
                && (if old(step) + 1 == BUTTONS then target == Idle && saves == old(saves) + 1
                    else target == old(target) && step == old(step) + 1 && saves == old(saves))
      // only what is being captured changes
      ensures !old(target).Slot1? ==> slot1 == old(slot1)
      ensures !old(target).Slot2? ==> slot2 == old(slot2)
      ensures !old(target).Pad? ==> pads == old(pads)
      ensures !old(target).Aliases? ==> aliases == old(aliases)
    {
      if Fit(name, NAME) == "UNKNOWN" { return; }
      if target.Aliases? {
        var taken := ApplyToAlias(name);
      } else if target.Pad? {
        ApplyToPad(name);
      } else {
        ApplyToSlot(name);
      }
    }

    // -------------------------------------------------------------- whole captures

    /** The spec that belongs to a slot. */
    function SpecOf(t: Target): string
      reads `slot1, `slot2
    {
      if t.Slot1? then slot1 else slot2
    }

    /** All eight buttons of a slot, one after the other. */
    method CaptureSlot(t: Target, names: seq<string>)
      requires Valid() && (t.Slot1? || t.Slot2?)
      requires |names| == BUTTONS && forall i | 0 <= i < BUTTONS :: Nameable(names[i]) && names[i] != "UNKNOWN"
      modifies this
      ensures Valid() && SpecOf(t) == Captured(old(SpecOf(t)), names, BUTTONS)
      ensures AllTidy(names) ==> SpecOf(t) == Print(Filled(names))
      ensures Parse(SpecOf(t), BUTTONS) == Filled(names) <==> AllTidy(names)
      ensures t.Slot1? ==> slot2 == old(slot2)
      ensures t.Slot2? ==> slot1 == old(slot1)
      ensures pads == old(pads) && aliases == old(aliases) && saves == old(saves) + 1
    {
      BeginCapture(t);
      var k := 0;
      while k < BUTTONS
        invariant 0 <= k <= BUTTONS && Valid() && SpecOf(t) == Captured(old(SpecOf(t)), names, k)
        invariant if k < BUTTONS then target == t && step == k && saves == old(saves) else saves == old(saves) + 1
        invariant (t.Slot1? ==> slot2 == old(slot2)) && (t.Slot2? ==> slot1 == old(slot1))
        invariant pads == old(pads) && aliases == old(aliases)
      {
        PressOnSlot(t, names[k]);
        k := k + 1;
      }
      IncrementalEqualsOneShot(old(SpecOf(t)), names);
    }

    /** A known key, while a slot is being captured. */
    method PressOnSlot(t: Target, name: string)
      requires Valid() && target == t && (t.Slot1? || t.Slot2?) && Nameable(name) && name != "UNKNOWN"
      modifies this
      ensures Valid() && SpecOf(t) == CaptureStep(old(SpecOf(t)), old(step), name)
      ensures if old(step) + 1 == BUTTONS then saves == old(saves) + 1
              else target == t && step == old(step) + 1 && saves == old(saves)
      ensures (t.Slot1? ==> slot2 == old(slot2)) && (t.Slot2? ==> slot1 == old(slot1))
      ensures pads == old(pads) && aliases == old(aliases)
    {
      ApplyCaptured(name);
    }

    /** All eighteen inputs of one controller; the spec is written at the end. */
    method CapturePad(controller: nat, names: seq<string>)
      requires Valid() && controller < 4
      requires |names| == N64_BUTTONS && forall i | 0 <= i < N64_BUTTONS :: Nameable(names[i]) && names[i] != "UNKNOWN"
      modifies this
      ensures Valid() && pads == old(pads)[controller := Print(N64Filled(names))]
      // what is read back is what was captured exactly when the names fit and a spec can hold each of them
      ensures Parse(pads[controller], N64_BUTTONS) == N64Filled(names) <==> AllTidy(names) && |Joined(N64Filled(names))| < SPEC
      ensures slot1 == old(slot1) && slot2 == old(slot2) && aliases == old(aliases) && saves == old(saves) + 1
    {
      BeginCapture(Target.Pad(controller));
      var k := 0;
      while k < N64_BUTTONS
        invariant 0 <= k <= N64_BUTTONS && Valid()
        invariant forall j | 0 <= j < k :: padNames[N64Position(j)] == names[j]
        invariant if k < N64_BUTTONS then target == Target.Pad(controller) && step == k && saves == old(saves) && pads == old(pads)
                  else saves == old(saves) + 1 && pads == old(pads)[controller := Print(padNames)]
        invariant slot1 == old(slot1) && slot2 == old(slot2) && aliases == old(aliases)
      {
        ApplyToPad(names[k]);
        k := k + 1;
      }
      assert padNames == N64Filled(names) by {
        forall i | 0 <= i < N64_BUTTONS ensures padNames[i] == N64Filled(names)[i] {
          assert N64Position(N64Position(i)) == i;
        }
      }
      PadReadBack(names);
    }

    /** Any number of presses: once the capture has finished, all six aliases are known keys, none of
        them kept by the client, and no two the same, whatever they were before. */
    method CaptureAliases(presses: seq<string>)
      requires Valid() && forall i | 0 <= i < |presses| :: Fit(presses[i], NAME) != ""
      modifies this
      ensures Valid() && (target.Idle? ==> GoodUpTo(ALIASES))
      // aliases that were different stay so, also when the capture is left unfinished
      ensures old(AllApart()) ==> AllApart()
      ensures slot1 == old(slot1) && slot2 == old(slot2) && pads == old(pads)
    {
      BeginCapture(Target.Aliases);
      var i := 0;
      while i < |presses| && !target.Idle?
        invariant 0 <= i <= |presses| && Valid() && (target.Idle? || target.Aliases?)
        invariant GoodUpTo(if target.Idle? then ALIASES else step)
        invariant old(AllApart()) ==> AllApart()
        invariant slot1 == old(slot1) && slot2 == old(slot2) && pads == old(pads)
      {
        if Fit(presses[i], NAME) != "UNKNOWN" {
          var taken := ApplyToAlias(presses[i]);
        }
        i := i + 1;
      }
    }
  }

  lemma PadReadBack(names: seq<string>)
    requires |names| == N64_BUTTONS && forall i | 0 <= i < N64_BUTTONS :: Nameable(names[i])
    ensures Parse(Print(N64Filled(names)), N64_BUTTONS) == N64Filled(names) <==> AllTidy(names) && |Joined(N64Filled(names))| < SPEC
  {
    var filled := N64Filled(names);
    forall i | 0 <= i < N64_BUTTONS ensures Nameable(filled[i]) && (AllTidy(names) ==> Tidy(filled[i])) {
      assert Nameable(names[N64Position(i)]);
      assert AllTidy(names) ==> Tidy(names[N64Position(i)]);
    }
    forall i | 0 <= i < N64_BUTTONS && AllTidy(filled) ensures Tidy(names[i]) { assert Tidy(filled[N64Position(i)]); }
    FoundIffFit(filled);
  }
}

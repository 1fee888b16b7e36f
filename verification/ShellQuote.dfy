/** Quoting a path for a POSIX shell. */
module ShellQuote {
  import opened Options

  const QUOTE := '\''
  const ESCAPED := "'\\''"

  /** The quoted path without the quotes around it: a quote closes, is escaped, and opens again. */
  function Body(path: string): string {
    if path == "" then "" else (if path[0] == QUOTE then ESCAPED else [path[0]]) + Body(path[1..])
  }

  function Quoted(path: string): string { [QUOTE] + Body(path) + [QUOTE] }

  // ---------------------------------------------------------------- what a shell reads

  /** Characters that end a word or mean something else outside quotes. */
  predicate Special(c: char) {
    c in "|&;<>()$`\"*?[#~=% \t\n"
  }

  /** Outside quotes (section 2.2.1 of the POSIX.1-2017 Shell Command Language): a backslash makes the next
      character literal.  None when the text is not one complete plain word. */
  function Unquoted(s: string): Option<string>
    decreases |s|
  {
    if s == "" then Some("")
    else if s[0] == QUOTE then Single(s[1..])
    else if s[0] == '\\' then
      if |s| < 2 then None
      else if s[1] == '\n' then Unquoted(s[2..])
      else Literal(s[1], Unquoted(s[2..]))
    else if Special(s[0]) then None
    else Literal(s[0], Unquoted(s[1..]))
  }

  /** Inside single quotes (section 2.2.2): everything up to the next quote is literal. */
  function Single(s: string): Option<string>
    decreases |s|
  {
    if s == "" then None
    else if s[0] == QUOTE then Unquoted(s[1..])
    else Literal(s[0], Single(s[1..]))
  }

  function Literal(c: char, rest: Option<string>): Option<string> {
    if rest.None? then None else Some([c] + rest.value)
  }

  lemma {:induction false} BodyReads(path: string)
    ensures Single(Body(path) + [QUOTE]) == Some(path)
  {
    if path == "" {
      assert Body(path) + [QUOTE] == [QUOTE];
    } else {
      var rest := Body(path[1..]) + [QUOTE];
      BodyReads(path[1..]);
      assert path == [path[0]] + path[1..];
      if path[0] == QUOTE {
        EscapedReads(rest);
        assert Body(path) + [QUOTE] == ESCAPED + rest;
      } else {
        assert Body(path) + [QUOTE] == [path[0]] + rest;
      }
    }
  }

  lemma EscapedReads(rest: string)
    ensures Single(ESCAPED + rest) == Literal(QUOTE, Single(rest))
  {
    var a := ESCAPED + rest;
    var b := a[1..];
    assert b == "\\''" + rest;
    var c := b[2..];
    assert c == [QUOTE] + rest && c[1..] == rest;
    assert Unquoted(c) == Single(rest);
    assert Unquoted(b) == Literal(QUOTE, Unquoted(c));
  }

  /** A shell reads the quoted path as one word, which is the path, whatever characters it has. */
  lemma QuotedReadsAsPath(path: string)
    ensures Unquoted(Quoted(path)) == Some(path)
  {
    BodyReads(path);
    assert Quoted(path)[1..] == Body(path) + [QUOTE];
  }

  /** So no two paths are quoted alike. */
  lemma QuotedIsInjective(p: string, q: string)
    requires Quoted(p) == Quoted(q)
    ensures p == q
  {
    QuotedReadsAsPath(p);
    QuotedReadsAsPath(q);
  }

  // ---------------------------------------------------------------- filling the buffer

  lemma {:induction false} BodyAppend(p: string, c: char)
    ensures Body(p + [c]) == Body(p) + if c == QUOTE then ESCAPED else [c]
  {
    if p == "" {
      assert p + [c] == [c] && [c][1..] == "";
    } else {
      assert (p + [c])[1..] == p[1..] + [c];
      BodyAppend(p[1..], c);
    }
  }

  lemma {:induction false} BodyGrows(path: string, i: nat)
    requires i <= |path|
    ensures |Body(path[..i])| + |path| - i <= |Body(path)|
    decreases |path| - i
  {
    if i == |path| {
      assert path[..i] == path;
    } else {
      assert path[..i + 1] == path[..i] + [path[i]];
      BodyAppend(path[..i], path[i]);
      BodyGrows(path, i + 1);
    }
  }

  /** The one family of inputs for which the terminator lands behind the buffer: the check before a plain
      character leaves room for that character and one more, while a quote and the terminator are to come. */
  predicate Overruns(path: string, size: nat) {
    |Quoted(path)| == size && path != "" && path[|path| - 1] != QUOTE
  }

  lemma {:induction false} BodyOfPlain(path: string)
    requires QUOTE !in path
    ensures Body(path) == path
  {
    if path != "" {
      assert path == [path[0]] + path[1..];
      BodyOfPlain(path[1..]);
    }
  }

  /** Every plain path two characters shorter than the buffer is in that family: "ab" for a buffer of four,
      and all plain paths of 638 characters for the 640 characters that the caller has. */
  lemma PlainOverruns(path: string)
    requires QUOTE !in path && path != ""
    ensures Overruns(path, |path| + 2)
  {
    BodyOfPlain(path);
  }

  /** Nothing from there on was touched. */
  twostate predicate Untouched(memory: array<char>, from: nat)
    reads memory
  {
    forall j | from <= j < memory.Length :: memory[j] == old(memory[j])
  }

  /** Store a text at the cursor. */
  method Store(memory: array<char>, used: nat, text: string) returns (after: nat)
    requires used + |text| <= memory.Length
    modifies memory
    ensures after == used + |text| && Untouched(memory, after)
    ensures memory[..after] == old(memory[..used]) + text
  {
    var i := 0;
    while i < |text|
      invariant 0 <= i <= |text| && memory[..used + i] == old(memory[..used]) + text[..i]
      invariant Untouched(memory, used + i)
    {
      memory[used + i] := text[i];
      i := i + 1;
    }
    assert text[..i] == text;
    after := used + |text|;
  }

  /** What the quoted path takes up, once every character but the last was taken with room to spare. */
  lemma Room(path: string, size: nat, i: nat)
    requires i < |path|
    ensures path[i] == QUOTE && 1 + |Body(path[..i])| + 6 > size ==> |Quoted(path)| >= size && !Overruns(path, size)
    ensures path[i] != QUOTE && 1 + |Body(path[..i])| + 2 > size ==> |Quoted(path)| > size
  {
    assert path[..i + 1] == path[..i] + [path[i]];
    BodyAppend(path[..i], path[i]);
    BodyGrows(path, i + 1);
  }

  /** The loop over the characters; ok says that every check was passed. */
  method StoreBody(path: string, memory: array<char>, size: nat) returns (ok: bool, used: nat)
    requires 3 <= size < memory.Length && memory[..1] == [QUOTE]
    modifies memory
    ensures 1 <= used <= size && Untouched(memory, used)
    ensures ok ==> used == 1 + |Body(path)| && memory[..used] == [QUOTE] + Body(path)
    ensures ok ==> if path == "" then used == 1 else if path[|path| - 1] == QUOTE then used + 2 <= size else used + 1 <= size
    ensures !ok ==> |Quoted(path)| >= size && !Overruns(path, size)
  {
    used := 1;
    var i := 0;
    while i < |path|
      invariant 0 <= i <= |path| && used == 1 + |Body(path[..i])| <= size && Untouched(memory, used)
      invariant memory[..used] == [QUOTE] + Body(path[..i])
      invariant if i == 0 then used == 1 else if path[i - 1] == QUOTE then used + 2 <= size else used + 1 <= size
    {
      Room(path, size, i);
      assert path[..i + 1] == path[..i] + [path[i]];
      BodyAppend(path[..i], path[i]);
      if path[i] == QUOTE {
        if used + 4 + 2 > size { return false, used; }
        used := Store(memory, used, ESCAPED);
      } else {
        if used + 2 > size { return false, used; }
        used := Store(memory, used, [path[i]]);
      }
      i := i + 1;
    }
    assert path[..i] == path;
    ok := true;
  }

  /** Quote the path into the buffer, which is the first size characters of the memory; stored is how many
      characters were stored from its start.  All stores stay inside the buffer exactly when the path is
      not of the family above, and then the answer says whether path and terminator fit. */
  method ShellQuotePath(path: string, memory: array<char>, size: nat) returns (ok: bool, stored: nat)
    requires size < memory.Length
    modifies memory
    ensures stored <= size <==> !Overruns(path, size)
    ensures stored <= size ==> (ok <==> |Quoted(path)| < size)
    ensures stored > size ==> ok && stored == size + 1
    ensures ok ==> stored == |Quoted(path)| + 1 && memory[..stored] == Quoted(path) + ['\0']
    ensures stored <= memory.Length && Untouched(memory, stored)
  {
    stored := 0;
    if size < 3 {
      BodyGrows(path, 0);
      return false, 0;
    }
    var used := Store(memory, 0, [QUOTE]);
    ok, used := StoreBody(path, memory, size);
    if !ok { return false, used; }
    used := Store(memory, used, [QUOTE]);
    stored := Store(memory, used, ['\0']);
  }
}

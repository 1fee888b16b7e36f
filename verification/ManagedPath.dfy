/** Which recorded paths may be touched: plain relative paths below runtime/. */
module ManagedPath {
  import opened Options
  import opened Texts

  const PREFIX := "runtime/"

  predicate Plain(component: string) { component != "" && component != "." && component != ".." }

  predicate AllPlain(components: seq<string>) {
    forall i {:trigger components[i]} | 0 <= i < |components| :: Plain(components[i])
  }

  /** The components of a path below the runtime directory. */
  function Components(path: string): seq<string>
    requires PREFIX <= path
  {
    Split(path[|PREFIX|..], '/')
  }

  predicate Managed(path: string) { PREFIX <= path && AllPlain(Components(path)) }

  /** Every component from position p on is plain. */
  predicate PlainFrom(path: string, p: nat)
    requires p <= |path|
    decreases |path| - p
  {
    var end := Find(path, '/', p);
    Plain(path[p..end]) && (end < |path| ==> PlainFrom(path, end + 1))
  }

  lemma PlainStep(path: string, p: nat, end: nat)
    requires p <= |path| && end == Find(path, '/', p) && end < |path|
    ensures PlainFrom(path, p) <==> Plain(path[p..end]) && PlainFrom(path, end + 1)
  {
  }

  lemma PlainLast(path: string, p: nat)
    requires p <= |path| == Find(path, '/', p)
    ensures PlainFrom(path, p) <==> Plain(path[p..])
  {
    assert path[p..|path|] == path[p..];
  }

  lemma {:induction false} PlainFromSplits(path: string, p: nat)
    requires p <= |path|
    ensures PlainFrom(path, p) <==> AllPlain(Split(path[p..], '/'))
    decreases |path| - p
  {
    var end := Find(path, '/', p);
    SplitAt(path, '/', p, end);
    if end == |path| {
      PlainLast(path, p);
      PlainAlone(path[p..]);
    } else {
      PlainStep(path, p, end);
      PlainFromSplits(path, end + 1);
      FirstAndRest(path[p..end], Split(path[end + 1..], '/'));
    }
  }

  lemma PlainAlone(component: string)
    ensures AllPlain([component]) <==> Plain(component)
  {
    assert [component][0] == component;
  }

  lemma ManagedIsPlainFrom(path: string)
    requires PREFIX <= path
    ensures Managed(path) <==> PlainFrom(path, |PREFIX|)
  {
    PlainFromSplits(path, |PREFIX|);
  }

  lemma PlainTest(path: string, p: nat, end: nat)
    requires p <= end <= |path|
    ensures Plain(path[p..end]) <==>
              !(end == p || (end == p + 1 && path[p] == '.') || (end == p + 2 && path[p] == '.' && path[p + 1] == '.'))
  {
    var c := path[p..end];
    if end == p + 1 {
      assert c == [path[p]];
    } else if end == p + 2 {
      assert c == [path[p], path[p + 1]];
    }
  }

  method ManagedRuntimeFilePath(path: string) returns (managed: bool)
    ensures managed == Managed(path)
  {
    if !(PREFIX <= path) { return false; }
    ManagedIsPlainFrom(path);
    managed := ScanComponents(path, |PREFIX|);
  }

  /** The scan from component to component. */
  method ScanComponents(path: string, start: nat) returns (plain: bool)
    requires start <= |path|
    ensures plain == PlainFrom(path, start)
  {
    var p := start;
    while p < |path|
      invariant p <= |path| && PlainFrom(path, start) == PlainFrom(path, p)
    {
      var end := Find(path, '/', p);
      PlainTest(path, p, end);
      if end == p || (end == p + 1 && path[p] == '.') || (end == p + 2 && path[p] == '.' && path[p + 1] == '.') {
        return false;
      }
      if end == |path| {
        return true;
      }
      p := end + 1;
    }
    plain := false;
  }

  lemma FirstAndRest(first: string, rest: seq<string>)
    ensures AllPlain([first] + rest) <==> Plain(first) && AllPlain(rest)
  {
    var all := [first] + rest;
    assert all[0] == first;
    assert forall i | 0 <= i < |rest| :: all[i + 1] == rest[i];
  }

  /** Where a relative path leads, seen from the runtime directory; None when it leaves it. */
  function Resolve(inside: seq<string>, components: seq<string>): Option<seq<string>>
    decreases |components|
  {
    if components == [] then Some(inside)
    else if components[0] == "" || components[0] == "." then Resolve(inside, components[1..])
    else if components[0] == ".." then
      if inside == [] then None else Resolve(inside[..|inside| - 1], components[1..])
    else Resolve(inside + [components[0]], components[1..])
  }

  lemma {:induction false} ResolveLength(inside: seq<string>, components: seq<string>)
    ensures AllPlain(components) ==> Resolve(inside, components) == Some(inside + components)
    ensures !AllPlain(components) && Resolve(inside, components).Some? ==>
              |Resolve(inside, components).value| < |inside| + |components|
    ensures Resolve(inside, components).Some? ==> |Resolve(inside, components).value| <= |inside| + |components|
    decreases |components|
  {
    if components == [] {
      assert inside + components == inside;
    } else {
      FirstAndRest(components[0], components[1..]);
      assert components == [components[0]] + components[1..];
      if components[0] == "" || components[0] == "." {
        ResolveLength(inside, components[1..]);
      } else if components[0] == ".." {
        if inside != [] { ResolveLength(inside[..|inside| - 1], components[1..]); }
      } else {
        ResolveLength(inside + [components[0]], components[1..]);
        assert inside + [components[0]] + components[1..] == inside + components;
      }
    }
  }

  /** A path is managed exactly when it stays below the runtime directory and is already resolved. */
  lemma ManagedIsResolved(path: string)
    requires PREFIX <= path
    ensures Managed(path) <==> Resolve([], Components(path)) == Some(Components(path))
  {
    ResolveLength([], Components(path));
    assert [] + Components(path) == Components(path);
  }
}

/** Cycling through the ROM slots that may be selected. */
module RomSelection {

  const SLOTS := 8

  // ---------------------------------------------------------------- candidates

  /** The slots from i on that qualify, in order. */
  function Listed(ok: seq<bool>, i: nat): (list: seq<int>)
    requires i <= |ok|
    decreases |ok| - i
  {
    if i == |ok| then [] else (if ok[i] then [i] else []) + Listed(ok, i + 1)
  }

  predicate Increasing(list: seq<int>) { forall j, k | 0 <= j < k < |list| :: list[j] < list[k] }

  lemma {:induction false} InListed(ok: seq<bool>, i: nat, x: int)
    requires i <= |ok|
    ensures x in Listed(ok, i) <==> i <= x < |ok| && ok[x]
    decreases |ok| - i
  {
    if i < |ok| { InListed(ok, i + 1, x); }
  }

  lemma {:induction false} ListedIncreasing(ok: seq<bool>, i: nat)
    requires i <= |ok|
    ensures Increasing(Listed(ok, i))
    decreases |ok| - i
  {
    if i < |ok| {
      ListedIncreasing(ok, i + 1);
      var rest := Listed(ok, i + 1);
      forall k | 0 <= k < |rest| ensures i < rest[k] { InListed(ok, i + 1, rest[k]); }
    }
  }

  /** Exactly the qualifying slots, each once. */
  lemma ListedExactly(ok: seq<bool>, i: nat)
    requires i <= |ok|
    ensures Increasing(Listed(ok, i))
    ensures forall x :: x in Listed(ok, i) <==> i <= x < |ok| && ok[x]
  {
    ListedIncreasing(ok, i);
    forall x ensures x in Listed(ok, i) <==> i <= x < |ok| && ok[x] { InListed(ok, i, x); }
  }

  method Collect(ok: seq<bool>) returns (list: seq<int>)
    ensures list == Listed(ok, 0)
  {
    list := [];
    var i := 0;
    while i < |ok|
      invariant 0 <= i <= |ok| && Listed(ok, 0) == list + Listed(ok, i)
    {
      CollectStep(ok, i, list);
      if ok[i] { list := list + [i]; }
      i := i + 1;
    }
  }

  lemma CollectStep(ok: seq<bool>, i: nat, list: seq<int>)
    requires i < |ok|
    ensures list + Listed(ok, i) == (if ok[i] then list + [i] else list) + Listed(ok, i + 1)
  {
  }

  /** Where x stands in the list, -1 when it does not. */
  function IndexOf<T(==)>(list: seq<T>, x: T): (i: int)
    ensures -1 <= i < |list|
    ensures if i < 0 then x !in list else list[i] == x && x !in list[..i]
  {
    if list == [] then -1
    else if list[0] == x then 0
    else
      var i := IndexOf(list[1..], x);
      if i < 0 then -1
      else
        assert list[..i + 1] == [list[0]] + list[1..][..i];
        i + 1
  }

  lemma {:induction false} FirstIs<T>(list: seq<T>, x: T, i: nat)
    requires i < |list| && list[i] == x && x !in list[..i]
    ensures IndexOf(list, x) == i
  {
    if i > 0 {
      assert list[..i] == [list[0]] + list[1..][..i - 1];
      FirstIs(list[1..], x, i - 1);
    }
  }

  method Search<T(==)>(list: seq<T>, x: T) returns (i: int)
    ensures i == IndexOf(list, x)
  {
    var k := 0;
    while k < |list|
      invariant 0 <= k <= |list| && x !in list[..k]
    {
      if list[k] == x {
        FirstIs(list, x, k);
        return k;
      }
      k := k + 1;
    }
    assert list[..|list|] == list;
    i := -1;
  }

  // ---------------------------------------------------------------- one step

  /** One step through n places, from one end to the other. */
  function Wrap(n: nat, place: int): (r: int)
    requires n > 0
    ensures 0 <= r < n
  {
    if place < 0 then n - 1 else if place >= n then 0 else place
  }

  /** The next selection; an unlisted one goes to the first or, backwards, to the last candidate. */
  function Cycled<T(==)>(list: seq<T>, selected: T, delta: int): (r: T)
    requires list != []
    ensures r in list
  {
    var current := IndexOf(list, selected);
    var next := if current >= 0 then current + delta else if delta < 0 then |list| - 1 else 0;
    list[Wrap(|list|, next)]
  }

  /** With an empty choice first, an unlisted selection counts as the empty one. */
  function CycledOrCleared(list: seq<int>, selected: int, delta: int): (r: int)
    requires list != []
    ensures r in list
  {
    var current := IndexOf(list, selected);
    list[Wrap(|list|, (if current >= 0 then current else 0) + delta)]
  }

  // ---------------------------------------------------------------- whole rounds

  /** k steps forward. */
  function Forward(list: seq<int>, selected: int, k: nat): int
    requires list != []
    decreases k
  {
    if k == 0 then selected else Cycled(list, Forward(list, selected, k - 1), 1)
  }

  lemma IndexOfPlace(list: seq<int>, p: nat)
    requires Increasing(list) && p < |list|
    ensures IndexOf(list, list[p]) == p
  {
    assert list[p] !in list[..p] by {
      assert forall j | 0 <= j < p :: list[..p][j] < list[p];
    }
    FirstIs(list, list[p], p);
  }

  /** The place k steps after place p, for at most one round. */
  function After(n: nat, p: nat, k: nat): (r: nat)
    requires p < n && k <= n
    ensures r < n
  {
    if p + k < n then p + k else p + k - n
  }

  lemma {:induction false} ForwardLands(list: seq<int>, p: nat, k: nat)
    requires Increasing(list) && p < |list| && k <= |list|
    ensures Forward(list, list[p], k) == list[After(|list|, p, k)]
    decreases k
  {
    if k > 0 {
      ForwardLands(list, p, k - 1);
      OneForward(list, p, k - 1, Forward(list, list[p], k - 1));
    }
  }

  lemma OneForward(list: seq<int>, p: nat, k: nat, now: int)
    requires Increasing(list) && p < |list| && k < |list| && now == list[After(|list|, p, k)]
    ensures Cycled(list, now, 1) == list[After(|list|, p, k + 1)]
  {
    AfterNext(|list|, p, k);
    CycledPlace(list, After(|list|, p, k), 1);
  }

  lemma AfterNext(n: nat, p: nat, k: nat)
    requires p < n && k < n
    ensures After(n, p, k + 1) == Wrap(n, After(n, p, k) + 1)
  {
  }

  /** As many steps as there are candidates lead back, and pass every candidate exactly once. */
  lemma RoundVisitsEachOnce(list: seq<int>, p: nat, x: int)
    requires Increasing(list) && p < |list| && x in list
    ensures Forward(list, list[p], |list|) == list[p]
    ensures exists k: nat :: k < |list| && Forward(list, list[p], k) == x
    ensures forall j: nat, k: nat | j < |list| && k < |list| && Forward(list, list[p], j) == x && Forward(list, list[p], k) == x :: j == k
  {
    var q := IndexOf(list, x);
    ForwardLands(list, p, |list|);
    Reaches(list, p, q);
    forall j: nat | j < |list| && Forward(list, list[p], j) == x ensures j == Steps(|list|, p, q) {
      LandsOnce(list, p, q, j);
    }
  }

  /** How many steps lead from place p to place q. */
  function Steps(n: nat, p: nat, q: nat): (k: nat)
    requires p < n && q < n
    ensures k < n
  {
    if q >= p then q - p else n + q - p
  }

  lemma Reaches(list: seq<int>, p: nat, q: nat)
    requires Increasing(list) && p < |list| && q < |list|
    ensures Forward(list, list[p], Steps(|list|, p, q)) == list[q]
  {
    ForwardLands(list, p, Steps(|list|, p, q));
    assert After(|list|, p, Steps(|list|, p, q)) == q;
  }

  lemma LandsOnce(list: seq<int>, p: nat, q: nat, j: nat)
    requires Increasing(list) && p < |list| && q < |list| && j < |list| && Forward(list, list[p], j) == list[q]
    ensures j == Steps(|list|, p, q)
  {
    ForwardLands(list, p, j);
    IndexOfPlace(list, After(|list|, p, j));
    IndexOfPlace(list, q);
  }

  /** The transfer choices, the empty one first, form such a list too, and are cycled through alike. */
  lemma TransferChoices(ok: seq<bool>, selected: int, delta: int)
    ensures var list := [-1] + Listed(ok, 0);
            Increasing(list) && (selected in list ==> CycledOrCleared(list, selected, delta) == Cycled(list, selected, delta))
  {
    ListedIncreasing(ok, 0);
    var rest := Listed(ok, 0);
    forall k | 0 <= k < |rest| ensures rest[k] >= 0 { InListed(ok, 0, rest[k]); }
  }

  /** A step back undoes a step forward, and the other way round. */
  lemma BackUndoesForward(list: seq<int>, selected: int)
    requires Increasing(list) && selected in list
    ensures Cycled(list, Cycled(list, selected, 1), -1) == selected
    ensures Cycled(list, Cycled(list, selected, -1), 1) == selected
    ensures CycledOrCleared(list, CycledOrCleared(list, selected, 1), -1) == selected
    ensures CycledOrCleared(list, CycledOrCleared(list, selected, -1), 1) == selected
  {
    var n, p := |list|, IndexOf(list, selected);
    CycledPlace(list, p, 1);
    CycledPlace(list, p, -1);
    CycledPlace(list, Wrap(n, p + 1), -1);
    CycledPlace(list, Wrap(n, p - 1), 1);
  }

  lemma CycledPlace(list: seq<int>, p: nat, delta: int)
    requires Increasing(list) && p < |list|
    ensures Cycled(list, list[p], delta) == CycledOrCleared(list, list[p], delta) == list[Wrap(|list|, p + delta)]
  {
    IndexOfPlace(list, p);
  }

  // ---------------------------------------------------------------- selections

  /** No slot is selected twice, -1 standing for no selection. */
  predicate Distinct(indices: seq<int>) {
    forall i, j | 0 <= i < j < |indices| :: indices[i] < 0 || indices[i] != indices[j]
  }

  /** Slots that hold a Game Boy ROM and are not selected elsewhere. */
  function Free(gb: seq<bool>, indices: seq<int>, slot: nat): (ok: seq<bool>)
    requires |gb| == SLOTS
    ensures |ok| == SLOTS && forall i | 0 <= i < SLOTS ::
              ok[i] == (gb[i] && forall j | 0 <= j < |indices| && j != slot :: indices[j] != i)
  {
    seq(SLOTS, i requires 0 <= i < SLOTS => gb[i] && !Elsewhere(indices, slot, i))
  }

  predicate Elsewhere(indices: seq<int>, slot: nat, x: int) {
    exists j {:trigger indices[j]} :: 0 <= j < |indices| && j != slot && indices[j] == x
  }

  /** A selection that no other place has keeps the selections distinct. */
  lemma StaysDistinct(indices: seq<int>, slot: nat, x: int)
    requires slot < |indices| && (x < 0 || !Elsewhere(indices, slot, x))
    ensures Distinct(indices) ==> Distinct(indices[slot := x])
  {
  }

  lemma ListedIsFree(gb: seq<bool>, indices: seq<int>, slot: nat, x: int)
    requires |gb| == SLOTS && x in Listed(Free(gb, indices, slot), 0)
    ensures 0 <= x < SLOTS && gb[x] && !Elsewhere(indices, slot, x)
  {
    InListed(Free(gb, indices, slot), 0, x);
    assert Free(gb, indices, slot)[x];
  }

  method IsElsewhere(indices: array<int>, slot: nat, x: int) returns (r: bool)
    ensures r == Elsewhere(indices[..], slot, x)
  {
    r := false;
    var j := 0;
    while j < indices.Length && !r
      invariant 0 <= j <= indices.Length
      invariant r == exists k {:trigger indices[k]} :: 0 <= k < j && k != slot && indices[k] == x
    {
      if j != slot && indices[j] == x { r := true; }
      j := j + 1;
    }
  }

  method CollectFree(gb: seq<bool>, indices: array<int>, slot: nat) returns (list: seq<int>)
    requires |gb| == SLOTS
    ensures list == Listed(Free(gb, indices[..], slot), 0)
  {
    var ok: seq<bool> := [];
    var i := 0;
    while i < SLOTS
      invariant 0 <= i <= SLOTS && ok == Free(gb, indices[..], slot)[..i]
    {
      var taken := IsElsewhere(indices, slot, i);
      ok := ok + [gb[i] && !taken];
      i := i + 1;
    }
    assert ok == Free(gb, indices[..], slot);
    list := Collect(ok);
  }

  /** Cycle one of the two local slots. */
  method CycleLocal(gb: seq<bool>, indices: array<int>, slot: nat, delta: int) returns (changed: bool)
    requires |gb| == SLOTS && indices.Length == 2
    modifies indices
    ensures slot >= 2 ==> !changed && indices[..] == old(indices[..])
    ensures slot < 2 ==>
              var list := Listed(Free(gb, old(indices[..]), slot), 0);
              && (changed <==> list != [])
              && indices[..] == if changed then old(indices[..])[slot := Cycled(list, old(indices[slot]), delta)] else old(indices[..])
    ensures old(Distinct(indices[..])) ==> Distinct(indices[..])
    ensures changed ==> slot < 2 && 0 <= indices[slot] < SLOTS && gb[indices[slot]]
  {
    if slot >= 2 { return false; }
    var list := CollectFree(gb, indices, slot);
    if list == [] { return false; }
    var current := Search(list, indices[slot]);
    var next := current + delta;
    if current < 0 { next := if delta < 0 then |list| - 1 else 0; }
    if next < 0 { next := |list| - 1; }
    if next >= |list| { next := 0; }
    assert list[next] in list;
    ListedIsFree(gb, indices[..], slot, list[next]);
    StaysDistinct(indices[..], slot, list[next]);
    ghost var after := indices[..][slot := list[next]];
    indices[slot] := list[next];
    assert indices[..] == after;
    changed := true;
  }

  /** Cycle one of the four transfer slots through the registered Game Boy ROMs and the empty choice. */
  method CycleTransfer(gb: seq<bool>, registered: seq<bool>, indices: array<int>, slot: nat, delta: int) returns (changed: bool)
    requires |gb| == |registered| == SLOTS && indices.Length == 4
    modifies indices
    ensures slot >= 4 ==> !changed && indices[..] == old(indices[..])
    ensures slot < 4 ==>
              var list := [-1] + Listed(Free(Both(gb, registered), old(indices[..]), slot), 0);
              && (changed <==> |list| > 1)
              && indices[..] == if changed then old(indices[..])[slot := CycledOrCleared(list, old(indices[slot]), delta)]
                                else old(indices[..])
    ensures old(Distinct(indices[..])) ==> Distinct(indices[..])
  {
    if slot >= 4 { return false; }
    var free := CollectFree(Both(gb, registered), indices, slot);
    var list := [-1] + free;
    if |list| <= 1 { return false; }
    var current := Search(list, indices[slot]);
    if current < 0 { current := 0; }
    var next := current + delta;
    if next < 0 { next := |list| - 1; }
    if next >= |list| { next := 0; }
    if next > 0 {
      assert list[next] == free[next - 1] && list[next] in free;
      ListedIsFree(Both(gb, registered), indices[..], slot, list[next]);
    }
    StaysDistinct(indices[..], slot, list[next]);
    ghost var after := indices[..][slot := list[next]];
    indices[slot] := list[next];
    assert indices[..] == after;
    changed := true;
  }

  function Both(a: seq<bool>, b: seq<bool>): (r: seq<bool>)
    requires |a| == |b|
    ensures |r| == |a| && forall i | 0 <= i < |r| :: r[i] == (a[i] && b[i])
  {
    seq(|a|, i requires 0 <= i < |a| => a[i] && b[i])
  }

  /** Cycle through all slots that qualify, for the N64 ROM and for the room's ROM. */
  method CycleSingle(ok: seq<bool>, index: int, delta: int) returns (next: int)
    requires |ok| == SLOTS
    ensures next == if Listed(ok, 0) == [] then index else Cycled(Listed(ok, 0), index, delta)
  {
    var list := Collect(ok);
    if list == [] { return index; }
    var current := Search(list, index);
    var place := current + delta;
    if current < 0 { place := if delta < 0 then |list| - 1 else 0; }
    if place < 0 { place := |list| - 1; }
    if place >= |list| { place := 0; }
    next := list[place];
  }

  /** Drop selections that do not qualify, and a second selection of the same slot; the room's selection is
      dropped only when it does not qualify. */
  method ValidateLocal(gb: seq<bool>, indices: array<int>, room: int) returns (kept: int)
    requires |gb| == SLOTS && indices.Length == 2
    modifies indices
    ensures Distinct(indices[..])
    ensures forall i | 0 <= i < 2 :: indices[i] == -1 || (0 <= indices[i] < SLOTS && gb[indices[i]] && indices[i] == old(indices[i]))
    // nothing is dropped without need
    ensures var a, b := old(indices[0]), old(indices[1]);
            && (0 <= a < SLOTS && gb[a] ==> indices[0] == a)
            && (0 <= b < SLOTS && gb[b] && a != b ==> indices[1] == b)
    ensures if 0 <= room < SLOTS && gb[room] then kept == room else kept == -1
  {
    var i := 0;
    while i < 2
      invariant 0 <= i <= 2
      invariant forall j | i <= j < 2 :: indices[j] == old(indices[j])
      invariant forall j | 0 <= j < i ::
                  indices[j] == if 0 <= old(indices[j]) < SLOTS && gb[old(indices[j])] then old(indices[j]) else -1
    {
      var index := indices[i];
      if index < 0 || index >= SLOTS || !gb[index] { indices[i] := -1; }
      i := i + 1;
    }
    if indices[0] >= 0 && indices[0] == indices[1] { indices[1] := -1; }
    kept := room;
    if room < 0 || room >= SLOTS || !gb[room] { kept := -1; }
  }

  // ---------------------------------------------------------------- many calls

  datatype Press = Local(slot: nat, delta: int) | Transfer(slot: nat, delta: int)

  /** Any sequence of steps in either menu keeps both sets of selections distinct. */
  method Presses(gb: seq<bool>, registered: seq<bool>, local: array<int>, transfer: array<int>, presses: seq<Press>)
    requires |gb| == |registered| == SLOTS && local.Length == 2 && transfer.Length == 4 && local != transfer
    requires Distinct(local[..]) && Distinct(transfer[..])
    modifies local, transfer
    ensures Distinct(local[..]) && Distinct(transfer[..])
  {
    var i := 0;
    while i < |presses|
      invariant 0 <= i <= |presses| && Distinct(local[..]) && Distinct(transfer[..])
      decreases |presses| - i
    {
      var changed: bool;
      match presses[i] {
        case Local(slot, delta) => changed := CycleLocal(gb, local, slot, delta);
        case Transfer(slot, delta) => changed := CycleTransfer(gb, registered, transfer, slot, delta);
      }
      i := i + 1;
    }
  }

  /** The candidates of a slot do not depend on what it has selected. */
  lemma SameCandidates(gb: seq<bool>, indices: seq<int>, slot: nat, x: int)
    requires |gb| == SLOTS && slot < |indices|
    ensures Free(gb, indices[slot := x], slot) == Free(gb, indices, slot)
  {
    forall i | 0 <= i < SLOTS ensures Elsewhere(indices[slot := x], slot, i) == Elsewhere(indices, slot, i) {
      assert forall j | 0 <= j < |indices| && j != slot :: indices[slot := x][j] == indices[j];
    }
  }

  /** Where the first step forward leads. */
  function Start(list: seq<int>, selected: int): (q: nat)
    requires list != []
    ensures q < |list|
  {
    var current := IndexOf(list, selected);
    if current < 0 then 0 else Wrap(|list|, current + 1)
  }

  lemma StepLands(list: seq<int>, selected: int, k: nat, now: int)
    requires Increasing(list) && list != [] && k < |list|
    requires now == if k == 0 then selected else list[After(|list|, Start(list, selected), k - 1)]
    ensures Cycled(list, now, 1) == list[After(|list|, Start(list, selected), k)]
  {
    if k > 0 {
      OneForward(list, Start(list, selected), k - 1, now);
    }
  }

  lemma AllSeen(list: seq<int>, q: nat, seen: seq<int>)
    requires Increasing(list) && q < |list| == |seen|
    requires forall k | 0 <= k < |seen| :: seen[k] == list[After(|list|, q, k)]
    ensures forall x :: x in seen <==> x in list
    ensures forall j, k | 0 <= j < k < |seen| :: seen[j] != seen[k]
  {
    forall x | x in list ensures x in seen {
      var k := Steps(|list|, q, IndexOf(list, x));
      assert seen[k] == x;
    }
    forall j, k | 0 <= j < k < |seen| ensures seen[j] != seen[k] {
      var a, b := After(|list|, q, j), After(|list|, q, k);
      assert a != b && (a < b ==> list[a] < list[b]) && (b < a ==> list[b] < list[a]);
    }
  }

  /** What the k-th step forward selects. */
  function Landing(list: seq<int>, selected: int, k: nat): int
    requires k <= |list| && list != []
  {
    if k == 0 then selected else list[After(|list|, Start(list, selected), k - 1)]
  }

  method StepForward(gb: seq<bool>, indices: array<int>, slot: nat, ghost before: seq<int>, ghost list: seq<int>, ghost k: nat)
    requires |gb| == SLOTS && indices.Length == 2 == |before| && slot < 2
    requires list == Listed(Free(gb, before, slot), 0) && k < |list|
    requires indices[..] == before[slot := Landing(list, before[slot], k)]
    modifies indices
    ensures indices[..] == before[slot := Landing(list, before[slot], k + 1)]
  {
    ghost var now := indices[..];
    NextLanding(gb, before, slot, list, k, now);
    var changed := CycleLocal(gb, indices, slot, 1);
  }

  lemma NextLanding(gb: seq<bool>, before: seq<int>, slot: nat, list: seq<int>, k: nat, now: seq<int>)
    requires |gb| == SLOTS && slot < |before|
    requires list == Listed(Free(gb, before, slot), 0) && k < |list|
    requires now == before[slot := Landing(list, before[slot], k)]
    ensures Listed(Free(gb, now, slot), 0) == list
    ensures now[slot := Cycled(list, now[slot], 1)] == before[slot := Landing(list, before[slot], k + 1)]
  {
    ListedIncreasing(Free(gb, before, slot), 0);
    SameCandidates(gb, before, slot, Landing(list, before[slot], k));
    StepLands(list, before[slot], k, now[slot]);
    SetTwice(before, slot, now[slot], Cycled(list, now[slot], 1));
  }

  lemma SetTwice(s: seq<int>, i: nat, x: int, y: int)
    requires i < |s|
    ensures s[i := x][i := y] == s[i := y]
  {
  }

  /** What the first steps forward select, one after the other. */
  predicate Landings(list: seq<int>, selected: int, seen: seq<int>)
    requires list != []
  {
    |seen| <= |list| && forall k | 0 <= k < |seen| :: seen[k] == Landing(list, selected, k + 1)
  }

  lemma LandingsSnoc(list: seq<int>, selected: int, seen: seq<int>, x: int)
    requires list != [] && |seen| < |list| && Landings(list, selected, seen) && x == Landing(list, selected, |seen| + 1)
    ensures Landings(list, selected, seen + [x])
  {
  }

  /** The same elements, each exactly once. */
  ghost predicate EachOnce(seen: seq<int>, list: seq<int>) {
    |seen| == |list| && (forall x :: x in seen <==> x in list) && forall j, k | 0 <= j < k < |seen| :: seen[j] != seen[k]
  }

  lemma RoundSeen(list: seq<int>, selected: int, seen: seq<int>)
    requires Increasing(list) && list != [] && |seen| == |list| && Landings(list, selected, seen)
    ensures EachOnce(seen, list)
    ensures selected in list ==> Landing(list, selected, |list|) == selected
  {
    AllSeen(list, Start(list, selected), seen);
  }

  method StepAround(gb: seq<bool>, indices: array<int>, slot: nat, ghost before: seq<int>, ghost list: seq<int>, n: nat)
    returns (seen: seq<int>)
    requires |gb| == SLOTS && indices.Length == 2 && slot < 2
    requires before == indices[..] && list == Listed(Free(gb, before, slot), 0) && n == |list| > 0
    modifies indices
    ensures indices[..] == before[slot := Landing(list, before[slot], n)]
    ensures |seen| == n && Landings(list, before[slot], seen)
  {
    seen := [];
    assert before == before[slot := before[slot]];
    while |seen| < n
      invariant Landings(list, before[slot], seen)
      invariant indices[..] == before[slot := Landing(list, before[slot], |seen|)]
      decreases n - |seen|
    {
      StepForward(gb, indices, slot, before, list, |seen|);
      assert indices[slot] == indices[..][slot];
      LandingsSnoc(list, before[slot], seen, indices[slot]);
      seen := seen + [indices[slot]];
    }
  }

  /** As many steps forward as there are candidates pass every candidate exactly once, whatever was selected,
      and end where they began if that was a candidate. */
  method CycleRound(gb: seq<bool>, indices: array<int>, slot: nat, ghost before: seq<int>, ghost list: seq<int>)
    returns (seen: seq<int>)
    requires |gb| == SLOTS && indices.Length == 2 && slot < 2
    requires before == indices[..] && list == Listed(Free(gb, before, slot), 0)
    modifies indices
    ensures EachOnce(seen, list)
    ensures before[slot] in list ==> indices[..] == before
  {
    var free := CollectFree(gb, indices, slot);
    if free == [] { return []; }
    ListedIncreasing(Free(gb, before, slot), 0);
    seen := StepAround(gb, indices, slot, before, list, |free|);
    RoundSeen(list, before[slot], seen);
  }
}

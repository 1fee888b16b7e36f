/** The size of the window that shows two Game Boy screens side by side. */
module WindowFit {

  const MAX_SIZE := 16384
  const MIN_WIDTH := 320
  const MIN_HEIGHT := 144
  const UINT_LIMIT := 0x1_0000_0000
  const UINT64_LIMIT := 0x1_0000_0000_0000_0000

  /** An unknown or absurd available size counts as the largest one. */
  function Available(size: nat): (r: nat)
    ensures 0 < r <= MAX_SIZE
  {
    if size == 0 || size > MAX_SIZE then MAX_SIZE else size
  }

  function AtLeast(size: nat, minimum: nat): nat { if size < minimum then minimum else size }

  /** The wanted size: two clients wide, and no smaller than the minimum. */
  function WantedWidth(clientWidth: nat): (w: nat) ensures w >= MIN_WIDTH { AtLeast(clientWidth * 2, MIN_WIDTH) }
  function WantedHeight(clientHeight: nat): (h: nat) ensures h >= MIN_HEIGHT { AtLeast(clientHeight, MIN_HEIGHT) }

  /** x by y is the largest size of the shape w by h inside aw by ah, up to rounding one side down. */
  ghost predicate LargestInside(w: nat, h: nat, aw: nat, ah: nat, x: nat, y: nat)
    requires w > 0 && h > 0
  {
    && x <= aw && y <= ah
    // one side is at its limit, and the other is the largest whole number that is not too long for it
    && ((x == aw && y * w <= h * x && h * x < (y + 1) * w) || (y == ah && x * h <= w * y && w * y < (x + 1) * h))
  }

  /** Unsigned division. */
  function Div(n: nat, d: nat): (q: nat)
    requires d > 0
    ensures q * d <= n < (q + 1) * d
  {
    n / d
  }

  lemma DivAtMost(n: nat, d: nat, q: nat)
    requires d > 0 && n <= q * d
    ensures Div(n, d) <= q
  {
    if Div(n, d) > q {
      MulLe(q + 1, Div(n, d), d);
    }
  }

  lemma MulLe(a: nat, b: nat, c: nat)
    requires a <= b
    ensures a * c <= b * c
  {
  }

  /** Products of a 33-bit and a 14-bit number stay far below 64 bits. */
  lemma NoOverflow(a: nat, b: nat)
    requires a < 2 * UINT_LIMIT && b <= MAX_SIZE
    ensures a * b < UINT64_LIMIT
  {
    MulLe(a, 2 * UINT_LIMIT, b);
    MulLe(b, MAX_SIZE, 2 * UINT_LIMIT);
  }

  /** Every product the fit computes is exact in unsigned 64-bit arithmetic. */
  lemma ProductsAreExact(clientWidth: nat, clientHeight: nat, availableWidth: nat, availableHeight: nat)
    requires clientWidth < UINT_LIMIT && clientHeight < UINT_LIMIT
    ensures clientWidth * 2 < UINT64_LIMIT
    ensures WantedWidth(clientWidth) * Available(availableHeight) < UINT64_LIMIT
    ensures WantedHeight(clientHeight) * Available(availableWidth) < UINT64_LIMIT
  {
    NoOverflow(WantedWidth(clientWidth), Available(availableHeight));
    NoOverflow(WantedHeight(clientHeight), Available(availableWidth));
  }

  lemma WidthAtLimit(w: nat, h: nat, aw: nat, ah: nat)
    requires w > 0 && h > 0 && w * ah > h * aw
    ensures LargestInside(w, h, aw, ah, aw, Div(h * aw, w))
  {
    DivAtMost(h * aw, w, ah);
  }

  lemma HeightAtLimit(w: nat, h: nat, aw: nat, ah: nat)
    requires w > 0 && h > 0 && w * ah <= h * aw
    ensures LargestInside(w, h, aw, ah, Div(w * ah, h), ah)
  {
    DivAtMost(w * ah, h, aw);
  }

  /** Make one side as long as allowed and the other as long as the shape then wants. */
  method Shrink(w: nat, h: nat, aw: nat, ah: nat) returns (x: nat, y: nat)
    requires 0 < w < 2 * UINT_LIMIT && 0 < h < UINT_LIMIT && aw <= MAX_SIZE && ah <= MAX_SIZE
    ensures LargestInside(w, h, aw, ah, x, y)
  {
    if w * ah > h * aw {
      WidthAtLimit(w, h, aw, ah);
      x, y := aw, Div(h * aw, w);
    } else {
      HeightAtLimit(w, h, aw, ah);
      x, y := Div(w * ah, h), ah;
    }
  }

  /** Fit the wanted shape into the available area, then raise each side to the minimum. */
  method PairWindowSize(clientWidth: nat, clientHeight: nat, availableWidth: nat, availableHeight: nat)
    returns (width: nat, height: nat)
    requires clientWidth < UINT_LIMIT && clientHeight < UINT_LIMIT
    requires availableWidth < UINT_LIMIT && availableHeight < UINT_LIMIT
    ensures var w, h := WantedWidth(clientWidth), WantedHeight(clientHeight);
            var aw, ah := Available(availableWidth), Available(availableHeight);
            && (w <= aw && h <= ah ==> width == w && height == h)
            && (w > aw || h > ah ==>
                  exists x: nat, y: nat :: LargestInside(w, h, aw, ah, x, y)
                                           && width == AtLeast(x, MIN_WIDTH) && height == AtLeast(y, MIN_HEIGHT))
            // it lies inside the available area whenever the minimum does
            && (aw >= MIN_WIDTH && ah >= MIN_HEIGHT ==> width <= aw && height <= ah)
    ensures width >= MIN_WIDTH && height >= MIN_HEIGHT
    ensures width < UINT_LIMIT && height < UINT_LIMIT
  {
    var w, h := clientWidth * 2, clientHeight;
    var aw, ah := availableWidth, availableHeight;
    if aw == 0 || aw > MAX_SIZE { aw := MAX_SIZE; }
    if ah == 0 || ah > MAX_SIZE { ah := MAX_SIZE; }
    if w < MIN_WIDTH { w := MIN_WIDTH; }
    if h < MIN_HEIGHT { h := MIN_HEIGHT; }
    if w > aw || h > ah {
      w, h := Shrink(w, h, aw, ah);
    }
    width := if w < MIN_WIDTH then MIN_WIDTH else w;
    height := if h < MIN_HEIGHT then MIN_HEIGHT else h;
  }
}

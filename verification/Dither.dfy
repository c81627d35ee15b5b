/** Mapping pixels to palette indices with error diffusion: `nearest` and `indexFrame` of
    src/lib/display-copy.ts. The code pushes each pixel's error forward in place; the specification
    pulls, for each pixel, what its earlier neighbours owe it. Reals stand for the float buffer. */
module Dither {
  import opened Bits
  import opened Palette

  datatype Rgb = Rgb(r: real, g: real, b: real)

  const BLACK := Rgb(0.0, 0.0, 0.0)

  function Exact(c: Color): Rgb {
    Rgb(c.r as real, c.g as real, c.b as real)
  }

  function Plus(x: Rgb, y: Rgb): Rgb {
    Rgb(x.r + y.r, x.g + y.g, x.b + y.b)
  }

  function Minus(x: Rgb, y: Rgb): Rgb {
    Rgb(x.r - y.r, x.g - y.g, x.b - y.b)
  }

  function Scaled(x: Rgb, factor: real): Rgb {
    Rgb(x.r * factor, x.g * factor, x.b * factor)
  }

  function Clamp(v: real): real {
    if v < 0.0 then 0.0 else if v > 255.0 then 255.0 else v
  }

  function Clamped(x: Rgb): Rgb {
    Rgb(Clamp(x.r), Clamp(x.g), Clamp(x.b))
  }

  /** The level in range that is nearest. */
  lemma ClampIsNearest(v: real, w: real)
    requires 0.0 <= w <= 255.0
    ensures 0.0 <= Clamp(v) <= 255.0
    ensures (Clamp(v) - v) * (Clamp(v) - v) <= (w - v) * (w - v)
  {
    if v < 0.0 {
      Product(w, w - 2.0 * v);
      assert (w - v) * (w - v) == w * (w - 2.0 * v) + v * v;
    } else if v > 255.0 {
      Product(255.0 - w, 2.0 * v - w - 255.0);
      assert (w - v) * (w - v) == (255.0 - w) * (2.0 * v - w - 255.0) + (255.0 - v) * (255.0 - v);
    }
  }

  lemma Product(x: real, y: real)
    requires x >= 0.0 && y >= 0.0
    ensures x * y >= 0.0
  {
  }

  // ----------------------------------------------------------------- nearest

  function Distance(x: Rgb, c: Color): real {
    var d := Minus(x, Exact(c));
    d.r * d.r + d.g * d.g + d.b * d.b
  }

  /** The first palette entry at the least distance. */
  ghost predicate IsNearest(x: Rgb, palette: seq<Color>, i: nat) {
    && i < |palette|
    && (forall j :: 0 <= j < |palette| ==> Distance(x, palette[i]) <= Distance(x, palette[j]))
    && (forall j :: 0 <= j < i ==> Distance(x, palette[i]) < Distance(x, palette[j]))
  }

  function NearestIndex(x: Rgb, palette: seq<Color>): (i: nat)
    requires palette != []
    ensures IsNearest(x, palette, i)
  {
    if |palette| == 1 then 0
    else
      var best := NearestIndex(x, palette[..|palette| - 1]);
      if Distance(x, palette[|palette| - 1]) < Distance(x, palette[best]) then |palette| - 1 else best
  }

  lemma NearestIsUnique(x: Rgb, palette: seq<Color>, i: nat)
    requires palette != [] && IsNearest(x, palette, i)
    ensures i == NearestIndex(x, palette)
  {
    var k := NearestIndex(x, palette);
    assert Distance(x, palette[i]) <= Distance(x, palette[k]);
    assert Distance(x, palette[k]) <= Distance(x, palette[i]);
    assert !(i < k) && !(k < i);
  }

  method Nearest(x: Rgb, palette: seq<Color>) returns (best: nat)
    requires palette != []
    ensures best == NearestIndex(x, palette)
  {
    best := 0;
    var bestDistance := Distance(x, palette[0]);
    var index := 0;
    while index < |palette|
      invariant 0 <= index <= |palette| && best < |palette| && (index == 0 || best < index) && bestDistance == Distance(x, palette[best])
      invariant forall j :: 0 <= j < index ==> bestDistance <= Distance(x, palette[j])
      invariant forall j :: 0 <= j < best ==> bestDistance < Distance(x, palette[j])
    {
      var distance := Distance(x, palette[index]);
      if index == 0 || distance < bestDistance {
        bestDistance, best := distance, index;
        if distance == 0.0 {
          ZeroIsLeast(x, palette);
          break;
        }
      }
      index := index + 1;
    }
    NearestIsUnique(x, palette, best);
  }

  lemma ZeroIsLeast(x: Rgb, palette: seq<Color>)
    ensures forall j :: 0 <= j < |palette| ==> Distance(x, palette[j]) >= 0.0
  {
  }

  /** A colour of the palette is nearest to itself. */
  lemma NearestToMember(c: Color, palette: seq<Color>)
    requires c in palette
    ensures palette[NearestIndex(Exact(c), palette)] == c
  {
    var i, k := NearestIndex(Exact(c), palette), 0;
    k :| 0 <= k < |palette| && palette[k] == c;
    assert Distance(Exact(c), palette[i]) <= Distance(Exact(c), palette[k]) == 0.0;
    OnlyZeroAtSelf(c, palette[i]);
  }

  lemma OnlyZeroAtSelf(c: Color, d: Color)
    requires Distance(Exact(c), d) <= 0.0
    ensures c == d
  {
  }

  // ------------------------------------------------- the pulled specification

  /** What pixel `q` passes on, once it has been mapped; transparent pixels pass on nothing. */
  function Residue(frame: Frame, palette: seq<Color>, width: nat, q: nat): Rgb
    requires q < |frame| && width > 0 && palette != []
    decreases q, 1
  {
    if !Opaque(frame[q]) then BLACK
    else
      var x := Clamped(Diffused(frame, palette, width, q, q));
      Minus(x, Exact(palette[NearestIndex(x, palette)]))
  }

  /** The value of pixel `t` when the pixels before `k` have been mapped: its own colour, and what
      its left, upper right, upper and upper left neighbours owe it, of those already mapped. */
  function Diffused(frame: Frame, palette: seq<Color>, width: nat, t: nat, k: nat): Rgb
    requires k <= t < |frame| && width > 0 && palette != []
    decreases k, 0
  {
    var own := Exact(frame[t].color);
    if !Opaque(frame[t]) then own
    else
      Plus(Plus(Plus(Plus(own,
        if t % width > 0 && t - 1 < k then Scaled(Residue(frame, palette, width, t - 1), 7.0 / 16.0) else BLACK),
        if t >= width && t + 1 < |frame| && t % width + 1 < width && t - width + 1 < k
        then Scaled(Residue(frame, palette, width, t - width + 1), 3.0 / 16.0) else BLACK),
        if t >= width && t - width < k then Scaled(Residue(frame, palette, width, t - width), 5.0 / 16.0) else BLACK),
        if t > width && t % width > 0 && t - width - 1 < k
        then Scaled(Residue(frame, palette, width, t - width - 1), 1.0 / 16.0) else BLACK)
  }

  function ChosenIndex(frame: Frame, palette: seq<Color>, width: nat, p: nat): nat
    requires p < |frame| && width > 0 && palette != []
  {
    NearestIndex(Clamped(Diffused(frame, palette, width, p, p)), palette)
  }

  /** The index of every pixel: the transparent one where alpha is low, else the chosen colour. */
  function Indexed(frame: Frame, palette: seq<Color>, transparent: nat, width: nat): (indices: seq<nat>)
    requires (width > 0 || frame == []) && palette != []
    ensures |indices| == |frame|
  {
    seq(|frame|, p requires 0 <= p < |frame| => if Opaque(frame[p]) then ChosenIndex(frame, palette, width, p) else transparent)
  }

  // ------------------------------------------------------ where the error goes

  function Part(x: Rgb, channel: Channel): real {
    match channel
    case Red => x.r
    case Green => x.g
    case Blue => x.b
  }

  /** An opaque pixel's value, kept within range, is what it shows and what it passes on. */
  lemma NothingIsLost(frame: Frame, palette: seq<Color>, width: nat, q: nat, channel: Channel)
    requires q < |frame| && width > 0 && palette != [] && Opaque(frame[q])
    ensures var value := Part(Diffused(frame, palette, width, q, q), channel);
            Part(Residue(frame, palette, width, q), channel) + Level(palette[ChosenIndex(frame, palette, width, q)], channel) as real
            == if value < 0.0 then 0.0 else if value > 255.0 then 255.0 else value
  {
    hide Diffused, NearestIndex;
  }

  /** What the pixel `dx` to the right and `dy` above owes to pixel `t`, if there is one. */
  function OwedFrom(frame: Frame, palette: seq<Color>, width: nat, t: nat, dx: int, dy: nat, channel: Channel): real
    requires t < |frame| && width > 0 && palette != [] && -1 <= dx <= 1 && (dy == 1 || (dy == 0 && dx == -1))
  {
    if 0 <= t % width + dx < width && dy * width <= t then Part(Residue(frame, palette, width, t - dy * width + dx), channel) else 0.0
  }

  /** A pixel's value is its own level and seven sixteenths of the error of its left neighbour, three of the
      upper right one (none in the last pixel), five of the upper one and one of the upper left one. */
  lemma ValueIsOwnAndOwed(frame: Frame, palette: seq<Color>, width: nat, t: nat, channel: Channel)
    requires t < |frame| && width > 0 && palette != [] && Opaque(frame[t])
    ensures 16.0 * Part(Diffused(frame, palette, width, t, t), channel)
         == 16.0 * (Level(frame[t].color, channel) as real)
            + 7.0 * OwedFrom(frame, palette, width, t, -1, 0, channel)
            + 3.0 * (if t + 1 < |frame| then OwedFrom(frame, palette, width, t, 1, 1, channel) else 0.0)
            + 5.0 * OwedFrom(frame, palette, width, t, 0, 1, channel)
            + 1.0 * OwedFrom(frame, palette, width, t, -1, 1, channel)
  {
    hide Residue;
  }

  /** When every opaque colour is in the palette, no error arises and none is passed on. */
  lemma {:induction false} NoError(frame: Frame, palette: seq<Color>, width: nat, t: nat, k: nat)
    requires k <= t < |frame| && width > 0 && palette != []
    requires forall p :: 0 <= p < |frame| && Opaque(frame[p]) ==> frame[p].color in palette
    ensures Diffused(frame, palette, width, t, k) == Exact(frame[t].color)
    decreases k, 0
  {
    hide Residue;
    if Opaque(frame[t]) {
      if t % width > 0 && t - 1 < k {
        NoResidue(frame, palette, width, t - 1);
      }
      if t >= width && t % width + 1 < width && t - width + 1 < k {
        NoResidue(frame, palette, width, t - width + 1);
      }
      if t >= width && t - width < k {
        NoResidue(frame, palette, width, t - width);
      }
      if t > width && t % width > 0 && t - width - 1 < k {
        NoResidue(frame, palette, width, t - width - 1);
      }
    }
  }

  lemma {:induction false} NoResidue(frame: Frame, palette: seq<Color>, width: nat, q: nat)
    requires q < |frame| && width > 0 && palette != []
    requires forall p :: 0 <= p < |frame| && Opaque(frame[p]) ==> frame[p].color in palette
    ensures Residue(frame, palette, width, q) == BLACK
    decreases q, 1
  {
    if Opaque(frame[q]) {
      NoError(frame, palette, width, q, q);
      NearestToMember(frame[q].color, palette);
    }
  }

  /** Then indexing is lossless: an opaque pixel's index names its own colour. */
  lemma IndexedIsLossless(frame: Frame, palette: seq<Color>, transparent: nat, width: nat, p: nat)
    requires p < |frame| && width > 0 && palette != []
    requires forall p :: 0 <= p < |frame| && Opaque(frame[p]) ==> frame[p].color in palette
    ensures var index := Indexed(frame, palette, transparent, width)[p];
            if Opaque(frame[p]) then index < |palette| && palette[index] == frame[p].color else index == transparent
  {
    if Opaque(frame[p]) {
      NoError(frame, palette, width, p, p);
      NearestToMember(frame[p].color, palette);
    }
  }

  // -------------------------------------------------- the pushing implementation

  lemma RemainderIs(a: nat, d: nat, q: nat, r: nat)
    requires r < d && a == q * d + r
    ensures a % d == r
  {
    if q < a / d {
      ProductGrows(q + 1, a / d, d);
    } else if a / d < q {
      ProductGrows(a / d + 1, q, d);
    }
  }

  lemma ProductGrows(x: nat, y: nat, d: nat)
    requires x <= y
    ensures x * d <= y * d
  {
    assert (y - x) * d >= 0;
  }

  /** The column of the next pixel, and of the pixels around the one below. */
  lemma Columns(k: nat, width: nat)
    requires width > 0
    ensures (k + 1) % width == if k % width + 1 < width then k % width + 1 else 0
    ensures (k + width) % width == k % width
    ensures (k + width + 1) % width == (k + 1) % width
    ensures (k + width - 1) % width == if k % width > 0 then k % width - 1 else width - 1
  {
    var q, x := k / width, k % width;
    assert k == q * width + x;
    assert (q + 1) * width == q * width + width;
    RemainderIs(k + width, width, q + 1, x);
    if x + 1 < width {
      RemainderIs(k + 1, width, q, x + 1);
      RemainderIs(k + width + 1, width, q + 1, x + 1);
    } else {
      assert (q + 2) * width == q * width + 2 * width;
      RemainderIs(k + 1, width, q + 1, 0);
      RemainderIs(k + width + 1, width, q + 2, 0);
    }
    if x > 0 {
      RemainderIs(k + width - 1, width, q + 1, x - 1);
    } else {
      RemainderIs(k + width - 1, width, q, width - 1);
    }
  }

  /** What pixel `k`, with this residue, owes to pixel `t`. */
  function Owed(frame: Frame, width: nat, k: nat, t: nat, residue: Rgb): Rgb
    requires k < t < |frame| && width > 0
  {
    if !Opaque(frame[t]) then BLACK
    else if t == k + 1 && t % width > 0 then Scaled(residue, 7.0 / 16.0)
    else if t == k + width - 1 && t >= width && t + 1 < |frame| && t % width + 1 < width then Scaled(residue, 3.0 / 16.0)
    else if t == k + width then Scaled(residue, 5.0 / 16.0)
    else if t == k + width + 1 && t % width > 0 then Scaled(residue, 1.0 / 16.0)
    else BLACK
  }

  /** The same, told by the position of pixel `k` in its row, as the code does. */
  lemma OwedByColumn(frame: Frame, width: nat, k: nat, t: nat, residue: Rgb)
    requires k < t < |frame| && width > 0
    ensures Owed(frame, width, k, t, residue)
         == if !Opaque(frame[t]) then BLACK
            else if t == k + 1 && k % width + 1 < width then Scaled(residue, 7.0 / 16.0)
            else if t == k + width - 1 && k + width < |frame| && k % width > 0 then Scaled(residue, 3.0 / 16.0)
            else if t == k + width then Scaled(residue, 5.0 / 16.0)
            else if t == k + width + 1 && k % width + 1 < width then Scaled(residue, 1.0 / 16.0)
            else BLACK
  {
    hide Scaled;
    Columns(k, width);
    if k < width {
      SmallRemainder(k, width);
    }
  }

  lemma SmallRemainder(k: nat, width: nat)
    requires k < width
    ensures k % width == k
  {
  }

  lemma OwedNothing(frame: Frame, width: nat, k: nat, t: nat)
    requires k < t < |frame| && width > 0
    ensures Owed(frame, width, k, t, BLACK) == BLACK
  {
  }

  /** Mapping one more pixel adds what that pixel owes. */
  lemma DiffusedStep(frame: Frame, palette: seq<Color>, width: nat, t: nat, k: nat)
    requires k < t < |frame| && width > 0 && palette != []
    ensures Diffused(frame, palette, width, t, k + 1)
         == Plus(Diffused(frame, palette, width, t, k), Owed(frame, width, k, t, Residue(frame, palette, width, k)))
  {
    hide Scaled, Residue;
    if Opaque(frame[t]) {
      Columns(k, width);
    }
  }

  /** The `diffuse` closure, given the share of the error. */
  method Diffuse(source: array<Rgb>, frame: Frame, target: int, share: Rgb)
    requires source.Length == |frame|
    modifies source
    ensures forall t :: 0 <= t < source.Length && t != target ==> source[t] == old(source[t])
    ensures 0 <= target < source.Length ==>
              source[target] == if Opaque(frame[target]) then Plus(old(source[target]), share) else old(source[target])
  {
    if target < 0 || target >= source.Length || !Opaque(frame[target]) {
      return;
    }
    source[target] := Plus(source[target], share);
  }

  /** The four calls of `diffuse` for one opaque pixel. */
  method Spread(source: array<Rgb>, frame: Frame, width: nat, pixel: nat, error: Rgb)
    requires source.Length == |frame| && pixel < |frame| && width > 0
    modifies source
    ensures forall t :: 0 <= t <= pixel ==> source[t] == old(source[t])
    ensures forall t :: pixel < t < |frame| ==> source[t] == Plus(old(source[t]), Owed(frame, width, pixel, t, error))
  {
    forall t | pixel < t < |frame| {
      OwedByColumn(frame, width, pixel, t, error);
    }
    hide Scaled, Owed, Opaque;
    var x := pixel % width;
    if x + 1 < width {
      Diffuse(source, frame, pixel + 1, Scaled(error, 7.0 / 16.0));
    }
    if pixel + width < |frame| {
      if x > 0 {
        Diffuse(source, frame, pixel + width - 1, Scaled(error, 3.0 / 16.0));
      }
      Diffuse(source, frame, pixel + width, Scaled(error, 5.0 / 16.0));
      if x + 1 < width {
        Diffuse(source, frame, pixel + width + 1, Scaled(error, 1.0 / 16.0));
      }
    }
  }

  lemma NothingOwedYet(frame: Frame, palette: seq<Color>, width: nat, t: nat)
    requires t < |frame| && width > 0 && palette != []
    ensures Diffused(frame, palette, width, t, 0) == Exact(frame[t].color)
  {
    hide Residue, Scaled;
    SmallRemainder(0, width);
    assert t == 0 || t - 1 >= 0;
  }

  method IndexFrame(frame: Frame, palette: seq<Color>, transparent: nat, width: nat) returns (indices: seq<nat>)
    requires (width > 0 || frame == []) && palette != []
    ensures indices == Indexed(frame, palette, transparent, width)
  {
    hide Diffused, Scaled, NearestIndex, Owed;
    forall t | 0 <= t < |frame|
      ensures Diffused(frame, palette, width, t, 0) == Exact(frame[t].color)
    {
      NothingOwedYet(frame, palette, width, t);
    }
    var source := new Rgb[|frame|](i requires 0 <= i < |frame| => Exact(frame[i].color));
    var indexed := new nat[|frame|](_ => 0);
    for pixel := 0 to |frame|
      invariant forall t :: pixel <= t < |frame| ==> source[t] == Diffused(frame, palette, width, t, pixel)
      invariant forall p :: 0 <= p < pixel ==> indexed[p] == Indexed(frame, palette, transparent, width)[p]
    {
      ghost var residue := Residue(frame, palette, width, pixel);
      forall t | pixel < t < |frame|
        ensures Diffused(frame, palette, width, t, pixel + 1)
             == Plus(Diffused(frame, palette, width, t, pixel), Owed(frame, width, pixel, t, residue))
        ensures Owed(frame, width, pixel, t, BLACK) == BLACK
      {
        DiffusedStep(frame, palette, width, t, pixel);
        OwedNothing(frame, width, pixel, t);
      }
      if !Opaque(frame[pixel]) {
        indexed[pixel] := transparent;
      } else {
        var color := Clamped(source[pixel]);
        var chosen := Nearest(color, palette);
        indexed[pixel] := chosen;
        Spread(source, frame, width, pixel, Minus(color, Exact(palette[chosen])));
      }
    }
    indices := indexed[..];
  }
}

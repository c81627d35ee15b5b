/** The colour table of an animated GIF: `paletteFromFrames` of src/lib/display-copy.ts. */
module Palette {
  import opened Bits

  datatype Color = Color(r: Byte, g: Byte, b: Byte)

  datatype Pixel = Pixel(color: Color, alpha: Byte)

  type Frame = seq<Pixel>

  predicate Opaque(pixel: Pixel) {
    pixel.alpha >= 128
  }

  // ------------------------------------------------------------ exact palette

  function OpaqueColors(frame: Frame): seq<Color> {
    if frame == [] then []
    else
      var last := frame[|frame| - 1];
      OpaqueColors(frame[..|frame| - 1]) + if Opaque(last) then [last.color] else []
  }

  function AllOpaqueColors(frames: seq<Frame>): seq<Color> {
    if frames == [] then [] else AllOpaqueColors(frames[..|frames| - 1]) + OpaqueColors(frames[|frames| - 1])
  }

  function Learn<T(==)>(known: seq<T>, x: T): seq<T> {
    if x in known then known else known + [x]
  }

  /** The distinct values in order of first appearance: the keys of a JavaScript Map. */
  function Distinct<T(==)>(xs: seq<T>): seq<T> {
    if xs == [] then [] else Learn(Distinct(xs[..|xs| - 1]), xs[|xs| - 1])
  }

  lemma {:induction false} DistinctAppend<T>(xs: seq<T>, x: T)
    ensures Distinct(xs + [x]) == Learn(Distinct(xs), x)
  {
    assert (xs + [x])[..|xs|] == xs;
  }

  lemma {:induction false} DistinctElements<T>(xs: seq<T>)
    ensures forall x :: x in Distinct(xs) <==> x in xs
    ensures forall i, j :: 0 <= i < j < |Distinct(xs)| ==> Distinct(xs)[i] != Distinct(xs)[j]
  {
    if xs != [] {
      DistinctElements(xs[..|xs| - 1]);
      assert xs == xs[..|xs| - 1] + [xs[|xs| - 1]];
    }
  }

  lemma {:induction false} DistinctGrows<T>(xs: seq<T>, more: seq<T>)
    ensures |Distinct(xs)| <= |Distinct(xs + more)|
  {
    if more == [] {
      assert xs + more == xs;
    } else {
      var front := more[..|more| - 1];
      DistinctGrows(xs, front);
      assert xs + more == xs + front + [more[|more| - 1]];
      DistinctAppend(xs + front, more[|more| - 1]);
    }
  }

  // ---------------------------------------------------------- popular buckets

  datatype Bucket = Bucket(r: nat, g: nat, b: nat, n: nat)

  /** Every fourth pixel is sampled, if it is opaque. */
  function SampledColors(frame: Frame): seq<Color> {
    if frame == [] then []
    else
      var last := frame[|frame| - 1];
      SampledColors(frame[..|frame| - 1]) + if (|frame| - 1) % 4 == 0 && Opaque(last) then [last.color] else []
  }

  function AllSampledColors(frames: seq<Frame>): seq<Color> {
    if frames == [] then [] else AllSampledColors(frames[..|frames| - 1]) + SampledColors(frames[|frames| - 1])
  }

  /** The five leading bits of every channel. */
  function BucketKey(c: Color): nat {
    c.r / 8 * 1024 + c.g / 8 * 32 + c.b / 8
  }

  /** The bucket keys of the samples, in order of first appearance. */
  function Keys(samples: seq<Color>): seq<nat> {
    if samples == [] then [] else Learn(Keys(samples[..|samples| - 1]), BucketKey(samples[|samples| - 1]))
  }

  function Add(bucket: Bucket, c: Color): Bucket {
    Bucket(bucket.r + c.r, bucket.g + c.g, bucket.b + c.b, bucket.n + 1)
  }

  function Total(samples: seq<Color>, key: nat): Bucket {
    if samples == [] then Bucket(0, 0, 0, 0)
    else
      var total, last := Total(samples[..|samples| - 1], key), samples[|samples| - 1];
      if BucketKey(last) == key then Add(total, last) else total
  }

  function Buckets(samples: seq<Color>): seq<Bucket> {
    var keys := Keys(samples);
    seq(|keys|, i requires 0 <= i < |keys| => Total(samples, keys[i]))
  }

  function Insert(sorted: seq<Bucket>, bucket: Bucket): seq<Bucket> {
    if sorted == [] || sorted[|sorted| - 1].n >= bucket.n then sorted + [bucket]
    else Insert(sorted[..|sorted| - 1], bucket) + [sorted[|sorted| - 1]]
  }

  /** The stable sort by falling count. */
  function ByCount(buckets: seq<Bucket>): seq<Bucket> {
    if buckets == [] then [] else Insert(ByCount(buckets[..|buckets| - 1]), buckets[|buckets| - 1])
  }

  predicate Falling(buckets: seq<Bucket>) {
    forall i, j :: 0 <= i < j < |buckets| ==> buckets[i].n >= buckets[j].n
  }

  lemma AppendLeast(front: seq<Bucket>, last: Bucket, bucket: Bucket, inserted: seq<Bucket>)
    requires Falling(front + [last]) && Falling(inserted) && bucket.n >= last.n
    requires multiset(inserted) == multiset(front) + multiset{bucket}
    ensures Falling(inserted + [last]) && multiset(inserted + [last]) == multiset(front + [last]) + multiset{bucket}
  {
    forall i | 0 <= i < |inserted|
      ensures inserted[i].n >= last.n
    {
      assert inserted[i] in multiset(inserted);
      if inserted[i] in multiset(front) {
        var k :| 0 <= k < |front| && front[k] == inserted[i];
        assert (front + [last])[k] == front[k] && (front + [last])[|front|] == last;
      }
    }
  }

  lemma {:induction false} InsertSorts(sorted: seq<Bucket>, bucket: Bucket)
    requires Falling(sorted)
    ensures multiset(Insert(sorted, bucket)) == multiset(sorted) + multiset{bucket}
    ensures Falling(Insert(sorted, bucket))
  {
    if sorted != [] && sorted[|sorted| - 1].n < bucket.n {
      var front, last := sorted[..|sorted| - 1], sorted[|sorted| - 1];
      assert sorted == front + [last];
      InsertSorts(front, bucket);
      var inserted := Insert(front, bucket);
      assert Insert(sorted, bucket) == inserted + [last];
      hide Insert, Falling;
      AppendLeast(front, last, bucket, inserted);
    }
  }

  lemma {:induction false} ByCountSorts(buckets: seq<Bucket>)
    ensures Falling(ByCount(buckets)) && multiset(ByCount(buckets)) == multiset(buckets)
  {
    if buckets != [] {
      var front, last := buckets[..|buckets| - 1], buckets[|buckets| - 1];
      ByCountSorts(front);
      InsertSorts(ByCount(front), last);
      hide Insert, Falling;
      assert buckets == front + [last];
    }
  }

  /** `Math.round(sum / n)`. */
  function Mean(sum: nat, n: nat): nat {
    if n == 0 then 0 else (2 * sum + n) / (2 * n)
  }

  lemma MeanIsByte(sum: nat, n: nat)
    requires 0 < n && sum <= 255 * n
    ensures Mean(sum, n) < 256
  {
    DivideBelow(2 * sum + n, 2 * n, 256);
  }

  lemma DivideBelow(a: nat, d: nat, bound: nat)
    requires d > 0 && a < bound * d
    ensures a / d < bound
  {
    var q := a / d;
    assert q * d <= a;
    assert (bound - q) * d > 0;
  }

  predicate Plausible(bucket: Bucket) {
    bucket.n > 0 && bucket.r <= 255 * bucket.n && bucket.g <= 255 * bucket.n && bucket.b <= 255 * bucket.n
  }

  lemma {:induction false} TotalPlausible(samples: seq<Color>, key: nat)
    ensures key in Keys(samples) ==> Plausible(Total(samples, key))
    ensures key !in Keys(samples) ==> Total(samples, key) == Bucket(0, 0, 0, 0)
  {
    if samples != [] {
      TotalPlausible(samples[..|samples| - 1], key);
    }
  }

  lemma BucketsPlausible(samples: seq<Color>)
    ensures forall bucket <- ByCount(Buckets(samples)) :: Plausible(bucket)
  {
    ByCountSorts(Buckets(samples));
    forall bucket <- ByCount(Buckets(samples))
      ensures Plausible(bucket)
    {
      assert bucket in multiset(Buckets(samples));
      var i :| 0 <= i < |Buckets(samples)| && Buckets(samples)[i] == bucket;
      TotalPlausible(samples, Keys(samples)[i]);
    }
  }

  function MeanColor(bucket: Bucket): Color
    requires Plausible(bucket)
  {
    MeanIsByte(bucket.r, bucket.n);
    MeanIsByte(bucket.g, bucket.n);
    MeanIsByte(bucket.b, bucket.n);
    Color(Mean(bucket.r, bucket.n), Mean(bucket.g, bucket.n), Mean(bucket.b, bucket.n))
  }

  function MeanColors(buckets: seq<Bucket>): (colors: seq<Color>)
    requires forall bucket <- buckets :: Plausible(bucket)
    ensures |colors| == |buckets|
  {
    if buckets == [] then [] else [MeanColor(buckets[0])] + MeanColors(buckets[1..])
  }

  function PopularColors(samples: seq<Color>, limit: nat): (colors: seq<Color>)
    ensures |colors| <= limit
  {
    BucketsPlausible(samples);
    var sorted := ByCount(Buckets(samples));
    MeanColors(if |sorted| <= limit then sorted else sorted[..limit])
  }

  // ----------------------------------------------------------------- palette

  function PaletteFor(frames: seq<Frame>, limit: nat): (palette: seq<Color>)
    ensures |palette| <= limit
  {
    var exact := Distinct(AllOpaqueColors(frames));
    if 0 < |exact| <= limit then exact else PopularColors(AllSampledColors(frames), limit)
  }

  /** When the opaque colours are few enough, the palette holds exactly them, each once. */
  lemma PaletteIsExact(frames: seq<Frame>, limit: nat)
    requires 0 < |Distinct(AllOpaqueColors(frames))| <= limit
    ensures forall c :: c in PaletteFor(frames, limit) <==> c in AllOpaqueColors(frames)
    ensures forall i, j :: 0 <= i < j < |PaletteFor(frames, limit)| ==> PaletteFor(frames, limit)[i] != PaletteFor(frames, limit)[j]
  {
    DistinctElements(AllOpaqueColors(frames));
  }

  // ------------------------------------------- what a popular palette must be

  datatype Channel = Red | Green | Blue

  function Level(c: Color, channel: Channel): Byte {
    match channel
    case Red => c.r
    case Green => c.g
    case Blue => c.b
  }

  /** Two colours that agree in the five leading bits of every channel. */
  predicate Alike(c: Color, d: Color) {
    c.r / 8 == d.r / 8 && c.g / 8 == d.g / 8 && c.b / 8 == d.b / 8
  }

  /** The samples that are like a colour. */
  function Like(samples: seq<Color>, c: Color): seq<Color> {
    if samples == [] then []
    else
      var front, last := Like(samples[..|samples| - 1], c), samples[|samples| - 1];
      if Alike(last, c) then front + [last] else front
  }

  function Sum(colors: seq<Color>, channel: Channel): nat {
    if colors == [] then 0 else Sum(colors[..|colors| - 1], channel) + Level(colors[|colors| - 1], channel)
  }

  /** The integer nearest to sum / n; of two, the greater one. */
  predicate IsNearest(level: nat, sum: nat, n: nat) {
    2 * sum - n < 2 * level * n <= 2 * sum + n
  }

  /** `c` is the mean of the samples that are like `of`, and like them itself. */
  predicate IsMeanOf(c: Color, samples: seq<Color>, of: Color) {
    && of in samples && Alike(c, of)
    && forall channel: Channel :: IsNearest(Level(c, channel), Sum(Like(samples, of), channel), |Like(samples, of)|)
  }

  /** The palette holds the means of the most frequent kinds of samples; `kinds` names one sample of each. */
  predicate IsPopular(palette: seq<Color>, kinds: seq<Color>, samples: seq<Color>, limit: nat) {
    && |kinds| == |palette| <= limit
    && (forall i :: 0 <= i < |palette| ==> IsMeanOf(palette[i], samples, kinds[i]))
    && AllDiffer(kinds)
    && (forall c <- samples :: IsKept(c, kinds) || (|kinds| == limit && IsRarest(c, kinds, samples)))
  }

  predicate AllDiffer(kinds: seq<Color>) {
    forall i, j :: 0 <= i < j < |kinds| ==> !Alike(kinds[i], kinds[j])
  }

  predicate IsKept(c: Color, kinds: seq<Color>) {
    exists i :: 0 <= i < |kinds| && Alike(c, kinds[i])
  }

  predicate IsRarest(c: Color, kinds: seq<Color>, samples: seq<Color>) {
    forall i :: 0 <= i < |kinds| ==> |Like(samples, c)| <= |Like(samples, kinds[i])|
  }

  lemma KeyIsAlike(c: Color, d: Color)
    ensures BucketKey(c) == BucketKey(d) <==> Alike(c, d)
  {
    SameDigits(c.r / 8, c.g / 8, c.b / 8, d.r / 8, d.g / 8, d.b / 8);
  }

  lemma SameDigits(r: nat, g: nat, b: nat, x: nat, y: nat, z: nat)
    requires g < 32 && b < 32 && y < 32 && z < 32
    ensures r * 1024 + g * 32 + b == x * 1024 + y * 32 + z <==> r == x && g == y && b == z
  {
  }

  lemma AlikeLevel(c: Color, d: Color, channel: Channel)
    requires Alike(c, d)
    ensures Level(c, channel) / 8 == Level(d, channel) / 8
  {
  }

  /** The bucket of a colour holds the channel sums and the number of the samples like it. */
  lemma {:induction false} TotalOfLike(samples: seq<Color>, c: Color)
    ensures var like := Like(samples, c);
            Total(samples, BucketKey(c)) == Bucket(Sum(like, Red), Sum(like, Green), Sum(like, Blue), |like|)
  {
    if samples != [] {
      var front, last := samples[..|samples| - 1], samples[|samples| - 1];
      TotalOfLike(front, c);
      KeyIsAlike(last, c);
      hide Alike, BucketKey;
      assert (Like(front, c) + [last])[..|Like(front, c)|] == Like(front, c);
    }
  }

  lemma {:induction false} LikeIsSampled(samples: seq<Color>, c: Color)
    ensures c in samples ==> |Like(samples, c)| > 0
    ensures BucketKey(c) in Keys(samples) <==> |Like(samples, c)| > 0
  {
    if samples != [] {
      LikeIsSampled(samples[..|samples| - 1], c);
      KeyIsAlike(samples[|samples| - 1], c);
    }
  }

  lemma {:induction false} KeyHasSample(samples: seq<Color>, key: nat) returns (c: Color)
    requires key in Keys(samples)
    ensures c in samples && BucketKey(c) == key
  {
    var front := samples[..|samples| - 1];
    if key in Keys(front) {
      c := KeyHasSample(front, key);
    } else {
      c := samples[|samples| - 1];
    }
  }

  lemma {:induction false} KeysAreDistinct(samples: seq<Color>)
    ensures forall i, j :: 0 <= i < j < |Keys(samples)| ==> Keys(samples)[i] != Keys(samples)[j]
  {
    if samples != [] {
      KeysAreDistinct(samples[..|samples| - 1]);
    }
  }

  /** The levels of like colours lie within eight steps, so their sum does. */
  lemma {:induction false} SumWithin(samples: seq<Color>, c: Color, channel: Channel)
    ensures var like := Like(samples, c);
            var least := Level(c, channel) / 8 * 8;
            least * |like| <= Sum(like, channel) <= (least + 7) * |like|
  {
    if samples != [] {
      var front, last := samples[..|samples| - 1], samples[|samples| - 1];
      SumWithin(front, c, channel);
      if Alike(last, c) {
        assert (Like(front, c) + [last])[..|Like(front, c)|] == Like(front, c);
        var least := Level(c, channel) / 8 * 8;
        AlikeLevel(last, c, channel);
        assert least <= Level(last, channel) <= least + 7;
        OneMoreWithin(least, |Like(front, c)|, Sum(Like(front, c), channel), Level(last, channel));
      }
    }
  }

  lemma OneMoreWithin(least: nat, n: nat, sum: nat, level: nat)
    requires least * n <= sum <= (least + 7) * n && least <= level <= least + 7
    ensures least * (n + 1) <= sum + level <= (least + 7) * (n + 1)
  {
    assert least * (n + 1) == least * n + least && (least + 7) * (n + 1) == (least + 7) * n + (least + 7);
  }

  lemma MeanIsNearest(sum: nat, n: nat, least: nat)
    requires n > 0 && least * n <= sum <= (least + 7) * n
    ensures IsNearest(Mean(sum, n), sum, n) && least <= Mean(sum, n) <= least + 7
  {
    var d := 2 * n;
    DivisionBounds(2 * sum + n, d);
    assert least * d == 2 * (least * n);
    DivideAbove(2 * sum + n, d, least);
    assert (least + 8) * d == 2 * ((least + 7) * n) + d;
    DivideBelow(2 * sum + n, d, least + 8);
    assert Mean(sum, n) * d == 2 * Mean(sum, n) * n;
  }

  lemma DivisionBounds(a: nat, d: nat)
    requires d > 0
    ensures a / d * d <= a < a / d * d + d
  {
  }

  lemma DivideAbove(a: nat, d: nat, bound: nat)
    requires d > 0 && bound * d <= a
    ensures bound <= a / d
  {
    var q := a / d;
    DivisionBounds(a, d);
    assert (q + 1 - bound) * d > 0;
    Positive(q + 1 - bound, d);
  }

  /** Two kinds with the same sums and numbers are one. */
  lemma SameTotalIsAlike(samples: seq<Color>, c: Color, d: Color)
    requires |Like(samples, c)| > 0 && Total(samples, BucketKey(c)) == Total(samples, BucketKey(d))
    ensures Alike(c, d)
  {
    TotalOfLike(samples, c);
    TotalOfLike(samples, d);
    hide Total, Like, Sum, BucketKey;
    forall channel: Channel
      ensures Level(c, channel) / 8 == Level(d, channel) / 8
    {
      SumWithin(samples, c, channel);
      SumWithin(samples, d, channel);
      SameStep(Level(c, channel) / 8, Level(d, channel) / 8, |Like(samples, c)|, Sum(Like(samples, c), channel));
    }
    assert Level(c, Red) / 8 == Level(d, Red) / 8 && Level(c, Green) / 8 == Level(d, Green) / 8 && Level(c, Blue) / 8 == Level(d, Blue) / 8;
  }

  lemma SameStep(a: nat, b: nat, n: nat, sum: nat)
    requires n > 0 && a * 8 * n <= sum <= (a * 8 + 7) * n && b * 8 * n <= sum <= (b * 8 + 7) * n
    ensures a == b
  {
    assert (b * 8 - (a * 8 + 7)) * n <= 0 && (a * 8 - (b * 8 + 7)) * n <= 0;
    NotPositive(b * 8 - (a * 8 + 7), n);
    NotPositive(a * 8 - (b * 8 + 7), n);
  }

  lemma Positive(x: int, n: nat)
    requires x * n > 0
    ensures x > 0
  {
  }

  lemma NotPositive(x: int, n: nat)
    requires n > 0 && x * n <= 0
    ensures x <= 0
  {
  }

  /** One sample for each bucket. */
  lemma KindsOf(samples: seq<Color>, buckets: seq<Bucket>) returns (kinds: seq<Color>)
    requires forall bucket <- buckets :: bucket in Buckets(samples)
    ensures |kinds| == |buckets|
    ensures forall i :: 0 <= i < |kinds| ==> kinds[i] in samples && Total(samples, BucketKey(kinds[i])) == buckets[i]
  {
    hide Keys, Total, BucketKey;
    kinds := [];
    for k := 0 to |buckets|
      invariant |kinds| == k
      invariant forall i :: 0 <= i < k ==> kinds[i] in samples && Total(samples, BucketKey(kinds[i])) == buckets[i]
    {
      assert buckets[k] in Buckets(samples);
      var i :| 0 <= i < |Buckets(samples)| && Buckets(samples)[i] == buckets[k];
      var c := KeyHasSample(samples, Keys(samples)[i]);
      kinds := kinds + [c];
    }
  }

  lemma BucketOf(samples: seq<Color>, c: Color)
    requires c in samples
    ensures Total(samples, BucketKey(c)) in Buckets(samples)
  {
    LikeIsSampled(samples, c);
    hide Total, BucketKey, Keys;
    var i :| 0 <= i < |Keys(samples)| && Keys(samples)[i] == BucketKey(c);
    assert Buckets(samples)[i] == Total(samples, BucketKey(c));
  }

  lemma BucketsAreDistinct(samples: seq<Color>)
    ensures forall i, j :: 0 <= i < j < |Buckets(samples)| ==> Buckets(samples)[i] != Buckets(samples)[j]
  {
    KeysAreDistinct(samples);
    hide Keys, Total, BucketKey, Alike, Like;
    forall i, j | 0 <= i < j < |Buckets(samples)|
      ensures Buckets(samples)[i] != Buckets(samples)[j]
    {
      var c := KeyHasSample(samples, Keys(samples)[i]);
      var d := KeyHasSample(samples, Keys(samples)[j]);
      LikeIsSampled(samples, c);
      KeyIsAlike(c, d);
      if Buckets(samples)[i] == Buckets(samples)[j] {
        SameTotalIsAlike(samples, c, d);
      }
    }
  }

  lemma {:induction false} DistinctOnce<T>(s: seq<T>, x: T)
    requires forall i, j :: 0 <= i < j < |s| ==> s[i] != s[j]
    ensures multiset(s)[x] <= 1
  {
    if s != [] {
      var front, last := s[..|s| - 1], s[|s| - 1];
      assert s == front + [last];
      DistinctOnce(front, x);
      assert forall i :: 0 <= i < |front| ==> front[i] != last;
      assert last !in multiset(front);
    }
  }

  lemma Twice<T>(t: seq<T>, i: nat, j: nat)
    requires i < j < |t| && t[i] == t[j]
    ensures multiset(t)[t[i]] >= 2
  {
    assert t == t[..j] + [t[j]] + t[j + 1..];
    assert t[i] in t[..j];
    assert multiset(t) == multiset(t[..j]) + multiset{t[j]} + multiset(t[j + 1..]);
    assert multiset(t[..j])[t[i]] >= 1;
  }

  /** What is distinct stays so in any order. */
  lemma ReorderedDistinct<T>(s: seq<T>, t: seq<T>, i: nat, j: nat)
    requires (forall i, j :: 0 <= i < j < |s| ==> s[i] != s[j]) && multiset(s) == multiset(t) && i < j < |t|
    ensures t[i] != t[j]
  {
    DistinctOnce(s, t[i]);
    if t[i] == t[j] {
      Twice(t, i, j);
    }
  }

  lemma {:induction false} MeanColorsAt(buckets: seq<Bucket>, i: nat)
    requires (forall bucket <- buckets :: Plausible(bucket)) && i < |buckets|
    ensures MeanColors(buckets)[i] == MeanColor(buckets[i])
  {
    if i > 0 {
      MeanColorsAt(buckets[1..], i - 1);
    }
  }

  lemma MeanLevel(bucket: Bucket, channel: Channel, sum: nat)
    requires Plausible(bucket) && sum == (match channel case Red => bucket.r case Green => bucket.g case Blue => bucket.b)
    ensures Level(MeanColor(bucket), channel) == Mean(sum, bucket.n)
  {
    hide Mean;
  }

  lemma MeanLevelIsNearest(samples: seq<Color>, c: Color, bucket: Bucket, channel: Channel)
    requires c in samples && bucket == Total(samples, BucketKey(c)) && Plausible(bucket)
    ensures IsNearest(Level(MeanColor(bucket), channel), Sum(Like(samples, c), channel), |Like(samples, c)|)
    ensures Level(MeanColor(bucket), channel) / 8 == Level(c, channel) / 8
  {
    LikeIsSampled(samples, c);
    TotalOfLike(samples, c);
    hide Like, Sum, Total, Mean, MeanColor, BucketKey, IsNearest, Plausible, Level;
    MeanLevel(bucket, channel, Sum(Like(samples, c), channel));
    SumWithin(samples, c, channel);
    MeanIsNearest(Sum(Like(samples, c), channel), |Like(samples, c)|, Level(c, channel) / 8 * 8);
    SameEighth(Level(MeanColor(bucket), channel), Level(c, channel));
  }

  lemma SameEighth(a: nat, b: nat)
    requires b / 8 * 8 <= a <= b / 8 * 8 + 7
    ensures a / 8 == b / 8
  {
  }

  lemma MeanColorIsMean(samples: seq<Color>, c: Color)
    requires c in samples && Plausible(Total(samples, BucketKey(c)))
    ensures IsMeanOf(MeanColor(Total(samples, BucketKey(c))), samples, c)
  {
    hide Like, Sum, Total, MeanColor, BucketKey, IsNearest, Plausible;
    var bucket := Total(samples, BucketKey(c));
    forall channel: Channel
      ensures IsNearest(Level(MeanColor(bucket), channel), Sum(Like(samples, c), channel), |Like(samples, c)|)
    {
      MeanLevelIsNearest(samples, c, bucket, channel);
    }
    MeanLevelIsNearest(samples, c, bucket, Red);
    MeanLevelIsNearest(samples, c, bucket, Green);
    MeanLevelIsNearest(samples, c, bucket, Blue);
  }

  /** One sample for each bucket that is kept. */
  lemma KeptKinds(samples: seq<Color>, sorted: seq<Bucket>, kept: seq<Bucket>) returns (kinds: seq<Color>)
    requires multiset(sorted) == multiset(Buckets(samples)) && kept <= sorted
    ensures |kinds| == |kept| && AllDiffer(kinds)
    ensures forall i :: 0 <= i < |kinds| ==> kinds[i] in samples && Total(samples, BucketKey(kinds[i])) == kept[i]
  {
    hide Buckets, Total, BucketKey, Alike;
    BucketsAreDistinct(samples);
    forall bucket <- kept
      ensures bucket in Buckets(samples)
    {
      assert bucket in multiset(sorted);
    }
    kinds := KindsOf(samples, kept);
    forall i, j | 0 <= i < j < |kinds|
      ensures !Alike(kinds[i], kinds[j])
    {
      ReorderedDistinct(Buckets(samples), sorted, i, j);
      KeyIsAlike(kinds[i], kinds[j]);
    }
  }

  /** The kept means are those of the most frequent kinds. */
  lemma KeptMeans(samples: seq<Color>, sorted: seq<Bucket>, kept: seq<Bucket>, limit: nat) returns (kinds: seq<Color>)
    requires (forall bucket <- sorted :: Plausible(bucket)) && Falling(sorted) && multiset(sorted) == multiset(Buckets(samples))
    requires kept == if |sorted| <= limit then sorted else sorted[..limit]
    ensures IsPopular(MeanColors(kept), kinds, samples, limit)
  {
    hide Buckets, Total, BucketKey, MeanColors, MeanColor, Plausible, IsMeanOf, IsKept, IsRarest, Falling, AllDiffer;
    kinds := KeptKinds(samples, sorted, kept);
    forall i | 0 <= i < |kinds|
      ensures IsMeanOf(MeanColors(kept)[i], samples, kinds[i])
    {
      MeanColorsAt(kept, i);
      MeanColorIsMean(samples, kinds[i]);
    }
    forall c <- samples
      ensures IsKept(c, kinds) || (|kinds| == limit && IsRarest(c, kinds, samples))
    {
      KeptOrRare(samples, sorted, kept, kinds, limit, c);
    }
  }

  /** With too many colours for an exact one, the palette holds the means of the most frequent kinds. */
  lemma PopularPalette(frames: seq<Frame>, limit: nat) returns (kinds: seq<Color>)
    requires |Distinct(AllOpaqueColors(frames))| > limit
    ensures IsPopular(PaletteFor(frames, limit), kinds, AllSampledColors(frames), limit)
  {
    var samples := AllSampledColors(frames);
    BucketsPlausible(samples);
    ByCountSorts(Buckets(samples));
    hide ByCount, Buckets, Distinct, AllOpaqueColors, AllSampledColors, MeanColors, IsPopular, Falling, Plausible;
    var sorted := ByCount(Buckets(samples));
    kinds := KeptMeans(samples, sorted, if |sorted| <= limit then sorted else sorted[..limit], limit);
  }

  lemma KeptOrRare(samples: seq<Color>, sorted: seq<Bucket>, kept: seq<Bucket>, kinds: seq<Color>, limit: nat, c: Color)
    requires Falling(sorted) && multiset(sorted) == multiset(Buckets(samples)) && c in samples
    requires kept == (if |sorted| <= limit then sorted else sorted[..limit]) && |kinds| == |kept|
    requires forall i :: 0 <= i < |kinds| ==> kinds[i] in samples && Total(samples, BucketKey(kinds[i])) == kept[i]
    ensures IsKept(c, kinds) || (|kinds| == limit && IsRarest(c, kinds, samples))
  {
    BucketOf(samples, c);
    LikeIsSampled(samples, c);
    TotalOfLike(samples, c);
    hide Buckets, Total, BucketKey, Alike, Like, Sum, Keys;
    assert Total(samples, BucketKey(c)) in multiset(sorted);
    var p :| 0 <= p < |sorted| && sorted[p] == Total(samples, BucketKey(c));
    if p < |kept| {
      SameTotalIsAlike(samples, c, kinds[p]);
    } else {
      forall i | 0 <= i < |kinds|
        ensures |Like(samples, c)| <= |Like(samples, kinds[i])|
      {
        TotalOfLike(samples, kinds[i]);
      }
    }
  }

  /** So a sample of a kept kind is within seven levels of a palette entry in every channel. */
  lemma KeptWithinSeven(palette: seq<Color>, kinds: seq<Color>, samples: seq<Color>, limit: nat, c: Color, i: nat, channel: Channel)
    requires IsPopular(palette, kinds, samples, limit) && i < |kinds| && Alike(c, kinds[i])
    ensures -7 <= Level(c, channel) - Level(palette[i], channel) <= 7
  {
    assert IsMeanOf(palette[i], samples, kinds[i]);
    AlikeLevel(c, kinds[i], channel);
    AlikeLevel(palette[i], kinds[i], channel);
  }

  /** Every fourth pixel counts, if it is opaque. */
  predicate IsSample(frame: Frame, p: nat, c: Color) {
    p < |frame| && p % 4 == 0 && Opaque(frame[p]) && frame[p].color == c
  }

  /** The samples are the opaque ones of every fourth pixel of each frame. */
  lemma SampledExactly(frames: seq<Frame>, c: Color)
    ensures c in AllSampledColors(frames) <==> exists f: nat, p: nat :: f < |frames| && IsSample(frames[f], p, c)
  {
    hide AllSampledColors, IsSample;
    if c in AllSampledColors(frames) {
      var f, p := SampleComesFrom(frames, c);
    }
    forall f: nat, p: nat | f < |frames| && IsSample(frames[f], p, c)
      ensures c in AllSampledColors(frames)
    {
      SampleIsMet(frames, f, p, c);
    }
  }

  lemma {:induction false} SampleComesFrom(frames: seq<Frame>, c: Color) returns (f: nat, p: nat)
    requires c in AllSampledColors(frames)
    ensures f < |frames| && IsSample(frames[f], p, c)
  {
    f := |frames| - 1;
    if c in SampledColors(frames[f]) {
      p := SampleComesFromFrame(frames[f], c);
    } else {
      f, p := SampleComesFrom(frames[..f], c);
    }
  }

  lemma {:induction false} SampleComesFromFrame(frame: Frame, c: Color) returns (p: nat)
    requires c in SampledColors(frame)
    ensures IsSample(frame, p, c)
  {
    p := |frame| - 1;
    if p % 4 != 0 || !Opaque(frame[p]) || frame[p].color != c {
      p := SampleComesFromFrame(frame[..p], c);
    }
  }

  lemma {:induction false} SampleIsMet(frames: seq<Frame>, f: nat, p: nat, c: Color)
    requires f < |frames| && IsSample(frames[f], p, c)
    ensures c in AllSampledColors(frames)
  {
    if f == |frames| - 1 {
      SampleIsMetIn(frames[f], p, c);
    } else {
      SampleIsMet(frames[..|frames| - 1], f, p, c);
    }
  }

  lemma {:induction false} SampleIsMetIn(frame: Frame, p: nat, c: Color)
    requires IsSample(frame, p, c)
    ensures c in SampledColors(frame)
  {
    if p < |frame| - 1 {
      SampleIsMetIn(frame[..|frame| - 1], p, c);
    }
  }

  lemma {:induction false} FrameColorsAreAll(frames: seq<Frame>, i: nat, p: nat)
    requires i < |frames| && p < |frames[i]| && Opaque(frames[i][p])
    ensures frames[i][p].color in AllOpaqueColors(frames)
  {
    if i == |frames| - 1 {
      ColorInFrame(frames[i], p);
    } else {
      FrameColorsAreAll(frames[..|frames| - 1], i, p);
    }
  }

  lemma {:induction false} ColorInFrame(frame: Frame, p: nat)
    requires p < |frame| && Opaque(frame[p])
    ensures frame[p].color in OpaqueColors(frame)
  {
    if p < |frame| - 1 {
      ColorInFrame(frame[..|frame| - 1], p);
    }
  }

  lemma {:induction false} ColorComesFrom(frames: seq<Frame>, c: Color) returns (f: nat, p: nat)
    requires c in AllOpaqueColors(frames)
    ensures f < |frames| && p < |frames[f]| && Opaque(frames[f][p]) && frames[f][p].color == c
  {
    f := |frames| - 1;
    if c in OpaqueColors(frames[f]) {
      p := ColorComesFromFrame(frames[f], c);
    } else {
      f, p := ColorComesFrom(frames[..f], c);
    }
  }

  lemma {:induction false} ColorComesFromFrame(frame: Frame, c: Color) returns (p: nat)
    requires c in OpaqueColors(frame)
    ensures p < |frame| && Opaque(frame[p]) && frame[p].color == c
  {
    p := |frame| - 1;
    if !Opaque(frame[p]) || frame[p].color != c {
      p := ColorComesFromFrame(frame[..p], c);
    }
  }

  lemma OpaqueColorsStep(frame: Frame, offset: nat)
    requires offset < |frame|
    ensures OpaqueColors(frame[..offset + 1]) == OpaqueColors(frame[..offset]) + if Opaque(frame[offset]) then [frame[offset].color] else []
    ensures SampledColors(frame[..offset + 1])
         == SampledColors(frame[..offset]) + if offset % 4 == 0 && Opaque(frame[offset]) then [frame[offset].color] else []
  {
    assert frame[..offset + 1][..offset] == frame[..offset];
  }

  lemma AllColorsStep(frames: seq<Frame>, f: nat)
    requires f < |frames|
    ensures AllOpaqueColors(frames[..f + 1]) == AllOpaqueColors(frames[..f]) + OpaqueColors(frames[f])
    ensures AllSampledColors(frames[..f + 1]) == AllSampledColors(frames[..f]) + SampledColors(frames[f])
  {
    assert frames[..f + 1][..f] == frames[..f];
  }

  lemma {:induction false} FramePrefix(frame: Frame, offset: nat) returns (rest: seq<Color>)
    requires offset <= |frame|
    ensures OpaqueColors(frame) == OpaqueColors(frame[..offset]) + rest
    decreases |frame| - offset
  {
    if offset == |frame| {
      assert frame[..offset] == frame;
      rest := [];
    } else {
      var later := FramePrefix(frame, offset + 1);
      OpaqueColorsStep(frame, offset);
      rest := (if Opaque(frame[offset]) then [frame[offset].color] else []) + later;
    }
  }

  lemma {:induction false} FramesPrefix(frames: seq<Frame>, f: nat) returns (rest: seq<Color>)
    requires f <= |frames|
    ensures AllOpaqueColors(frames) == AllOpaqueColors(frames[..f]) + rest
    decreases |frames| - f
  {
    if f == |frames| {
      assert frames[..f] == frames;
      rest := [];
    } else {
      var later := FramesPrefix(frames, f + 1);
      AllColorsStep(frames, f);
      rest := OpaqueColors(frames[f]) + later;
    }
  }

  /** The colours met so far are no more than all the distinct colours. */
  lemma SeenBound(frames: seq<Frame>, f: nat, offset: nat)
    requires f < |frames| && offset <= |frames[f]|
    ensures |Distinct(AllOpaqueColors(frames[..f]) + OpaqueColors(frames[f][..offset]))| <= |Distinct(AllOpaqueColors(frames))|
  {
    var inFrame := FramePrefix(frames[f], offset);
    var after := FramesPrefix(frames, f + 1);
    AllColorsStep(frames, f);
    var seen := AllOpaqueColors(frames[..f]) + OpaqueColors(frames[f][..offset]);
    assert AllOpaqueColors(frames) == seen + (inFrame + after);
    DistinctGrows(seen, inFrame + after);
  }

  /** The first loop: the distinct opaque colours, abandoned as soon as there are too many. */
  method ExactColors(frames: seq<Frame>, limit: nat) returns (exact: seq<Color>)
    ensures if |Distinct(AllOpaqueColors(frames))| <= limit then exact == Distinct(AllOpaqueColors(frames)) else |exact| > limit
  {
    hide AllOpaqueColors, OpaqueColors, Distinct;
    exact := [];
    NoColors();
    for f := 0 to |frames|
      invariant exact == Distinct(AllOpaqueColors(frames[..f])) && |exact| <= limit
    {
      var pixels := frames[f];
      assert pixels[..0] == [] && AllOpaqueColors(frames[..f]) + [] == AllOpaqueColors(frames[..f]);
      for offset := 0 to |pixels|
        invariant exact == Distinct(AllOpaqueColors(frames[..f]) + OpaqueColors(pixels[..offset])) && |exact| <= limit
      {
        OpaqueColorsStep(pixels, offset);
        SeenBound(frames, f, offset + 1);
        var seen := AllOpaqueColors(frames[..f]) + OpaqueColors(pixels[..offset]);
        if Opaque(pixels[offset]) {
          assert seen + [pixels[offset].color] == AllOpaqueColors(frames[..f]) + OpaqueColors(pixels[..offset + 1]);
          DistinctAppend(seen, pixels[offset].color);
          exact := Learn(exact, pixels[offset].color);
          if |exact| > limit {
            return;
          }
        } else {
          assert OpaqueColors(pixels[..offset]) + [] == OpaqueColors(pixels[..offset]);
        }
      }
      assert pixels[..|pixels|] == pixels;
      AllColorsStep(frames, f);
    }
    assert frames[..|frames|] == frames;
  }

  lemma NoColors()
    ensures OpaqueColors([]) == [] && AllOpaqueColors([]) == [] && Distinct<Color>([]) == []
  {
  }

  method PaletteFromFrames(frames: seq<Frame>, limit: nat) returns (palette: seq<Color>)
    ensures palette == PaletteFor(frames, limit)
  {
    var exact := ExactColors(frames, limit);
    if 0 < |exact| <= limit {
      return exact;
    }
    var buckets := CountBuckets(frames);
    var sorted := ByCount(buckets);
    BucketsPlausible(AllSampledColors(frames));
    palette := MeanColors(if |sorted| <= limit then sorted else sorted[..limit]);
  }

  /** The second loop: the sampled opaque colours, summed by bucket. */
  method CountBuckets(frames: seq<Frame>) returns (buckets: seq<Bucket>)
    ensures buckets == Buckets(AllSampledColors(frames))
  {
    hide AllSampledColors, SampledColors;
    var keys: seq<nat>, totals: map<nat, Bucket> := [], map[];
    NoSamples();
    for f := 0 to |frames|
      invariant Counted(AllSampledColors(frames[..f]), keys, totals)
    {
      var pixels := frames[f];
      assert pixels[..0] == [] && AllSampledColors(frames[..f]) + [] == AllSampledColors(frames[..f]);
      for offset := 0 to |pixels|
        invariant Counted(AllSampledColors(frames[..f]) + SampledColors(pixels[..offset]), keys, totals)
      {
        OpaqueColorsStep(pixels, offset);
        ghost var seen := AllSampledColors(frames[..f]) + SampledColors(pixels[..offset]);
        if offset % 4 == 0 && Opaque(pixels[offset]) {
          var c := pixels[offset].color;
          var key := BucketKey(c);
          CountOne(seen, keys, totals, c);
          assert seen + [c] == AllSampledColors(frames[..f]) + SampledColors(pixels[..offset + 1]);
          keys, totals := Learn(keys, key), totals[key := Add(if key in totals then totals[key] else Bucket(0, 0, 0, 0), c)];
        } else {
          assert SampledColors(pixels[..offset]) + [] == SampledColors(pixels[..offset]);
        }
      }
      assert pixels[..|pixels|] == pixels;
      AllColorsStep(frames, f);
    }
    assert frames[..|frames|] == frames;
    buckets := seq(|keys|, i requires 0 <= i < |keys| && keys[i] in totals => totals[keys[i]]);
  }

  lemma NoSamples()
    ensures SampledColors([]) == [] && AllSampledColors([]) == [] && Keys([]) == []
  {
  }

  ghost predicate Counted(samples: seq<Color>, keys: seq<nat>, totals: map<nat, Bucket>) {
    keys == Keys(samples) && (forall key :: key in totals <==> key in keys) && forall key <- totals :: totals[key] == Total(samples, key)
  }

  lemma CountOne(samples: seq<Color>, keys: seq<nat>, totals: map<nat, Bucket>, c: Color)
    requires Counted(samples, keys, totals)
    ensures var key := BucketKey(c);
            Counted(samples + [c], Learn(keys, key), totals[key := Add(if key in totals then totals[key] else Bucket(0, 0, 0, 0), c)])
  {
    assert (samples + [c])[..|samples|] == samples;
    TotalPlausible(samples, BucketKey(c));
  }
}

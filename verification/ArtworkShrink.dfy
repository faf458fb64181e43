/** Fitting artwork into the transfer limit: encode at falling qualities, shrink by a quarter, repeat. */
module ArtworkShrink {
  import opened Numbers
  import opened Sequences
  import opened Wire
  import opened ArtworkCache

  datatype Image = Image(width: nat, height: nat, pixels: nat)
  datatype Config = Config(width: int, height: int, jpeg: bool)

  /** The image library: `fit` and `scale` redraw an image at the size asked for, in two ways. */
  datatype Codec = Codec(
    config: Bytes -> Option<Config>,
    decode: Bytes -> Option<Image>,
    fit: (Image, nat, nat) -> nat,
    scale: (Image, nat, nat) -> nat,
    encode: (Image, nat) -> Option<Bytes>)

  /** The sides of an image brought down to the largest dimension, in exact arithmetic. */
  function Fitted(side: nat, longest: nat): nat
    requires longest > 0
  {
    Max(1, side * MAX_DIMENSION / longest)
  }

  function Shrunk(side: nat): nat { Max(MIN_DIMENSION, side * 3 / 4) }

  /** The longest side an image can have after `n` shrinks. */
  function LongestAfter(n: nat): nat {
    if n == 0 then MAX_DIMENSION else Shrunk(LongestAfter(n - 1))
  }

  lemma LongestAfterEight()
    ensures LongestAfter(8) == MIN_DIMENSION
  {
    assert LongestAfter(2) == 288;
    assert LongestAfter(4) == 162;
    assert LongestAfter(6) == 90;
  }

  lemma FittedBound(side: nat, longest: nat)
    requires side <= longest && longest > 0
    ensures Fitted(side, longest) <= MAX_DIMENSION
  {
    assert side * MAX_DIMENSION <= MAX_DIMENSION * longest;
    QuotientBound(side * MAX_DIMENSION, longest, MAX_DIMENSION);
  }

  lemma QuotientBound(a: nat, b: nat, q: nat)
    requires b > 0 && a <= q * b
    ensures a / b <= q
  {
  }

  ghost predicate AllFit(contents: seq<Pair>) {
    forall i :: 0 <= i < |contents| ==> |contents[i].1| <= MAX_ARTWORK
  }

  lemma {:induction false} WithoutFits(pairs: seq<Pair>, key: Key)
    requires AllFit(pairs)
    ensures AllFit(Without(pairs, key))
    ensures Lookup(pairs, key).Some? ==> |Lookup(pairs, key).value| <= MAX_ARTWORK
    decreases |pairs|
  {
    if pairs != [] {
      WithoutFits(pairs[1..], key);
    }
  }

  const QUALITIES: seq<nat> := [75, 60, 45, 35]

  datatype Outcome = Fits(data: Bytes) | Broken | TooBig

  /** Encoding at each quality in turn: the first result that fits, unless the encoder fails first. */
  function Encoded(codec: Codec, image: Image, qualities: seq<nat>): Outcome {
    if qualities == [] then TooBig
    else
      var data := codec.encode(image, qualities[0]);
      if data == None then Broken
      else if |data.value| <= MAX_ARTWORK then Fits(data.value)
      else Encoded(codec, image, qualities[1..])
  }

  predicate FitsAt(codec: Codec, image: Image, quality: nat, data: Bytes) {
    codec.encode(image, quality) == Some(data) && |data| <= 49_152
  }

  predicate TooBigOf(codec: Codec, image: Image, quality: nat) {
    codec.encode(image, quality).Some? && |codec.encode(image, quality).value| > 49_152
  }

  /** The result is the first of 75, 60, 45 and 35 that fits, every higher quality having come out too big. */
  lemma EncodedIsBestQuality(codec: Codec, image: Image, data: Bytes)
    ensures Encoded(codec, image, QUALITIES) == Fits(data) <==>
            exists q {:trigger FitsAt(codec, image, q, data)} :: q in {75, 60, 45, 35} && FitsAt(codec, image, q, data)
              && forall p: nat {:trigger TooBigOf(codec, image, p)} :: p in {75, 60, 45, 35} && p > q ==>
                   TooBigOf(codec, image, p)
  {
    assert QUALITIES == [75] + [60] + [45] + [35];
    assert Encoded(codec, image, []) == TooBig;
    assert QUALITIES[1..] == [60, 45, 35] && [60, 45, 35][1..] == [45, 35];
    assert [45, 35][1..] == [35] && [35][1..] == [];
    assert forall q :: FitsAt(codec, image, q, data) ==> !TooBigOf(codec, image, q);
    FirstOfFour(codec, image, data);
  }

  lemma FirstOfFour(codec: Codec, image: Image, data: Bytes)
    ensures Encoded(codec, image, [75, 60, 45, 35]) == Fits(data) <==>
            || FitsAt(codec, image, 75, data)
            || (TooBigOf(codec, image, 75) && (FitsAt(codec, image, 60, data)
            || (TooBigOf(codec, image, 60) && (FitsAt(codec, image, 45, data)
            || (TooBigOf(codec, image, 45) && FitsAt(codec, image, 35, data))))))
  {
    assert [75, 60, 45, 35][1..] == [60, 45, 35] && [60, 45, 35][1..] == [45, 35];
    assert [45, 35][1..] == [35] && [35][1..] == [];
    assert Encoded(codec, image, []) == TooBig;
    assert Encoded(codec, image, [35]) == Fits(data) <==> FitsAt(codec, image, 35, data);
    assert Encoded(codec, image, [45, 35]) == Fits(data) <==>
           FitsAt(codec, image, 45, data) || (TooBigOf(codec, image, 45) && FitsAt(codec, image, 35, data));
  }

  /** A side above 64 shrinks, but not below 64; and the longer side stays the longer one. */
  lemma SmallerKeepsShape(codec: Codec, image: Image)
    ensures var next := Smaller(codec, image);
            && (image.width >= 64 ==> 64 <= next.width <= image.width && 4 * next.width <= Max(256, 3 * image.width))
            && (image.height >= 64 ==>
                  64 <= next.height <= image.height && 4 * next.height <= Max(256, 3 * image.height))
            && (image.width >= image.height ==> next.width >= next.height)
            && (image.width <= image.height ==> next.width <= next.height)
            && next.pixels == codec.scale(image, next.width, next.height)
  {
  }

  function Smaller(codec: Codec, image: Image): Image {
    var width, height := Shrunk(image.width), Shrunk(image.height);
    Image(width, height, codec.scale(image, width, height))
  }

  /** The result at the largest of the shrunk sizes at which some quality fits. */
  function Best(codec: Codec, image: Image): Option<Bytes>
    decreases Max(image.width, MIN_DIMENSION) + Max(image.height, MIN_DIMENSION)
  {
    match Encoded(codec, image, QUALITIES)
    case Fits(data) => Some(data)
    case Broken => None
    case TooBig =>
      if image.width <= MIN_DIMENSION && image.height <= MIN_DIMENSION then None
      else Best(codec, Smaller(codec, image))
  }

  /** The image after `n` shrinks. */
  function After(codec: Codec, image: Image, n: nat): Image
    decreases n
  {
    if n == 0 then image else After(codec, Smaller(codec, image), n - 1)
  }

  predicate TooBigAt(codec: Codec, image: Image) {
    Encoded(codec, image, QUALITIES) == TooBig && (image.width > MIN_DIMENSION || image.height > MIN_DIMENSION)
  }

  /** The result comes from the first of the falling sizes at which some quality fits. */
  ghost predicate FirstFit(codec: Codec, image: Image, data: Bytes, n: nat) {
    && Encoded(codec, After(codec, image, n), QUALITIES) == Fits(data)
    && forall m: nat :: m < n ==> TooBigAt(codec, After(codec, image, m))
  }

  lemma {:induction false} BestIsFirstFit(codec: Codec, image: Image, data: Bytes)
    ensures Best(codec, image) == Some(data) <==> exists n: nat :: FirstFit(codec, image, data, n)
    decreases Max(image.width, MIN_DIMENSION) + Max(image.height, MIN_DIMENSION)
  {
    hide Encoded;
    if TooBigAt(codec, image) {
      var next := Smaller(codec, image);
      BestIsFirstFit(codec, next, data);
      assert Best(codec, image) == Best(codec, next);
      if n: nat :| FirstFit(codec, next, data, n) {
        FirstFitLater(codec, image, data, n);
      }
      if n: nat :| FirstFit(codec, image, data, n) {
        assert After(codec, image, 0) == image && n > 0;
        FirstFitLater(codec, image, data, n - 1);
      }
    } else {
      assert After(codec, image, 0) == image;
      assert Best(codec, image) == Some(data) ==> FirstFit(codec, image, data, 0);
      forall n: nat | n > 0 ensures !FirstFit(codec, image, data, n) {
      }
    }
  }

  lemma FirstFitLater(codec: Codec, image: Image, data: Bytes, n: nat)
    requires TooBigAt(codec, image)
    ensures FirstFit(codec, image, data, n + 1) == FirstFit(codec, Smaller(codec, image), data, n)
  {
    hide Encoded, TooBigAt;
    var next := Smaller(codec, image);
    forall m: nat ensures After(codec, image, m + 1) == After(codec, next, m) {
    }
    assert After(codec, image, 0) == image;
    if FirstFit(codec, image, data, n + 1) {
      forall m: nat | m < n ensures TooBigAt(codec, After(codec, next, m)) {
        assert TooBigAt(codec, After(codec, image, m + 1));
      }
    }
    if FirstFit(codec, next, data, n) {
      forall m: nat | m < n + 1 ensures TooBigAt(codec, After(codec, image, m)) {
        if m > 0 { assert After(codec, image, (m - 1) + 1) == After(codec, next, m - 1); }
      }
    }
  }

  /** What becomes of new artwork: refused, sent as it is, or drawn at these dimensions and encoded. */
  datatype Plan = Refuse | AsIs | Draw(image: Image)

  function Planned(codec: Codec, data: Bytes): (p: Plan)
    ensures p.AsIs? ==> |data| <= MAX_ARTWORK
    ensures p.Draw? ==> p.image.width <= MAX_DIMENSION && p.image.height <= MAX_DIMENSION
  {
    var config := codec.config(data);
    if config == None || config.value.width <= 0 || config.value.height <= 0 then Refuse
    else if config.value.jpeg && config.value.width <= MAX_DIMENSION && config.value.height <= MAX_DIMENSION
            && |data| <= MAX_ARTWORK then AsIs
    else if config.value.width * config.value.height > MAX_PIXELS then Refuse
    else
      var decoded := codec.decode(data);
      if decoded == None then Refuse else Draw(BroughtDown(codec, decoded.value))
  }

  function BroughtDown(codec: Codec, image: Image): (r: Image)
    ensures r.width <= MAX_DIMENSION && r.height <= MAX_DIMENSION
  {
    var longest := Max(image.width, image.height);
    if longest <= MAX_DIMENSION then image
    else
      FittedBound(image.width, longest);
      FittedBound(image.height, longest);
      var width, height := Fitted(image.width, longest), Fitted(image.height, longest);
      Image(width, height, codec.fit(image, width, height))
  }

  /**
   An image above 512 gets a longest side of exactly 512, and its other side keeps the ratio as closely
   as whole pixels allow.
   */
  lemma BroughtDownKeepsShape(codec: Codec, image: Image)
    requires image.width > 512 || image.height > 512
    ensures var r := BroughtDown(codec, image);
            && (image.width >= image.height ==>
                  r.width == 512 && r.height >= 1
                  && (r.height - 1) * image.width <= 512 * image.height < (r.height + 1) * image.width)
            && (image.height >= image.width ==>
                  r.height == 512 && r.width >= 1
                  && (r.width - 1) * image.height <= 512 * image.width < (r.width + 1) * image.height)
            && r.pixels == codec.fit(image, r.width, r.height)
  {
    hide Fitted;
    var longest := Max(image.width, image.height);
    FittedRatio(image.width, longest);
    FittedRatio(image.height, longest);
  }

  lemma FittedRatio(side: nat, longest: nat)
    requires longest > 512
    ensures var f := Fitted(side, longest);
            && f >= 1 && (f - 1) * longest <= 512 * side < (f + 1) * longest
            && (side == longest ==> f == 512)
  {
    var a := side * MAX_DIMENSION;
    var q := a / longest;
    assert a == q * longest + a % longest;
    assert (q + 1) * longest == q * longest + longest;
    if side == longest { ExactQuotient(longest); }
    assert q >= 1 ==> (q - 1) * longest == q * longest - longest && (q + 1) * longest == q * longest + longest;
  }

  lemma ExactQuotient(n: nat)
    requires n > 0
    ensures n * 512 / n == 512
  {
    var q := n * 512 / n;
    assert n * 512 == q * n + n * 512 % n;
    if q < 512 {
      assert n * 512 == q * n + (512 - q) * n;
      MoreTimes(512 - q, n);
    } else if q > 512 {
      assert q * n == 512 * n + (q - 512) * n;
      MoreTimes(q - 512, n);
    }
  }

  lemma MoreTimes(k: nat, n: nat)
    requires k >= 1
    ensures k * n >= n
  {
  }

  function Compressed(codec: Codec, data: Bytes): Option<Bytes> {
    match Planned(codec, data)
    case Refuse => None
    case AsIs => Some(data)
    case Draw(image) => Best(codec, image)
  }

  class Compressor {
    const codec: Codec
    const cache: ArtworkLRU

    constructor (codec: Codec)
      ensures cache.Valid() && fresh(cache) && fresh(cache.Repr) && cache.contents == [] && this.codec == codec
    {
      this.codec := codec;
      cache := new ArtworkLRU();
    }

    /** Caches a result that fits. */
    method Store(key: Key, data: Bytes)
      requires cache.Valid() && AllFit(cache.contents) && |data| <= MAX_ARTWORK
      modifies cache.Repr
      ensures cache.Valid() && fresh(cache.Repr - old(cache.Repr)) && AllFit(cache.contents)
      ensures cache.contents == First(Front(old(cache.contents), key, data), CAPACITY)
    {
      WithoutFits(cache.contents, key);
      cache.Add(key, data);
    }

    /**
     Artwork that fits, from the cache or newly made and then cached; None when it cannot be made to
     fit. Nothing above the limit is ever cached, and no image is encoded at more than nine sizes.
     */
    method CompressArtwork(key: Key, data: Bytes) returns (r: Option<Bytes>, ghost sizes: nat)
      requires cache.Valid() && AllFit(cache.contents)
      modifies cache.Repr
      ensures cache.Valid() && fresh(cache.Repr - old(cache.Repr)) && AllFit(cache.contents)
      ensures var hit := Lookup(old(cache.contents), key);
              && r == (if hit.Some? then hit else Compressed(codec, data))
              && cache.contents == if hit.Some? then Front(old(cache.contents), key, hit.value)
                                   else if r.Some? then First(Front(old(cache.contents), key, r.value), CAPACITY)
                                   else old(cache.contents)
      ensures r.Some? ==> |r.value| <= MAX_ARTWORK
      ensures sizes <= 9
    {
      sizes := 0;
      WithoutFits(cache.contents, key);
      var cached := cache.Get(key);
      if cached.Some? {
        return cached, 0;
      }
      var config := codec.config(data);
      if config == None || config.value.width <= 0 || config.value.height <= 0 { return None, 0; }
      if config.value.jpeg && config.value.width <= MAX_DIMENSION && config.value.height <= MAX_DIMENSION
         && |data| <= MAX_ARTWORK {
        Store(key, data);
        return Some(data), 0;
      }
      if config.value.width * config.value.height > MAX_PIXELS { return None, 0; }
      var decoded := codec.decode(data);
      if decoded == None { return None, 0; }
      var image := decoded.value;
      if image.width > MAX_DIMENSION || image.height > MAX_DIMENSION {
        var longest := Max(image.width, image.height);
        FittedBound(image.width, longest);
        FittedBound(image.height, longest);
        var width, height := Fitted(image.width, longest), Fitted(image.height, longest);
        image := Image(width, height, codec.fit(image, width, height));
      }
      assert image == BroughtDown(codec, decoded.value);
      r, sizes := Shrink(key, image);
    }

    method Shrink(key: Key, original: Image) returns (r: Option<Bytes>, ghost sizes: nat)
      requires cache.Valid() && AllFit(cache.contents)
      requires original.width <= MAX_DIMENSION && original.height <= MAX_DIMENSION
      modifies cache.Repr
      ensures cache.Valid() && fresh(cache.Repr - old(cache.Repr)) && AllFit(cache.contents)
      ensures r == Best(codec, original) && (r.Some? ==> |r.value| <= MAX_ARTWORK)
      ensures cache.contents == if r.Some? then First(Front(old(cache.contents), key, r.value), CAPACITY)
                                else old(cache.contents)
      ensures sizes <= 9
    {
      var image := original;
      sizes := 0;
      LongestAfterEight();
      while true
        invariant cache.Valid() && AllFit(cache.contents) && cache.Repr == old(cache.Repr)
        invariant cache.contents == old(cache.contents)
        invariant sizes <= 8 && Best(codec, image) == Best(codec, original)
        invariant image.width <= LongestAfter(sizes) && image.height <= LongestAfter(sizes)
        decreases Max(image.width, MIN_DIMENSION) + Max(image.height, MIN_DIMENSION)
      {
        assert QUALITIES[0..] == QUALITIES;
        for q := 0 to |QUALITIES|
          invariant Encoded(codec, image, QUALITIES[q..]) == Encoded(codec, image, QUALITIES)
          invariant cache.Valid() && AllFit(cache.contents) && cache.Repr == old(cache.Repr)
          invariant cache.contents == old(cache.contents)
        {
          var encoded := codec.encode(image, QUALITIES[q]);
          if encoded == None { return None, sizes + 1; }
          if |encoded.value| <= MAX_ARTWORK {
            Store(key, encoded.value);
            return encoded, sizes + 1;
          }
        }
        if image.width <= MIN_DIMENSION && image.height <= MIN_DIMENSION { return None, sizes + 1; }
        assert sizes < 8;
        image := Smaller(codec, image);
        sizes := sizes + 1;
      }
    }
  }
}

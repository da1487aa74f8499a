/**
  The painter's colour arithmetic: 32-bit words holding four 8-bit channels, and the
  blending of one colour over another.  Words are naturals below 2^32; wrap-around,
  shifts and bitwise operators are written out and then shown never to lose anything.
 */
module Blend {

  const WORD := 0x1_0000_0000
  type Word = x: int | 0 <= x < 0x1_0000_0000
  type Byte = x: int | 0 <= x < 0x100

  // ---------------------------------------------------------------------------
  // 32-bit operators
  // ---------------------------------------------------------------------------

  function Pow2(n: nat): (p: nat)
    ensures p > 0
  {
    if n == 0 then 1 else 2 * Pow2(n - 1)
  }

  function Or(x: nat, y: nat): nat
    decreases x + y
  {
    if x == 0 && y == 0 then 0
    else 2 * Or(x / 2, y / 2) + if x % 2 == 1 || y % 2 == 1 then 1 else 0
  }

  function And(x: nat, y: nat): nat
    decreases x + y
  {
    if x == 0 && y == 0 then 0
    else 2 * And(x / 2, y / 2) + if x % 2 == 1 && y % 2 == 1 then 1 else 0
  }

  function Shl(x: Word, n: nat): Word { (x * Pow2(n)) % WORD }

  function Shr(x: Word, n: nat): nat {
    Quotient(x, Pow2(n));
    x / Pow2(n)
  }

  lemma Quotient(x: nat, d: nat)
    requires d > 0
    ensures 0 <= x / d
  {
  }

  function Add(x: nat, y: nat): Word { (x + y) % WORD }
  function Mul(x: nat, y: nat): Word { (x * y) % WORD }

  lemma {:induction false} OrZero(x: nat)
    ensures Or(x, 0) == x
  {
    if x > 0 { OrZero(x / 2); }
  }

  lemma HalveScaled(hi: nat, half: nat, p: nat)
    requires p == 2 * half
    ensures hi * p == 2 * (hi * half)
  {
  }

  /** Or of a word and something below its lowest used bit is addition. */
  lemma {:induction false} OrDisjoint(hi: nat, lo: nat, n: nat)
    requires lo < Pow2(n)
    ensures Or(hi * Pow2(n), lo) == hi * Pow2(n) + lo
  {
    if n == 0 {
      OrZero(hi);
    } else {
      HalveScaled(hi, Pow2(n - 1), Pow2(n));
      OrDisjoint(hi, lo / 2, n - 1);
    }
  }

  /** And with n ones keeps the n lowest bits. */
  lemma {:induction false} AndMask(x: nat, n: nat)
    ensures And(x, Pow2(n) - 1) == x % Pow2(n)
    decreases n
  {
    if n == 0 {
      AndZero(x);
    } else {
      var half := Pow2(n - 1);
      AndMask(x / 2, n - 1);
      assert (Pow2(n) - 1) / 2 == half - 1;
      HalfMod(x, half);
    }
  }

  lemma {:induction false} AndZero(x: nat)
    ensures And(x, 0) == 0
  {
    if x > 0 { AndZero(x / 2); }
  }

  lemma HalfMod(x: nat, half: nat)
    requires half > 0
    ensures x % (2 * half) == 2 * ((x / 2) % half) + x % 2
  {
    var q, m := (x / 2) / half, (x / 2) % half;
    assert x == q * (2 * half) + (2 * m + x % 2) by {
      assert x / 2 == half * q + m;
      assert half * q * 2 == q * (2 * half);
    }
    ModUnique(x, 2 * half, q, 2 * m + x % 2);
  }

  lemma ModUnique(x: nat, d: nat, q: nat, m: nat)
    requires m < d && x == q * d + m
    ensures x % d == m && x / d == q
  {
    var p, r := x / d, x % d;
    assert p * d + r == q * d + m;
    if p < q {
      Times(p + 1, q, d);
      assert false;
    } else if q < p {
      Times(q + 1, p, d);
      assert false;
    }
  }

  lemma Times(x: int, y: int, d: nat)
    requires x <= y
    ensures x * d <= y * d && x * d == (x - 1) * d + d
  {
  }

  // ---------------------------------------------------------------------------
  // The program's two functions
  // ---------------------------------------------------------------------------

  function Rgba(r: Byte, g: Byte, b: Byte, a: Byte): nat {
    Or(Or(Or(Shl(a, 24), Shl(r, 16)), Shl(g, 8)), b)
  }

  function Channel(c: Word, shift: nat): nat { And(Shr(c, shift), 0xFF) }
  function Alpha(c: Word): nat { Channel(c, 24) }

  /** One channel: the weighted mean, rounded down, in 32-bit arithmetic. */
  function MixWord(fg: nat, bg: nat, a: Byte): Word {
    Add(Mul(fg, a), Mul(bg, 255 - a)) / 255
  }

  function BlendWord(bg: Word, fg: Word): (c: nat) {
    var a := Channel(fg, 24);
    if a == 255 then fg
    else if a == 0 then bg
    else
      ChannelIsByte(fg, 24);
      var r := MixWord(Channel(fg, 16), Channel(bg, 16), a);
      var g := MixWord(Channel(fg, 8), Channel(bg, 8), a);
      var b := MixWord(Channel(fg, 0), Channel(bg, 0), a);
      Or(Or(Or(0xFF00_0000, Shl(r, 16)), Shl(g, 8)), b)
  }

  // ---------------------------------------------------------------------------
  // Packing loses nothing
  // ---------------------------------------------------------------------------

  lemma Powers()
    ensures Pow2(0) == 1 && Pow2(8) == 0x100 && Pow2(16) == 0x1_0000 && Pow2(24) == 0x100_0000
  {
    assert Pow2(4) == 16;
    assert Pow2(8) == 0x100;
    assert Pow2(12) == 0x1000;
    assert Pow2(16) == 0x1_0000;
    assert Pow2(20) == 0x10_0000;
  }

  /** Dividing by the power a shift stands for. */
  lemma ShiftsAre(c: Word)
    ensures Shr(c, 0) == c && Shr(c, 8) == c / 0x100 && Shr(c, 16) == c / 0x1_0000 && Shr(c, 24) == c / 0x100_0000
  {
    Powers();
    hide Pow2;
  }

  lemma ChannelIsByte(c: Word, shift: nat)
    ensures Channel(c, shift) == Shr(c, shift) % 256 && 0 <= Channel(c, shift) < 256
  {
    Powers();
    AndMask(Shr(c, shift), 8);
  }

  lemma ChannelsAre(c: Word)
    ensures Channel(c, 24) == c / 0x100_0000 && Channel(c, 16) == (c / 0x1_0000) % 256
    ensures Channel(c, 8) == (c / 0x100) % 256 && Channel(c, 0) == c % 256
  {
    hide Channel, Shr;
    ShiftsAre(c);
    ChannelIsByte(c, 24);
    ChannelIsByte(c, 16);
    ChannelIsByte(c, 8);
    ChannelIsByte(c, 0);
  }

  /** No shift drops a bit and no channel runs into the next. */
  lemma Packed(a: Byte, r: Byte, g: Byte, b: Byte)
    ensures Or(Or(Or(Shl(a, 24), Shl(r, 16)), Shl(g, 8)), b) == Pack(a, r, g, b)
  {
    Powers();
    hide Pow2, Or;
    OrDisjoint(a, r * 0x1_0000, 24);
    OrDisjoint(a * 0x100 + r, g * 0x100, 16);
    OrDisjoint(a * 0x1_0000 + r * 0x100 + g, b, 8);
  }

  function Pack(a: Byte, r: Byte, g: Byte, b: Byte): Word {
    a * 0x100_0000 + r * 0x1_0000 + g * 0x100 + b
  }

  lemma Unpack(a: Byte, r: Byte, g: Byte, b: Byte)
    ensures var c := Pack(a, r, g, b);
      && Channel(c, 24) == a && Channel(c, 16) == r && Channel(c, 8) == g && Channel(c, 0) == b
  {
    hide Channel;
    var c := Pack(a, r, g, b);
    ChannelsAre(c);
    ModUnique(c, 0x100_0000, a, r * 0x1_0000 + g * 0x100 + b);
    ModUnique(c, 0x1_0000, a * 0x100 + r, g * 0x100 + b);
    ModUnique(c, 0x100, a * 0x1_0000 + r * 0x100 + g, b);
    ModUnique(a * 0x100 + r, 0x100, a, r);
    ModUnique(a * 0x1_0000 + r * 0x100 + g, 0x100, a * 0x100 + r, g);
  }

  /** Every colour made from four bytes is a word that gives the four bytes back. */
  lemma RgbaRoundTrip(r: Byte, g: Byte, b: Byte, a: Byte)
    ensures 0 <= Rgba(r, g, b, a) < WORD
    ensures var c := Rgba(r, g, b, a);
      && Channel(c, 24) == a && Channel(c, 16) == r && Channel(c, 8) == g && Channel(c, 0) == b
  {
    Packed(a, r, g, b);
    Unpack(a, r, g, b);
  }

  lemma Packs(r: Byte, g: Byte, b: Byte, a: Byte)
    ensures Rgba(r, g, b, a) == Pack(a, r, g, b)
  {
    hide Or, Shl, Pack;
    Packed(a, r, g, b);
  }

  lemma Digit(x: nat)
    ensures x == (x / 256) * 256 + x % 256
  {
  }

  lemma Halved(x: nat)
    ensures (x / 0x100) / 0x100 == x / 0x1_0000 && (x / 0x1_0000) / 0x100 == x / 0x100_0000
  {
  }

  /** A word is the sum of its four digits in base 256. */
  lemma Digits(c: Word)
    ensures 0 <= c / 0x100_0000 < 256
    ensures (c / 0x100_0000) * 0x100_0000 + ((c / 0x1_0000) % 256) * 0x1_0000
            + ((c / 0x100) % 256) * 0x100 + c % 256 == c
  {
    Halved(c);
    Digit(c);
    Digit(c / 0x100);
    Digit(c / 0x1_0000);
  }

  /** Every word is made from its four channels: colours and words correspond one to one. */
  lemma WordRoundTrip(c: Word)
    ensures forall s | s == 0 || s == 8 || s == 16 || s == 24 :: 0 <= Channel(c, s) < 256
    ensures Rgba(Channel(c, 16), Channel(c, 8), Channel(c, 0), Channel(c, 24)) == c
  {
    hide Channel, Or, Shl, Rgba;
    ChannelsAre(c);
    Digits(c);
    var a, r, g, b := c / 0x100_0000, (c / 0x1_0000) % 256, (c / 0x100) % 256, c % 256;
    assert Pack(a, r, g, b) == c;
    hide Pack;
    Packs(r, g, b, a);
  }

  // ---------------------------------------------------------------------------
  // One blend
  // ---------------------------------------------------------------------------

  /** The weighted mean over the integers, rounded down. */
  function Mix(fg: Byte, bg: Byte, a: Byte): int {
    (fg * a + bg * (255 - a)) / 255
  }

  function Min(x: int, y: int): int { if x <= y then x else y }
  function Max(x: int, y: int): int { if x <= y then y else x }

  /** The products and their sum fit a word, and the mean lies between its arguments. */
  lemma MixFits(fg: Byte, bg: Byte, a: Byte)
    ensures MixWord(fg, bg, a) == Mix(fg, bg, a)
    ensures Min(fg, bg) <= Mix(fg, bg, a) <= Max(fg, bg)
  {
    var lo, hi := Min(fg, bg), Max(fg, bg);
    Scale(lo, fg, hi, a);
    Scale(lo, bg, hi, 255 - a);
    Split(lo, a);
    Split(hi, a);
    Scale(0, fg, 255, a);
    Scale(0, bg, 255, 255 - a);
    Narrow(fg * a, bg * (255 - a), lo, hi);
  }

  lemma Scale(lo: int, x: int, hi: int, k: nat)
    requires lo <= x <= hi
    ensures lo * k <= x * k <= hi * k
  {
  }

  lemma Split(x: int, a: int)
    ensures x * a + x * (255 - a) == 255 * x
  {
  }

  lemma Narrow(p: nat, q: nat, lo: nat, hi: nat)
    requires p <= 255 * 255 && q <= 255 * 255
    requires 255 * lo <= p + q <= 255 * hi
    ensures (p + q) % WORD == p + q && p % WORD == p && q % WORD == q
    ensures lo <= (p + q) / 255 <= hi
  {
  }

  /** What a blend leaves in one channel of an opaque background. */
  function Over(bg: Byte, fg: Byte, a: Byte): int {
    if a == 255 then fg else if a == 0 then bg else Mix(fg, bg, a)
  }

  /** The colour channels. */
  predicate Colour(shift: nat) { shift == 0 || shift == 8 || shift == 16 }

  predicate Opaque(c: Word) { Alpha(c) == 255 }

  lemma BlendIsWord(bg: Word, fg: Word)
    ensures 0 <= BlendWord(bg, fg) < WORD
    ensures 0 < Alpha(fg) < 255 ==>
      var a := Alpha(fg);
      && 0 <= Channel(fg, 16) < 256 && 0 <= Channel(fg, 8) < 256 && 0 <= Channel(fg, 0) < 256
      && 0 <= Channel(bg, 16) < 256 && 0 <= Channel(bg, 8) < 256 && 0 <= Channel(bg, 0) < 256
      && var r, g, b := Mix(Channel(fg, 16), Channel(bg, 16), a), Mix(Channel(fg, 8), Channel(bg, 8), a),
                        Mix(Channel(fg, 0), Channel(bg, 0), a);
      && 0 <= r < 256 && 0 <= g < 256 && 0 <= b < 256
      && BlendWord(bg, fg) == Pack(255, r, g, b)
  {
    var a := Alpha(fg);
    ChannelIsByte(fg, 24);
    if 0 < a < 255 {
      hide Channel, Or, Pow2, MixWord, Mix;
      MixedChannel(bg, fg, 16);
      MixedChannel(bg, fg, 8);
      MixedChannel(bg, fg, 0);
      FullAlpha();
      Packed(255, Mix(Channel(fg, 16), Channel(bg, 16), a), Mix(Channel(fg, 8), Channel(bg, 8), a),
             Mix(Channel(fg, 0), Channel(bg, 0), a));
    }
  }

  lemma FullAlpha()
    ensures Shl(255, 24) == 0xFF00_0000
  {
    Powers();
  }

  lemma MixedChannel(bg: Word, fg: Word, shift: nat)
    ensures 0 <= Channel(fg, shift) < 256 && 0 <= Channel(bg, shift) < 256 && 0 <= Alpha(fg) < 256
    ensures MixWord(Channel(fg, shift), Channel(bg, shift), Alpha(fg))
            == Mix(Channel(fg, shift), Channel(bg, shift), Alpha(fg))
    ensures 0 <= Mix(Channel(fg, shift), Channel(bg, shift), Alpha(fg)) < 256
  {
    hide Channel, MixWord, Mix;
    ChannelIsByte(fg, 24);
    ChannelIsByte(fg, shift);
    ChannelIsByte(bg, shift);
    MixFits(Channel(fg, shift), Channel(bg, shift), Alpha(fg));
  }

  function Blend(bg: Word, fg: Word): Word {
    BlendIsWord(bg, fg);
    BlendWord(bg, fg)
  }

  /** Channel by channel a blend is the weighted mean: no overflow, no carry between channels. */
  lemma BlendChannels(bg: Word, fg: Word, shift: nat)
    requires Colour(shift)
    ensures 0 <= Channel(bg, shift) < 256 && 0 <= Channel(fg, shift) < 256 && 0 <= Alpha(fg) < 256
    ensures Channel(Blend(bg, fg), shift) == Over(Channel(bg, shift), Channel(fg, shift), Alpha(fg))
    ensures Opaque(Blend(bg, fg)) <==> Opaque(bg) || Alpha(fg) > 0
  {
    ChannelIsByte(bg, shift);
    ChannelIsByte(fg, shift);
    ChannelIsByte(fg, 24);
    BlendIsWord(bg, fg);
    var a := Alpha(fg);
    if 0 < a < 255 {
      Unpack(255, Mix(Channel(fg, 16), Channel(bg, 16), a), Mix(Channel(fg, 8), Channel(bg, 8), a),
             Mix(Channel(fg, 0), Channel(bg, 0), a));
    }
  }

  // ---------------------------------------------------------------------------
  // Any number of layers
  // ---------------------------------------------------------------------------

  /** Layers painted over bg, the first one first. */
  function Painted(bg: Word, layers: seq<Word>): Word
    decreases |layers|
  {
    if layers == [] then bg
    else Blend(Painted(bg, layers[..|layers| - 1]), layers[|layers| - 1])
  }

  /** Bounds of a channel over the background and the layers that show at all. */
  function Lowest(bg: Word, layers: seq<Word>, shift: nat): int
    decreases |layers|
  {
    if layers == [] then Channel(bg, shift)
    else
      var top, rest := layers[|layers| - 1], Lowest(bg, layers[..|layers| - 1], shift);
      if Alpha(top) == 0 then rest else Min(rest, Channel(top, shift))
  }

  function Highest(bg: Word, layers: seq<Word>, shift: nat): int
    decreases |layers|
  {
    if layers == [] then Channel(bg, shift)
    else
      var top, rest := layers[|layers| - 1], Highest(bg, layers[..|layers| - 1], shift);
      if Alpha(top) == 0 then rest else Max(rest, Channel(top, shift))
  }

  predicate Shows(c: Word) { Alpha(c) > 0 }

  /** v is the channel of the background or of a layer that shows. */
  predicate Reached(bg: Word, layers: seq<Word>, shift: nat, v: int) {
    v == Channel(bg, shift) || exists k :: 0 <= k < |layers| && Shows(layers[k]) && Channel(layers[k], shift) == v
  }

  lemma ReachedStill(bg: Word, layers: seq<Word>, shift: nat, v: int)
    requires layers != [] && Reached(bg, layers[..|layers| - 1], shift, v)
    ensures Reached(bg, layers, shift, v)
  {
    hide Channel, Shows;
    var n := |layers| - 1;
    if v != Channel(bg, shift) {
      var k :| 0 <= k < n && Shows(layers[..n][k]) && Channel(layers[..n][k], shift) == v;
      assert layers[..n][k] == layers[k];
    }
  }

  /** Lowest and Highest are the bounds they are named for. */
  lemma {:induction false} BoundsAreReached(bg: Word, layers: seq<Word>, shift: nat)
    ensures Lowest(bg, layers, shift) <= Channel(bg, shift) <= Highest(bg, layers, shift)
    ensures forall k :: 0 <= k < |layers| && Shows(layers[k]) ==>
              Lowest(bg, layers, shift) <= Channel(layers[k], shift) <= Highest(bg, layers, shift)
    ensures Reached(bg, layers, shift, Lowest(bg, layers, shift))
    ensures Reached(bg, layers, shift, Highest(bg, layers, shift))
    decreases |layers|
  {
    if layers != [] {
      hide Channel, Alpha;
      var n := |layers| - 1;
      BoundsAreReached(bg, layers[..n], shift);
      ReachedStill(bg, layers, shift, Lowest(bg, layers[..n], shift));
      ReachedStill(bg, layers, shift, Highest(bg, layers[..n], shift));
      forall k | 0 <= k < |layers| && Shows(layers[k])
        ensures Lowest(bg, layers, shift) <= Channel(layers[k], shift) <= Highest(bg, layers, shift)
      {
        if k < n { assert layers[..n][k] == layers[k]; }
      }
    }
  }

  /** However many layers are painted, no channel leaves the range of its inputs. */
  lemma {:induction false} PaintedStaysInRange(bg: Word, layers: seq<Word>, shift: nat)
    requires Colour(shift)
    ensures Lowest(bg, layers, shift) <= Channel(Painted(bg, layers), shift) <= Highest(bg, layers, shift)
    decreases |layers|
  {
    if layers != [] {
      var n := |layers| - 1;
      var below, top := Painted(bg, layers[..n]), layers[n];
      PaintedStaysInRange(bg, layers[..n], shift);
      BlendChannels(below, top, shift);
      MixFits(Channel(top, shift), Channel(below, shift), Alpha(top));
    }
  }

  lemma SomeShowsSnoc(layers: seq<Word>)
    requires layers != []
    ensures var n := |layers| - 1;
      (exists k :: 0 <= k < |layers| && Shows(layers[k]))
      <==> Shows(layers[n]) || exists k :: 0 <= k < n && Shows(layers[..n][k])
  {
    hide Shows;
    var n := |layers| - 1;
    if k :| 0 <= k < n && Shows(layers[k]) { assert layers[..n][k] == layers[k]; }
    if k :| 0 <= k < n && Shows(layers[..n][k]) { assert layers[..n][k] == layers[k]; }
  }

  /** The result is opaque exactly when the background is or some layer shows. */
  lemma {:induction false} PaintedOpaqueIff(bg: Word, layers: seq<Word>)
    ensures Opaque(Painted(bg, layers)) <==> Opaque(bg) || exists k :: 0 <= k < |layers| && Shows(layers[k])
    decreases |layers|
  {
    if layers != [] {
      var n := |layers| - 1;
      PaintedOpaqueIff(bg, layers[..n]);
      SomeShowsSnoc(layers);
      BlendChannels(Painted(bg, layers[..n]), layers[n], 0);
      assert Shows(layers[n]) <==> Alpha(layers[n]) > 0;
      hide Channel, Alpha, Opaque, Blend, Shows;
    }
  }

  lemma OpaqueReplaces(bg: Word, fg: Word)
    requires Opaque(fg)
    ensures Blend(bg, fg) == fg
  {
  }

  lemma PaintedSnoc(bg: Word, layers: seq<Word>, top: Word)
    ensures Painted(bg, layers + [top]) == Blend(Painted(bg, layers), top)
  {
    hide Blend;
    assert (layers + [top])[..|layers|] == layers;
  }

  /** An opaque layer hides everything under it. */
  lemma {:induction false} OpaqueLayerHides(bg: Word, layers: seq<Word>, k: nat)
    requires k < |layers| && Opaque(layers[k])
    ensures Painted(bg, layers) == Painted(layers[k], layers[k + 1..])
    decreases |layers|
  {
    hide Blend, Opaque, Painted;
    var n := |layers| - 1;
    var front, top := layers[..n], layers[n];
    assert layers == front + [top];
    PaintedSnoc(bg, front, top);
    if k == n {
      OpaqueReplaces(Painted(bg, front), top);
      assert layers[k + 1..] == [];
      PaintedNothing(top);
    } else {
      OpaqueLayerHides(bg, front, k);
      PaintedSnoc(layers[k], front[k + 1..], top);
      assert layers[k + 1..] == front[k + 1..] + [top];
    }
  }

  lemma PaintedNothing(bg: Word)
    ensures Painted(bg, []) == bg
  {
  }

  // ---------------------------------------------------------------------------
  // How far rounding can go
  // ---------------------------------------------------------------------------

  /** The same channel composited without rounding. */
  function Exactly(bg: Word, layers: seq<Word>, shift: nat): real
    decreases |layers|
  {
    if layers == [] then Channel(bg, shift) as real
    else
      var top, below := layers[|layers| - 1], Exactly(bg, layers[..|layers| - 1], shift);
      Composite(Channel(top, shift) as real, below, Weight(Alpha(top)))
  }

  function Translucent(layers: seq<Word>): nat
    decreases |layers|
  {
    if layers == [] then 0
    else Translucent(layers[..|layers| - 1]) + if 0 < Alpha(layers[|layers| - 1]) < 255 then 1 else 0
  }

  function Product(x: real, y: real): real {
    x * y
  }

  function Composite(fg: real, below: real, w: real): real {
    Product(fg, w) + Product(below, 1.0 - w)
  }

  function Weight(a: int): real {
    a as real / 255.0
  }

  lemma ProductMonotone(x: real, y: real, k: real)
    requires x <= y && 0.0 <= k
    ensures Product(x, k) <= Product(y, k)
  {
  }

  lemma ProductOfSum(x: real, y: real, k: real)
    ensures Product(x + y, k) == Product(x, k) + Product(y, k)
  {
  }

  lemma ProductShrinks(x: real, k: real)
    requires 0.0 <= x && k <= 1.0
    ensures Product(x, k) <= x
  {
  }

  lemma ProductOfBytes(x: Byte, a: Byte)
    ensures (x * a) as real / 255.0 == Product(x as real, Weight(a))
  {
    assert (x * a) as real == x as real * a as real;
  }

  lemma WeightsAddUp(a: Byte)
    ensures Weight(255 - a) == 1.0 - Weight(a) && 0.0 <= Weight(a) <= 1.0
  {
  }

  /** Rounding down one blend loses less than one. */
  lemma MixNear(fg: Byte, bg: Byte, a: Byte)
    ensures var near := Composite(fg as real, bg as real, Weight(a));
      Mix(fg, bg, a) as real <= near <= Mix(fg, bg, a) as real + 1.0
  {
    ProductOfBytes(fg, a);
    ProductOfBytes(bg, 255 - a);
    WeightsAddUp(a);
    hide Product, Weight;
    RoundsDown(fg * a, bg * (255 - a), Mix(fg, bg, a));
  }

  lemma RoundsDown(x: nat, y: nat, m: nat)
    requires m == (x + y) / 255
    ensures m as real <= x as real / 255.0 + y as real / 255.0 <= m as real + 1.0
  {
    assert 255 * m <= x + y < 255 * m + 255;
  }

  lemma MixRounds(fg: Byte, bg: Byte, a: Byte, below: real, e: nat)
    requires bg as real <= below <= (bg + e) as real
    ensures Mix(fg, bg, a) as real <= Composite(fg as real, below, Weight(a)) <= (Mix(fg, bg, a) + e + 1) as real
  {
    MixNear(fg, bg, a);
    WeightsAddUp(a);
    hide Composite, Mix, Weight;
    Drift(fg as real, bg as real, below, e as real, Weight(a));
  }

  lemma EndPoints(fg: real, below: real)
    ensures Composite(fg, below, Weight(255)) == fg && Composite(fg, below, Weight(0)) == below
  {
    assert Weight(255) == 1.0 && Weight(0) == 0.0;
  }

  lemma Drift(fg: real, bg: real, below: real, e: real, w: real)
    requires 0.0 <= w <= 1.0 && 0.0 <= e && bg <= below <= bg + e
    ensures Composite(fg, bg, w) <= Composite(fg, below, w) <= Composite(fg, bg, w) + e
  {
    hide Product;
    var v := 1.0 - w;
    ProductMonotone(bg, below, v);
    ProductMonotone(below, bg + e, v);
    ProductOfSum(bg, e, v);
    ProductShrinks(e, v);
  }

  /** exact is at least c and above it by at most e. */
  predicate Near(c: nat, exact: real, e: nat) {
    c as real <= exact <= (c + e) as real
  }

  /**
    Rounding only ever darkens, by at most one step for each translucent layer; so with
    opaque and invisible layers alone the result is exact.
   */
  lemma {:induction false} PaintedIsNearlyExact(bg: Word, layers: seq<Word>, shift: nat)
    requires Colour(shift)
    ensures Near(Channel(Painted(bg, layers), shift), Exactly(bg, layers, shift), Translucent(layers))
    decreases |layers|
  {
    if layers != [] {
      var n := |layers| - 1;
      var below, top := Painted(bg, layers[..n]), layers[n];
      PaintedIsNearlyExact(bg, layers[..n], shift);
      hide Channel, Blend, Composite, Near;
      BlendIsNearlyExact(below, top, shift, Exactly(bg, layers[..n], shift), Translucent(layers[..n]));
    }
  }

  lemma BlendIsNearlyExact(below: Word, top: Word, shift: nat, exact: real, e: nat)
    requires Colour(shift)
    requires Near(Channel(below, shift), exact, e)
    ensures Near(Channel(Blend(below, top), shift),
                 Composite(Channel(top, shift) as real, exact, Weight(Alpha(top))),
                 e + if 0 < Alpha(top) < 255 then 1 else 0)
  {
    hide Channel, Blend, Mix, Composite;
    BlendChannels(below, top, shift);
    var a := Alpha(top);
    if a == 255 || a == 0 {
      EndPoints(Channel(top, shift) as real, exact);
    } else {
      MixRounds(Channel(top, shift), Channel(below, shift), a, exact, e);
    }
  }
}

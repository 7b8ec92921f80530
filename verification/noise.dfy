/**
  The noise stage of `processImage` over the canvas's RGBA byte buffer.
  `Math.random()` is replaced by an injected sequence `draws`, one value in
  [0, 1) per pixel; the offset `(u - 0.5) * noise` is shared by the pixel's
  R, G and B, and the store into the `Uint8ClampedArray` clamps to [0, 255]
  and rounds half to even.
 */
module Noise {

  import opened Common

  type Byte = b: int | 0 <= b < 256

  /** A value of `Math.random()`. */
  predicate IsUnitDraw(u: real) {
    0.0 <= u < 1.0
  }

  /** Well-formed inputs: whole pixels and one draw per pixel. */
  predicate WellFormed(data: seq<Byte>, draws: seq<real>) {
    && |data| % 4 == 0
    && |draws| == |data| / 4
    && forall k :: 0 <= k < |draws| ==> IsUnitDraw(draws[k])
  }

  /** `(Math.random() - 0.5) * noiseAmount`: within half the amount either side of zero. */
  function Offset(u: real, noise: int): (r: real)
    requires IsUnitDraw(u)
    ensures noise >= 0 ==> -(noise as real) / 2.0 <= r <= (noise as real) / 2.0
    ensures u == 0.5 ==> r == 0.0
  {
    assert noise >= 0 ==> (u - 0.5) * noise as real <= 0.5 * noise as real;
    assert noise >= 0 ==> (u - 0.5) * noise as real >= -0.5 * noise as real;
    (u - 0.5) * noise as real
  }

  /** The integer nearest to `x`, ties to the even neighbour. */
  function RoundHalfEven(x: real): (r: int)
    ensures x - 0.5 <= r as real <= x + 0.5
    ensures (r as real == x - 0.5 || r as real == x + 0.5) ==> r % 2 == 0
  {
    var f := x.Floor;
    if x - f as real < 0.5 then f
    else if x - f as real > 0.5 then f + 1
    else if f % 2 == 0 then f else f + 1
  }

  /**
    `Math.max(0, Math.min(255, v))` stored into a `Uint8ClampedArray`: the
    nearest byte to the clamped value.
   */
  function ClampToByte(v: real): (r: Byte)
    ensures 0.0 <= v <= 255.0 ==> v - 0.5 <= r as real <= v + 0.5
    ensures 0.0 <= v <= 255.0 && (r as real == v - 0.5 || r as real == v + 0.5) ==> r % 2 == 0
    ensures v <= 0.0 ==> r == 0
    ensures v >= 255.0 ==> r == 255
  {
    var c := ClampReal(v, 0.0, 255.0);
    var n := RoundHalfEven(c);
    assert 0 <= n <= 255 by {
      assert c.Floor >= 0 && c.Floor <= 255;
    }
    n
  }

  /** `data[i] + random` written back into the byte array. */
  function Shifted(b: Byte, offset: real): Byte {
    ClampToByte(b as real + offset)
  }

  /** A byte plus a zero offset is stored back unchanged. */
  lemma ZeroOffsetKeepsByte(b: Byte)
    ensures ClampToByte(b as real + 0.0) == b
  {
    assert (b as real).Floor == b;
  }

  /** Channel `c` (0 red, 1 green, 2 blue, 3 alpha) of pixel `p`. */
  function Channel(buf: seq<Byte>, p: nat, c: nat): Byte
    requires c < 4 && 4 * p + c < |buf|
  {
    buf[4 * p + c]
  }

  /**
    The reference value of channel `c` of pixel `p` after the noise stage
    with a positive amount: alpha bytes and every byte of a fully
    transparent pixel are kept; the colour bytes of any other pixel get that
    pixel's offset.
   */
  function NoisedChannel(data: seq<Byte>, draws: seq<real>, noise: int, p: nat, c: nat): Byte
    requires WellFormed(data, draws) && p < |draws| && c < 4
  {
    if c == 3 || data[4 * p + 3] == 0 then data[4 * p + c]
    else Shifted(data[4 * p + c], Offset(draws[p], noise))
  }

  /**
    Alpha bytes and the bytes of transparent pixels are kept; any other byte
    moves at most half the amount, plus the half-unit of rounding.
   */
  lemma NoisedChannelNear(data: seq<Byte>, draws: seq<real>, noise: int, p: nat, c: nat)
    requires WellFormed(data, draws) && p < |draws| && c < 4 && noise >= 0
    ensures c == 3 || data[4 * p + 3] == 0 ==> NoisedChannel(data, draws, noise, p, c) == data[4 * p + c]
    ensures var d := NoisedChannel(data, draws, noise, p, c) as real - data[4 * p + c] as real;
            -(noise as real) / 2.0 - 0.5 <= d <= (noise as real) / 2.0 + 0.5
  {
    if c != 3 && data[4 * p + 3] != 0 {
      var b := data[4 * p + c];
      var off := Offset(draws[p], noise);
      var v := b as real + off;
      var r := ClampToByte(v);
      assert r == NoisedChannel(data, draws, noise, p, c);
      if v <= 0.0 {
        assert r == 0;
      } else if v >= 255.0 {
        assert r == 255;
      } else {
        assert v - 0.5 <= r as real <= v + 0.5;
      }
    }
  }

  /**
    The noise stage as the source runs it: skipped for `noise <= 0`,
    otherwise one pass over the pixels, four bytes at a time.
   */
  method ApplyNoise(data: seq<Byte>, draws: seq<real>, noise: int) returns (out: seq<Byte>)
    requires WellFormed(data, draws)
    ensures |out| == |data|
    ensures noise <= 0 ==> out == data
    ensures noise > 0 ==> forall p, c :: 0 <= p < |draws| && 0 <= c < 4 ==>
                            out[4 * p + c] == NoisedChannel(data, draws, noise, p, c)
    // the alpha byte of every pixel is never written
    ensures forall p :: 0 <= p < |draws| ==> Channel(out, p, 3) == Channel(data, p, 3)
    // a fully transparent pixel is left as it was
    ensures forall p, c :: 0 <= p < |draws| && 0 <= c < 4 && Channel(data, p, 3) == 0 ==>
                            Channel(out, p, c) == Channel(data, p, c)
  {
    out := data;
    if noise > 0 {
      out := NoisePass(data, draws, noise);
      forall p, c | 0 <= p < |draws| && 0 <= c < 4
        ensures Channel(out, p, c) == NoisedChannel(data, draws, noise, p, c)
      {
      }
    }
  }

  /** The pixel loop: after it every byte holds its reference value. */
  method NoisePass(data: seq<Byte>, draws: seq<real>, noise: int) returns (out: seq<Byte>)
    requires WellFormed(data, draws) && noise > 0
    ensures |out| == |data|
    ensures forall p, c :: 0 <= p < |draws| && 0 <= c < 4 ==>
              out[4 * p + c] == NoisedChannel(data, draws, noise, p, c)
  {
    out := data;
    var i := 0;
    ghost var k := 0;
    while i < |out|
      invariant 0 <= k <= |draws| && i == 4 * k
      invariant |out| == |data|
      invariant forall p, c :: 0 <= p < k && 0 <= c < 4 ==>
                  Channel(out, p, c) == NoisedChannel(data, draws, noise, p, c)
      invariant forall j :: i <= j < |data| ==> out[j] == data[j]
    {
      assert i / 4 == k;
      assert out[i + 3] == data[4 * k + 3];
      var isTransparent := out[i + 3] == 0;
      if !isTransparent {
        var random := Offset(draws[i / 4], noise);
        out := out[i := Shifted(out[i], random)];
        out := out[i + 1 := Shifted(out[i + 1], random)];
        out := out[i + 2 := Shifted(out[i + 2], random)];
      }
      assert forall c :: 0 <= c < 4 ==> Channel(out, k, c) == NoisedChannel(data, draws, noise, k, c);
      i := i + 4;
      k := k + 1;
    }
  }

  /**
    Every non-transparent pixel's colour bytes all receive the same offset,
    that pixel's draw scaled by the amount, at most half the amount in size;
    each result is the nearest byte to the clamped sum.
   */
  lemma SharedOffsetPerPixel(data: seq<Byte>, draws: seq<real>, noise: int, p: nat)
    requires WellFormed(data, draws) && noise > 0
    requires p < |draws| && data[4 * p + 3] != 0
    ensures var r := Offset(draws[p], noise);
            && -(noise as real) / 2.0 <= r <= (noise as real) / 2.0
            && forall c :: 0 <= c < 3 ==>
                 NoisedChannel(data, draws, noise, p, c) == ClampToByte(data[4 * p + c] as real + r)
  {
  }
}

/** 8-bit BGR pixels as OpenCV and numpy hold them (dtype uint8, three channels). */
module Image {
  import opened Arith

  type Byte = x: int | 0 <= x < 256

  datatype Pixel = Pixel(b: Byte, g: Byte, r: Byte)

  const Black := Pixel(0, 0, 0)

  /** frame.sum(axis=2): the sum of the three channels. */
  function ChannelSum(p: Pixel): int
  {
    p.b + p.g + p.r
  }

  /** A pixel "has content" when its channel sum is non-zero, i.e. it is not black. */
  predicate HasContent(p: Pixel)
  {
    ChannelSum(p) > 0
  }

  /**
   * (1 - alpha) * l + alpha * r, converted back to uint8 by truncation: it lies between the
   * two channel values and equals l at alpha 0 and r at alpha 1.
   */
  function MixChannel(l: Byte, r: Byte, a: real): (v: Byte)
    requires 0.0 <= a <= 1.0
    ensures Min(l, r) <= v <= Max(l, r)
    ensures a == 0.0 ==> v == l
    ensures a == 1.0 ==> v == r
  {
    var x := (1.0 - a) * l as real + a * r as real;
    MixBounds(l, r, a);
    x.Floor
  }

  lemma MixBounds(l: int, r: int, a: real)
    requires 0.0 <= a <= 1.0
    ensures Min(l, r) as real <= (1.0 - a) * l as real + a * r as real <= Max(l, r) as real
  {
    var d := r as real - l as real;
    assert (1.0 - a) * l as real + a * r as real == l as real + a * d;
    if d >= 0.0 {
      assert 0.0 <= a * d;
      assert (1.0 - a) * d >= 0.0;
      assert a * d <= d;
    } else {
      assert a * (-d) >= 0.0;
      assert (1.0 - a) * (-d) >= 0.0;
      assert a * d >= d;
    }
  }

  function MixPixel(l: Pixel, r: Pixel, a: real): Pixel
    requires 0.0 <= a <= 1.0
  {
    Pixel(MixChannel(l.b, r.b, a), MixChannel(l.g, r.g, a), MixChannel(l.r, r.r, a))
  }
}

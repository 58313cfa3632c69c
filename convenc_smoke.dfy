/** The reference encoder of the encoder smoke test: a two-bit delay line, d1 holding the
    previous input and d0 the one before it, emitting (y0, y1) per input bit. */
module ConvencSmoke {
  import opened ConvCode

  /** `conv_ref`: y0 = u ^ d1 ^ d0 (generator 7) and y1 = u ^ d0 (generator 5) for each input
      u, then the delay line shifts. The output pairs are the reference encoding, symbol by
      symbol. */
  method ConvRef(bits: seq<Bit>) returns (out: seq<(Bit, Bit)>)
    ensures |out| == |bits|
    ensures forall t :: 0 <= t < |bits| ==> out[t] == Window(bits, t)
    ensures Flatten(out) == Encode(bits)
  {
    var d1: Bit, d0: Bit := 0, 0;
    out := [];
    for i := 0 to |bits|
      invariant d1 == BitAt(bits, i - 1) && d0 == BitAt(bits, i - 2)
      invariant |out| == i
      invariant forall t :: 0 <= t < i ==> out[t] == Window(bits, t)
    {
      var u := bits[i];
      var y0 := Xor(Xor(u, d1), d0);
      var y1 := Xor(u, d0);
      out := out + [(y0, y1)];
      d0, d1 := d1, u;
    }
    WindowsAreEncoding(bits, out);
  }

  /** The known pattern of the smoke test, 1011001, and the reference pairs it is checked
      against: 11 10 00 01 01 11 11. */
  method SmokePattern() returns (src: seq<Bit>, ref: seq<(Bit, Bit)>)
    ensures src == [1, 0, 1, 1, 0, 0, 1]
    ensures ref == [(1, 1), (1, 0), (0, 0), (0, 1), (0, 1), (1, 1), (1, 1)]
    ensures Flatten(ref) == Encode(src)
  {
    src := [1, 0, 1, 1, 0, 0, 1];
    ref := ConvRef(src);
    assert BitAt(src, -1) == 0 && BitAt(src, -2) == 0;
    assert ref[0] == (1, 1) && ref[1] == (1, 0) && ref[2] == (0, 0) && ref[3] == (0, 1);
    assert ref[4] == (0, 1) && ref[5] == (1, 1) && ref[6] == (1, 1);
  }
}

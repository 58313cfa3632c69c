/** The decoder sequence test: a five-bit payload with a five-bit zero tail is encoded, one
    coded bit is flipped, the symbols are packed two bits each and decoded. */
module ViterbiSequence {
  import opened ConvCode
  import HardViterbi

  /** `enc_7_5`: state {s1, s0} = {u[k-2], u[k-1]} starting at {0, 0}; v1 = u ^ s0 ^ s1 and
      v0 = u ^ s1, then the state becomes {s0, u}. The pairs are the reference encoding. */
  method Enc75(uBits: seq<Bit>) returns (out: seq<(Bit, Bit)>)
    ensures |out| == |uBits|
    ensures forall t :: 0 <= t < |uBits| ==> out[t] == Window(uBits, t)
    ensures Flatten(out) == Encode(uBits)
  {
    var s1: Bit, s0: Bit := 0, 0;
    out := [];
    for i := 0 to |uBits|
      invariant s0 == BitAt(uBits, i - 1) && s1 == BitAt(uBits, i - 2)
      invariant |out| == i
      invariant forall t :: 0 <= t < i ==> out[t] == Window(uBits, t)
    {
      var u := uBits[i];
      var v1 := Xor(Xor(u, s0), s1);
      var v0 := Xor(u, s1);
      out := out + [(v1, v0)];
      s1, s0 := s0, u;
    }
    WindowsAreEncoding(uBits, out);
  }

  /** Drives the coded symbols into the decoder: each (v1, v0) is packed as `(v1 << 1) | v0`
      and the decoder unpacks it back into the flat received stream. */
  method Drive(coded: seq<(Bit, Bit)>) returns (rx: seq<Bit>)
    ensures rx == Flatten(coded)
  {
    rx := [];
    for i := 0 to |coded|
      invariant |rx| == 2 * i
      invariant forall j :: 0 <= j < i ==> rx[2 * j] == coded[j].0 && rx[2 * j + 1] == coded[j].1
    {
      var sym := Pack(coded[i].0, coded[i].1);
      PackBijection(coded[i].0, coded[i].1, 0);
      var (v1, v0) := Unpack(sym);
      rx := rx + [v1, v0];
    }
    SameLayout(coded, rx);
  }

  /** A stream holding each symbol's v1 then v0 is the flattened symbol list. */
  lemma SameLayout(coded: seq<(Bit, Bit)>, rx: seq<Bit>)
    requires |rx| == 2 * |coded|
    requires forall j :: 0 <= j < |coded| ==> rx[2 * j] == coded[j].0 && rx[2 * j + 1] == coded[j].1
    ensures rx == Flatten(coded)
  {
    var flat := Flatten(coded);
    forall i | 0 <= i < |rx|
      ensures rx[i] == flat[i]
    {
      var j := i / 2;
      assert flat[2 * j] == coded[j].0 && flat[2 * j + 1] == coded[j].1;
      assert i == 2 * j || i == 2 * j + 1;
    }
  }

  /** `test_viterbi_basic`: payload 11011 plus five zero tail inputs encode to
      11 01 01 00 01 01 11 00 00 00; flipping v1 of symbol 3 gives
      11 01 01 10 01 01 11 00 00 00, and the decoded payload positions are 11011 again. */
  method ViterbiBasic() returns (clean: seq<(Bit, Bit)>, coded: seq<(Bit, Bit)>, full: seq<Bit>, dec: seq<Bit>)
    ensures clean == [(1, 1), (0, 1), (0, 1), (0, 0), (0, 1), (0, 1), (1, 1), (0, 0), (0, 0), (0, 0)]
    ensures coded == [(1, 1), (0, 1), (0, 1), (1, 0), (0, 1), (0, 1), (1, 1), (0, 0), (0, 0), (0, 0)]
    ensures Distance(Flatten(clean), Flatten(coded)) == 1
    ensures full == [1, 1, 0, 1, 1, 0, 0, 0, 0, 0]
    ensures dec == [1, 1, 0, 1, 1]
  {
    var payload: seq<Bit> := [1, 1, 0, 1, 1];
    var tail: seq<Bit> := [0, 0, 0, 0, 0];
    var u := payload + tail;
    clean := Enc75(u);
    KnownPairs(u, clean);
    coded := clean[3 := (Xor(clean[3].0, 1), clean[3].1)];
    var rx := Drive(coded);
    FlattenFlip(clean, 3);
    FlipDistance(Flatten(clean), 6);
    ghost var pm, prev, prevU, sEnd;
    full, pm, prev, prevU, sEnd := HardViterbi.ViterbiDecodeHard(rx);
    HardViterbi.SingleFlipCorrected(Flatten(clean), rx, u, 6, full);
    dec := full[..|payload|];
  }

  /** The pairs of the window formula for input 1101100000. */
  lemma KnownPairs(u: seq<Bit>, out: seq<(Bit, Bit)>)
    requires u == [1, 1, 0, 1, 1, 0, 0, 0, 0, 0] && |out| == |u|
    requires forall t :: 0 <= t < |u| ==> out[t] == Window(u, t)
    ensures out == [(1, 1), (0, 1), (0, 1), (0, 0), (0, 1), (0, 1), (1, 1), (0, 0), (0, 0), (0, 0)]
  {
    assert BitAt(u, -1) == 0 && BitAt(u, -2) == 0;
    assert out[0] == (1, 1) && out[1] == (0, 1) && out[2] == (0, 1) && out[3] == (0, 0) && out[4] == (0, 1);
    assert out[5] == (0, 1) && out[6] == (1, 1) && out[7] == (0, 0) && out[8] == (0, 0) && out[9] == (0, 0);
  }
}

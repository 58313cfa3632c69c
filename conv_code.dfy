/** The rate-1/2, constraint-length-3, (7,5)-octal convolutional code shared by every
    encoder and by the hard-decision Viterbi decoder: bits, trellis states, the trellis
    edge (next state and expected output pair), the reference encoding obtained by walking
    the trellis from state 0, and Hamming distance. */
module ConvCode {

  /** Constraint length, number of trellis states and the generators 0b111 and 0b101. */
  const K: nat := 3
  const NumStates: nat := 4
  const G1: nat := 7
  const G2: nat := 5

  type Bit = b: int | 0 <= b <= 1

  /** A trellis state: the last two input bits, the newest in bit 0 and the older in bit 1. */
  type State = s: int | 0 <= s < 4

  /** `a ^ b` on bits. */
  function Xor(a: Bit, b: Bit): Bit { if a == b then 0 else 1 }

  /** Number of ones in the binary form of `x & g`. */
  function OnesAnd(x: nat, g: nat): nat
  {
    if x == 0 || g == 0 then 0
    else (if x % 2 == 1 && g % 2 == 1 then 1 else 0) + OnesAnd(x / 2, g / 2)
  }

  /** Parity of a shift register under a generator mask. */
  function MaskedParity(x: nat, g: nat): Bit { OnesAnd(x, g) % 2 }

  /** `(s << 1) | u` for an input bit u. */
  function Shift(s: nat, u: Bit): nat { 2 * s + u }

  /** The three-bit register `((s << 1) | u) & 0b111`: u in bit 0, the state above it. */
  function Register(s: State, u: Bit): nat { Shift(s, u) % 8 }

  /** Trellis edge, next state: `((s << 1) | u) & 0b11`. */
  function NextState(s: State, u: Bit): State { Shift(s, u) % 4 }

  /** Trellis edge, expected outputs: v1 under generator 7 and v0 under generator 5, given
      by their taps (see `EdgeOutputs`): v1 = u ^ s[0] ^ s[1] and v0 = u ^ s[1], where s[1]
      is the older remembered bit. */
  function Out1(s: State, u: Bit): Bit { Xor(Xor(u, s % 2), s / 2) }
  function Out0(s: State, u: Bit): Bit { Xor(u, s / 2) }

  /** The masked parities are XORs of the register taps: generator 7 takes all three bits,
      generator 5 the newest and the oldest. */
  lemma GeneratorTaps(x: nat)
    requires x < 8
    ensures MaskedParity(x, G1) == Xor(Xor(x % 2, x / 2 % 2), x / 4)
    ensures MaskedParity(x, G2) == Xor(x % 2, x / 4)
  {
    if x == 0 {
    } else if x == 1 {
      assert MaskedParity(x, G1) == MaskedParity(1, 7) == 1 && MaskedParity(x, G2) == MaskedParity(1, 5) == 1;
    } else if x == 2 {
      assert MaskedParity(x, G1) == MaskedParity(2, 7) == 1 && MaskedParity(x, G2) == MaskedParity(2, 5) == 0;
    } else if x == 3 {
      assert MaskedParity(x, G1) == MaskedParity(3, 7) == 0 && MaskedParity(x, G2) == MaskedParity(3, 5) == 1;
    } else if x == 4 {
      assert MaskedParity(x, G1) == MaskedParity(4, 7) == 1 && MaskedParity(x, G2) == MaskedParity(4, 5) == 1;
    } else if x == 5 {
      assert MaskedParity(x, G1) == MaskedParity(5, 7) == 0 && MaskedParity(x, G2) == MaskedParity(5, 5) == 0;
    } else if x == 6 {
      assert MaskedParity(x, G1) == MaskedParity(6, 7) == 0 && MaskedParity(x, G2) == MaskedParity(6, 5) == 1;
    } else {
      assert MaskedParity(x, G1) == MaskedParity(7, 7) == 1 && MaskedParity(x, G2) == MaskedParity(7, 5) == 0;
    }
  }

  /** The generator parities of the edge's register are the edge outputs: the parity of
      `reg & 0b111` is v1 and the parity of `reg & 0b101` is v0. */
  lemma EdgeOutputs(s: State, u: Bit)
    ensures MaskedParity(Register(s, u), G1) == Out1(s, u)
    ensures MaskedParity(Register(s, u), G2) == Out0(s, u)
  {
    if s == 0 && u == 0 {
      assert Register(s, u) == 0;
      GeneratorTaps(0);
    } else if s == 0 && u == 1 {
      assert Register(s, u) == 1;
      GeneratorTaps(1);
    } else if s == 1 && u == 0 {
      assert Register(s, u) == 2;
      GeneratorTaps(2);
    } else if s == 1 && u == 1 {
      assert Register(s, u) == 3;
      GeneratorTaps(3);
    } else if s == 2 && u == 0 {
      assert Register(s, u) == 4;
      GeneratorTaps(4);
    } else if s == 2 && u == 1 {
      assert Register(s, u) == 5;
      GeneratorTaps(5);
    } else if s == 3 && u == 0 {
      assert Register(s, u) == 6;
      GeneratorTaps(6);
    } else {
      assert Register(s, u) == 7;
      GeneratorTaps(7);
    }
  }

  /** Shifting u into the state (a, b) (older bit a) gives the state (b, u). */
  lemma ShiftPair(a: Bit, b: Bit, u: Bit)
    ensures NextState(2 * a + b, u) == 2 * b + u
  {
  }

  /** The next state keeps the input as its low bit and the old low bit as its high bit;
      hence every state q has exactly the two predecessors q / 2 and q / 2 + 2, both
      entered with the same input bit q % 2. */
  lemma Predecessors(q: State, s: State, u: Bit)
    ensures NextState(s, u) % 2 == u && NextState(s, u) / 2 == s % 2
    ensures NextState(s, u) == q <==> u == q % 2 && (s == q / 2 || s == q / 2 + 2)
  {
  }

  /** The two edges out of the start state emit the input twice: 00 for input 0, 11 for
      input 1. */
  lemma StartEdges(s: State, u: Bit)
    requires s == 0
    ensures Out1(s, u) == u && Out0(s, u) == u
  {
  }

  /** The i-th input bit, with the all-zero memory before the first one. */
  function BitAt(bits: seq<Bit>, i: int): Bit
  {
    if 0 <= i < |bits| then bits[i] else 0
  }

  /** The pair the window formula gives for input t: v1 = b[t] ^ b[t-1] ^ b[t-2] and
      v0 = b[t] ^ b[t-2], with zeros before the start. */
  function Window(bits: seq<Bit>, t: nat): (Bit, Bit)
    requires t < |bits|
  {
    (Xor(Xor(bits[t], BitAt(bits, t - 1)), BitAt(bits, t - 2)), Xor(bits[t], BitAt(bits, t - 2)))
  }

  /** Trellis state reached from state 0 after the given inputs. */
  function EndState(bits: seq<Bit>): State
  {
    if |bits| == 0 then 0 else NextState(EndState(bits[..|bits| - 1]), bits[|bits| - 1])
  }

  /** Reference encoding: walk the trellis from state 0, emitting v1 then v0 per input bit. */
  function Encode(bits: seq<Bit>): (out: seq<Bit>)
    ensures |out| == 2 * |bits|
  {
    if |bits| == 0 then []
    else
      var prefix, u := bits[..|bits| - 1], bits[|bits| - 1];
      var s := EndState(prefix);
      Encode(prefix) + [Out1(s, u), Out0(s, u)]
  }

  /** The state after some inputs is formed by the last two of them (zeros before the start). */
  lemma {:induction false} EndStateIsLastTwo(bits: seq<Bit>)
    ensures EndState(bits) == 2 * BitAt(bits, |bits| - 2) + BitAt(bits, |bits| - 1)
  {
    if |bits| > 0 {
      var prefix := bits[..|bits| - 1];
      EndStateIsLastTwo(prefix);
      ShiftPair(BitAt(prefix, |prefix| - 2), BitAt(prefix, |prefix| - 1), bits[|bits| - 1]);
      assert BitAt(prefix, |prefix| - 1) == BitAt(bits, |bits| - 2);
    }
  }

  /** One more input moves the trellis walk along one edge and appends that edge's pair. */
  lemma EncodeExtend(bits: seq<Bit>, i: nat)
    requires i < |bits|
    ensures EndState(bits[..i + 1]) == NextState(EndState(bits[..i]), bits[i])
    ensures Encode(bits[..i + 1]) == Encode(bits[..i]) + [Out1(EndState(bits[..i]), bits[i]), Out0(EndState(bits[..i]), bits[i])]
  {
    assert bits[..i + 1][..i] == bits[..i];
  }

  /** Encoding a prefix gives the prefix of the encoding. */
  lemma {:induction false} EncodePrefix(bits: seq<Bit>, n: nat)
    requires n <= |bits|
    ensures Encode(bits[..n]) == Encode(bits)[..2 * n]
  {
    if n < |bits| {
      var prefix := bits[..|bits| - 1];
      EncodePrefix(prefix, n);
      assert prefix[..n] == bits[..n];
    } else {
      assert bits[..n] == bits;
    }
  }

  /** Output pair t depends only on input t and the two inputs before it:
      v1 = b[t] ^ b[t-1] ^ b[t-2] and v0 = b[t] ^ b[t-2], with zeros before the start. */
  lemma {:induction false} EncodeWindow(bits: seq<Bit>, t: nat)
    requires t < |bits|
    ensures (Encode(bits)[2 * t], Encode(bits)[2 * t + 1]) == Window(bits, t)
  {
    var head := bits[..t + 1];
    EncodePrefix(bits, t + 1);
    assert head[..t] == bits[..t];
    var s := EndState(bits[..t]);
    assert Encode(head)[2 * t] == Out1(s, bits[t]) && Encode(head)[2 * t + 1] == Out0(s, bits[t]);
    EndStateIsLastTwo(bits[..t]);
    assert BitAt(bits[..t], t - 2) == BitAt(bits, t - 2);
    assert BitAt(bits[..t], t - 1) == BitAt(bits, t - 1);
    assert s % 2 == BitAt(bits, t - 1) && s / 2 == BitAt(bits, t - 2);
  }

  function Zeros(n: nat): (z: seq<Bit>)
    ensures |z| == n && forall i :: 0 <= i < n ==> z[i] == 0
  {
    seq(n, _ => 0)
  }

  function XorSeq(a: seq<Bit>, b: seq<Bit>): (c: seq<Bit>)
    requires |a| == |b|
    ensures |c| == |a| && forall i :: 0 <= i < |a| ==> c[i] == Xor(a[i], b[i])
  {
    seq(|a|, i requires 0 <= i < |a| => Xor(a[i], b[i]))
  }

  /** The code is linear: the encoding of `a xor b` is the xor of the encodings. */
  lemma {:induction false} EncodeLinear(a: seq<Bit>, b: seq<Bit>)
    requires |a| == |b|
    ensures Encode(XorSeq(a, b)) == XorSeq(Encode(a), Encode(b))
  {
    var c := XorSeq(a, b);
    var ec, ea, eb := Encode(c), Encode(a), Encode(b);
    forall j | 0 <= j < 2 * |a|
      ensures ec[j] == Xor(ea[j], eb[j])
    {
      var t := j / 2;
      EncodeWindow(a, t);
      EncodeWindow(b, t);
      EncodeWindow(c, t);
      LinearWindow(a, b, t);
      assert j == 2 * t || j == 2 * t + 1;
    }
  }

  /** The window formula commutes with xor. */
  lemma LinearWindow(a: seq<Bit>, b: seq<Bit>, t: nat)
    requires |a| == |b| && t < |a|
    ensures Window(XorSeq(a, b), t).0 == Xor(Window(a, t).0, Window(b, t).0)
    ensures Window(XorSeq(a, b), t).1 == Xor(Window(a, t).1, Window(b, t).1)
  {
    var c := XorSeq(a, b);
    assert BitAt(c, t - 1) == Xor(BitAt(a, t - 1), BitAt(b, t - 1));
    assert BitAt(c, t - 2) == Xor(BitAt(a, t - 2), BitAt(b, t - 2));
  }

  /** The all-zero input encodes to the all-zero output. */
  lemma {:induction false} EncodeZeros(n: nat)
    ensures Encode(Zeros(n)) == Zeros(2 * n)
  {
    forall j | 0 <= j < 2 * n
      ensures Encode(Zeros(n))[j] == 0
    {
      EncodeWindow(Zeros(n), j / 2);
    }
  }

  /** Distinct inputs of the same length have distinct encodings. */
  lemma {:induction false} EncodeInjective(a: seq<Bit>, b: seq<Bit>)
    requires |a| == |b| && Encode(a) == Encode(b)
    ensures a == b
  {
    forall t | 0 <= t < |a|
      ensures a[t] == b[t]
    {
      AgreeAt(a, b, t);
    }
  }

  lemma {:induction false} AgreeAt(a: seq<Bit>, b: seq<Bit>, t: nat)
    requires |a| == |b| && Encode(a) == Encode(b) && t < |a|
    ensures a[t] == b[t]
    decreases t
  {
    EncodeWindow(a, t);
    EncodeWindow(b, t);
    if t >= 2 {
      AgreeAt(a, b, t - 2);
    }
  }

  /** Two inputs that agree before position k and differ at k have encodings that differ in
      both bits of pair k (the input enters both generators). */
  lemma DivergeAt(a: seq<Bit>, b: seq<Bit>, k: nat)
    requires |a| == |b| && k < |a| && a[k] != b[k]
    requires forall i :: 0 <= i < k ==> a[i] == b[i]
    ensures Encode(a)[2 * k] != Encode(b)[2 * k] && Encode(a)[2 * k + 1] != Encode(b)[2 * k + 1]
  {
    EncodeWindow(a, k);
    EncodeWindow(b, k);
    assert BitAt(a, k - 1) == BitAt(b, k - 1) && BitAt(a, k - 2) == BitAt(b, k - 2);
  }

  /** ... and in exactly one bit of pair k + 1 (the differing input sits in the middle tap,
      which only the 7 generator uses). */
  lemma DivergeNext(a: seq<Bit>, b: seq<Bit>, k: nat)
    requires |a| == |b| && k + 1 < |a| && a[k] != b[k]
    requires forall i :: 0 <= i < k ==> a[i] == b[i]
    ensures Encode(a)[2 * k + 2] != Encode(b)[2 * k + 2] <==> Encode(a)[2 * k + 3] == Encode(b)[2 * k + 3]
  {
    EncodeWindow(a, k + 1);
    EncodeWindow(b, k + 1);
    assert BitAt(a, k) != BitAt(b, k) && BitAt(a, k - 1) == BitAt(b, k - 1);
  }

  /** Distance between two pairs is the number of mismatching halves. */
  lemma PairDistance(a: Bit, b: Bit, c: Bit, d: Bit)
    ensures Distance([a, b], [c, d]) == Xor(a, c) + Xor(b, d)
  {
    assert [a, b][..1] == [a] && [c, d][..1] == [c];
    assert [a][..0] == [] && [c][..0] == [];
  }

  /** Two zero inputs flush the encoder back to state 0, and from then on every output pair
      is 00, whatever came before. */
  lemma {:induction false} ZeroTailFlushes(bits: seq<Bit>, n: nat)
    requires n >= 2
    ensures EndState(bits + Zeros(n)) == 0
    ensures forall j :: 2 * (|bits| + 2) <= j < 2 * (|bits| + n) ==> Encode(bits + Zeros(n))[j] == 0
  {
    var all := bits + Zeros(n);
    EndStateIsLastTwo(all);
    forall j | 2 * (|bits| + 2) <= j < 2 * (|bits| + n)
      ensures Encode(all)[j] == 0
    {
      EncodeWindow(all, j / 2);
    }
  }

  /** Hamming distance between two bit strings of the same length. */
  function Distance(a: seq<Bit>, b: seq<Bit>): (d: nat)
    requires |a| == |b|
    ensures d <= |a|
  {
    if |a| == 0 then 0
    else
      var n := |a| - 1;
      Distance(a[..n], b[..n]) + (if a[n] == b[n] then 0 else 1)
  }

  /** Distance 0 means equal strings. */
  lemma {:induction false} DistanceZero(a: seq<Bit>, b: seq<Bit>)
    requires |a| == |b|
    ensures Distance(a, b) == 0 <==> a == b
  {
    if |a| > 0 {
      var n := |a| - 1;
      DistanceZero(a[..n], b[..n]);
      assert a == a[..n] + [a[n]] && b == b[..n] + [b[n]];
      if a == b {
        assert a[..n] == b[..n];
      }
    }
  }

  /** Distance adds up over concatenation. */
  lemma {:induction false} DistanceAppend(a: seq<Bit>, b: seq<Bit>, c: seq<Bit>, d: seq<Bit>)
    requires |a| == |b| && |c| == |d|
    ensures Distance(a + c, b + d) == Distance(a, b) + Distance(c, d)
    decreases |c|
  {
    if |c| > 0 {
      var n := |c| - 1;
      assert (a + c)[..|a| + n] == a + c[..n];
      assert (b + d)[..|b| + n] == b + d[..n];
      DistanceAppend(a, b, c[..n], d[..n]);
    } else {
      assert a + c == a && b + d == b;
    }
  }

  /** Two distinct mismatching positions put two strings at distance at least 2. */
  lemma {:induction false} TwoMismatches(a: seq<Bit>, b: seq<Bit>, i: nat, j: nat)
    requires |a| == |b| && i < j < |a|
    requires a[i] != b[i] && a[j] != b[j]
    ensures Distance(a, b) >= 2
  {
    var n := |a| - 1;
    if j < n {
      TwoMismatches(a[..n], b[..n], i, j);
    } else {
      assert a[..n][i] != b[..n][i];
      DistanceZero(a[..n], b[..n]);
    }
  }

  /** Flip one coded bit (`x ^ 1`). */
  function Flip(a: seq<Bit>, p: nat): (r: seq<Bit>)
    requires p < |a|
    ensures |r| == |a|
  {
    a[p := Xor(a[p], 1)]
  }

  /** A single flip moves a string to Hamming distance exactly 1. */
  lemma {:induction false} FlipDistance(a: seq<Bit>, p: nat)
    requires p < |a|
    ensures Distance(a, Flip(a, p)) == 1
  {
    var n := |a| - 1;
    if p < n {
      assert Flip(a, p)[..n] == Flip(a[..n], p);
      FlipDistance(a[..n], p);
    } else {
      assert Flip(a, p)[..n] == a[..n];
      DistanceZero(a[..n], a[..n]);
    }
  }

  /** A list of (v1, v0) symbols laid out as one coded stream, v1 first. */
  function Flatten(pairs: seq<(Bit, Bit)>): (r: seq<Bit>)
    ensures |r| == 2 * |pairs|
    ensures forall t :: 0 <= t < |pairs| ==> r[2 * t] == pairs[t].0 && r[2 * t + 1] == pairs[t].1
  {
    if |pairs| == 0 then [] else [pairs[0].0, pairs[0].1] + Flatten(pairs[1..])
  }

  /** Output pairs given by the window formula, laid out flat, are the reference encoding. */
  lemma {:induction false} WindowsAreEncoding(bits: seq<Bit>, out: seq<(Bit, Bit)>)
    requires |out| == |bits|
    requires forall t :: 0 <= t < |bits| ==> out[t] == Window(bits, t)
    ensures Flatten(out) == Encode(bits)
  {
    var flat, enc := Flatten(out), Encode(bits);
    forall j | 0 <= j < 2 * |bits|
      ensures flat[j] == enc[j]
    {
      var t := j / 2;
      EncodeWindow(bits, t);
      assert flat[2 * t] == out[t].0 && flat[2 * t + 1] == out[t].1;
      assert j == 2 * t || j == 2 * t + 1;
    }
  }

  /** Flipping v1 of symbol i flips bit 2i of the coded stream and nothing else. */
  lemma FlattenFlip(pairs: seq<(Bit, Bit)>, i: nat)
    requires i < |pairs|
    ensures Flatten(pairs[i := (Xor(pairs[i].0, 1), pairs[i].1)]) == Flip(Flatten(pairs), 2 * i)
  {
    var c := pairs[i := (Xor(pairs[i].0, 1), pairs[i].1)];
    var a, f := Flatten(c), Flatten(pairs);
    var b := Flip(f, 2 * i);
    forall j | 0 <= j < |a|
      ensures a[j] == b[j]
    {
      var t := j / 2;
      if j % 2 == 0 {
        assert j == 2 * t && a[2 * t] == c[t].0 && f[2 * t] == pairs[t].0;
      } else {
        assert j == 2 * t + 1 && a[2 * t + 1] == c[t].1 && f[2 * t + 1] == pairs[t].1;
      }
    }
  }

  /** Hardware symbol packing `(v1 << 1) | v0`. */
  function Pack(v1: Bit, v0: Bit): nat { Shift(v1, v0) }

  /** Unpacking a 2-bit symbol into (v1, v0). */
  function Unpack(sym: nat): (Bit, Bit)
    requires sym < 4
  {
    (sym / 2, sym % 2)
  }

  /** Packing is a bijection between bit pairs and 0..3, inverted by Unpack. */
  lemma PackBijection(v1: Bit, v0: Bit, sym: nat)
    requires sym < 4
    ensures Pack(v1, v0) < 4 && Unpack(Pack(v1, v0)) == (v1, v0)
    ensures Pack(Unpack(sym).0, Unpack(sym).1) == sym
  {
    if v1 == 0 {
      assert Pack(v1, v0) == v0;
    } else {
      assert Pack(v1, v0) == 2 + v0;
    }
    if sym < 2 {
      assert Unpack(sym) == (0, sym);
    } else {
      assert Unpack(sym) == (1, sym - 2);
    }
  }
}

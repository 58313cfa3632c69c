# (7,5) convolutional code and hard-decision Viterbi decoder

This project models the integer reference logic of an FPGA telemetry link. The link uses a
rate-1/2 convolutional code with constraint length K = 3 and generators 7 and 5 (octal).
A full-traceback hard-decision Viterbi decoder decodes it. The model covers three Python
sources:

- the artifact generator's batch encoder, zero tail, trellis tables and decoder;
- the encoder smoke test's reference encoder and its known-answer vector;
- the decoder sequence test's reference encoder and its single-bit-flip scenario.

The modules are:

- `ConvCode`: the code itself.
  - Bits, and trellis states 0..3. A state holds the last two inputs, the newest in bit 0.
  - Generator parities, and the trellis edge: next state `((s << 1) | u) & 3` and expected
    pair (v1, v0).
  - `Encode`, the reference encoding obtained by walking the trellis from state 0.
  - Hamming distance, and coded-bit flips.
  - Symbol packing `(v1 << 1) | v0`.
  - The properties of the encoding: the sliding-window formula, linearity, injectivity, the
    zero-tail flush, and how two different inputs diverge.
- `ReadmeArtifacts`: `conv_encode_7_5`, `add_tail` and `_precompute`. The precomputed tables
  are `array2`/`array3` values filled in nested loops.
- `HardViterbi`: `viterbi_decode_hard_7_5`.
  - The forward pass fills the metric matrix `pm` and the back-pointer matrices `prev`,
    `prevU` in place, row by row, state by state, input by input.
  - `np.argmin` picks the end state, and a traceback loop writes the decision into an array.
  - The forward pass is proved against a functional reference, `Scan`. Scan's meaning
    (minimum, first-found tie-break, unreached exactly when no predecessor is reached) is
    proved in `ScanSelects`.
  - On top of this the decoder is proved maximum-likelihood (`MostLikely`): no input
    sequence of the same length encodes closer to the received stream.
  - Corollaries: the noiseless round trip and the correction of any single flipped coded bit
    outside the last symbol.
- `ConvencSmoke`: `conv_ref` and the 7-bit known answer.
- `ViterbiSequence`: `enc_7_5`, the test's packing and driving of symbols, and
  `test_viterbi_basic`. That test encodes payload 11011 with five zero tail inputs, flips v1
  of symbol 3 and expects 11011 back.

All three encoders are tied to the one reference `ConvCode.Encode`, so they agree with each
other on every input. The batch encoder's output equals it. The two test encoders' pair
lists flatten to it.

## Model

| member | source | states |
|---|---|---|
| `ConvCode.GeneratorTaps` | scripts/generate_readme_artifacts.py:18-20 | the parity of `x & 0b111` is the XOR of all three register bits, and the parity of `x & 0b101` is the XOR of the newest and oldest bits |
| `ConvCode.MaskedParity` | scripts/generate_readme_artifacts.py:19-20 | definition, no contract: `bin(x & g).count("1") & 1`, the number of bits set in both x and the mask, taken mod 2 |
| `ConvCode.NextState` | scripts/generate_readme_artifacts.py:41 | definition, no contract: `NEXT_STATE[s, u]`, the state shifted up by one with u in bit 0, masked to two bits |
| `ConvCode.Out1` | scripts/generate_readme_artifacts.py:39-42 | definition, no contract: `OUT_BITS[s, u, 0]`, written by its taps as u ^ s[0] ^ s[1]; `EdgeOutputs` proves it equal to the masked parity under 0b111 |
| `ConvCode.Out0` | scripts/generate_readme_artifacts.py:40-42 | definition, no contract: `OUT_BITS[s, u, 1]`, written by its taps as u ^ s[1]; `EdgeOutputs` proves it equal to the masked parity under 0b101 |
| `ConvCode.EdgeOutputs` | scripts/generate_readme_artifacts.py:38-42 | the parities of the edge's three-bit register (state shifted up, input in bit 0) under masks 7 and 5 are the edge's expected pair v1 = u ^ s[0] ^ s[1] and v0 = u ^ s[1] |
| `ConvCode.Predecessors` | scripts/generate_readme_artifacts.py:41 | the next state has low bit u and high bit s[0]; q is reached exactly from q / 2 and q / 2 + 2, both with input q % 2 |
| `ConvCode.ShiftPair` | scripts/generate_readme_artifacts.py:41 | shifting u into the state (a, b) gives the state (b, u) |
| `ConvCode.Encode` | scripts/generate_readme_artifacts.py:13-22 | walking the trellis from state 0 emits exactly two bits per input |
| `ConvCode.EndStateIsLastTwo` | scripts/generate_readme_artifacts.py:18 | the trellis state after any inputs is formed by the last two of them, with zeros before the start |
| `ConvCode.EncodePrefix` | scripts/generate_readme_artifacts.py:13-22 | encoding a prefix of the input gives the same-length prefix of the encoding |
| `ConvCode.EncodeExtend` | scripts/generate_readme_artifacts.py:17-21 | one more input moves the trellis state along its edge and appends that edge's pair (v1, v0) to the encoding |
| `ConvCode.EncodeWindow` | scripts/generate_readme_artifacts.py:15-20 | output pair t depends only on b[t], b[t-1] and b[t-2]: v1 = b[t] ^ b[t-1] ^ b[t-2] and v0 = b[t] ^ b[t-2], from all-zero memory |
| `ConvCode.EncodeLinear` | sim/test_convenc_smoke.py:10-11 | the encoding of `a xor b` is the elementwise xor of the encodings |
| `ConvCode.EncodeZeros` | sim/test_convenc_smoke.py:10-11 | an all-zero input encodes to an all-zero output |
| `ConvCode.EncodeInjective` | scripts/generate_readme_artifacts.py:13-22 | different inputs of the same length have different encodings |
| `ConvCode.AgreeAt` | scripts/generate_readme_artifacts.py:13-22 | equal encodings force equal inputs at every position |
| `ConvCode.DivergeAt` | scripts/generate_readme_artifacts.py:15-20 | at the first input where two inputs differ, both bits of their output pairs differ |
| `ConvCode.DivergeNext` | scripts/generate_readme_artifacts.py:15-20 | in the next pair after that, exactly one of the two bits differs |
| `ConvCode.ZeroTailFlushes` | sim/test_viterbi_sequence.py:36-37 | after two or more zero inputs the state is 0, and every pair from the third zero on is 00, whatever the payload |
| `ConvCode.Distance` | scripts/generate_readme_artifacts.py:61 | Hamming distance is at most the length |
| `ConvCode.DistanceZero` | scripts/generate_readme_artifacts.py:61 | Hamming distance is 0 exactly for equal strings |
| `ConvCode.DistanceAppend` | scripts/generate_readme_artifacts.py:61-62 | Hamming distance adds up over concatenation |
| `ConvCode.PairDistance` | scripts/generate_readme_artifacts.py:61 | the distance between two pairs is the number of mismatching halves |
| `ConvCode.TwoMismatches` | sim/test_viterbi_sequence.py:40 | two distinct mismatching positions give distance at least 2 |
| `ConvCode.Flip` | sim/test_viterbi_sequence.py:40 | flipping a coded bit keeps the stream length |
| `ConvCode.FlipDistance` | sim/test_viterbi_sequence.py:40 | one flip moves a stream to Hamming distance exactly 1 |
| `ConvCode.Flatten` | sim/test_viterbi_sequence.py:44-45 | a symbol list laid out flat puts v1 of symbol t at 2t and v0 at 2t + 1 |
| `ConvCode.WindowsAreEncoding` | sim/test_viterbi_sequence.py:11-17 | pairs given by the window formula flatten to the reference encoding |
| `ConvCode.FlattenFlip` | sim/test_viterbi_sequence.py:40 | flipping v1 of symbol i flips bit 2i of the flat stream and nothing else |
| `ConvCode.Pack` | sim/test_viterbi_sequence.py:45 | definition, no contract: the symbol with v1 in bit 1 and v0 in bit 0; its meaning is stated by `PackBijection` |
| `ConvCode.PackBijection` | sim/test_viterbi_sequence.py:45 | packing v1 above v0 maps bit pairs one-to-one onto 0..3, and unpacking recovers (v1, v0) |
| `ConvCode.StartEdges` | scripts/generate_readme_artifacts.py:38-42 | the two edges out of state 0 emit 00 for input 0 and 11 for input 1 |
| `ReadmeArtifacts.ConvEncode75` | scripts/generate_readme_artifacts.py:13-22 | emits 2 bits per input, v1 then v0; equals the trellis walk from state 0; each pair satisfies the window formula |
| `ReadmeArtifacts.RegisterStep` | scripts/generate_readme_artifacts.py:18 | shifting an input into the three-bit register gives the edge register of the state held in its low two bits, and the new low two bits are the edge's next state |
| `ReadmeArtifacts.AddTail` | scripts/generate_readme_artifacts.py:24-25 | appends exactly k - 1 zeros and keeps the payload as prefix |
| `ReadmeArtifacts.AddTailFlushes` | scripts/generate_readme_artifacts.py:24-25 | with the default K the tailed input ends in state 0, whatever the payload |
| `ReadmeArtifacts.Precompute` | scripts/generate_readme_artifacts.py:32-45 | fresh 4x2 and 4x2x2 tables holding, for every (s, u), the next state and the expected pair (v1, v0) of the trellis edge |
| `HardViterbi.SentinelAgrees` | scripts/generate_readme_artifacts.py:49-67 | while metrics stay below INF = 10**9, `pm >= INF`, `cand < pm` and argmin's integer order agree with the explicit unreached value |
| `HardViterbi.BranchMetric` | scripts/generate_readme_artifacts.py:61 | the branch metric is in {0, 1, 2} and is 0 exactly when the received pair equals the edge's pair |
| `HardViterbi.BranchMetricIsDistance` | scripts/generate_readme_artifacts.py:61 | the branch metric is the Hamming distance between the expected and received pairs |
| `HardViterbi.CostStep` | scripts/generate_readme_artifacts.py:59-62 | extending a hypothesis by one input moves it along the edge and adds that edge's branch metric to its Hamming cost |
| `HardViterbi.SelectStart` | scripts/generate_readme_artifacts.py:50-52 | a fresh entry (INF, -1, -1) is the selection over no edges |
| `HardViterbi.SelectKeep` | scripts/generate_readme_artifacts.py:63 | an edge that does not strictly improve the entry leaves the selection unchanged |
| `HardViterbi.SelectTake` | scripts/generate_readme_artifacts.py:63-66 | an edge that strictly improves the entry becomes the selection, with its metric and back-pointers |
| `HardViterbi.Step` | scripts/generate_readme_artifacts.py:59-66 | definition, no contract: add-compare-select for edge (s, u) into q; when s is reached and the edge enters q, the candidate `pm[t, s] + bm` replaces the entry (metric, s, u) only if strictly smaller |
| `HardViterbi.Scan` | scripts/generate_readme_artifacts.py:56-66 | definition, no contract: entry q of the next row after the first k edges of the s/u loop, in loop order, starting from (INF, -1, -1); its meaning is stated by `ScanSelects` |
| `HardViterbi.ScanSelects` | scripts/generate_readme_artifacts.py:56-66 | after the scan the entry of q is unreached exactly when no predecessor is reached; otherwise it holds the least candidate and points at the first edge that offers it |
| `HardViterbi.ScanStepSelects` | scripts/generate_readme_artifacts.py:58-66 | one add-compare-select step in rank order keeps that selection property for one more edge |
| `HardViterbi.ScanNext` | scripts/generate_readme_artifacts.py:58-66 | scanning edge (s, u) is one more add-compare-select step in rank order |
| `HardViterbi.ScanSkip` | scripts/generate_readme_artifacts.py:57 | an unreached state contributes nothing through either edge |
| `HardViterbi.ScanEdge` | scripts/generate_readme_artifacts.py:59-66 | the entry of the next state becomes the add-compare-select of its old value and the edge's candidate; every other entry is unchanged |
| `HardViterbi.ScanOutgoing` | scripts/generate_readme_artifacts.py:58-66 | after inputs 0 and 1 of a reached state, row t+1 equals the reference scan up to rank 2s + 2; other rows unchanged |
| `HardViterbi.ScanState` | scripts/generate_readme_artifacts.py:56-66 | the same for any state, where an unreached state is skipped |
| `HardViterbi.RelaxStep` | scripts/generate_readme_artifacts.py:54-66 | row t+1 becomes, entry by entry, the reference scan of row t with the received pair; other rows unchanged |
| `HardViterbi.ForwardStep` | scripts/generate_readme_artifacts.py:54-66 | one iteration of the forward loop extends the filled prefix by row t + 1, leaving later rows at their initial values |
| `HardViterbi.ForwardPass` | scripts/generate_readme_artifacts.py:48-66 | fresh matrices of T+1 rows: row 0 has only state 0 reached with metric 0, and every later row is the reference scan of the row before |
| `HardViterbi.EntrySelected` | scripts/generate_readme_artifacts.py:56-66 | every entry of the filled matrix has the selection property of `ScanSelects` |
| `HardViterbi.BackPointer` | scripts/generate_readme_artifacts.py:63-66 | a reached entry points along a trellis edge to a reached entry of the previous row, its metric being that entry's plus the branch metric |
| `HardViterbi.Relaxed` | scripts/generate_readme_artifacts.py:58-66 | every edge out of a reached entry reaches its next state with a metric no larger than its candidate |
| `HardViterbi.Survivor` | scripts/generate_readme_artifacts.py:68-71 | definition, no contract: the inputs read off `prev_u` while following `prev` back from (t, s) to row 0, oldest first; its meaning is stated by `SurvivorSound` and `SurvivorPath` |
| `HardViterbi.SurvivorSound` | scripts/generate_readme_artifacts.py:68-71 | the survivor into a reached (t, s) has t inputs, ends in s, and re-encodes at Hamming distance `pm[t, s]` from the received prefix |
| `HardViterbi.LowerBound` | scripts/generate_readme_artifacts.py:54-66 | every input hypothesis reaches its end state, with a metric no larger than its own Hamming cost |
| `HardViterbi.MetricBound` | scripts/generate_readme_artifacts.py:61-62 | every reached `pm[t, s]` is at most 2t |
| `HardViterbi.ArgMin` | scripts/generate_readme_artifacts.py:67 | returns an index of a least metric, the lowest one among ties |
| `HardViterbi.TracebackStep` | scripts/generate_readme_artifacts.py:69-71 | the survivor into (t, s) is the survivor into its back-pointer followed by the input on the back-pointer |
| `HardViterbi.SurvivorPath` | scripts/generate_readme_artifacts.py:68-71 | the states read off the back-pointers from (t, s) are valid states, and entry i's back-pointers name entry i - 1 and the survivor's input i - 1 |
| `HardViterbi.Traceback` | scripts/generate_readme_artifacts.py:68-71 | the decision written backwards is the survivor path into the chosen end state; every back-pointer met on the way is a state, so the `else 0` fallback is never taken (proved by an assertion in the loop) |
| `HardViterbi.EndReached` | scripts/generate_readme_artifacts.py:67 | after the last step some state is reached, so argmin's end state is reached |
| `HardViterbi.SurvivorOptimal` | scripts/generate_readme_artifacts.py:67-71 | the survivor into argmin's end state has T inputs, costs exactly that state's metric, and is most-likely |
| `HardViterbi.ViterbiDecodeHard` | scripts/generate_readme_artifacts.py:47-72 | the decision is exactly the source's: the matrices are the reference rows (first-found edge kept on ties), the end state is argmin's lowest least index, and the bits are the survivor into it; it has `len(rx) // 2` bits (an odd trailing element is ignored), costs `pm[T, s_end]`, is most-likely, and an exact encoding decodes to its input |
| `HardViterbi.RowsDetermined` | scripts/generate_readme_artifacts.py:48-66 | any two forward passes over the same stream agree on every metric and, from row 1 on, on every back-pointer |
| `HardViterbi.DecisionDetermined` | scripts/generate_readme_artifacts.py:67-71 | over the same stream, any two forward passes give the same argmin end state and the same survivor, so the decision is a function of the stream |
| `HardViterbi.FirstRow` | scripts/generate_readme_artifacts.py:53-66 | row 1 holds states 0 and 1, reached from state 0 by inputs 0 and 1 with their branch metrics; states 2 and 3 are unreached |
| `HardViterbi.StartRow` | scripts/generate_readme_artifacts.py:53-66 | from the start row, scanning the two edges of state 0 reaches state 0 by input 0 and state 1 by input 1 |
| `HardViterbi.StartRowSkips` | scripts/generate_readme_artifacts.py:57 | when only state 0 is reached, the edges of states 1 to 3 change nothing |
| `HardViterbi.TieMetrics` | scripts/generate_readme_artifacts.py:61 | against a received pair 10 or 01, both edges out of state 0 have branch metric 1 |
| `HardViterbi.TieCosts` | scripts/generate_readme_artifacts.py:61-62 | against a received pair 10 or 01, inputs 0 and 1 both cost 1 |
| `HardViterbi.TieRow` | scripts/generate_readme_artifacts.py:53-66 | after a received pair 10 or 01, states 0 and 1 tie at metric 1 (state 0 through input 0) and states 2 and 3 are unreached |
| `HardViterbi.TieBreak` | scripts/generate_readme_artifacts.py:63-71 | for a received pair 10 or 01, inputs 0 and 1 are equally close, yet argmin picks state 0 and the decision is [0] |
| `HardViterbi.NoiselessRoundTrip` | scripts/generate_readme_artifacts.py:47-72 | a most-likely decision for an exact encoding is the encoded input |
| `HardViterbi.TailedRoundTrip` | scripts/generate_readme_artifacts.py:24-25 | decoding the noiseless encoding of a tailed payload gives the payload as prefix |
| `HardViterbi.FirstDifference` | sim/test_viterbi_sequence.py:39-40 | two different inputs agree before the returned position and differ at it; a helper for `OthersAreFar`, not the position of the flip |
| `HardViterbi.OthersAreFar` | sim/test_viterbi_sequence.py:39-40 | with one flip outside the last symbol, every other input is at distance at least 2 from the received stream |
| `HardViterbi.FlippedCost` | sim/test_viterbi_sequence.py:39-40 | the transmitted input is at distance exactly 1 from its flipped encoding |
| `HardViterbi.OnlyNearInput` | sim/test_viterbi_sequence.py:39-40 | only the transmitted input lies within distance 1 of its flipped encoding |
| `HardViterbi.SingleFlipCorrected` | sim/test_viterbi_sequence.py:22-26 | a most-likely decision of an encoding with one flipped bit outside the last symbol is the transmitted input |
| `ConvencSmoke.ConvRef` | sim/test_convenc_smoke.py:6-14 | one pair per input in order, y0 = u ^ d1 ^ d0 and y1 = u ^ d0 over the delay line from zeros; the pairs flatten to the reference encoding |
| `ConvencSmoke.SmokePattern` | sim/test_convenc_smoke.py:30-31 | input 1011001 gives reference pairs 11 10 00 01 01 11 11, the reference encoding |
| `ViterbiSequence.Enc75` | sim/test_viterbi_sequence.py:8-17 | one pair per input in order, v1 = u ^ s0 ^ s1 and v0 = u ^ s1 from state {0, 0}; the pairs flatten to the reference encoding |
| `ViterbiSequence.Drive` | sim/test_viterbi_sequence.py:44-47 | packing each symbol and unpacking it on the decoder side (the assumed symbol interface, see below) delivers exactly the flattened symbol stream |
| `ViterbiSequence.SameLayout` | sim/test_viterbi_sequence.py:44-45 | a stream holding v1 then v0 of every symbol is the flattened symbol list |
| `ViterbiSequence.KnownPairs` | sim/test_viterbi_sequence.py:35-37 | input 1101100000 gives pairs 11 01 01 00 01 01 11 00 00 00 |
| `ViterbiSequence.ViterbiBasic` | sim/test_viterbi_sequence.py:34-56 | clean stream 11 01 01 00 01 01 11 00 00 00; flipped stream 11 01 01 10 01 01 11 00 00 00 at distance 1 from it; the whole batch decision is 1101100000, payload positions 11011 |

## Left out

- The RTL encoder, the register-exchange decoder and the error tracker are not part of this
  model: their Verilog is not among the modelled files. Decision latency (TB_LEN), metric
  saturation and delay-line alignment are therefore not modelled.
- ViterbiSequence.ViterbiBasic: the test compares the last five bits the hardware decoder
  emits with the payload. The model decodes in batch and compares the five payload
  positions of the full decision instead. Which bits the hardware
  emits, and when, depends on the RTL, which is not modelled.
- ConvCode.Unpack: the test only packs `(v1 << 1) | v0`; splitting the symbol back into v1
  and v0 is the RTL decoder's input stage, which is not modelled. `Unpack` stands for the
  symbol interface assumed for the batch decoder that replaces the RTL.
- Reset sequencing, clocking, `await RisingEdge` loops, pin reads and the cocotb drivers
  are simulator I/O and are not modelled. This covers `sim/test_ber_sweep.py` and
  `sim/test_chain_conv_viterbi.py`, whose only arithmetic (packing, tail slicing, mismatch
  counting) repeats what is modelled here.
- BPSK mapping, AWGN, pulse shaping, matched filtering, eye traces, `simulate_ber`, plotting
  and file writes in the artifact generator are floating point, randomness and I/O, and are
  not modelled.
- Inputs and received values are modelled as bits 0/1. The `& 1` masks of the sources are
  the identity there. Non-bit integers passed to the Python functions are not modelled.
- `INF = 10**9` is modelled as the explicit value `Unreached`. `SentinelAgrees` shows the
  two agree while metrics stay below 10**9. By `MetricBound` this holds for every stream
  shorter than 10**9 coded bits. Longer streams, where the integer sentinel would be
  reached, are not modelled.
- ReadmeArtifacts.AddTail requires k >= 1: for k = 0 numpy fails on a negative length.
- `_precompute` runs once at module load in the source. The model calls `Precompute` at the
  start of `ViterbiDecodeHard`.
- Results are Dafny sequences rather than numpy arrays, so dtype conversions are not modelled.

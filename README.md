# A verified model of the STEADYWATCH quantum key post-processing core

This project models, in Dafny, the classical key post-processing pipeline of the
STEADYWATCH quantum demo together with its count-handling and caching routines:

- Cascade reconciliation (`qkd/cascade_key_reconciliation.py`): byte/bit
  conversion, truncation to the shorter key, parity passes with halving block
  sizes, the recursive bisection `_find_errors_in_block`, and the flips of Bob's
  copy with their disagreement accounting (module `Cascade`, on top of
  `BitVector`).
- The systematic LDPC code over GF(2) (`qkd/ldpc_error_correction.py`): the
  parity-check and generator matrices, `encode`, and the block framing of
  `correct_errors` around a decoder given as a parameter (modules `Ldpc` and
  `Framing`).
- The deterministic parts of the quantum-amplified LDPC wrapper
  (`qkd/quantum_amplified_ldpc.py`): its length arithmetic, parity bits parsed
  from measurement counts, `encode_quantum` and its block framing (module
  `QuantumLdpc`).
- The network key relay (`qkd/network_qkd.py`): nodes, symmetric links and
  secrets, path scoring and the path cache, path validation, the hop-by-hop
  repeating-key XOR relay, and key storage with a time to live (module
  `Network`).
- The session protocol (`core/qkd_protocol.py`): message dictionaries,
  HMAC challenge/response and signatures, sampled error detection, hash-chain
  privacy amplification and key verification (module `Protocol`).
- The GHZ hybrid byte layers (`core/ghz_echo_resonance_hybrid.py`): fidelity,
  secret extraction framing, hybrid key expansion and the GHZ XOR layer of
  encryption and decryption (module `GhzHybrid`).
- Count post-processing (`core/error_mitigation.py`,
  `core/mermin_inequality_tests.py`): symmetry verification, post-selection,
  normalisation, the calibration matrix, expectation values, the
  renormalisation loop of `test_observable` and the Mermin parameter (modules
  `Mitigation` and `Mermin`).
- The bounded FIFO threat-detection cache (`core/bat_defensive_grid_quantum.py`,
  class `ThreatDetectionCache`) and the cache path of
  `execute_bat_defensive_grid` (module `ThreatCache`).

Shared modules: `Wrappers` (Option, Result and the Python exceptions the
core raises), `BitVector` (bytes and LSB-first bit arrays), `Encoding`
(big-endian integers, hex, decimal text, UTF-8), `Crypto` (hash functions as
parameters of fixed output length, counter-mode expansion), `Dicts` (Python
dictionaries as insertion-ordered entry sequences) and `Sorting` (a stable
insertion sort standing in for Python's `sorted`).

The LSB-first converters `_bytes_to_bits` and `_bits_to_bytes` occur three
times with the same code (`qkd/cascade_key_reconciliation.py:287-304`,
`qkd/ldpc_error_correction.py:331-348`, `qkd/quantum_amplified_ldpc.py:407-424`);
`BitVector` models them once and the table cites the first copy.

Hash functions (SHA-256, SHA-512, MD5, HMAC), randomness, the clock,
Qiskit circuit execution and `networkx` path enumeration are parameters of
the operations that use them. Python floats are modelled as exact reals.

Most of the proof effort sits in the LSB-first round trips
(`BitVector.PackedUnpacked`, `BitVector.UnpackedPacked`), the pass-by-pass
specification of Cascade and its accounting (`Cascade.PassesOutcome`), the
renormalisation of Mermin counts (`Mermin.MatchedTotalSound`) and the masked
relay of the network layer (`Network.RelayStoresMaskedKey`); the small
arithmetic helpers such as `BitVector.Pow2` only support them.

## Model

| member | source | states |
|---|---|---|
| Wrappers.PyInt | core/mermin_inequality_tests.py:242-245 | `int(x)` on a float truncates toward zero: for x at least 0 the result is the floor, for negative x the ceiling |
| BitVector.Pow2 | qkd/cascade_key_reconciliation.py:93 | `2 ** e` is at least 1, so the block-size division is defined |
| BitVector.ByteBits | qkd/cascade_key_reconciliation.py:290-292 | the eight bits of a byte, position i holding `(byte >> i) & 1` |
| BitVector.PackByteBits | qkd/cascade_key_reconciliation.py:298-303 | OR-ing `bits[j] << j` over the eight bits of a byte rebuilds that byte |
| BitVector.ByteBitsPack | qkd/cascade_key_reconciliation.py:298-303 | unpacking the byte packed from eight bits gives those eight bits back |
| BitVector.PackByteAgree | qkd/cascade_key_reconciliation.py:300-302 | a packed byte depends only on the eight bits of its group |
| BitVector.Unpacked | qkd/cascade_key_reconciliation.py:287-293 | `_bytes_to_bits` yields 8 bits per byte |
| BitVector.UnpackedAt | qkd/cascade_key_reconciliation.py:290-292 | bit 8i+j of the unpacked array is bit j of byte i, least significant first |
| BitVector.UnpackedAppend | qkd/cascade_key_reconciliation.py:290-292 | unpacking a concatenation concatenates the unpacked parts |
| BitVector.UnpackedPrefix | qkd/cascade_key_reconciliation.py:71-74 | the first 8m unpacked bits are the bits of the first m bytes |
| BitVector.Packed | qkd/cascade_key_reconciliation.py:295-304 | `_bits_to_bytes` yields one byte per started group of eight bits |
| BitVector.PackedUnpacked | qkd/cascade_key_reconciliation.py:287-304 | `_bits_to_bytes(_bytes_to_bits(b)) == b` for every byte string b |
| BitVector.UnpackedPacked | qkd/cascade_key_reconciliation.py:287-304 | on a whole number of bytes, unpacking the packed bits gives the bits back |
| BitVector.PackedInjective | qkd/cascade_key_reconciliation.py:120-121 | on whole bytes, two bit arrays pack to the same bytes exactly when they are equal |
| BitVector.PackedPrefix | qkd/ldpc_error_correction.py:305-311 | keeping the first m packed bytes only looks at the first 8m bits |
| BitVector.BytesToBits | qkd/cascade_key_reconciliation.py:287-293 | the nested byte and bit loops build exactly the unpacked bit array |
| BitVector.PackByteAt | qkd/cascade_key_reconciliation.py:299-302 | the inner loop ORs `bits[i + j] << j` for the existing bits and yields the packed byte of the group at i |
| BitVector.BitsToBytes | qkd/cascade_key_reconciliation.py:295-304 | the group loop appends exactly the packed bytes |
| BitVector.XorWith | core/ghz_echo_resonance_hybrid.py:340-346 | byte-wise XOR with a keystream at least as long keeps the data length |
| BitVector.XorWithTwice | core/ghz_echo_resonance_hybrid.py:340-346 | XOR with the same keystream twice gives the data back |
| BitVector.SumAppend | qkd/cascade_key_reconciliation.py:177-178 | `np.sum` of a concatenation is the sum of the sums |
| BitVector.Flipped | qkd/cascade_key_reconciliation.py:196 | flipping a set of positions keeps the length |
| BitVector.BlocksFromCover | qkd/cascade_key_reconciliation.py:171-180 | the block loop processes ceil((n - i) / bs) blocks: at least one, covering every remaining bit, none past the end |
| Cascade.PassBlockSize | qkd/cascade_key_reconciliation.py:93-94 | the block size of pass p is at least 1 |
| Cascade.HalvedIsFloorDiv | qkd/cascade_key_reconciliation.py:93-94 | halving `block_size` p - 1 times is `block_size // 2 ** (p - 1)`, so the block size of pass p is `max(1, block_size // 2 ** (p - 1))` |
| Cascade.DivTwice | qkd/cascade_key_reconciliation.py:93 | floor division by p and then by 2 is floor division by 2p |
| Cascade.LeafErrors | qkd/cascade_key_reconciliation.py:229-234 | the direct scan of a short block reports at most one position per remaining bit |
| Cascade.LeafErrorsSound | qkd/cascade_key_reconciliation.py:229-234 | every position the direct scan reports lies in the block, marks a disagreement, is not in `corrected_bits`, and positions come in increasing order |
| Cascade.IncreasingCons | qkd/cascade_key_reconciliation.py:229-234 | a position below all later reports keeps the scan's reports increasing |
| Cascade.LeafErrorsComplete | qkd/cascade_key_reconciliation.py:229-234 | the direct scan misses no disagreement that is not in `corrected_bits` |
| Cascade.FindErrors | qkd/cascade_key_reconciliation.py:207-265 | `_find_errors_in_block` reports at most one position per bit of the block |
| Cascade.FindErrorsSound | qkd/cascade_key_reconciliation.py:237-265 | every reported index lies in [offset, offset + len), marks a disagreement and is not in `corrected_bits`; indices are increasing |
| Cascade.FindErrorsSoundSplit | qkd/cascade_key_reconciliation.py:245-265 | a block longer than four with differing parities reports soundly and in order when both halves do |
| Cascade.ReportedConcat | qkd/cascade_key_reconciliation.py:254-263 | extending the left half's errors by the right half's keeps soundness and order |
| Cascade.FindErrorsLeaf | qkd/cascade_key_reconciliation.py:229-234 | on a block of at most four bits, p is reported exactly when it is an offset-shifted disagreement not in `corrected_bits` |
| Cascade.ParityDiffers | qkd/cascade_key_reconciliation.py:183 | blocks whose parities differ disagree somewhere |
| Cascade.FindErrorsFindsOdd | qkd/cascade_key_reconciliation.py:237-265 | a block with differing parities, none of whose disagreements were corrected, yields at least one index |
| Cascade.LeafFindsOdd | qkd/cascade_key_reconciliation.py:229-234 | the same for a block of at most four bits |
| Cascade.HalfParityDiffers | qkd/cascade_key_reconciliation.py:245-263 | when a block's parities differ, so do those of one of its halves |
| Cascade.FindErrorsSplit | qkd/cascade_key_reconciliation.py:245-265 | a block longer than four with differing parities reports the left half's errors followed by the right half's |
| Cascade.DiffPosLast | qkd/cascade_key_reconciliation.py:237-242 | the disagreements of two bit arrays are those of their prefixes plus the last position exactly when the last bits differ |
| Cascade.ParityStep | qkd/cascade_key_reconciliation.py:237-242 | one more bit on each side flips the comparison of the parities exactly when the two bits differ |
| Cascade.ParityCountsDisagreements | qkd/cascade_key_reconciliation.py:237-242 | the parities of two blocks differ exactly when they disagree at an odd number of positions, so an equal-parity block hides an even number |
| Cascade.BinarySearchError | qkd/cascade_key_reconciliation.py:267-285 | `_binary_search_error` returns, when it returns an index, one inside the block where the blocks disagree |
| Cascade.BinarySearchErrorFinds | qkd/cascade_key_reconciliation.py:267-285 | on a block with differing parities it always returns an index, the smallest one the bisection reports |
| Cascade.PassErrorsStep | qkd/cascade_key_reconciliation.py:171-197 | one block's corrections advance the pass's corrections by one block |
| Cascade.PassErrorsFromSound | qkd/cascade_key_reconciliation.py:171-197 | every position a pass corrects from block i on is a disagreement at or after i not corrected before |
| Cascade.BlockErrorsSound | qkd/cascade_key_reconciliation.py:183-197 | a block's corrections lie in the block, are disagreements and were not corrected before |
| Cascade.PassErrorsSound | qkd/cascade_key_reconciliation.py:171-197 | a pass corrects only disagreements that were not corrected before |
| Cascade.PassErrorsFromUnit | qkd/cascade_key_reconciliation.py:171-197 | with one-bit blocks the pass corrects from i on every disagreement not corrected before |
| Cascade.PassErrorsUnit | qkd/cascade_key_reconciliation.py:171-197 | with one-bit blocks a pass corrects every disagreement not corrected before |
| Cascade.FlippedDiff | qkd/cascade_key_reconciliation.py:196 | flipping Bob's bits at disagreeing positions removes exactly those disagreements |
| Cascade.DiffPosEmpty | qkd/cascade_key_reconciliation.py:124-134 | no disagreement exactly when the bit arrays are equal |
| Cascade.PassScheduleAppend | qkd/cascade_key_reconciliation.py:88-110 | appending pass p with the halved block size and its block count keeps the pass record and adds its corrections to the total |
| Cascade.TruncatedBits | qkd/cascade_key_reconciliation.py:68-74 | cutting the unpacked keys to the shorter length is unpacking the first min(len a, len b) bytes of each |
| Cascade.ReconcileOutcome | qkd/cascade_key_reconciliation.py:119-135 | Alice's bytes come back as her first m bytes, Bob's have length m, corrections plus remaining errors equal the initial disagreements, and the byte strings match exactly when no error remains |
| Cascade.PassStep | qkd/cascade_key_reconciliation.py:97-108 | a pass's flips remove exactly its corrections from the disagreements, the corrected set grows by disjoint positions, a one-bit pass clears all disagreements, and a pass on agreeing keys corrects nothing |
| Cascade.RunStep | qkd/cascade_key_reconciliation.py:88-117 | one iteration of the pass loop keeps the disagreement accounting, the pass record, the running total and the early-stop record |
| Cascade.NextPassInvariant | qkd/cascade_key_reconciliation.py:88-117 | pass k run after k - 1 passes that did not stop keeps the run invariant: accounting, halving schedule, one record per pass, every pass but the last corrected something, stopped exactly when the last pass corrected nothing |
| Cascade.PassesUpToInvariant | qkd/cascade_key_reconciliation.py:88-117 | the run of passes 1 to k (or up to the first pass correcting nothing) satisfies that invariant, with at most k and, for k >= 1, at least one pass record |
| Cascade.PassesUpToStopped | qkd/cascade_key_reconciliation.py:114-116 | once a pass corrects nothing the loop breaks: later passes change neither Bob's bits, the corrected set nor the records |
| Cascade.PassesDone | qkd/cascade_key_reconciliation.py:88-116 | the run ends after pass `num_passes` or after the first pass that corrected nothing, whichever comes first |
| Cascade.PassesOutcome | qkd/cascade_key_reconciliation.py:81-117 | the whole run keeps the accounting (corrections plus remaining disagreements equal the initial ones, the total is the sum of the per-pass corrections), records between 1 and `num_passes` passes on the halving schedule, and when it recorded fewer than `num_passes` its last pass corrected nothing |
| Cascade.CascadeProtocol.constructor | qkd/cascade_key_reconciliation.py:29-38 | the protocol keeps its block size and number of passes |
| Cascade.CascadeProtocol.ReconcilePass | qkd/cascade_key_reconciliation.py:145-205 | Alice's bits come back unchanged; Bob's copy is flipped exactly at the pass's corrections, all of them disagreements not corrected before; the block count is ceil(n / bs) |
| Cascade.CascadeProtocol.RunPasses | qkd/cascade_key_reconciliation.py:81-117 | Bob's bits, the corrected set and the pass records after the loop are exactly those of the run of passes (`Passes`: pass p corrects the pass's errors at block size `PassBlockSize(p)` and breaks after a pass correcting nothing); the loop keeps corrected + remaining = initial disagreements, totals the per-pass corrections, runs between 1 and `num_passes` passes, stops right after the first pass correcting nothing, and a pass with block size 1 leaves no disagreement |
| Cascade.CascadeProtocol.ReconcileKeys | qkd/cascade_key_reconciliation.py:40-143 | both keys come back with min(len a, len b) bytes, Alice's unchanged; Bob's key is the packed bits of the run of passes over the cut bit arrays, and `pass_results`, `total_errors_corrected` and `remaining_errors` are that run's; `total_errors_corrected + remaining_errors` equals the initial disagreements; `keys_match` holds iff no error remains iff the keys are equal; the final error rate is remaining / bits or 0 |
| Cascade.CorrectBlock | qkd/cascade_key_reconciliation.py:171-197 | one block of the pass loop flips Bob's working array exactly at the block's corrections |
| Cascade.FlipErrors | qkd/cascade_key_reconciliation.py:193-197 | the correction loop flips each reported position not in `corrected_bits` once and records it |
| Cascade.FlippedOutside | qkd/cascade_key_reconciliation.py:173-174 | flips made in earlier blocks leave the current block's bits as they were |
| Cascade.FlipOne | qkd/cascade_key_reconciliation.py:196 | flipping one more position is `bit := 1 - bit` at that position |
| Sorting.Insert | qkd/network_qkd.py:252 | inserting into a sorted list adds exactly that element |
| Sorting.Sort | qkd/network_qkd.py:252 | `sorted` returns a permutation of its input |
| Sorting.InsertSorted | qkd/network_qkd.py:252 | insertion keeps the list sorted |
| Sorting.SortSorted | qkd/network_qkd.py:252 | the result of `sorted` is ordered by the key |
| Sorting.InsertStable | core/mermin_inequality_tests.py:255 | inserting an element places it in front of every element with the same key, leaving the others with that key in order |
| Sorting.SortStable | core/mermin_inequality_tests.py:255 | `sorted` is stable: for every key, the elements with that key come out in the order they went in |
| Sorting.SortLeast | qkd/network_qkd.py:252 | an element strictly before all others comes first |
| Sorting.SortedPairs | core/bat_defensive_grid_quantum.py:587 | under a strict total order, every earlier element of a sorted list is before or equal to every later one |
| Sorting.SortedUnique | core/bat_defensive_grid_quantum.py:587 | two sorted permutations of each other under a strict total order are equal |
| Sorting.SortedHeads | core/bat_defensive_grid_quantum.py:587 | two sorted permutations of each other start with the same element |
| Sorting.SortCanonical | core/bat_defensive_grid_quantum.py:587 | under a strict total order, `sorted` depends only on the multiset of its input |
| Crypto.Blocks256 | core/qkd_protocol.py:355-357 | `hashlib.sha256(...).digest()` always has 32 bytes |
| Crypto.Blocks512 | core/ghz_echo_resonance_hybrid.py:262 | `hashlib.sha512(...).digest()` always has 64 bytes |
| Crypto.ExpandNext | core/qkd_protocol.py:354-359 | one more round of the hash chain appends `H(seed ‖ counter.to_bytes(4, 'big'))` |
| Crypto.StreamLength | core/qkd_protocol.py:352-359 | a chain of count blocks of w bytes each has w · count bytes |
| Crypto.StreamPrefix | core/qkd_protocol.py:352-362 | a chain of fewer rounds is a prefix of a chain of more |
| Crypto.StreamBlock | core/qkd_protocol.py:352-359 | block i of the chain sits at its own offset in every longer chain |
| Crypto.ExpandLength | core/qkd_protocol.py:352-359 | count rounds of a w-byte hash give w · count bytes |
| Crypto.ExpandBlock | core/qkd_protocol.py:354-359 | bytes [w·i, w·(i+1)) of the expansion are `H(seed ‖ i as 4-byte big-endian)` |
| Crypto.ExpandPrefix | core/qkd_protocol.py:352-362 | a shorter expansion is a prefix of a longer one |
| Crypto.CeilDiv | core/qkd_protocol.py:354 | the number of rounds the `while len(output) < n` loop runs is the least q with q · w at least n |
| Crypto.CeilDivUnique | core/qkd_protocol.py:354 | any count with that property is that number |
| Dicts.Keys | core/error_mitigation.py:247 | `list(d.keys())` lists every key of the dictionary, in insertion order |
| Dicts.Get | core/error_mitigation.py:178-179 | `d.get(k, default)` returns the default for a missing key |
| Dicts.GetAt | core/error_mitigation.py:178-179 | `d.get` on a present key returns its stored value |
| Dicts.Assign | core/mermin_inequality_tests.py:251-261 | `d[k] = v` keeps a present key in its place, rebinding it, and appends a new key at the end |
| Dicts.AssignGet | core/mermin_inequality_tests.py:251-261 | after `d[k] = v` keys stay unique, `get(k)` is v and every other key reads as before |
| Dicts.Lookup | core/bat_defensive_grid_quantum.py:600-607 | `k in d` then `d[k]`: a value exactly when the key is present |
| Dicts.LookupAt | core/bat_defensive_grid_quantum.py:603-605 | looking up the key of an entry finds that entry's value |
| Dicts.AssignLookup | core/bat_defensive_grid_quantum.py:622-623 | after `d[k] = v` a lookup of k finds v and a lookup of any other key finds what it found before |
| Dicts.AssignAt | core/mermin_inequality_tests.py:251-261 | rebinding the key of entry i replaces that entry and nothing else |
| Dicts.TotalAssign | core/mermin_inequality_tests.py:251-261 | rebinding a present key changes `sum(d.values())` by the difference of the values |
| Dicts.PermutedUniqueKeys | core/mermin_inequality_tests.py:255-256 | reordering the entries of a dictionary keeps its keys unique |
| Dicts.SameKeysUnique | core/error_mitigation.py:112-115 | a comprehension over a dictionary's items has unique keys too |
| Dicts.EntryOccursOnce | core/mermin_inequality_tests.py:255-256 | no entry of a dictionary occurs twice |
| Dicts.ZeroTotal | core/error_mitigation.py:267-271 | values all 0 sum to 0 |
| Dicts.TotalUpdate | core/mermin_inequality_tests.py:251-261 | replacing one entry changes the sum of the values by the difference |
| Dicts.TotalBounds | core/mermin_inequality_tests.py:147-155 | non-negative counts each lie between 0 and their sum |
| Dicts.TotalNonNegative | core/mermin_inequality_tests.py:147-155 | non-negative counts have a non-negative sum |
| Dicts.GetPairBound | core/mermin_inequality_tests.py:153-155 | the counts of two different states together are at most the total |
| Dicts.GetOneBound | core/mermin_inequality_tests.py:153-155 | the count of one state lies between 0 and the total |
| Dicts.Normalized | core/error_mitigation.py:269 | `{k: c / total}` keeps the keys and divides each count by the total |
| Dicts.NormalizedTotal | core/error_mitigation.py:269 | the normalised values sum to the counts' sum divided by the divisor |
| Dicts.NormalizedSumsToOne | core/error_mitigation.py:267-269 | dividing by the dictionary's own non-zero total gives values summing to 1 |
| Dicts.PairDisplay | core/error_mitigation.py:177-180 | the display `{a: x, b: y}` holds two entries when a and b differ, and one entry with the last value when they are equal |
| Dicts.ScanMax | qkd/quantum_amplified_ldpc.py:239 | the scan of `max(counts, key=counts.get)` stays on an existing entry |
| Dicts.MostFrequentIndex | qkd/quantum_amplified_ldpc.py:239 | `max` over a non-empty dictionary picks an existing entry |
| Dicts.ScanMaxIsFirstMaximum | qkd/quantum_amplified_ldpc.py:239 | the scan ends on an entry no other beats, and strictly beats every earlier one |
| Dicts.MostFrequentIsFirstMaximum | qkd/quantum_amplified_ldpc.py:239 | `max(counts, key=counts.get)` is the first entry of largest count |
| Dicts.Replicated | core/error_mitigation.py:174-175 | a one-character string repeated n times has n characters, all that one; `'0' * n` and `'1' * n` (`Zeros`, `Ones`) are its two uses |
| Dicts.Scaled | core/error_mitigation.py:256-258 | `{state: int(prob * 1000)}` keeps the keys and truncates each scaled value |
| Encoding.Pow256 | core/qkd_protocol.py:356 | 256 to the power w is at least 1 |
| Encoding.ToBigEndian | core/qkd_protocol.py:356 | `n.to_bytes(w, 'big')` succeeds exactly when n fits in w bytes (otherwise OverflowError) and then has w bytes |
| Encoding.BigEndian | core/qkd_protocol.py:356 | the big-endian form of an n that fits has exactly w bytes |
| Encoding.FromBigEndian | core/qkd_protocol.py:356 | `int.from_bytes(b, 'big')` is below 256 to the power len(b) |
| Encoding.BigEndianRoundTrip | core/qkd_protocol.py:356 | reading back the w-byte big-endian form of n gives n |
| Encoding.BigEndianInjective | core/qkd_protocol.py:356 | two numbers that fit in w bytes have the same w-byte form exactly when they are equal |
| Encoding.Be4 | core/ghz_echo_resonance_hybrid.py:261 | `counter.to_bytes(4, 'big')` has 4 bytes |
| Encoding.Be4RoundTrip | core/ghz_echo_resonance_hybrid.py:261 | the 4-byte counter reads back as the counter, so distinct counters hash distinct inputs |
| Encoding.HexDigit | core/qkd_protocol.py:57 | a nibble's hex digit reads back as that nibble |
| Encoding.HexValue | core/qkd_protocol.py:68 | a hex digit's value is below 16 |
| Encoding.ToHex | core/qkd_protocol.py:57 | `bytes.hex()` gives two hex digits per byte |
| Encoding.HexBytes | core/qkd_protocol.py:68 | `bytes.fromhex` on well-formed text gives one byte per two digits |
| Encoding.FromHex | core/qkd_protocol.py:68 | `bytes.fromhex` succeeds exactly on an even number of hex digits (otherwise ValueError) |
| Encoding.HexRoundTrip | core/qkd_protocol.py:57-68 | `bytes.fromhex(b.hex()) == b` for every b |
| Encoding.HexBytesToHex | core/qkd_protocol.py:57-68 | the hex text of b is well formed and decodes to b |
| Encoding.HexPair | core/qkd_protocol.py:57-68 | the two hex digits of a byte decode to that byte |
| Encoding.NatToString | core/qkd_protocol.py:421 | `str(n)` of a non-negative int is decimal digits without a leading zero |
| Encoding.NatToStringRoundTrip | core/qkd_protocol.py:421 | the decimal text of n parses back to n |
| Encoding.NatToStringInjective | core/qkd_protocol.py:421 | two numbers have the same decimal text exactly when they are equal |
| Encoding.ByteOf | core/qkd_protocol.py:68 | the byte of value m, for m below 256 |
| Encoding.FromUnits | core/qkd_protocol.py:421 | code units become bytes of the same values |
| Encoding.CodeUnits | core/qkd_protocol.py:421 | a code point encodes to 1 to 4 UTF-8 code units |
| Encoding.EncodeChar | core/qkd_protocol.py:421 | one character encodes to 1 to 4 bytes |
| Encoding.Utf8 | core/qkd_protocol.py:421 | `str.encode()` gives at least one byte per character |
| Encoding.CodeUnitsDecode | core/qkd_protocol.py:421 | the lead byte announces the sequence length, and the sequence decodes to the code point |
| Encoding.EncodeCharDecodes | core/qkd_protocol.py:421 | the UTF-8 bytes of a character decode to it |
| Encoding.EncodeCharInjective | core/qkd_protocol.py:421 | different characters have different UTF-8 bytes |
| Encoding.Utf8Injective | core/qkd_protocol.py:421 | different strings have different UTF-8 encodings |
| Encoding.Utf8Append | core/qkd_protocol.py:421-422 | the encoding of a concatenation is the concatenation of the encodings |
| Encoding.ParseBinary | core/mermin_inequality_tests.py:86 | `int(bits, 2)` restricted to strings of the characters 0 and 1, which is all the bit generator yields: it succeeds exactly on a non-empty such string and raises ValueError on the empty one; any other character is refused with ValueError as well (see Left out) |
| Framing.Block | qkd/ldpc_error_correction.py:268-275 | a block is `bits[i:i+k]` zero-padded to exactly k bits |
| Framing.Received | qkd/ldpc_error_correction.py:284-289 | Bob's received word has the codeword's length |
| Framing.RunBlocks | qkd/ldpc_error_correction.py:267-302 | the block loop runs ceil((limit - i) / k) times |
| Framing.RunHead | qkd/ldpc_error_correction.py:267-302 | the first block's decoded bits come first and its success adds one when it succeeded |
| Framing.RunCovers | qkd/ldpc_error_correction.py:267-296 | with a decoder returning k bits, the decoded bits cover every framed key bit |
| Framing.PerfectAnswer | qkd/ldpc_error_correction.py:278-298 | with no flips and a decoder that inverts the encoder, a block decodes to itself and succeeds |
| Framing.PerfectRun | qkd/ldpc_error_correction.py:267-296 | with such a decoder the framed key bits are a prefix of the decoded stream |
| Framing.PerfectBlock | qkd/ldpc_error_correction.py:267-296 | with such a decoder each step appends the block itself |
| Framing.PerfectSuccesses | qkd/ldpc_error_correction.py:298-302 | with such a decoder every block counts as a success |
| Framing.FramedPrefix | qkd/ldpc_error_correction.py:268-275 | a whole block followed by a stream holding the rest of the key holds the key from the block on |
| Framing.LastBlockPrefix | qkd/ldpc_error_correction.py:272-275 | the zero-padded last block holds the key bits that remain |
| Framing.PerfectDecoderKeepsAliceKey | qkd/ldpc_error_correction.py:254-311 | with a decoder inverting the encoder, Alice's corrected key is her first min(len a, len b) bytes and every block succeeds |
| Framing.RunStep | qkd/ldpc_error_correction.py:295-302 | one loop iteration extends the decoded bits, successes and block count by the block's answer |
| Framing.Successes | qkd/ldpc_error_correction.py:298-302 | the successes never exceed the blocks |
| Framing.Rate | qkd/ldpc_error_correction.py:320-321 | `successes / total_blocks` lies in [0, 1], is 0 when there are no blocks, and times the blocks gives the successes |
| Framing.FrameAndDecode | qkd/ldpc_error_correction.py:254-311 | both outputs are the packed decoded streams trimmed to exactly min(len a, len b) bytes, the counters are the blocks' successes and the block count is ceil(8 · min / k) |
| Framing.DecodeBlocks | qkd/ldpc_error_correction.py:267-302 | the block loop accumulates exactly the decoded streams, the successes and the block count |
| Framing.DecodeBlock | qkd/ldpc_error_correction.py:268-293 | one block is padded, encoded, Bob's copy flipped at the drawn positions, and both decoded |
| Framing.FlipPositions | qkd/ldpc_error_correction.py:284-289 | flipping each of the distinct drawn positions once flips exactly that set |
| Ldpc.Unit | qkd/ldpc_error_correction.py:61 | a row of `np.eye` has the width of the identity |
| Ldpc.Column | qkd/ldpc_error_correction.py:97 | a column of a matrix has one entry per row |
| Ldpc.DotAppend | qkd/ldpc_error_correction.py:131 | a dot product over concatenated vectors is the sum of the parts' products |
| Ldpc.DotUnit | qkd/ldpc_error_correction.py:61 | the dot product with the unit vector e_i picks component i |
| Ldpc.DotSymmetric | qkd/ldpc_error_correction.py:101 | the dot product is symmetric |
| Ldpc.Indicator | qkd/ldpc_error_correction.py:70-71 | `H[i, positions] = 1` writes a row of k bits |
| Ldpc.ParityCheckRow | qkd/ldpc_error_correction.py:54-71 | each row of H has n = k + m bits |
| Ldpc.ParityCheck | qkd/ldpc_error_correction.py:54-73 | H has m rows |
| Ldpc.GeneratorRow | qkd/ldpc_error_correction.py:91-97 | each row of G has k + m bits |
| Ldpc.Generator | qkd/ldpc_error_correction.py:91-97 | G has k rows |
| Ldpc.CheckProduct | qkd/ldpc_error_correction.py:101 | `(G @ H.T) % 2` has one row per row of G |
| Ldpc.GenerateParityCheckMatrix | qkd/ldpc_error_correction.py:47-73 | the zero matrix with the identity written into its last m columns and three chosen ones per row is exactly H = [P^T &#124; I_m] |
| Ldpc.GenerateGeneratorMatrix | qkd/ldpc_error_correction.py:75-115 | the loops build exactly G = [I_k &#124; P], and the fallback branch is never taken because the check product is zero |
| Ldpc.NewCode | qkd/ldpc_error_correction.py:26-45 | `LDPCCode(n, k)` has m = n - k, H built from the column choices and G derived from H, and is well formed |
| Ldpc.NewCorrector | qkd/ldpc_error_correction.py:214-231 | `message_length = int(code_length * code_rate)`; construction raises ValueError exactly when that k is negative, above n, or below 3 while parity rows exist (`np.random.choice` without replacement); otherwise the code has length n and message length k |
| Ldpc.ParityCheckShape | qkd/ldpc_error_correction.py:54-61 | H is m by n and its last m columns form the identity |
| Ldpc.ParityCheckRowWeight | qkd/ldpc_error_correction.py:63-71 | every row of H has exactly 3 ones among its first k columns and row weight 4 |
| Ldpc.IndicatorSum | qkd/ldpc_error_correction.py:70-71 | a row with ones at a set of positions has as many ones as the set has elements |
| Ldpc.UnitSum | qkd/ldpc_error_correction.py:61 | a row of the identity has one 1 |
| Ldpc.GeneratorShape | qkd/ldpc_error_correction.py:87-97 | G is k by n, its first k columns form the identity and entry (r, k + i) is H[i][r] |
| Ldpc.GeneratorOrthogonal | qkd/ldpc_error_correction.py:99-102 | `(G @ H.T) % 2` is all zero |
| Ldpc.Codeword | qkd/ldpc_error_correction.py:131 | `(message @ G) % 2` has n bits |
| Ldpc.Encode | qkd/ldpc_error_correction.py:117-133 | `encode` raises ValueError exactly when the message does not have k bits, and otherwise returns n bits |
| Ldpc.EncodeSystematic | qkd/ldpc_error_correction.py:131 | the first k bits of a codeword are the message, and parity bit i is the message's dot product with row i of P^T, mod 2 |
| Ldpc.EncodeInjective | qkd/ldpc_error_correction.py:131 | two messages have the same codeword exactly when they are equal |
| Ldpc.SyndromeZero | qkd/ldpc_error_correction.py:97-131 | every codeword c satisfies `H · c ≡ 0 (mod 2)` |
| Ldpc.CodeEncoder | qkd/ldpc_error_correction.py:278-279 | the encoder handed to the framing is `encode` on k-bit blocks |
| Ldpc.CorrectErrors | qkd/ldpc_error_correction.py:233-329 | `correct_errors` raises ValueError when k is 0 (the range step) or when more errors are drawn than the codeword has bits; otherwise both outputs are the trimmed decoded streams of exactly min(len a, len b) bytes, the block count is ceil(8 · min / k), and the metadata holds the counters and their rates |
| QuantumLdpc.NewQuantumCorrector | qkd/quantum_amplified_ldpc.py:61-92 | `message_length = int(code_length * code_rate)` and `parity_length = code_length - message_length`; the classical fallback corrector is built with the same k and n, so construction raises ValueError exactly when it does |
| QuantumLdpc.Reverse | qkd/quantum_amplified_ldpc.py:248 | `s[::-1]` has the same length and character i is character len - 1 - i of s |
| QuantumLdpc.DigitValue | qkd/quantum_amplified_ldpc.py:253 | `int(ch)` succeeds exactly on a decimal digit, with its value; '0' and '1' read as 0 and 1 |
| QuantumLdpc.Satellites | qkd/quantum_amplified_ldpc.py:251-253 | the loop reads characters 1 to min(len, parity + 1) - 1 of the measurement |
| QuantumLdpc.ParityOf | qkd/quantum_amplified_ldpc.py:244-259 | parsing fails exactly when a read character is not a digit; otherwise the result has `num_parity_bits` values, value j being character j + 1 of the measurement where it exists and 0 after it |
| QuantumLdpc.BitStringCountsGiveParityBits | qkd/quantum_amplified_ldpc.py:239-259 | for non-empty counts of bit strings, the result has `num_parity_bits` values, each 0 or 1, bit j being character j + 1 of the reversed most frequent outcome where it exists and 0 otherwise |
| QuantumLdpc.ExtractParityFromCounts | qkd/quantum_amplified_ldpc.py:226-259 | the append loop and the padding loop compute exactly the extracted parity, with the random fallback for empty counts; the random draw supplies exactly `num_parity_bits` bits, as `np.random.randint(0, 2, size=n)` does |
| QuantumLdpc.EncodeQuantum | qkd/quantum_amplified_ldpc.py:261-291 | `encode_quantum` raises ValueError unless the message has `message_length` bits; its result starts with the message, followed with echo resonance by the extracted parity bits |
| QuantumLdpc.ClassicalFallbackIsCodeword | qkd/quantum_amplified_ldpc.py:282-289 | without echo resonance the result is the classical codeword of the message |
| QuantumLdpc.EchoCodewordLength | qkd/quantum_amplified_ldpc.py:235-289 | with echo resonance and bit-string counts, or no counts and the random parity draw, the codeword has `code_length` bits |
| QuantumLdpc.QuantumEncoder | qkd/quantum_amplified_ldpc.py:289 | message followed by its parity bits: the prefix is the message |
| QuantumLdpc.QuantumCorrection | qkd/quantum_amplified_ldpc.py:331-397 | the block count is ceil(8 · min / k), and `quantum_parity_generated` is twice the block count with echo resonance and 0 without |
| QuantumLdpc.CorrectErrorsQuantum | qkd/quantum_amplified_ldpc.py:293-399 | raises ValueError when k is 0 or more errors are drawn than bits; otherwise the result is `QuantumCorrection`, where each block is encoded by that party's own parity (an echo circuit run per party under echo resonance, one classical code per block otherwise) and decoded by the block's own decoder, and both outputs have exactly min(len a, len b) bytes |
| QuantumLdpc.PerfectDecoderKeepsAliceKeyQuantum | qkd/quantum_amplified_ldpc.py:333-384 | if each block's decoder inverted Alice's message-plus-parity encoding of that block (the source draws the decoding code separately, so nothing guarantees this), Alice's corrected key is her first min(len a, len b) bytes and every block succeeds |
| Network.Joined | qkd/network_qkd.py:167-173 | `add_link` changes only the two endpoints and keeps the node set |
| Network.JoinedLinks | qkd/network_qkd.py:164-173 | after linking a and b, a has b as neighbour and shared secret and b has a, every other node is unchanged, and both [a, b] and [b, a] validate |
| Network.Repeat | qkd/network_qkd.py:471 | `key * t` has len(key) · t bytes |
| Network.RepeatAt | qkd/network_qkd.py:471 | byte i of `key * t` is byte i mod len(key) of key |
| Network.RepeatCovers | qkd/network_qkd.py:471 | `key * (len(data) // len(key) + 1)` is at least as long as the data, so the slice to len(data) is full |
| Network.KeyStream | qkd/network_qkd.py:471 | the sliced repetition has len(data) bytes, byte i being key[i mod len(key)] |
| Network.XorEncrypt | qkd/network_qkd.py:469-471 | raises ZeroDivisionError exactly for an empty key; otherwise the output has the data's length and byte i is data[i] XOR key[i mod len(key)] |
| Network.XorDecrypt | qkd/network_qkd.py:473-475 | fails exactly for an empty key; otherwise encrypting its output again gives back the input |
| Network.XorRoundTrip | qkd/network_qkd.py:469-475 | for a non-empty key, decrypting the encryption of any data gives the data back |
| Network.PathLatency | qkd/network_qkd.py:259-265 | a path of at most one node has latency 0, and with non-negative link latencies the total is non-negative |
| Network.OnEdgesSlice | qkd/network_qkd.py:262-264 | every contiguous piece of a path along links is itself along links |
| Network.PathLatencySplit | qkd/network_qkd.py:259-265 | the latency of a path is the sum of the latencies of its two pieces split at any node |
| Network.TrustProduct | qkd/network_qkd.py:278-286 | the product of the relay factors 0.9 and 0.7 lies in (0, 1] and is at most 0.9 once there is a relay |
| Network.PathTrust | qkd/network_qkd.py:267-286 | the trust lies in (0, 1] and is 1.0 exactly for paths of at most two nodes |
| Network.Score | qkd/network_qkd.py:237-249 | the scored path keeps the node list, has len(path) - 1 hops and carries the path's trust and latency |
| Network.BetterAsymmetric | qkd/network_qkd.py:252 | the sort key `(-trust, latency, hops)` orders no two paths both ways |
| Network.Scored | qkd/network_qkd.py:237-249 | one scored path per candidate, in candidate order |
| Network.Ranked | qkd/network_qkd.py:252 | sorting keeps the number of paths |
| Network.RankedOrder | qkd/network_qkd.py:236-252 | the ranked list is a permutation of the scored candidates, with trust non-increasing and, among equal trust, latency non-decreasing |
| Network.DirectPathFirst | qkd/network_qkd.py:252-257 | when the direct path [s, d] is a candidate and every candidate runs from s to d, the best path is the direct one with trust 1.0 and one hop |
| Network.ValidFromLinked | qkd/network_qkd.py:357-369 | the loop from hop i returns True exactly when every later node exists and each is a neighbour with a shared secret of its predecessor; it raises only when a node is missing |
| Network.ValidatePathLinked | qkd/network_qkd.py:351-369 | `_validate_path` returns True exactly for a linked path of at least two nodes; it raises KeyError only when some node of the path is missing, and never when all exist |
| Network.ValidFromKeyError | qkd/network_qkd.py:358-359 | the only error raised by validation is KeyError |
| Network.HopKey | qkd/network_qkd.py:464-467 | the derived hop key is the 32-byte SHA-256 digest |
| Network.Masked | qkd/network_qkd.py:402-410 | the key masked on hop i has the key's length, byte j being key[j] XOR hop key[j mod 32] |
| Network.Masks | qkd/network_qkd.py:396-410 | one masked key per hop |
| Network.Stored | qkd/network_qkd.py:413-415 | storing masked keys at relays keeps the node set |
| Network.StoredKeysOnly | qkd/network_qkd.py:413-415 | storing changes only the `keys` dictionary of each node |
| Network.Relayed | qkd/network_qkd.py:393-420 | relaying keeps the node set |
| Network.StoredUntouched | qkd/network_qkd.py:413-415 | a node that is not an intermediate node of the stored hops is unchanged |
| Network.StoredAt | qkd/network_qkd.py:413-415 | on a path without repeated nodes, the relay after hop j holds mask j under the slot and its other keys are unchanged |
| Network.RelayStoresMaskedKey | qkd/network_qkd.py:393-420 | on a simple path, every intermediate node holds under `<session>_encrypted` the key masked with its incoming hop key, and source, destination and nodes off the path are unchanged |
| Network.Delivered | qkd/network_qkd.py:345 | the destination holds the key under the session id and the node set is kept |
| Network.GeneratedSessionId | qkd/network_qkd.py:310-313 | the generated session id is the first 16 hex digits of a SHA-256 digest |
| Network.NetworkQkd.constructor | qkd/network_qkd.py:111-141 | the address defaults to the node id, the only node is the node itself, and links, keys and path cache start empty |
| Network.NetworkQkd.AddNode | qkd/network_qkd.py:143-151 | `add_node` sets (or replaces) the node entry and changes nothing else |
| Network.NetworkQkd.AddLink | qkd/network_qkd.py:153-200 | raises ValueError, changing nothing, exactly when an endpoint is missing; otherwise joins the endpoints, records the latency both ways, and both two-node paths validate |
| Network.NetworkQkd.FindPaths | qkd/network_qkd.py:202-257 | unknown endpoints give []; a cached pair returns the cached list; otherwise the candidates are scored, ranked and cached under the pair; nodes, links and keys are unchanged |
| Network.NetworkQkd.RelayKeyAlongPath | qkd/network_qkd.py:371-420 | the relay loop always succeeds, the key recovered at the destination is the original key, and the nodes are updated as `Relayed` |
| Network.NetworkQkd.GetKey | qkd/network_qkd.py:477-483 | returns the key exactly when the session is stored and not expired |
| Network.NetworkQkd.DistributeKey | qkd/network_qkd.py:288-349 | unknown endpoints give (False, None, []); when both endpoints are known, no path is preferred and the pair is not cached, the ranked scored candidates are cached under the pair, and otherwise the path cache is unchanged; otherwise the chosen path's validation decides: KeyError propagates, an invalid path gives (False, None, []) and changes no keys, and a valid path stores the network key under the session id, relays the masked key and delivers the key to the destination, where a positive ttl makes it retrievable |
| Protocol.ParseMessageType | core/qkd_protocol.py:26-38 | `MessageType(s)` succeeds only on one of the eleven values, whose value is s, and raises ValueError otherwise |
| Protocol.ParseTypeValue | core/qkd_protocol.py:26-38 | every message type is recovered from its own value |
| Protocol.ToDict | core/qkd_protocol.py:50-58 | the signature entry is present exactly when the signature is non-empty, and is then a hex string of twice its length |
| Protocol.FromDict | core/qkd_protocol.py:60-69 | succeeds exactly when the type parses and a non-empty signature is valid hex, raising ValueError otherwise; the parsed message keeps type value, session, timestamp and data, and has a signature exactly when the entry is non-empty |
| Protocol.DictRoundTrip | core/qkd_protocol.py:50-69 | `from_dict(to_dict(m))` gives m back, except that an empty signature comes back as None |
| Protocol.IntToString | core/qkd_protocol.py:421 | `str` of an integer is never empty |
| Protocol.SignedBytes | core/qkd_protocol.py:421-422 | the signed bytes are the UTF-8 of type value, session text, timestamp text and rendered data, in that order |
| Protocol.Signed | core/qkd_protocol.py:139 | signing keeps type, session, timestamp and data and attaches a 32-byte signature |
| Protocol.VerifyMessageSignature | core/qkd_protocol.py:425-428 | raises TypeError exactly when the message has no signature; returns True exactly when the signature is the HMAC of the message under the shared secret |
| Protocol.SignedVerifies | core/qkd_protocol.py:419-428 | a signed message verifies, also after a `to_dict`/`from_dict` round trip |
| Protocol.Mismatches | core/qkd_protocol.py:263-275 | the error count is at most the number of samples |
| Protocol.MismatchesExtremes | core/qkd_protocol.py:264-275 | the count is 0 exactly when no sampled bit differs and equals the sample count exactly when every sampled bit differs |
| Protocol.SameKeyNoErrors | core/qkd_protocol.py:264-275 | comparing a key with itself finds no errors |
| Protocol.SampleIndices | core/qkd_protocol.py:259-260 | the sorted sample holds exactly the drawn indices |
| Protocol.SampleIndicesAscending | core/qkd_protocol.py:259-260 | the sample indices are in ascending order |
| Protocol.ErrorRate | core/qkd_protocol.py:277 | the rate lies in [0, 1], is 0 exactly when there are no errors and 1 exactly when every sample is an error |
| Protocol.Amplified | core/qkd_protocol.py:349-362 | raises OverflowError exactly when the output needs more than 2^32 digest blocks (the 4-byte counter overflows); otherwise the key has max(output_length, 0) bytes |
| Protocol.AmplifiedBlock | core/qkd_protocol.py:354-358 | block i of the amplified key is SHA-256 of seed, raw key and the big-endian 4-byte counter i |
| Protocol.AmplifiedPrefix | core/qkd_protocol.py:352-362 | a shorter amplified key is a prefix of a longer one from the same inputs |
| Protocol.QkdProtocol.constructor | core/qkd_protocol.py:82-114 | party and secret are stored and all session and key state starts as None |
| Protocol.QkdProtocol.GenerateAuthChallenge | core/qkd_protocol.py:120-141 | the new session id is stored, the challenge is returned, and the message is the signed AUTH_CHALLENGE carrying the challenge's hex |
| Protocol.QkdProtocol.Authenticate | core/qkd_protocol.py:162-188 | the response message is AUTH_RESPONSE for the current session with the response's hex, and its signature verifies |
| Protocol.QkdProtocol.ErrorDetection | core/qkd_protocol.py:242-298 | the rate is the error rate of the mismatches over the sorted sample, lies in [0, 1] and is stored; the message is the signed ERROR_DETECT report; nothing else changes |
| Protocol.QkdProtocol.ErrorCorrectionRepetition | core/qkd_protocol.py:300-327 | the byte-copy loop returns the raw key unchanged and stores it as the corrected key |
| Protocol.QkdProtocol.PrivacyAmplification | core/qkd_protocol.py:333-368 | the hash-chain loop computes exactly the amplified key and stores it as the final key |
| Protocol.QkdProtocol.VerifyKey | core/qkd_protocol.py:374-413 | the keys match exactly when their SHA-256 digests are equal, a match stores Alice's key as the session key, and the message is the signed KEY_VERIFY report |
| Protocol.AuthenticateVerifies | core/qkd_protocol.py:143-188 | with a common shared secret, Bob accepts Alice's response to a challenge, and accepts exactly that response |
| GhzHybrid.GhzFidelity | core/ghz_echo_resonance_hybrid.py:144-150 | the fidelity is 0 when shots is not positive |
| GhzHybrid.FidelityIsPercentage | core/ghz_echo_resonance_hybrid.py:144-150 | with non-negative counts totalling at most the shots, the fidelity is a percentage in [0, 100] |
| GhzHybrid.IntBytes | core/ghz_echo_resonance_hybrid.py:199-210 | `to_bytes(w, 'big')` succeeds exactly for 0 ≤ x < 256^w, raising OverflowError otherwise, and then gives w bytes whose big-endian value is x |
| GhzHybrid.EntryBytes | core/ghz_echo_resonance_hybrid.py:205-210 | one outcome contributes (n + 7) // 8 state bytes and a 4-byte count |
| GhzHybrid.StatesDataLength | core/ghz_echo_resonance_hybrid.py:203-210 | the outcome loop appends exactly that many bytes per outcome |
| GhzHybrid.StatesDataSucceeds | core/ghz_echo_resonance_hybrid.py:203-210 | the loop raises exactly when some outcome's conversion raises |
| GhzHybrid.ByCount | core/ghz_echo_resonance_hybrid.py:203 | the sorted outcomes are a permutation of the counts |
| GhzHybrid.ByCountDescending | core/ghz_echo_resonance_hybrid.py:203 | the outcomes are ordered by count, largest first |
| GhzHybrid.ByCountStable | core/ghz_echo_resonance_hybrid.py:203 | outcomes with equal counts keep their dictionary order: `reverse=True` does not reverse ties |
| GhzHybrid.SignatureCounts | core/ghz_echo_resonance_hybrid.py:192-200 | the signature is 8 bytes: the big-endian counts of the all-zeros and of the all-ones outcome, 0 when absent |
| GhzHybrid.SecretDataLayout | core/ghz_echo_resonance_hybrid.py:189-218 | the hashed data starts with the two signature counts, followed by the outcome bytes in count order |
| GhzHybrid.EncodeStates | core/ghz_echo_resonance_hybrid.py:203-210 | the loop computes exactly the outcome bytes, or the error of the first failing outcome |
| GhzHybrid.ExtractGhzSecret | core/ghz_echo_resonance_hybrid.py:172-227 | `extract_ghz_secret` is SHA-256 of the layout above followed by job id, fidelity and timing bytes |
| GhzHybrid.StatesPrefixFails | core/ghz_echo_resonance_hybrid.py:203-210 | once an outcome raises, later outcomes do not change the result |
| GhzHybrid.KeyExpansion | core/ghz_echo_resonance_hybrid.py:258-264 | raises OverflowError exactly when more than 2^32 SHA-512 blocks are needed; otherwise max(length, 0) bytes |
| GhzHybrid.XorPrefix | core/ghz_echo_resonance_hybrid.py:267-271 | XOR of a stream into the front of the data keeps its length, XORs the covered bytes and keeps the rest |
| GhzHybrid.XorPrefixTwice | core/ghz_echo_resonance_hybrid.py:267-271 | XOR with the same stream twice gives the data back |
| GhzHybrid.HybridKey | core/ghz_echo_resonance_hybrid.py:257-277 | raises OverflowError for an overlong expansion and IndexError when the length exceeds the echo key; otherwise the echo key with its first `key_length_bytes` bytes XORed with the expansion |
| GhzHybrid.HybridKeyInvolution | core/ghz_echo_resonance_hybrid.py:257-271 | applying the combination twice gives the echo key back |
| GhzHybrid.ExpandSecret | core/ghz_echo_resonance_hybrid.py:258-264 | the counter loop computes exactly the expansion |
| GhzHybrid.XorInto | core/ghz_echo_resonance_hybrid.py:267-271 | the in-place XOR loop computes exactly the prefix XOR |
| GhzHybrid.GenerateHybridKey | core/ghz_echo_resonance_hybrid.py:233-277 | `generate_hybrid_key` computes exactly the hybrid key of the given echo key |
| GhzHybrid.LayerStream | core/ghz_echo_resonance_hybrid.py:334-341 | the GHZ layer stream raises OverflowError exactly past 64 + 64 · 2^32 bytes and otherwise has the requested length |
| GhzHybrid.GhzLayer | core/ghz_echo_resonance_hybrid.py:332-346 | the GHZ layer succeeds exactly when its stream does and keeps the length |
| GhzHybrid.GhzLayerInvolution | core/ghz_echo_resonance_hybrid.py:332-346 | applying the GHZ layer twice gives the data back |
| GhzHybrid.BuildLayerStream | core/ghz_echo_resonance_hybrid.py:334-341 | the counter loop computes exactly the layer stream |
| GhzHybrid.LayerStreamOverflow | core/ghz_echo_resonance_hybrid.py:336-339 | past the counter range the stream raises OverflowError |
| GhzHybrid.LayerBlock | core/ghz_echo_resonance_hybrid.py:336-340 | one loop turn appends SHA-512 of the secret and the 4-byte counter, 64 bytes |
| GhzHybrid.LayerStreamCovers | core/ghz_echo_resonance_hybrid.py:334-341 | when the loop stops, the buffer truncated to n is the layer stream |
| GhzHybrid.ApplyGhzLayer | core/ghz_echo_resonance_hybrid.py:332-346 | the method computes exactly the GHZ layer |
| GhzHybrid.Encrypted | core/ghz_echo_resonance_hybrid.py:283-367 | the metadata counts one more layer when the GHZ seed is used and records that flag; the ciphertext has the length of the echo ciphertext |
| GhzHybrid.Decrypted | core/ghz_echo_resonance_hybrid.py:387-411 | without a GHZ layer to remove (flag unset or no secret), decryption is the echo decryption alone |
| GhzHybrid.HybridRoundTrip | core/ghz_echo_resonance_hybrid.py:283-411 | when the echo decryption inverts the echo encryption, decrypting with the same GHZ secret gives the message back |
| GhzHybrid.HybridEncrypt | core/ghz_echo_resonance_hybrid.py:283-367 | the method computes exactly the encryption above |
| GhzHybrid.HybridDecrypt | core/ghz_echo_resonance_hybrid.py:369-411 | the method computes exactly the decryption above |
| Mitigation.Probabilities | core/error_mitigation.py:134-135 | `count / total` over the counts raises ZeroDivisionError exactly for non-empty counts of total 0; otherwise it keeps the states in order and divides each count by the total |
| Mitigation.ProbabilitiesSumToOne | core/error_mitigation.py:134-135 | the probabilities of non-empty counts sum to 1 |
| Mitigation.SymmetryVerification | core/error_mitigation.py:153-185 | for "ghz", empty counts raise StopIteration and otherwise only the all-zeros and all-ones states of the first state's width remain, with their counts or 0; any other symmetry returns the counts unchanged |
| Mitigation.PostSelection | core/error_mitigation.py:206-212 | the filter keeps only entries of the counts whose state is valid and whose count reaches the minimum |
| Mitigation.PostSelectionKeeps | core/error_mitigation.py:206-212 | every entry that is valid and reaches the minimum is kept |
| Mitigation.PostSelectionUnique | core/error_mitigation.py:206-212 | the filtered dictionary still has unique states |
| Mitigation.EstimateFidelityImprovement | core/error_mitigation.py:279-304 | the improvement is the mitigated mass of the expected states minus their raw share, the raw share being 0 when the raw total is not positive |
| Mitigation.GetNormalized | core/error_mitigation.py:269 | the normalised value of a state is its count over the total, 0 when absent |
| Mitigation.SumNormalized | core/error_mitigation.py:296-299 | the normalised mass of a list of states is their summed count over the total |
| Mitigation.NoImprovementFromRawProbabilities | core/error_mitigation.py:279-304 | comparing raw counts with their own probabilities reports no improvement |
| Mitigation.MatrixRow | core/error_mitigation.py:110-117 | a row with positive total has the measured states as keys; a zero-total row is {prepared: 1.0} |
| Mitigation.MatrixRowSumsToOne | core/error_mitigation.py:110-117 | every matrix row sums to 1 |
| Mitigation.ErrorMatrixNext | core/error_mitigation.py:109-117 | one loop turn assigns the prepared state's row |
| Mitigation.ErrorMatrixRows | core/error_mitigation.py:109-117 | with distinct prepared states, the matrix has one row per prepared state, in calibration order |
| Mitigation.ErrorMatrixStochastic | core/error_mitigation.py:106-119 | every row of the built matrix is a probability distribution |
| Mitigation.ErrorMitigation.constructor | core/error_mitigation.py:24-32 | a new mitigator has no measurement error matrix |
| Mitigation.ErrorMitigation.BuildMeasurementErrorMatrix | core/error_mitigation.py:98-119 | the loop stores exactly the error matrix of the calibration data |
| Mitigation.ErrorMitigation.ApplyMeasurementErrorMitigation | core/error_mitigation.py:121-147 | raises exactly for non-empty counts of total 0; otherwise the result keeps the states and, for non-empty counts, sums to 1 |
| Mitigation.ErrorMitigation.MemCounts | core/error_mitigation.py:251-258 | the measurement-error step keeps the states |
| Mitigation.ErrorMitigation.MitigatedCounts | core/error_mitigation.py:239-258 | the only errors are StopIteration and ZeroDivisionError, and with every step disabled the counts are the raw counts |
| Mitigation.ErrorMitigation.ApplyAllMitigation | core/error_mitigation.py:218-273 | fails exactly when the mitigation steps fail; otherwise a positive total gives the normalised counts, summing to 1, and a non-positive total gives {} |
| Mitigation.GhzSelection | core/error_mitigation.py:171-212 | post-selecting the two GHZ entries with minimum count 1 keeps none exactly when neither the all-zero nor the all-one state was counted at least once |
| Mitigation.DefaultMitigationEmpty | core/error_mitigation.py:239-273 | with the default flags and non-empty counts the result is a success, and it is empty exactly when neither the all-zero nor the all-one state was counted at least once |
| Mitigation.DefaultMitigation | core/error_mitigation.py:218-273 | with the default flags, non-empty counts never fail and give a distribution over only the all-zeros and all-ones states, each with positive probability, summing to 1 unless empty |
| Mitigation.NormalizedPositive | core/error_mitigation.py:269 | normalising counts of at least 1 gives positive probabilities |
| Mitigation.GhzKeys | core/error_mitigation.py:242-248 | post-selection after GHZ symmetry leaves only the all-zeros and all-ones states |
| Mitigation.PositiveTotal | core/error_mitigation.py:267-268 | counts of at least 1 have a positive total exactly when they are non-empty |
| Mermin.ExpectationValue | core/mermin_inequality_tests.py:147-168 | the value is 0 for total 0 or an unknown observable, 2(p₀ + p₁) - 1 for XXX and 2p₀ - 1 for XYY, YXY and YYX |
| Mermin.ExpectationBounded | core/mermin_inequality_tests.py:147-168 | for non-negative counts the expectation lies in [-1, 1] |
| Mermin.ByCountStable | core/mermin_inequality_tests.py:255 | states with equal counts are visited in the order the dictionary holds them |
| Mermin.RemoveSurplus | core/mermin_inequality_tests.py:254-261 | the result is `SurplusRemoved`, the removal over the states sorted stably by ascending count; it keeps the states and, when the surplus can be removed, reduces the total by exactly the surplus without raising any count or making one negative |
| Mermin.RemoveInOrder | core/mermin_inequality_tests.py:256-261 | the loop over the sorted states computes `RemovedInOrder`: each state gives up the smaller of what is left and its count, and the loop stops once nothing is left |
| Mermin.SurplusRemovedSound | core/mermin_inequality_tests.py:254-261 | the surplus removal keeps the states and, from non-negative counts whose total covers the surplus, leaves non-negative counts, none above its original, adding up to the total less the surplus |
| Mermin.RemovedInOrderSound | core/mermin_inequality_tests.py:256-261 | by induction over the remaining states: from the loop invariant after j states, the rest of the loop ends with the states kept and, when the surplus can be removed, all of it removed within the original counts |
| Mermin.Renormalize | core/mermin_inequality_tests.py:240-261 | the result is `Renormalized`, the scaled counts corrected by `MatchedTotal`; raises ValueError (from `max` of an empty dictionary) exactly for empty probabilities and a positive shot count; keeps the states; counts already adding up are returned as scaled; for non-negative probabilities the counts are non-negative and total exactly the shots |
| Mermin.MatchTotal | core/mermin_inequality_tests.py:247-261 | the result is `MatchedTotal`: unchanged when the total already matches, a shortfall added to the first most frequent state, a surplus removed smallest counts first; and the properties below |
| Mermin.RenormalizedFails | core/mermin_inequality_tests.py:240-253 | the renormalisation fails, with ValueError from `max` of an empty dictionary, exactly when there are no probabilities and the shot total is positive |
| Mermin.MatchedTotalSound | core/mermin_inequality_tests.py:247-261 | the correction fails, with ValueError, exactly on empty counts short of a positive shot total; keeps the states; leaves counts that add up alone; from non-negative counts and a non-negative shot total the counts are non-negative and total exactly the shots |
| Mermin.ShortfallMatched | core/mermin_inequality_tests.py:250-253 | a shortfall on non-empty counts succeeds, keeps the states, keeps the counts non-negative and brings the total to the shot total |
| Mermin.SurplusMatched | core/mermin_inequality_tests.py:254-261 | a surplus succeeds and keeps the states; from non-negative counts and a non-negative shot total the total becomes the shot total with no count negative |
| Mermin.RaiseAt | core/mermin_inequality_tests.py:252-253 | adding the deficit to one state keeps the states and raises the total by the deficit |
| Mermin.ScaledNonNegative | core/mermin_inequality_tests.py:242-245 | `int(prob * total_shots)` of non-negative probabilities is non-negative |
| Mermin.TestObservable | core/mermin_inequality_tests.py:170-284 | without mitigation raw and mitigated expectation coincide with improvement 0; with mitigation, empty counts raise StopIteration; non-empty counts fail, with ValueError, exactly when neither the all-zero nor the all-one state was counted at least once and the shot total is positive; a success's mitigated expectation is the expectation of `Renormalized` applied to the mitigated probabilities and the raw shot total; the improvement is mitigated minus raw and both expectations lie in [-1, 1] for non-negative counts |
| Mermin.MerminBounded | core/mermin_inequality_tests.py:320-332 | M = E(XXX) - E(XYY) - E(YXY) - E(YYX) lies in [-4, 4] and the violation is at most 2 |
| Mermin.BitsNeeded | core/mermin_inequality_tests.py:82 | `ceil(log2(n))` is the least b with 2^b ≥ n |
| Mermin.SelectMeasurementBasis | core/mermin_inequality_tests.py:79-90 | no bases raises OverflowError (from ceil of log2 0); otherwise, for the `ParseBinary` reading of `int(bits, 2)`, it fails exactly when the random bit string is empty or holds a character other than 0 and 1, and a success is one of the bases |
| Mermin.SingleBasisRaises | core/mermin_inequality_tests.py:79-86 | with a single basis no bits are drawn and `int('', 2)` raises ValueError |
| Mermin.SelectBasisCorrected | core/mermin_inequality_tests.py:79-90 | a single basis is returned directly; otherwise the selection is unchanged |
| Mermin.CorrectedSelectionSucceeds | core/mermin_inequality_tests.py:79-90 | with the needed number of binary random bits, the corrected selection always returns one of the bases |
| ThreatCache.RoundedAll | core/bat_defensive_grid_quantum.py:583-586 | one rounded tuple per signal, in order: direction, distance to 1 place, bearing and strength to 3 places |
| ThreatCache.TupleOrder | core/bat_defensive_grid_quantum.py:587 | Python's tuple comparison used by `sorted` is a strict total order |
| ThreatCache.SignalKey | core/bat_defensive_grid_quantum.py:581-588 | the cache key is an MD5 hex digest: 32 hexadecimal digits |
| ThreatCache.KeyOfTuples | core/bat_defensive_grid_quantum.py:583-588 | signal lists whose rounded tuples are the same multiset have the same key |
| ThreatCache.KeyIgnoresOrder | core/bat_defensive_grid_quantum.py:581-588 | reordering the signals does not change the key |
| ThreatCache.KeyIgnoresTimestamps | core/bat_defensive_grid_quantum.py:583-586 | signals that differ only in their timestamps have the same key |
| ThreatCache.RoundedPermutation | core/bat_defensive_grid_quantum.py:583-586 | rounding a permutation of the signals gives a permutation of the tuples |
| ThreatCache.Evicted | core/bat_defensive_grid_quantum.py:617-620 | a cache below `max_size` is kept; otherwise the oldest entry is dropped, and an empty cache with `max_size` ≤ 0 raises StopIteration |
| ThreatCache.Tracked | core/bat_defensive_grid_quantum.py:626-633 | with a threat position and a previous position, the position is appended to the previous position's list (created if missing) and no other list changes; otherwise the patterns are unchanged |
| ThreatCache.NextLast | core/bat_defensive_grid_quantum.py:626-635 | the last position becomes the result's position when it has one and is kept otherwise |
| ThreatCache.SetKeepsBound | core/bat_defensive_grid_quantum.py:617-623 | when `set` succeeds on a cache within bound, the new cache has unique keys and stays within `max_size`, which is then at least 1 |
| ThreatCache.FullSetOfPresentKey | core/bat_defensive_grid_quantum.py:617-623 | on a full cache, setting a key already stored after the oldest entry evicts the oldest and leaves max_size - 1 entries |
| ThreatCache.EvictsOldest | core/bat_defensive_grid_quantum.py:617-623 | setting a new key on a full cache removes the oldest key |
| ThreatCache.ThreatDetectionCache.constructor | core/bat_defensive_grid_quantum.py:573-579 | a new cache is empty, with no patterns, zero hits and misses and no last position |
| ThreatCache.ThreatDetectionCache.Get | core/bat_defensive_grid_quantum.py:590-607 | returns the entry under the signals' key if any, counting a hit when found and a miss otherwise, and changes nothing else |
| ThreatCache.ThreatDetectionCache.Set | core/bat_defensive_grid_quantum.py:609-635 | raises StopIteration, changing nothing, when eviction does; otherwise stores the result under the key in the evicted cache and updates the patterns and last position; the counters are unchanged |
| ThreatCache.ThreatDetectionCache.Has | core/bat_defensive_grid_quantum.py:637-640 | true exactly when the signals' key is stored |
| ThreatCache.ThreatDetectionCache.Clear | core/bat_defensive_grid_quantum.py:642-648 | everything is reset to the state of a new cache |
| ThreatCache.ThreatDetectionCache.GetStats | core/bat_defensive_grid_quantum.py:650-660 | size, hits, misses and pattern count are reported as stored; the hit rate lies in [0, 100], is 100 exactly when there are hits and no misses, and 0 exactly when there are no hits |
| ThreatCache.HitRateBounds | core/bat_defensive_grid_quantum.py:652-653 | the percentage formula lies in [0, 100] with the same two characterisations |
| ThreatCache.ThreatDetectionCache.Execute | core/bat_defensive_grid_quantum.py:416-557 | with caching on, a hit returns the stored result marked `cache_hit` (also marking the stored entry) and counts a hit; a miss counts a miss and stores and returns the computed result with `cache_hit` false, except that with `max_size` ≤ 0 and an empty cache it raises StopIteration and leaves cache, patterns and last position as they were; with caching off nothing changes |
| ThreatCache.ThreatDetectionCache.MissThenHit | core/bat_defensive_grid_quantum.py:416-557 | running the same signals twice, the second time in another order, misses and then hits, returning the computed result first without and then with `cache_hit` |

## Left out

- Randomness: the LDPC column choices, the simulated channel flips, `secrets.randbelow` sample indices, session ids and challenges, the random parity fallback and the random bits of basis selection are parameters; their distribution is not modelled.
- Hash functions: SHA-256, SHA-512, MD5 and HMAC-SHA256 are function parameters whose only known property is their digest length; collision resistance is not assumed anywhere.
- Wall-clock time: `time.time()` is the parameter `now` (and its `str` rendering `nowText`); `int(time.time())` is truncation of that real.
- Floating point: floats are exact reals, so rounding of `count / total`, of `prob * 1000` and of the trust products is not modelled.
- The LDPC belief-propagation decoder (`decode` and its node updates) uses float log-likelihoods; the framing takes the decoder as a parameter and proves nothing about decoding.
- Zero-noise extrapolation (`core/error_mitigation.py:38-92`) fits a least-squares line in floating point; `use_zne` is accepted and, as in the source, has no effect.
- Qiskit circuit building and execution (`generate_ghz_state`, `generate_parity_quantum`, the execution part of `test_observable`, `QuantumRandomNumberGenerator`): their measurement counts and random bit strings are inputs.
- `LargeScaleQuantumEncryption` is not part of this model: its key generation and multi-layer cipher are function parameters, and `HybridRoundTrip` assumes its decryption inverts its encryption.
- GhzHybrid.Encrypted: the GHZ secret is an input instead of being produced by `generate_ghz_state` and `extract_ghz_secret` inside the call, the hybrid key the source computes and never uses is not computed, and the echo metadata is carried beside the hybrid metadata rather than merged into it (a `num_layers` key in the echo metadata would override the reported count).
- `networkx`: `all_simple_paths` with its `max_hops` cutoff is the parameter `candidates`, required to be walks along links; the separate `network_graph` is represented by the `links` latency map, and `get_network_topology` (which uses `nx.is_connected`) is left out.
- Network.HopKey models only the fallback derivation from the shared secret; the real-QKD branch of `_generate_hop_key` and the `qkd_protocols` instances created by `add_link` depend on hardware runs.
- Network.NetworkQkd.RelayKeyAlongPath requires a linked path, the only way `distribute_key` calls it (after `_validate_path`); the KeyError it would raise on an unlinked path is not modelled.
- Protocol: `generate_quantum_key` (GHZ and Echo Resonance execution) and the `hybrid_system` field are left out; `raw_key` stays None in the model because only that method sets it.
- Protocol.QkdProtocol.ErrorCorrectionRepetition: the `repetition` argument is accepted and, as in the source, unused.
- Python's `str()` of message data, of sorted signal tuples and of floats is a rendering parameter, and `round()` on floats is a parameter of the cache key; only their use, not their text, is modelled.
- `bytes.fromhex` is modelled on pure hex strings: the whitespace it also skips is not modelled, so `FromDict` reports ValueError for such strings.
- ParseBinary: Python's `int(s, 2)` also accepts a leading sign, surrounding whitespace, a `0b` prefix and single underscores between digits; the model refuses all of these with ValueError, because the random bit strings it is applied to consist of 0 and 1 only.
- Mermin.SelectMeasurementBasis: attempts 2 to 10 of the retry loop are not modelled; the index test after `% num_bases` always holds, so the first attempt returns or raises.
- Mermin: `generate_random_seed` and the printed `improvement_percent` only document a run; `test_mermin_inequality` is modelled by its Mermin parameter and violation (`MerminBounded`), not by its loop over the four observables.
- ThreatCache: `calculate_3d_threat_position`, the phase computations and the Tesla and yin/yang analyses of `execute_bat_defensive_grid` are floating-point analyses; the computed detection result is an input to `Execute`, and its position is an `Option` although the source always sets one.
- ThreatCache.ThreatDetectionCache.Execute: on a miss the source returns the same dictionary object it stores, so a later hit also marks the caller's earlier copy; the model records the mark on the stored entry only.
- The module-level `_threat_cache` instance is the receiver of `Execute`; its default `max_size` of 1000 is a constructor argument.
- Console output: the `print` progress and summary lines of every modelled operation are not modelled; they change no state the model keeps.
- The echo-resonance energy arithmetic, the periodic-table, graviton, service, agent, image, IBM setup and example scripts are outside the modelled core.

## Findings

| source | as written | input that shows it | evidently intended | confidence | as-written member | corrected member |
|---|---|---|---|---|---|---|
| core/mermin_inequality_tests.py:79-86 | with a single basis `bits_needed` is `ceil(log2 1) = 0`, the generator returns the empty string and `int('', 2)` raises ValueError; `test_mermin_inequality` makes exactly this call for every observable in its default mode (line 309) | `select_measurement_basis(["XXX"])` | a single basis is returned as it is; with the correction every basis list of length at least 1 yields one of its bases (`Mermin.CorrectedSelectionSucceeds`) | not executed | Mermin.SingleBasisRaises | Mermin.SelectBasisCorrected |

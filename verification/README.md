# A verified model of the btx miner's consensus kernels and pool logic

This project models, in Dafny, the parts of the miner whose correctness is not visible from any one
function, and proves what they promise. `dafny verify dfyconfig.toml` checks all of it.

**The ENC_RC episode** (`Bytes`, `Xof`, `Nibbles`, `Expand`, `Extract`, `Gemm`, `Recall`, `Merkle`,
`MerklePath`, `Episode`, `EpisodeSeeds`, `EpisodeChain`, `EpisodeTheorems`). Operands are drawn by rejection sampling from hash streams, multiplied in
fixed-width accumulators, extracted tile by tile, streamed into a Merkle accumulator and chained over
rounds. Each loop is proved to compute a simple object: the first accepted nibbles of a stream, a matrix
product, the materialised form of the streamed recall phase, a recursive tree. On top of that: a digest
binds the whole transcript or yields an explicit collision; every operand and key of a round has a seed of
its own; a later round sees the header only through the root before it; every committed block reaches the
root from its place; and no cast or accumulator ever truncates.

**The coupled puzzle** (`Mix`, `Butterfly`, `Permutation`, `Draws`, `Exchange`, `Schedule`, `Coupled`,
`CoupledLanes`, `CoupledTheorems`). The in-place butterfly mixes over the 64-bit wrap ring equal signed sums over all
lanes; the shuffle reaches every permutation by exactly one list of draws; exchange rounds add their
keystream bit by bit and are invertible; how evenly the page schedule covers the
bank is known for every shape; whole runs keep every state byte within operand values, replay, and are bound by their digest.

**Arithmetic modulo 2^61 - 1** (`Fq`, `LimbCombine`, `Sketch`). The Mersenne reduction, the C-13 identity
that moves a modular product onto 32-bit limb products, and the meaning of the CPU sketch, at all sizes.

**Pool mode** (`Framing`, `Submits`, `HandOff`, `Cursor`, `Solver`, `PoolHistory`, `PoolLoop`,
`PoolTheorems`, `PoolCover`, `PoolProgress`, `Latch`, `Poolcore`). Line framing, submit accounting, the job hand-off
between two threads, the nonce cursor and duplicate filter across reconnects and restarts, the ENC_RC
activation latch and the poolcore protocol, each over every run or every interleaving. `PoolLoop` holds
the session and the function that says what a run does to it and to its history; what every run keeps,
and exactly when it does not, is in `PoolTheorems` (the filter), `PoolCover` (where solves start) and `PoolProgress`
(that the loop moves on).

**The multi-GPU supervisor** (`Supervisor`): the respawn loop over any list of returns of waitpid, its
ladder, its books, why a slot is down, and its termination measure.

`Arith`, `Bits`, `Sums`, `Seeds` (what a derived seed commits to) and `Wrappers` hold what the rest builds on.

Conventions. SHA-256 (FIPS 180-4) and the ChaCha20 block function (section 2.3 of RFC 8439) are function
values with outputs of fixed length; every theorem holds for every such function. Machine words are
mathematical integers; wrap-around, truncation and 32- or 64-bit limits are written out where the code
has them. Rejection loops carry the hypothesis that the stream keeps producing acceptable nibbles
(`Nibbles.KeepsAccepting`, `Expand.SeedsProductive`, `Extract.TilesProductive`). What the network, the
clock, the fork call or the other thread does is an arbitrary input.

Findings. Some promises in the source's comments hold only under a condition; the model states it:

- Job hand-off. The reader stores the abort flag and bumps the job generation in two steps. If the solver
  arms between the two and re-checks before the bump, it keeps solving an overtaken job with the abort
  flag clear (`HandOff.OvertakenRun`); that window is the only one (`HandOff.StaleWindow`), and a single
  step would close it (`HandOff.AtomicIsSafe`).
- A share whose send fails stays in the duplicate filter, so the same share found again in that block is
  dropped as already sent although it never was (`PoolTheorems.LostShare`). A dropped share was sent if and
  only if its one attempt in the block succeeded (`PoolTheorems.RefusedIff`).
- A solve can start below a nonce already sent on its range. A winner at nonce 2^64 - 1 that is dropped
  sends the cursor to zero (`PoolCover.LastNonceRun`); `PoolCover.PassAheadIff` is the exact condition for a
  pass. A range whose base is 2^64 - 1 is taken for the range already in progress right after a connect
  (`PoolCover.LastRangeRun`, exactly when: `PoolCover.FirstPickIff`). The share is submitted before the
  cursor table is saved, so a kill between the two resumes below a sent nonce, which the comment there
  rules out (`PoolCover.KilledSendRun`, exactly when: `PoolCover.KilledSendIff`).
- How far the last pass got is not recorded before a job on another range or a reconnect, so its stretch is
  scanned again when the range comes back (`PoolProgress.ScannedTwice`; exactly when:
  `PoolProgress.ForgottenIff`). On one range nothing is scanned twice (`PoolProgress.ScansOnward`).
- A lane job's exhausted pass may carry the cursor out of its lane, where it stays until the next winner is
  sent or the next job arrives (`PoolProgress.LaneKeptIff`, `PoolProgress.LaneRestored`).
- The poolcore episode worker skips one nonce after every window without a winner
  (`Solver.EpisodeWorker`, `Solver.FirstSkipped`).
- The page schedule covers the bank evenly unless the 64-bit slot counter wraps in the middle of a turn
  (`Schedule.FullCoverageIff`, `Schedule.NearlyEvenUseIff`).
- Operand expansion is defined only for widths that are multiples of 32: at any other width the last
  columns of the last row have no scale (`Expand.InBoundsIff`).
- The reduction modulo 2^61 - 1 is exact up to a bound far above any product of residues, and wrong from
  there (`Fq.ReduceExactIff`, `Fq.ReduceFails`).
- A Merkle leaf width of zero commits to nothing (`Merkle.ZeroLeafWidthBindsNothing`).

## Model

| member | source | states |
|---|---|---|
| Merkle.CommitmentBinding | clean-stack/core/matmul/matmul_v4_rc.cpp:237-273 | Two streams of any lengths with one root under the same leaf width t >= 1 agree after zero-padding to a multiple of t, or the pair `StreamPair` computes is an explicit sha256d collision |
| Merkle.CommitmentBindingSameLength | clean-stack/core/matmul/matmul_v4_rc.cpp:237-273 | Streams of equal length with one root are equal, or the pair is a collision |
| Merkle.TreeBinding | clean-stack/core/matmul/matmul_v4_rc.cpp:265-271 | Two trees over different leaf levels with one root: walking down from the root finds two different preimages with the same double hash |
| Merkle.WithPadsInjective | clean-stack/core/matmul/matmul_v4_rc.cpp:245-249 | The padded leaf level determines its data leaves: a pad leaf never passes for a data leaf, so streams of different depth cannot be confused |
| Merkle.PairUpKeepsTree | clean-stack/core/matmul/matmul_v4_rc.cpp:266-270 | Hashing one level in neighbouring pairs from the bottom leaves the recursively defined top-down root unchanged |
| Merkle.DigestTreeIsTree | clean-stack/core/matmul/matmul_v4_rc.cpp:265-271 | The tree over leaf hashes is the tree over leaf preimages |
| Merkle.ZeroLeafWidthBindsNothing | clean-stack/core/matmul/matmul_v4_rc.cpp:253-262 | With leaf width 0 every two non-empty streams share one root: the width precondition of binding is needed |
| MerklePath.PathReachesRoot | clean-stack/core/matmul/matmul_v4_rc.cpp:237-271 | From any leaf, hashing upwards with the siblings on the sides its position says reaches the root: what is hashed on the left and on the right is fixed at every level |
| MerklePath.BlockReachesRoot | clean-stack/core/matmul/matmul_v4_rc.cpp:241-272 | Block j of a committed stream, zero-extended at the end, reaches the stream's root from place j |
| Merkle.PadLeaves | clean-stack/core/matmul/matmul_v4_rc.cpp:262-264 | The leaf list is extended with pad hashes exactly to the next power of two |
| Merkle.FoldOneLevel | clean-stack/core/matmul/matmul_v4_rc.cpp:267-269 | One pass of the pairing loop is one level of the recursive tree |
| Merkle.FoldLevels | clean-stack/core/matmul/matmul_v4_rc.cpp:265-271 | The level loop ends with the recursive root |
| Merkle.Merkle.AbsorbByte | clean-stack/core/matmul/matmul_v4_rc.cpp:254-258 | One absorbed byte extends the abstract stream by that byte, the accumulator's leaves staying the hashes of its complete blocks |
| Merkle.Merkle.Absorb | clean-stack/core/matmul/matmul_v4_rc.cpp:254-259 | Absorbing a vector appends its bytes to the abstract stream |
| Merkle.Merkle.FlushPartial | clean-stack/core/matmul/matmul_v4_rc.cpp:261 | The zero-extended partial leaf completes the leaf level of the whole stream |
| Merkle.Merkle.FinalizeRoot | clean-stack/core/matmul/matmul_v4_rc.cpp:260-272 | The root returned is the recursive Merkle root of everything absorbed, however it was chunked |
| Mix.AscendingClosed | clean-stack/core/matmul/matmul_v4_rc_coupled.cpp:351-355 | The stages of strides 1, 2, 4, ... compute the signed sum over all lanes, for every power of two |
| Mix.DescendingClosed | clean-stack/core/matmul/matmul_v4_rc_coupled.cpp:356-364 | The stages of strides n/2, ..., 1 with the opposite sign convention compute their signed sum |
| Mix.WeightIsSign | clean-stack/core/matmul/matmul_v4_rc_coupled.cpp:351-364 | The weight between two lanes is (-1)^popcount(i & j) ascending and (-1)^popcount(i & ~j) descending |
| Mix.TransformSigns | clean-stack/core/matmul/matmul_v4_rc_coupled.cpp:351-364 | The closed form written with those signs |
| Mix.GramEntry | clean-stack/core/matmul/matmul_v4_rc_coupled.cpp:351-364 | Every entry of the transform applied twice: n on the diagonal (ascending) or the signed anti-diagonal (descending), 0 elsewhere |
| Mix.SquaredLaw | clean-stack/core/matmul/matmul_v4_rc_coupled.cpp:351-364 | Twice ascending is multiplication by n; twice descending is n * (-1)^popcount(i) at the reversed index |
| Mix.TransformWrap | clean-stack/core/matmul/matmul_v4_rc_coupled.cpp:349-350 | Wrapping the inputs into 64 bits only wraps the output: the stages may wrap at every step |
| Butterfly.SweepStage | clean-stack/core/matmul/matmul_v4_rc_coupled.cpp:353-354 | One in-place stage over all pairs i < i ^ stride applies the two-lane step to every lane exactly once, whatever the lane bijection |
| Butterfly.MixAscending | clean-stack/core/matmul/matmul_v4_rc_coupled.cpp:351-355 | In place, for every power-of-two n and mask < n: lane i ^ mask ends up with the wrapped signed sum for index i |
| Butterfly.MixDescending | clean-stack/core/matmul/matmul_v4_rc_coupled.cpp:356-364 | In place: lane rotl(i ^ mask, 3) ends up with its wrapped signed sum; for n < 2 or no power of two nothing changes |
| Butterfly.UpLaneIsMap | clean-stack/core/matmul/matmul_v4_rc_coupled.cpp:353 | i ^ mask is an involution on [0, n) |
| Butterfly.DownLaneIsMap | clean-stack/core/matmul/matmul_v4_rc_coupled.cpp:359-362 | rotl(i ^ mask, 3) maps [0, n) to itself injectively, also for register widths 1 and 2 |
| Butterfly.DownLaneOnto | clean-stack/core/matmul/matmul_v4_rc_coupled.cpp:359-362 | ... and every lane is an image: the map is a bijection |
| Butterfly.RotlSplits | clean-stack/core/matmul/matmul_v4_rc_coupled.cpp:359 | The 32-bit shift-and-mask expression rotates a word of any width: the top bits move below the others |
| Butterfly.UnrotlRotl | clean-stack/core/matmul/matmul_v4_rc_coupled.cpp:359 | Rotation can be undone |
| Butterfly.MixTwice | clean-stack/core/matmul/matmul_v4_rc_coupled.cpp:351-364 | Two passes with one lane map leave n * s (ascending) or n * (-1)^popcount(i) * s at the lane of the complemented index (descending), wrapped |
| Butterfly.AscendingTwice | clean-stack/core/matmul/matmul_v4_rc_coupled.cpp:351-355 | Running the ascending mix twice with one mask multiplies every lane by n modulo 2^64 |
| Xof.ShaXof.Next | clean-stack/core/matmul/matmul_v4_rc_coupled.cpp:256-263 | The stateful generator returns word k of SHA256(seed, counter) on its k-th call |
| Xof.WordsAreTheBlock | clean-stack/core/matmul/matmul_v4_rc_coupled.cpp:256-263 | Every byte of a block is handed out once, in order: the little-endian bytes of the words are the blocks |
| Xof.ShaXof.NextWide | clean-stack/core/matmul/matmul_v4_rc_coupled.cpp:378 | Two consecutive words, low word first |
| Permutation.ShuffledIsPerm | clean-stack/core/matmul/matmul_v4_rc_coupled.cpp:397-403 | Fisher-Yates yields a permutation whatever words the generator returns |
| Permutation.Shuffle | clean-stack/core/matmul/matmul_v4_rc_coupled.cpp:397-403 | The swap loop computes the shuffle of the word stream, for every n >= 1; what that shuffle is, draw by draw, is in `Draws` |
| Draws.ShuffleHits | clean-stack/core/matmul/matmul_v4_rc_coupled.cpp:397-403 | The shuffle is onto and one-to-one in its draws: for every permutation there is exactly one list of draws d_k < n - k such that it comes out if and only if word k leaves d_k modulo n - k for every k |
| Draws.DrawnIsPerm | clean-stack/core/matmul/matmul_v4_rc_coupled.cpp:397-403 | Every list of draws yields a permutation, and no other list yields the same one |
| Draws.NothingMoves | clean-stack/core/matmul/matmul_v4_rc_coupled.cpp:401 | Words that leave n - 1 - k modulo n - k give the identity |
| Permutation.ApplyPerm | clean-stack/core/matmul/matmul_v4_rc_coupled.cpp:404-408 | The scatter writes lane i to pi[i], keeps the multiset of lanes and leaves no lane unwritten |
| Permutation.ScatterUnique | clean-stack/core/matmul/matmul_v4_rc_coupled.cpp:404-408 | A permutation scatter determines every lane of the result |
| Permutation.GatherScatter | clean-stack/core/matmul/matmul_v4_rc_coupled.cpp:404-408 | Gathering by the same permutation undoes the scatter |
| Permutation.ScatterMultiset | clean-stack/core/matmul/matmul_v4_rc_coupled.cpp:404-408 | Scattering by a permutation keeps the multiset of lanes |
| Exchange.XorLanes | clean-stack/core/matmul/matmul_v4_rc_coupled.cpp:388 | Bit by bit: bit b of lane i is the old bit plus bit b of generator words 2i (low half) and 2i + 1 (high half), modulo two |
| Exchange.ZeroLanesShowTheKey | clean-stack/core/matmul/matmul_v4_rc_coupled.cpp:388 | Lanes of zeros come out as the keystream |
| Exchange.KeysApart | clean-stack/core/matmul/matmul_v4_rc_coupled.cpp:388 | A lane under two different keys takes two different values |
| Exchange.RoundSeedBinds | clean-stack/core/matmul/matmul_v4_rc_coupled.cpp:381-387 | Two rounds draw one seed only for the same header, barrier, round and fold, or their preimages collide |
| Exchange.FoldLanes | clean-stack/core/matmul/matmul_v4_rc_coupled.cpp:381 | The fold is the XOR of all lanes: each of its bits is the parity of that bit over the lanes |
| Exchange.FoldParity | clean-stack/core/matmul/matmul_v4_rc_coupled.cpp:381 | That parity, for the specified fold and any number of lanes |
| Exchange.MaterialExchangeRounds | clean-stack/core/matmul/matmul_v4_rc_coupled.cpp:379-395 | The in-place rounds are a chain of keystream-then-scatter rounds, each seeded from the fold of the lanes it meets |
| Exchange.RoundInvertible | clean-stack/core/matmul/matmul_v4_rc_coupled.cpp:380-394 | Un-permuting and XORing again restores the lanes of a round from its seed, for every n >= 1; the output is a rearrangement of the XORed lanes |
| Exchange.RunInvertible | clean-stack/core/matmul/matmul_v4_rc_coupled.cpp:379-395 | All rounds together are undone knowing only the folds |
| Schedule.SelectPages | clean-stack/core/matmul/matmul_v4_rc_coupled.cpp:308-318 | The pages of a (barrier, lobe) are the P slots of the page permutation from (barrier * lobes + lobe) * P on, in 64-bit arithmetic and modulo the bank |
| Schedule.EpisodeIsCycle | clean-stack/core/matmul/matmul_v4_rc_coupled.cpp:308-318 | Over a whole episode, of any shape, the schedule reads the permutation around and around by one slot counter that wraps at 2^64 |
| Schedule.UsesAre | clean-stack/core/matmul/matmul_v4_rc_coupled.cpp:308-318 | How often each page is read at any shape, by its place in the permutation: whole turns, plus one for every cut-off turn that reaches the place, summed over the laps of the counter |
| Schedule.FullCoverageIff | clean-stack/core/matmul/matmul_v4_rc_coupled.cpp:308-318 | With barriers * lobes * P = c * bank_pages every page is used exactly c times, for every generator output, if and only if the slot counter completes no lap or bank_pages divides 2^64 |
| Schedule.NearlyEvenUseIff | clean-stack/core/matmul/matmul_v4_rc_coupled.cpp:308-318 | The use counts of any two pages differ by at most one if and only if laps end with whole turns, or there is none, or there is one and the rest ends with a whole turn |
| Schedule.ShippedShapesCoverOnce | clean-stack/core/matmul/matmul_v4_rc_coupled.cpp:480-488 | The medium and production shapes use every page exactly once |
| Nibbles.FillPlace | clean-stack/core/matmul/matmul_v4_rc.cpp:132-145 | Cell by cell: each takes the first nibble behind the one before whose own mask accepts it, and that nibble's mantissa under the mask |
| Extract.TilesApart | clean-stack/core/matmul/matmul_v4_rc.cpp:131-136 | No two tiles of a row, rows of a matrix or blocks of a tile call the cipher with the same nonce and counter |
| Extract.NibblesRebuildByte | clean-stack/core/matmul/matmul_v4_rc.cpp:137-142 | The keystream is used byte by byte, low nibble first: two consecutive nibbles rebuild each byte |
| Extract.MixBitsFolds | clean-stack/core/matmul/matmul_v4_rc.cpp:124-128 | A sum that does not fit 32 bits is folded: bit b of the result is bit b plus bit b + 32 of its word, modulo two; one that fits is its own word |
| Recall.TileOfMatrix | clean-stack/core/matmul/matmul_v4_rc.cpp:274-281 | Tile b of row i of an extracted matrix comes from its own 32 sums, keyed by (i, b) |
| Expand.StreamBlockBinds | clean-stack/core/matmul/matmul_v4_rc.cpp:169-199 | Mantissa and scale streams, seeds and blocks never share a hash block, or the hash collides |
| Expand.CrumbsRebuildByte | clean-stack/core/matmul/matmul_v4_rc.cpp:194-196 | Four consecutive scales rebuild a byte, lowest first |
| Nibbles.ElevenAccepted | clean-stack/core/matmul/matmul_v4_rc.cpp:88-105 | Exactly 1, 3, 8, 9 and 11 are rejected and accepted nibbles have distinct mantissas |
| Nibbles.FillPrefix | clean-stack/core/matmul/matmul_v4_rc.cpp:132-145 | Asking a rejection loop for more cells does not change the earlier ones |
| Nibbles.Offer | clean-stack/core/matmul/matmul_v4_rc.cpp:139-144 | Offering a nibble either fills the next cell with the mantissa the specification assigns it or brings the next acceptance nearer |
| Extract.MxProduct | clean-stack/core/matmul/matmul_v4_rc.cpp:153 | mantissa * 2^e stays within [-48, 48]: the int8 cast never truncates |
| Extract.MxIsProduct | clean-stack/core/matmul/matmul_v4_rc.cpp:153 | Every operand value is a mantissa times 1, 2, 4 or 8: the invariant the state keeps is exactly the set of values the cast can produce |
| Extract.ExtractTileMantissas | clean-stack/core/matmul/matmul_v4_rc.cpp:131-148 | The remix loop fills each of 32 cells from the first keystream nibble its data mask accepts, low nibble first, across blocks |
| Extract.ExtractTile | clean-stack/core/matmul/matmul_v4_rc.cpp:149-154 | A tile is those mantissas times the tile's scale |
| Extract.ExtractWholeRow | clean-stack/core/matmul/matmul_v4_rc.cpp:274-281 | A row is extracted tile by tile into a zeroed output: a tail shorter than a tile is zero |
| Extract.ExtractActive | clean-stack/core/matmul/matmul_v4_rc_coupled.cpp:410-414 | The state is overwritten in place, whole tile by whole tile; bytes behind the last whole tile keep their old values |
| Expand.ExpandMantissaStream | clean-stack/core/matmul/matmul_v4_rc.cpp:169-185 | The double loop over blocks and nibbles yields the accepted nibbles of the seed's stream in order |
| Expand.ExpandScaleStream | clean-stack/core/matmul/matmul_v4_rc.cpp:186-199 | Scale k is bits 2(k mod 4) of byte k/4 of the stream, for any count |
| Expand.ExpandMxDequant | clean-stack/core/matmul/matmul_v4_rc.cpp:201-215 | The operand is mantissa times its row-block scale, every cell, at every shape whose scale reads stay in bounds |
| Expand.InBoundsIff | clean-stack/core/matmul/matmul_v4_rc.cpp:206-213 | Every scale read is inside the scale array if and only if the width is a multiple of 32 or there are no rows |
| Expand.OperandPrefix | clean-stack/core/matmul/matmul_v4_rc.cpp:201-215 | Prefix stability: an operand with r1 <= r2 rows is the first r1 rows of the one with r2 |
| Gemm.DotRow | clean-stack/core/matmul/matmul_v4_rc.cpp:286-290 | The zero-skipping r, k, c loop computes a row of plain dot products, no accumulator leaving its width when no prefix sum does |
| Gemm.Multiply | clean-stack/core/matmul/matmul_v4_rc.cpp:283-292 | The whole product equals the mathematical one |
| Gemm.DotBound | clean-stack/core/matmul/matmul_v4_rc.cpp:283-310 | A dot product of n terms is at most n times the product of the entry bounds, in absolute value |
| Gemm.BoundsFit | clean-stack/core/matmul/matmul_v4_rc.cpp:283-310 | Entry bounds with n * a * b below the limit keep every prefix of every accumulator in range |
| Recall.RecallAll | clean-stack/core/matmul/matmul_v4_rc.cpp:351-381 | Streamed recall (32 pending scores, per-tile Extract, 32768-key segments) yields Extract(Extract(Q K^T) V), for every shape including those not divisible by 32 |
| Recall.RecallRow | clean-stack/core/matmul/matmul_v4_rc.cpp:352-381 | One query of it equals the row specification |
| Recall.ConsumeTile | clean-stack/core/matmul/matmul_v4_rc.cpp:363-372 | Folding a tile keeps closed segments plus the open one equal to the weighted sum so far, within 64 bits, wherever segment borders fall |
| Recall.RowOfMaterialised | clean-stack/core/matmul/matmul_v4_rc.cpp:274-281 | Row i of the materialised form, tile indices as in the matrix Extract, is the row specification |
| Recall.TailWeighsNothing | clean-stack/core/matmul/matmul_v4_rc.cpp:355-376 | Keys behind the last full tile contribute nothing, in both forms |
| Episode.FusedFfnLayer | clean-stack/core/matmul/matmul_v4_rc.cpp:312-326 | A layer is Extract(Extract(X W_up) W_down + X) |
| Episode.ExpandFirstOperand | clean-stack/core/matmul/matmul_v4_rc.cpp:388-398 | The first operand, whole or in independent 32-row blocks |
| Episode.RecallPhase | clean-stack/core/matmul/matmul_v4_rc.cpp:343-381 | Phase 1 with per-round or episode-wide keys and values |
| Episode.ForwardPhase | clean-stack/core/matmul/matmul_v4_rc.cpp:384-422 | Phase 2: the activations of every layer, with shared or per-layer weights |
| Episode.CommitPhase | clean-stack/core/matmul/matmul_v4_rc.cpp:424-428 | Phase 3 commits Z followed by X[1..L], never X[0] or H |
| Episode.RunRound | clean-stack/core/matmul/matmul_v4_rc.cpp:343-428 | A round's root is the Merkle root of its specified stream |
| Episode.RunEpisode | clean-stack/core/matmul/matmul_v4_rc.cpp:336-435 | Every root is chained: root r commits the round seeded by the tag, the root before it (the header for the first) and r; the digest is the double hash over the roots |
| Episode.RootsChained | clean-stack/core/matmul/matmul_v4_rc.cpp:339-341 | The specified roots are chained in that way, at every place |
| EpisodeChain.RoundSeedBinds | clean-stack/core/matmul/matmul_v4_rc.cpp:339-341 | Equal seeds after two root lists mean lists of one length chained to one digest, or an explicit SHA-256 collision |
| EpisodeChain.OwnRound | clean-stack/core/matmul/matmul_v4_rc.cpp:343-428 | Outside the shared profile what a round commits depends on its seed alone, not on the header |
| EpisodeChain.ChainMerges | clean-stack/core/matmul/matmul_v4_rc.cpp:339-428 | Outside the shared profile, once the root lists of two headers agree in one place, roots and committed streams agree in every later place |
| EpisodeChain.PlacesInStream | clean-stack/core/matmul/matmul_v4_rc.cpp:424-428 | The committed stream starts with Z; behind it place l holds the output of layer l, at its offset; X[0] has no place |
| EpisodeChain.BlockInOperand | clean-stack/core/matmul/matmul_v4_rc.cpp:388-395 | Block b of the row-blocked first operand is the expansion of its own seed, at its offset |
| EpisodeChain.BlocksApart | clean-stack/core/matmul/matmul_v4_rc.cpp:392 | No two blocks share a seed, or the hash collides |
| EpisodeChain.ResidualOnly | clean-stack/core/matmul/matmul_v4_rc.cpp:320-325 | With a zero down matrix a layer extracts its own input under the second key: the residual is added, and outside the product |
| EpisodeSeeds.RolesApart | clean-stack/core/matmul/matmul_v4_rc.cpp:345-417 | Domain separation: no two operands or keys of a round, across phases and layers, are drawn from one seed, but for the weights that all layers share in the shared profile; or the hash collides |
| EpisodeSeeds.RoundsApart | clean-stack/core/matmul/matmul_v4_rc.cpp:345-417 | Two rounds draw an operand from one seed if and only if it is shared by the profile or the rounds have one seed; or the hash collides |
| EpisodeSeeds.RecallUses | clean-stack/core/matmul/matmul_v4_rc.cpp:346-350 | Phase 1 uses the seeds of its five roles, keys and values from the header in the shared profile |
| EpisodeSeeds.LayerUses | clean-stack/core/matmul/matmul_v4_rc.cpp:399-422 | Every layer uses the four seeds of its own roles, weights from the header in the shared profile |
| EpisodeTheorems.EpisodeBinding | clean-stack/core/matmul/matmul_v4_rc.cpp:424-434 | Episodes of one shape with one digest have the same round roots and the same committed streams, or `EpisodePair` is an explicit sha256d collision |
| EpisodeTheorems.EpisodesBind | clean-stack/core/matmul/matmul_v4_rc.cpp:336-435 | The same for the episodes of two headers: one digest means one transcript, or a collision |
| EpisodeTheorems.DigestBindsRoots | clean-stack/core/matmul/matmul_v4_rc.cpp:431-434 | Equal digests over equally many rounds mean equal round roots, or a collision |
| EpisodeTheorems.JoinedAt | clean-stack/core/matmul/matmul_v4_rc.cpp:431-434 | Root r lies at bytes 32 r to 32 r + 31 behind the tag of the digest's preimage |
| EpisodeTheorems.RootsAreCommitted | clean-stack/core/matmul/matmul_v4_rc.cpp:339-428 | The chained roots are the Merkle roots of the streams the rounds commit |
| EpisodeTheorems.CommittedShape | clean-stack/core/matmul/matmul_v4_rc.cpp:424-428 | Every round commits the same number of bytes, all of them operand values within 48 |
| EpisodeTheorems.ShippedShapesAreNarrow | clean-stack/core/matmul/matmul_v4_rc.cpp:440-455 | The toy, production and datacenter shapes are narrow and well shaped |
| EpisodeTheorems.NoWideMixing | clean-stack/core/matmul/matmul_v4_rc.cpp:124-128 | At a narrow shape no sum of any of the four kinds of matrix handed to Extract, in any round or layer, is folded: each fits 32 bits and masks its cell by its own word |
| Coupled.LobeGemmAdd | clean-stack/core/matmul/matmul_v4_rc_coupled.cpp:332-346 | dest += rows * page with 32-bit row accumulators that never overflow, everything outside the slice unchanged |
| Coupled.AddPages | clean-stack/core/matmul/matmul_v4_rc_coupled.cpp:446-451 | A lobe's slice receives the sum of its products against all scheduled pages |
| Coupled.LobeLeg | clean-stack/core/matmul/matmul_v4_rc_coupled.cpp:446-451 | ... for the pages the schedule selects |
| Coupled.AllLobes | clean-stack/core/matmul/matmul_v4_rc_coupled.cpp:443-458 | The accumulators hold every lobe's sum side by side |
| Coupled.AllToAllMix | clean-stack/core/matmul/matmul_v4_rc_coupled.cpp:365-372 | Even barriers mix upwards, odd ones downwards, under the generator's mask |
| Coupled.RunBarrier | clean-stack/core/matmul/matmul_v4_rc_coupled.cpp:442-467 | A barrier is sums, balanced permutation, mix, exchange rounds and Extract over the state in place; the state stays within operand values |
| Coupled.CopiedRows | clean-stack/core/matmul/matmul_v4_rc_coupled.cpp:435-439 | The first M rows copied out of a W-by-W tile are the direct M-by-W expansion |
| Coupled.InitState | clean-stack/core/matmul/matmul_v4_rc_coupled.cpp:432-439 | The fresh state is those expansions, lobe after lobe |
| Coupled.DeriveBankPages | clean-stack/core/matmul/matmul_v4_rc_coupled.cpp:290-306 | Page i of the bank is the expansion of its own seed, all entries operand values |
| Coupled.RunCoupledWithBank | clean-stack/core/matmul/matmul_v4_rc_coupled.cpp:428-475 | Every state of a run, first and after each barrier, consists of operand values; the digest is over the bank root and the barrier roots |
| Coupled.ShippedShapesRun | clean-stack/core/matmul/matmul_v4_rc_coupled.cpp:480-488 | The medium and production shapes meet the kernel's requirements |
| Coupled.MixDeterministic | clean-stack/core/matmul/matmul_v4_rc_coupled.cpp:365-372 | The closed form fixes every lane of a mix |
| Coupled.BarrierDeterministic | clean-stack/core/matmul/matmul_v4_rc_coupled.cpp:442-467 | The relation a barrier satisfies has one solution: a replay reaches the same state |
| Coupled.RunsReplay | clean-stack/core/matmul/matmul_v4_rc_coupled.cpp:428-475 | Same nonce and bank, same states |
| CoupledLanes.LobeCell | clean-stack/core/matmul/matmul_v4_rc_coupled.cpp:446-451 | Lane (e, r, c) of the sums is row r of lobe e against column c of each page its schedule names, added up |
| CoupledLanes.MixedLane | clean-stack/core/matmul/matmul_v4_rc_coupled.cpp:461-462 | A mixed lane is the wrapped signed sum over all lobe sums, each taken from where the balanced permutation moved it: permutation first, then the mix of the barrier's parity |
| CoupledLanes.TileOfState | clean-stack/core/matmul/matmul_v4_rc_coupled.cpp:464-465 | Tile t of the next state is extracted from its own lanes of the last exchange round, under the barrier's key and keyed by (0, t) |
| CoupledLanes.LobeOfState | clean-stack/core/matmul/matmul_v4_rc_coupled.cpp:435-439 | Lobe e of the first state is the expansion of lobe seed e, at its offset |
| CoupledLanes.LobesApart | clean-stack/core/matmul/matmul_v4_rc_coupled.cpp:321-325 | No two lobes are expanded from one seed, or the hash collides |
| CoupledLanes.PagesApart | clean-stack/core/matmul/matmul_v4_rc_coupled.cpp:273-276 | No two pages of a bank are expanded from one seed, or the hash collides |
| CoupledLanes.MasksApart | clean-stack/core/matmul/matmul_v4_rc_coupled.cpp:367-369 | The mask of a mix is the first word of its generator modulo the state size; no two barriers share that generator, or the hash collides |
| CoupledLanes.ExtractKeysApart | clean-stack/core/matmul/matmul_v4_rc_coupled.cpp:464 | No two barriers extract under one key, short of a collision in the seed or in the key |
| CoupledTheorems.BarrierRootBinds | clean-stack/core/matmul/matmul_v4_rc_coupled.cpp:415-421 | Equal barrier roots mean the same barrier number and the same state, or their preimages collide |
| CoupledTheorems.BankCommitment | clean-stack/core/matmul/matmul_v4_rc_coupled.cpp:280-287 | The streamed commitment is the double hash of all pages in order |
| CoupledTheorems.BankBinding | clean-stack/core/matmul/matmul_v4_rc_coupled.cpp:280-287 | Two banks of one shape with one commitment are equal, or their preimages collide |
| CoupledTheorems.CoupledBinding | clean-stack/core/matmul/matmul_v4_rc_coupled.cpp:415-475 | Two runs of one shape with one digest used the same bank root and passed through the same state after every barrier, or `CoupledPair` is a sha256d collision |
| Fq.ReduceExactIff | research/matmul-v4/bench/c13_proof.cpp:24 | The two-fold reduction of a 128-bit value is exact if and only if its high and low parts add up within 64 bits |
| Fq.ReduceExact | research/matmul-v4/bench/c13_proof.cpp:24 | ... hence on every product of two residues, with a canonical result |
| Fq.ReduceFails | research/matmul-v4/bench/c13_proof.cpp:24 | An input beyond that range where it is wrong |
| Fq.MulExact | research/matmul-v4/bench/c13_proof.cpp:26 | fqmul is multiplication modulo 2^61 - 1 |
| Fq.AddExact | research/matmul-v4/bench/c13_proof.cpp:25 | fqadd is addition modulo 2^61 - 1 |
| Fq.SubExact | research/matmul-v4/bench/c13_proof.cpp:27 | fqsub is subtraction modulo 2^61 - 1 |
| Fq.FromSignedExact | research/matmul-v4/bench/c13_proof.cpp:28 | fqfromS is the residue of every signed 64-bit word, negative ones included |
| Fq.FromI32Exact | research/matmul-v4/bench/lt_cpu_solver.cpp:119 | fq_i32 is the residue of every signed 32-bit word, without reducing |
| Fq.AccumulateExact | research/matmul-v4/bench/c13_proof.cpp:45 | Accumulating in the field is accumulating exactly and reducing at the end |
| LimbCombine.LimbsRebuild | research/matmul-v4/bench/c13_proof.cpp:52-53 | Five base-128 limbs rebuild every biased entry |
| LimbCombine.LimbIdentity | research/matmul-v4/bench/c13_proof.cpp:9-18 | The C-13 identity over the integers, for every length: limb products minus both bias corrections plus n * B^2 is the plain dot product |
| LimbCombine.LimbDotFits | research/matmul-v4/bench/c13_proof.cpp:68-69 | With n * 127^2 < 2^31 every limb entry and every partial sum towards it fits a signed 32-bit accumulator |
| LimbCombine.DirectCombine | research/matmul-v4/bench/c13_proof.cpp:41-47 | The direct combine is the exact matrix product modulo 2^61 - 1, canonical, for all int32 matrices |
| LimbCombine.SplitLimbs | research/matmul-v4/bench/c13_proof.cpp:50-53 | The limb matrices |
| LimbCombine.PowerTable | research/matmul-v4/bench/c13_proof.cpp:59 | The table holds the powers of 128 modulo 2^61 - 1 |
| LimbCombine.LimbEntry | research/matmul-v4/bench/c13_proof.cpp:68-69 | The limb GEMM loop computes one limb entry inside 32 bits |
| LimbCombine.LimbOutput | research/matmul-v4/bench/c13_proof.cpp:65-78 | One output: 25 shifted limb entries and the three corrections give the residue of the dot product |
| LimbCombine.LimbCombineAll | research/matmul-v4/bench/c13_proof.cpp:49-79 | The limb path computes the same canonical residues as the direct combine, for all m and n |
| LimbCombine.CompareCombines | research/matmul-v4/bench/c13_proof.cpp:40-82 | The program's own comparison counts no mismatch, at every size within the bound |
| Sketch.ProductsAssociate | research/matmul-v4/bench/lt_cpu_solver.cpp:122-132 | Matrix products associate, as row-major buffers |
| Sketch.ProjectionsMeetInTheMiddle | research/matmul-v4/bench/lt_cpu_solver.cpp:122-132 | (U A)(B V) = (U (A B)) V, although A B is never formed |
| Sketch.Combine | research/matmul-v4/bench/lt_cpu_solver.cpp:133-139 | Zero skipping and reduction at every step leave the exact product modulo 2^61 - 1 |
| Sketch.BytesNeverOverflow | research/matmul-v4/bench/lt_cpu_solver.cpp:123-132 | Signed-byte operands cannot overflow the projections below inner size 2^17 |
| Sketch.SketchOf | research/matmul-v4/bench/lt_cpu_solver.cpp:118-139 | When neither projection overflows int32 the sketch is U (A B) V reduced entry by entry, in [0, q) |
| Framing.FeedRecvBytes | clean-stack/miner/stratum_client.h:121-135 | For any bytes read before, the lines a chunk emits are exactly the lines it completes and the carry is the unfinished tail of the stream |
| Framing.FeedAll | clean-stack/miner/stratum_client.h:121-135 | Any chunking of a stream dispatches the same lines and leaves the same carry |
| Framing.StreamSnoc | clean-stack/miner/stratum_client.h:124-134 | One more byte: a line feed completes the tail, a carriage return vanishes anywhere, a blank line is skipped |
| Framing.LinesArePlain | clean-stack/miner/stratum_client.h:115-119 | Every dispatched line is non-blank and free of terminators |
| Framing.WrittenLinesArrive | clean-stack/miner/stratum_client.h:115-119 | Round trip: what a peer writes line by line with CR LF is what is dispatched |
| Submits.SubmitLedger.SubmitShare | clean-stack/miner/stratum_client.h:685-693 | A submit takes an id never issued before and lists it as pending |
| Submits.SubmitLedger.HandleResponse | clean-stack/miner/stratum_client.h:1456-1514 | The first answer to a pending id settles it: accepted without an error and with a result that is neither null nor false, rejected otherwise; any other response changes no counter and no list |
| Submits.SubmitLedger.NothingLost | clean-stack/miner/stratum_client.h:1456-1514 | In every reachable state accepted + rejected + pending equals the ids issued |
| Submits.Run | clean-stack/miner/stratum_client.h:1456-1514 | For every history of submits and responses the counters count the ids whose first answer accepted and rejected |
| Submits.SettledOnce | clean-stack/miner/stratum_client.h:1459-1464 | No id is settled twice |
| Submits.ResponseSettles | clean-stack/miner/stratum_client.h:1459-1464 | A response settles its id if and only if the id was issued and not yet answered |
| HandOff.RunKeeps | clean-stack/miner/stratum_client.h:640-667 | The invariant of every interleaving of reader and solver steps |
| HandOff.StaleWindow | clean-stack/miner/matador-miner.cpp:531-556 | Exactly when a solve is stale with the abort flag clear: no abort store since it was armed and the overtaking notify bumped after its re-check |
| HandOff.StaleOnlyWhenOvertaken | clean-stack/miner/stratum_client.h:1562-1570 | A stale solve exhibits, in the run, an abort store before the arm, then the re-check, then the bump |
| HandOff.OvertakenRun | clean-stack/miner/stratum_client.h:1562-1570 | A ten-step run in which that happens |
| HandOff.AtomicIsSafe | clean-stack/miner/stratum_client.h:1562-1570 | If flagging and bumping were one step no run would leave a stale solve going |
| HandOff.Client.HandleNotify | clean-stack/miner/stratum_client.h:1546-1571 | A notify takes over the job; if and only if it is the first, clean or names another job does it raise the abort flag and move the generation by one, in the steps publish, flag, bump |
| HandOff.Client.Probe | clean-stack/miner/stratum_client.h:660-667 | The zero-timeout wait reports a moved generation or an ended connection and always takes over the current generation |
| HandOff.Client.ReadJob | clean-stack/miner/matador-miner.cpp:535-545 | Probe and slot read, as two steps of the run |
| HandOff.Client.ArmAndCheck | clean-stack/miner/matador-miner.cpp:548-556 | Arm and re-check: it commits exactly when the generation has not moved since the snapshot and the connection runs |
| HandOff.Client.PickUp | clean-stack/miner/matador-miner.cpp:531-556 | An undisturbed pick-up commits to the newest job with the flag clear, and is not stale |
| Cursor.RecordCursor | clean-stack/miner/cursor_persist.h:84-90 | The scan-and-append loop raises the range's first entry or appends one, dropping the oldest beyond eight, on any table |
| Cursor.ResumeCursor | clean-stack/miner/cursor_persist.h:77-82 | The scan returns the first recorded cursor of the range that is past its base, else the base, on any table |
| Cursor.ResumedIs | clean-stack/miner/cursor_persist.h:77-82 | In a table that lists each range once that is the range's own entry |
| Cursor.RecordedEntry | clean-stack/miner/cursor_persist.h:84-90 | The table lists each range once; other ranges keep their entry unless pushed out; a range's cursor never falls |
| Cursor.ResumeRecorded | clean-stack/miner/cursor_persist.h:77-90 | Round trip: a recorded cursor is what resuming yields, and recording one range leaves the others' resume points alone |
| Solver.SolveEpisode | clean-stack/core/matmul/pow_solve.cpp:1132-1200 | The episode solve loop returns the first nonce that meets the target; every nonce before it was tried and lost; it stops only for the stated reasons; undisturbed, it wins if and only if some nonce of its budget does |
| Solver.SolvePass | clean-stack/core/matmul/pow_solve.cpp:1132-1200 | The episode solver as a solve call: it spends the nonces it passed over, all losers, ends with the winner after them or for a stated reason, and meets the ordered-solver contract |
| Solver.EpisodeWindow | clean-stack/miner/poolcore.h:452-531 | A window of the poolcore worker, undisturbed: if some nonce of it wins, nothing is skipped; if none does, the nonce after it is never tried |
| Solver.TriedIff | clean-stack/miner/poolcore.h:452-531 | Which nonces k windows without a winner try: those whose offset modulo maxTries + 1 is not maxTries |
| Solver.EpisodeWorker | clean-stack/miner/poolcore.h:452-531 | The worker loop: undisturbed and without winners exactly the nonces start + j * (maxTries + 1) + maxTries are never tried |
| Solver.FirstSkipped | clean-stack/miner/poolcore.h:455 | With the window of a million, from nonce 0 on: 999999 and 1000001 are tried, 1000000 is not |
| PoolLoop.Run | clean-stack/miner/matador-miner.cpp:365-826 | Any run of reconnects, kills, jobs and solves takes the session, with its history of solves started and shares put forward or refused, where `Play` says |
| PoolLoop.Session.Connect | clean-stack/miner/matador-miner.cpp:436-442 | A connect forgets cursor and range, nothing else |
| PoolLoop.Session.Restart | clean-stack/miner/cursor_persist.h:45-57 | A restart keeps only the saved table |
| PoolLoop.Session.PickJob | clean-stack/miner/matador-miner.cpp:568-588 | A lane job restarts its lane, a new range resumes from the table, the same range goes on |
| PoolLoop.Session.Claim | clean-stack/miner/matador-miner.cpp:649-657 | The filter refuses exactly the pairs it knows at the current height; a new height clears it; a claimed pair enters filter and history |
| PoolLoop.Session.ShareSink | clean-stack/miner/matador-miner.cpp:629-682 | A share is dropped, refused or put forward; a sent one moves the cursor past it, which is recorded and saved; a failed send ends the inner loop; a kill may fall between send and save |
| PoolLoop.Session.SinkAll | clean-stack/miner/matador-miner.cpp:629-682 | The shares of a solve go through the sink in order until one ends it |
| PoolLoop.Session.SubmitWinner | clean-stack/miner/matador-miner.cpp:742-826 | The returned share: cursor, filter, table and history in every branch, lane wrap included |
| PoolLoop.Session.ScanPass | clean-stack/miner/matador-miner.cpp:683-826 | One pass of the inner loop: record, start the scan, sink the shares, end with the winner or past what was scanned |
| PoolLoop.Laned | clean-stack/miner/matador-miner.cpp:814-818 | A cursor that left its lane comes back into it |
| PoolHistory.AttemptKeeps | clean-stack/miner/matador-miner.cpp:649-657 | Putting forward a pair the filter does not know keeps pairs unique per block and the filter exact |
| PoolHistory.RefusedWasAttempted | clean-stack/miner/matador-miner.cpp:649-657 | A pair the filter knows has exactly one attempt since the last change of height or restart |
| PoolHistory.RecordCovers | clean-stack/miner/matador-miner.cpp:673-680 | Recording a cursor above a range's sent nonces keeps the table covering every range |
| PoolTheorems.NothingTwice | clean-stack/miner/matador-miner.cpp:649-657 | In every run no (nonce, ntime) pair is put forward twice without a change of block height or a restart between, and the filter holds exactly the pairs put forward since |
| PoolTheorems.RefusedIff | clean-stack/miner/matador-miner.cpp:649-657 | In every run a share dropped as already sent was sent in this block if and only if its one attempt there succeeded |
| PoolTheorems.LostShare | clean-stack/miner/matador-miner.cpp:649-672 | A run that drops a share as already sent although nothing was sent: its first send had failed |
| PoolCover.PassedSent | clean-stack/miner/matador-miner.cpp:629-826 | A pass adds to the sent nonces of its range exactly the shares it put on the wire |
| PoolCover.PassAheadIff | clean-stack/miner/matador-miner.cpp:674-826 | From a cursor above everything sent on its range, a pass leaves it above if and only if it does not send nonce 2^64 - 1 and does not drop a winner there while something has been sent on the range |
| PoolCover.SolvesStartAhead | clean-stack/miner/matador-miner.cpp:568-826 | On pools without lanes or ranges based at 2^64 - 1, short of a share at that nonce or a kill inside a send, every solve of every run starts above every nonce sent on its range while the range stays in the table |
| PoolCover.FirstPickIff | clean-stack/miner/matador-miner.cpp:436-442 | The first pick-up after a connect starts above what was sent if and only if the range is not based at 2^64 - 1 or nothing has been sent on it |
| PoolCover.KilledSendIff | clean-stack/miner/matador-miner.cpp:657-680 | After a kill between a send and its save the range resumes above the nonce sent if and only if the table on disk already did |
| PoolCover.LastNonceRun | clean-stack/miner/matador-miner.cpp:750-760 | A run in which a dropped winner at 2^64 - 1 makes the next solve start at zero, below a share already sent |
| PoolCover.LastRangeRun | clean-stack/miner/matador-miner.cpp:568-588 | A run in which a range based at 2^64 - 1 is scanned from zero again after a reconnect, below a share already sent |
| PoolCover.KilledSendRun | clean-stack/miner/matador-miner.cpp:657-680 | A run in which a kill between send and save makes the next process start below the share sent |
| PoolProgress.PassCursor | clean-stack/miner/matador-miner.cpp:683-826 | Where a pass that runs to its end leaves the cursor, exactly: past everything sunk and scanned; past a dropped winner; past all three, back in the lane, when the winner was sent |
| PoolProgress.PassAdvances | clean-stack/miner/matador-miner.cpp:700-735 | Off lanes such a pass leaves the cursor no lower than the end of what it scanned, or than one past its winner, short of the last nonce |
| PoolProgress.FallsIff | clean-stack/miner/matador-miner.cpp:683-826 | Off lanes a pass the process survives lowers the cursor if and only if it drops a winner at nonce 2^64 - 1 while the cursor is above zero |
| PoolProgress.ScansOnward | clean-stack/miner/matador-miner.cpp:568-826 | Progress over runs: after a pass that ran to its end, every later solve on its range, no reconnect, restart or other range between, starts at or above where it got; no exhausted stretch is scanned twice |
| PoolProgress.ForgottenIff | clean-stack/miner/matador-miner.cpp:568-735 | When a job on another range or a reconnect follows an exhausted pass, its range is resumed at or above its end if and only if nothing was scanned or the table was already there |
| PoolProgress.ScannedTwice | clean-stack/miner/matador-miner.cpp:568-735 | A run in which a thousand exhausted nonces are scanned a second time after a job on another range |
| PoolProgress.LaneKeptIff | clean-stack/miner/matador-miner.cpp:568-735 | A lane job starts in its lane; an exhausted pass leaves the cursor there if and only if it did not scan past the lane's end |
| PoolProgress.LaneRestored | clean-stack/miner/matador-miner.cpp:810-818 | A winner sent brings the cursor back into its lane, wherever it was |
| Latch.RcLatch.LatchHeight | clean-stack/core/vendor/consensus/params.h:476-482 | Latching is refused under a pin, when latched, or for a height below one; it reports true exactly when it was not refused |
| Latch.RcLatch.UnlatchHeight | clean-stack/core/vendor/consensus/params.h:489-498 | Unlatching never touches a pin; it reports true exactly when the state changed |
| Latch.RcLatch.MaybeLatchFromJob | clean-stack/miner/matador-miner.cpp:192-249 | One job: the state becomes the specified next state in every branch |
| Latch.Watch | clean-stack/miner/matador-miner.cpp:192-249 | A whole stream of jobs runs the specification |
| Latch.StreaksCount | clean-stack/miner/matador-miner.cpp:217 | At most one streak is non-zero; each counts only jobs at the end of what the ring let through; a pin is kept |
| Latch.UnlatchNeedsThree | clean-stack/miner/matador-miner.cpp:238-248 | A latch falls only after three consecutive, pairwise different jobs without the signal, the last at or above the latched height, and never under a pin |
| Latch.LatchNeedsSignal | clean-stack/miner/matador-miner.cpp:219-235 | Only an announcing job latches, at its own height |
| Latch.SwitchIff | clean-stack/miner/matador-miner.cpp:219-248 | Exactly when a counted job moves the switch: an announcement latches, at its own height, unless pinned; a plain job de-latches when it is the third in a row, at or above the height, and nothing is pinned |
| Latch.ThreePlainJobsFall | clean-stack/miner/matador-miner.cpp:236-248 | Three new plain jobs at or above the latched height make the latch fall, whatever came before |
| Latch.AnnouncedStaysLatched | clean-stack/miner/matador-miner.cpp:236-248 | A stream that announces at every job at or above the latched height never loses the latch |
| Latch.CountedOnceIff | clean-stack/miner/matador-miner.cpp:213-215 | The eight-id ring counts each job exactly once if and only if every repeat arrives within it |
| Latch.InterleavingIsHarmless | clean-stack/miner/matador-miner.cpp:202-217 | Two interleaved sessions whose repeats arrive within the ring reach the state of the deduplicated stream |
| Poolcore.RunIsSafe | clean-stack/miner/poolcore.h:275-299 | The invariant of every interleaving of the message loop and the solver thread |
| Poolcore.OneSolver | clean-stack/miner/poolcore.h:290-296 | At most one solver thread is ever live |
| Poolcore.AcknowledgedJobOnly | clean-stack/miner/poolcore.h:668-811 | After a dispatching acknowledgement for a job every solution and witness carries that job until another is dispatched |
| Poolcore.SilentOnceStopped | clean-stack/miner/poolcore.h:830-841 | Nothing comes out after preempt_ok or shutdown_ok until a new dispatch |
| Poolcore.AnnouncedSharesMet | clean-stack/miner/poolcore.h:457-493 | Every announced share was found and then met a target in force after it was found |
| Poolcore.NothingFoundIsLost | clean-stack/miner/poolcore.h:457-523 | In every run a share found has been re-checked, one that met its bar announced and a block-winning one witnessed, unless a live thread is just about to; once no thread is live nothing is owed |
| Poolcore.NoncesIncrease | clean-stack/miner/poolcore.h:451-531 | On the episode path the nonces announced for one dispatch strictly increase unless the counter wrapped |
| Poolcore.LabelStep | clean-stack/miner/poolcore.h:481-523 | Every step keeps block marks exact and every witness the repeat of the block-winning solution just announced |
| Poolcore.MeasureStep | clean-stack/miner/poolcore.h:457-493 | Every step keeps the record of what each share was measured against |
| Supervisor.DelayDoubles | clean-stack/miner/updater.h:180-188 | The delay ladder is min(60, 5 * 2^restarts): doubling with a cap |
| Supervisor.Rig.HandleExit | clean-stack/miner/updater.h:263-341 | One exit of a child of ours: the slot is up afterwards if and only if the exit was abnormal, short of the cap, and the fork gave a pid, which it then has with its spawn time; restarts rise by one, or start at one after a long run; the cap and nothing else ends the rig |
| Supervisor.AfterExitIs | clean-stack/miner/updater.h:263-341 | The same of the specified slot |
| Supervisor.DownHasACause | clean-stack/miner/updater.h:246-342 | Over every list of returns a slot is down at the end if and only if its last exit was clean, at the cap, or followed by a fork that failed |
| Supervisor.CodeIsLastTrouble | clean-stack/miner/updater.h:252-339 | The exit code is that of the last trouble among the returns: 1 for a failed wait or fork, else the child's own code, 128 plus the signal for a signal |
| Supervisor.Rig.Supervise | clean-stack/miner/updater.h:246-342 | The loop over any list of returns of waitpid ends with the slots, exit code, outcome and books `Watched` says |
| Supervisor.LadderHolds | clean-stack/miner/updater.h:246-342 | Over every list of returns: slots stay on the ladder with at most 10 restarts; without a ten-minute run at most 11 exits per slot; a capped rig exits non-zero; a return code of zero means nothing went wrong and all children are down |
| Supervisor.ExitsCounted | clean-stack/miner/updater.h:246-342 | The exits counted per slot are the returns that reaped it; all returns are handled while the loop runs |
| Supervisor.FlagsRecord | clean-stack/miner/updater.h:246-342 | Trouble and long runs are on record if and only if a handled return was one |
| Supervisor.EndHasACause | clean-stack/miner/updater.h:246-342 | The rig was capped if and only if some return hit the cap; it returned because waitpid failed or every child was down |
| Supervisor.ExitsShrink | clean-stack/miner/updater.h:263-341 | Without a long run every handled exit makes the measure fall |
| Supervisor.TotalAtMost | clean-stack/miner/updater.h:180-188 | The measure starts at no more than 11 per slot |

## Left out

- SHA-256 and ChaCha20 internals, and digests of particular inputs: no property here depends on them.
- The CUDA, Metal and HIP backends, and their agreement with the CPU kernels.
- Termination of the rejection loops without the stated hypothesis: a stream that stopped producing acceptable nibbles would make the code spin.
- Threads inside a kernel: bank pages and lobe legs are derived in order; their slots are disjoint, as the loops here show. The buffers the kernels return are sequences, the ones they update in place are arrays.
- The lobe width bound in `Coupled.Runnable`: the code checks none; 932067 is the largest width at which 32-bit row accumulators hold every product of operand values.
- The shape gate around a prebuilt bank, and the bank template hash.
- Merkle.CommitmentBinding: needs a leaf width of at least one, because with zero all non-empty streams share a root.
- Expand.ExpandMxDequant: widths with an incomplete scale block are excluded, because part of the last row then has no scale; `Expand.InBoundsIff` says exactly when.
- PoolCover.SolvesStartAhead: lane jobs restart their lane by design, so the claim is for pools without lanes; the cases in which it fails on other pools are stated exactly beside it. A share counts as sent when the send returned.
- PoolProgress.ScansOnward: leaves out lanes, which restart by design, and other ranges and reconnects between, after which `PoolProgress.ForgottenIff` is exact.
- PoolLoop.Run: which pass follows which (abort flag, idle gate, watchdog), and which passes save the table, is left to the script, which may order them in any way.
- PoolLoop.Session.Restart: takes the table file to be read back as it was written.
- The dev-fee window and the second session's own routing: the session in use is whatever connection the run picks.
- HandOff.RunKeeps: memory ordering weaker than sequential consistency is not modelled; every access is one step, as the mutexes and default atomics give.
- Submits.Run: latency averages, the authentication escalation and the reject-reason heuristics.
- Latch.InterleavingIsHarmless: the ring starts empty; how a profile string or dimension counts as an announcement is an input.
- Poolcore.RunIsSafe: JSON parsing, device queries and statistics are one reply event; the current-job bookkeeping that nothing reads is dropped. Live-profile solves may sink shares in any order, so the order claim is for episode profiles.
- Supervisor.Rig.Supervise: takes the returns of waitpid from a list, and is still running when the list ends; signalling and reaping the survivors after the cap, and the sleep itself.
- The CPU sketch's seeds and digest, the expansion in front of it, and the generator that fills the C-13 matrices.
- Sockets, TLS, proxies, RPC, configuration, logging, telemetry and difficulty displays.

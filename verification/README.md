# Exactness of the GLM serving overlay

The overlay replaces parts of a serving engine with faster parts that claim to change nothing: a pruned argmax that
selects the stock token bit for bit, a ring that rejected drafts may write into, lengths planned before the device has
them, a policy decided on the device, and several layout and protocol tricks. This project models the code that makes
those claims and proves them, for all inputs or all runs.

| file | part of the overlay |
|---|---|
| `FloatGrid.dfy`, `Fp32.dfy`, `FpFormats.dfy` | number formats (`fpfmt.py`): a format is a grid of ordinals, rounding is nearest, ties to even (roundTiesToEven, section 4.3.1 of IEEE 754-2019) |
| `Vectors.dfy`, `CertBound.dfy`, `Gumbel.dfy`, `Selection.dfy`, `CertMath.dfy`, `CertRange.dfy`, `CertHead.dfy`, `CertStep.dfy` | the certified head (`cert_math.py`, `glm_cert_head.py`) |
| `KpoolRing.dfy`, `KpoolPrefill.dfy`, `Hadamard.dfy`, `Expander.dfy` | pooled keys (`glm5next_kpool_compress.py` and its callers) |
| `Fifo.dfy`, `EarlyPlan.dfy`, `PlanFence.dfy` | planning ahead of the device (`glm_early_plan.py`) |
| `DraftSchedule.dfy`, `DraftTrunc.dfy`, `DevSelect.dfy` | draft truncation and device selection (`glm_draft_trunc.py`, `glm_devselect.py`) |
| `AdaptiveK.dfy` | adaptive draft length (`adaptive_k_scheduler.py`) |
| `PackedTopK.dfy`, `MarlinLayout.dfy`, `RankAgree.dfy` | vocab-parallel top-k, packed weight layout, agreement over ranks |
| `Arith.dfy`, `Basics.dfy` | arithmetic facts and shared vocabulary |

What is idealised:

- float64 is evaluated as exact reals, except that square roots may be short by a relative 2^-40, as their inflation
  allows; what the other inflation factors and the slop allow for is stated beside the bound
  (`CertBound.InflationCoversRounding`, `CertMath.SlopCoversRounding`). fp32, bf16, e4m3 and e2m1 are rounded as the
  code rounds them. +0 and -0 share one ordinal.
- The hardware's accumulation error is the premise the source states (`AccumulationPremises`), not a result.
- A pool's compression is kept symbolic: a cache entry is the list of items it was computed from.
- The device is a first-in-first-out stream; how far it has got is arbitrary at every step.

What turned out to need a condition:

- The certificate is exact row by row. A row's result is the stock one if and only if its stock winner is listed, as a
  candidate of any row or through the fallback, and is not a masked token that the mask puts below its stock value
  (`CertMath.RowIsExact`). The row itself keeps its winner if and only if no lower quotient of the row overflows and the
  winner's upper quotient is in range (`CertMath.WinnerIsCandidate`); greedy rows and temperatures 0 and 1 divide
  nothing and need nothing. A masked token of a row with another temperature has a NaN upper end, so it is no candidate
  and does not touch the threshold: such rows are exact as soon as some token in range passes what the masked ones can
  reach (`CertMath.AnchoredRowIsUsable`). The device refuses masks together with sampling
  (`overlay/glm_cert_head.py:706-707`); the reference takes both.
- A temperature so small that a lower quotient overflows to +infinity leaves its row without candidates
  (`CertRange.OverflowedRowHasNoCandidate`). Alone in its step the row then falls back and is exact
  (`CertRange.LoneOverflowedRowIsStock`); beside other rows it is exact if and only if the fallback is taken or another
  row keeps its winner (`CertRange.OverflowedRowIsExact`). `CertRange.OverflowedStepIsWrong` is a step of two rows and
  two tokens that returns token 1 where the stock selection is token 0.
- The tail ring is exact over all runs if and only if it has at least pool + drafts - 1 slots
  (`KpoolRing.RingSizeIsExact`); the shipped size always has. The comment at
  `overlay/glm5next_attention.py:191-193` asks for pool + drafts, one more than necessary; a one-pool ring is enough
  for a single draft and broken from two on.
- The selection kernel's price equals the policy's if and only if some length is worth more than the scan's starting
  value -1e30, or the drafts are expected to add nothing (`DevSelect.KernelPriceIsPolicyPrice`): otherwise it keeps the
  initial expected value where the policy takes the full length's, as with the table of
  `DevSelect.KernelPriceCanDiffer`. A table whose largest price is representable
  (`DevSelect.Sane`) rules that out over whole runs.
- The fence protects a rewrite in every timing if and only if no plan with the switch off has uploaded since the last
  fenced plan, or since the start (`PlanFence.FenceIsExact`): the switch need not have been on all along. The wait for
  the last plan's event alone already covers every earlier upload (`PlanFence.RewriteIsSafe`).
- An entry of the dense fast path is on everywhere or nowhere if and only if some rank's self-test, abort or table
  stands in its way, or all ranks take it alike (`RankAgree.EnabledOnAllOrNone`): the neutral flag of a rank that does
  not want an entry, or has no layer for it, does not stop the others.

## Model

| member | source | states |
|---|---|---|
| `FloatGrid.NearestIsNearestEven` | overlay/fpfmt.py:51-61 | The grid rounding returns a nearest grid point of every non-negative real, and the even one of two equally near, in every format |
| `FloatGrid.NearestEvenUnique` | overlay/fpfmt.py:51-61 | Nearest, ties to even, determines the grid point |
| `FloatGrid.NearestMonotone` | overlay/cert_math.py:27-29 | Rounding to any grid is monotone |
| `FloatGrid.NearestOfUnits` | overlay/fpfmt.py:51-61 | Grid points round to themselves |
| `Fp32.Round32Monotone` | overlay/cert_math.py:27-29 | Casting float64 to fp32 is monotone, overflow to infinity included |
| `Fp32.Bf16Monotone` | overlay/cert_math.py:27-29 | Rounding fp32 to bf16 is monotone over all ordinals, infinities included |
| `Fp32.Bf16MagIsNearest` | overlay/fpfmt.py:27-42 | The bf16 of an fp32 magnitude is the nearest bf16, ties to even |
| `Fp32.Bf16Exact` | overlay/cert_math.py:140 | Values on the bf16 grid are kept, so a row of such values is not marked unsafe |
| `Fp32.AddMonotone` | overlay/cert_math.py:263-271 | fp32 addition of a finite noise value keeps the order |
| `Fp32.DivMonotone` | overlay/cert_math.py:267-268 | fp32 division by a positive temperature keeps the order |
| `FpFormats.Bf16BitsRounds` | overlay/fpfmt.py:27-33 | The add-and-shift on the bit pattern is the rounding to bf16 for every pattern that is not NaN |
| `FpFormats.Bf16BitsKeepsNaN` | overlay/fpfmt.py:27-33 | NaN patterns stay NaN patterns with the same sign |
| `FpFormats.RoundUpF32` | overlay/fpfmt.py:141-147 | Each entry becomes the least fp32 that is not below it |
| `FpFormats.E4m3RoundIsNearest` | overlay/fpfmt.py:51-61 | Over all reals: nearest e4m3, ties to even, sign kept, and an error exactly when the rounded magnitude passes 448 |
| `FpFormats.E4m3RoundIdempotent` | overlay/fpfmt.py:51-61 | Rounding a rounded value changes nothing |
| `FpFormats.E4m3Encode` | overlay/fpfmt.py:64-77 | The masked passes store, for representable values, bytes that decode to those values |
| `FpFormats.E4m3DecodeIsValue` | overlay/fpfmt.py:80-87 | Every byte that is not NaN decodes to the grid value of its magnitude with its sign |
| `FpFormats.EncodeDecodes` | overlay/fpfmt.py:64-87 | Every representable value has a byte that decodes to it |
| `FpFormats.E2m1Encode` | overlay/fpfmt.py:98-107 | The midpoint loop gives the nearest e2m1 code of every real, ties to even, saturating at 6, with the sign on non-zero codes |
| `FpFormats.E2m1RoundTrip` | overlay/fpfmt.py:98-112 | Decoding the code gives the rounded value |
| `FpFormats.UnpackNibbles` | overlay/fpfmt.py:121-126 | The strided stores put the low and high nibble of byte i at 2i and 2i+1 |
| `FpFormats.PackAfterUnpack` | overlay/fpfmt.py:115-126 | Packing the unpacked nibbles gives the bytes back, at any length |
| `FpFormats.UnpackAfterPack` | overlay/fpfmt.py:115-126 | Unpacking packed nibbles gives the codes back, at any even length |
| `CertBound.CauchySchwarz` | overlay/cert_math.py:22 | The sum of product magnitudes is at most the product of any two norm bounds |
| `CertBound.GroupedCauchySchwarz` | overlay/cert_math.py:22 | The same per group of G columns, summed over the groups |
| `CertBound.NormOfGroupNorms` | overlay/cert_math.py:152-156 | A norm of the vector of group norms is a norm of the row |
| `CertBound.InputNorms` | overlay/cert_math.py:152-156 | The inflated group roots and the root over them bound the input row's norms |
| `CertBound.RowTableNorms` | overlay/cert_math.py:132-146 | The stored residual norms and row norm, rounded up, bound the true ones of every safe row |
| `CertBound.BoundCovers` | overlay/cert_math.py:159-165 | Given the two accumulation premises the stock accumulator is within the bound of the screen value |
| `CertBound.InflationCoversRounding` | overlay/cert_math.py:159-165 | The bound still covers when the sum of products is computed short by up to 2^-18 of itself and the total by up to 2^-20 |
| `Gumbel.SlackLoCovers` | overlay/cert_math.py:269 | The lowered quotient stays below the quotient moved two ulps down, subnormals and overflow included |
| `Gumbel.SlackHiCovers` | overlay/cert_math.py:270 | The raised quotient stays above the quotient moved two ulps up |
| `Gumbel.IntervalContains` | overlay/cert_math.py:244-271 | The sampled value of any logit inside the bounds, the division being up to 2 ulp off, lies inside the interval exactly when the quotients are in range |
| `Gumbel.OutOfRangeIsBottom` | overlay/cert_math.py:258-271 | A token whose upper quotient is out of range cannot rise above two ulps over -infinity plus its noise |
| `Gumbel.IntervalUsable` | overlay/cert_math.py:258-271 | The interval holds every such value if and only if the quotients are in range; T = 0 and T = 1 always are |
| `Selection.SelectIsSelected` | overlay/cert_math.py:184-187 | One-pass selection returns the maximum and the lowest id that has it |
| `Selection.SelectedUnique` | overlay/cert_math.py:184-187 | Maximum and lowest id are determined by the values, not by their order |
| `Selection.FinalSelect` | overlay/cert_math.py:281-297 | The chunked loop gives the maximum and the lowest id among the maxima for any chunk size and order, and an id in the list or 0 otherwise |
| `Selection.WinnerOfSublist` | overlay/cert_math.py:329-342 | A list that contains the winner selects the winner |
| `Selection.ReduceRanksIsGlobal` | overlay/cert_math.py:368-373 | First rank with the largest local winner gives the lowest-id argmax of the whole vocabulary |
| `CertMath.IntervalContainsLogit` | overlay/cert_math.py:168-174 | A stock accumulator within the bound has its bf16 logit between the computed ends |
| `CertMath.SlopCoversRounding` | overlay/cert_math.py:168-174 | So do ends that are evaluated with an error of up to the slop |
| `CertMath.EndsContain` | overlay/cert_math.py:318-341 | Masked, greedy or sampled, each end of every token lies on its side of the stock value exactly when that end's quotient is in range |
| `CertMath.RecomputeIsStock` | overlay/cert_math.py:337-341 | The recompute, masked last, gives the stock value exactly unless the mask hides a value above -infinity, which takes a division off upwards |
| `CertMath.WinnerIsCandidate` | overlay/cert_math.py:177-181 | The stock winner of a row passes the threshold test if and only if no lower quotient of the row and not its own upper quotient is out of range |
| `CertMath.TiesAreCandidates` | overlay/cert_math.py:29-31 | So does every token tied with it, under the same condition on its own upper quotient |
| `CertMath.AnchoredRowIsUsable` | overlay/cert_math.py:318-331 | The condition can be read off the ends: no lower quotient overflows and one token's lower end passes what masked and out-of-range tokens can reach |
| `CertMath.UnsafeRowsSurvive` | overlay/cert_math.py:132-144 | A token whose screening copy is not exact is a candidate of every row that does not mask it, greedy or sampled, exactly when the row has a threshold |
| `CertMath.UnionNotEmpty` | overlay/cert_math.py:329-331 | One row that keeps its winner keeps the union from being empty, so the fallback is then taken on overflow only |
| `CertMath.RefineRows` | overlay/cert_math.py:337-342 | The loop over the rows gives each row the largest refined value among the listed tokens and the lowest id that has it |
| `CertMath.CertLocal` | overlay/cert_math.py:306-365 | For every input, screening copy, mask, temperatures, cap and compaction order: each row gets the refined winner of the list, whole shard on overflow or empty union; every usable row gets the stock value and id, whatever the other rows are; non-finite data gives status and placeholders |
| `CertMath.RowIsExact` | overlay/cert_math.py:306-365 | A row's result is the stock one if and only if its stock winner was listed and is not hidden by the mask; no premise is needed |
| `CertMath.UsableRowIsStock` | overlay/cert_math.py:20-31 | With the premises, the row's own condition is enough |
| `CertRange.OverflowedRowHasNoCandidate` | overlay/cert_math.py:258-271 | When a lower quotient overflows, the threshold is NaN and the row has no candidate |
| `CertRange.OverflowedRowIsExact` | overlay/cert_math.py:324-342 | Its result is then the stock one if and only if the fallback is taken or another row keeps its winner, the mask aside |
| `CertRange.LoneOverflowedRowIsStock` | overlay/cert_math.py:327-331 | Alone in its step it falls back and is exact |
| `CertRange.TinyTemperatureOverflows` | overlay/cert_math.py:267 | Every positive lower end has a temperature that does this |
| `CertRange.OverflowedStepIsWrong` | overlay/cert_math.py:306-343 | A step of a sampled and a greedy row over two tokens, premises met, whose sampled row is given token 1 with status OK where the stock selection is token 0 |
| `CertStep.RouteIsAgreed` | overlay/cert_math.py:346-350 | The gathered results send the whole step to the stock route exactly when some rank saw non-finite data |
| `CertStep.IdIsExact` | overlay/glm_target_argmax.py:91-96 | Ids up to 2^24 survive the cast to fp32 and back |
| `CertStep.DeviceStepIsStepTp` | overlay/glm_cert_head.py:884-895 | Packing value, id and status per rank, gathering side by side and reading the columns back decides, on whichever rank it is evaluated, what the reference step decides |
| `CertStep.StepIsStockArgmax` | overlay/cert_math.py:346-373 | The token of every row that is usable on each rank is the lowest-id stock argmax over all ranks' shards, whatever the other rows are |
| `CertHead.CandidatesDistinct` | overlay/glm_cert_head.py:362-371 | The candidates of a range are distinct tokens of the range |
| `CertHead.BlocksHoldCandidates` | overlay/glm_cert_head.py:357-371 | The blocks' lists together are the candidates in order, for any block size |
| `CertHead.LanePlace` | overlay/glm_cert_head.py:364-371 | A lane's prefix sum is its token's place in the block's list |
| `CertHead.SelectKernel.Reserve` | overlay/glm_cert_head.py:366-369 | A block counts its candidates; if it has any, its atomic reservation extends the counter by that many and keeps the reserved ranges tiling the list |
| `CertHead.SelectKernel.Store` | overlay/glm_cert_head.py:370-371 | A lane's store goes to the block's base plus its prefix sum less one, is the block's candidate of that rank, and happens only below the cap |
| `CertHead.SelectKernel.ListIsExact` | overlay/glm_cert_head.py:356-371 | When all blocks are done, in any interleaving, a list that fits holds each candidate exactly once and nothing else |
| `CertHead.SameTokensSameMultiset` | overlay/cert_math.py:332-335 | Such a list is a permutation of the candidates, the order the selection is proved for |
| `CertHead.KernelListsUnion` | overlay/glm_cert_head.py:357-371 | A finished launch whose count fits holds, in some order, exactly the tokens the certificate lists |
| `KpoolRing.TailCache.Decode` | overlay/glm5next_kpool_compress.py:582-708 | The kernel's loop does to tail and cache what the token-by-token specification says, gates and padding included |
| `KpoolRing.TailCache.ReadPool` | overlay/glm5next_kpool_compress.py:623-668 | A completing token compresses the ring's copies of the pool's earlier tokens and itself |
| `KpoolRing.TailCache.Seed` | overlay/glm5next_kpool_compress.py:448-490 | In whatever order the programs run, every kept token is in its slot and every other slot is unchanged |
| `KpoolRing.BlockOfReal` | overlay/mla_indexer.py:547-565 | The slot mapping own block * ring + pos % ring leads the kernel back to the request's own block |
| `KpoolRing.LaunchIsPerRequest` | overlay/glm5next_kpool_compress.py:565-575 | A launch over any interleaving of the requests' tokens, padding anywhere, gives every request what its own tokens in order give alone |
| `KpoolRing.SeedsAreApart` | overlay/glm5next_kpool_compress.py:463-482 | No two programs of the seed kernel write the same slot |
| `KpoolRing.SeedIsPerRequest` | overlay/glm5next_kpool_compress.py:463-490 | After seeding, each request's row is its row with the last pool's worth of its own chunk stashed |
| `KpoolRing.VerifyKeeps` | overlay/glm5next_kpool_compress.py:553-564 | A verify step of any length enters every pool that ends in it from its true items |
| `KpoolRing.CompressKeeps` | overlay/sparse_attn_indexer_kpool.py:57-106 | One request's pool-aligned prefill chunk enters every pool it completes from its own items |
| `KpoolPrefill.PoolCache.CompressInsert` | overlay/sparse_attn_indexer_kpool.py:77-106 | In whatever order the batch's programs run, every pool that ends at a token with a slot is in that slot, gathered from the batch, and no other slot changes |
| `KpoolPrefill.PoolsAreApart` | overlay/sparse_attn_indexer_kpool.py:68-76 | No two programs of a batch write the same slot |
| `KpoolPrefill.CompressIsPerRequest` | overlay/sparse_attn_indexer_kpool.py:57-106 | After a batch of many requests' pool-aligned chunks each request sees its own pools with its own chunk compressed, as it would alone |
| `KpoolRing.RejectKeeps` | overlay/glm5next_attention.py:191-193 | With pool + drafts - 1 slots no rejected token has reached a slot a redo still reads |
| `KpoolRing.RunIsExact` | overlay/glm5next_kpool_compress.py:448-708 | After any run of pool-aligned prefills and verify steps, each accepting any non-empty prefix, every committed pool was compressed from exactly its own committed items |
| `KpoolRing.SmallRingBreaks` | overlay/glm5next_attention.py:191-193 | For every smaller ring a run of three steps that compresses a rejected item in place of a committed one |
| `KpoolRing.RingSizeIsExact` | overlay/glm5next_attention.py:191-197 | All runs are exact if and only if the ring has pool + drafts - 1 slots |
| `KpoolRing.ShippedRingIsExact` | overlay/glm5next_attention.py:196-197 | The shipped size is at least pool + drafts, so all runs are exact for every number of drafts |
| `KpoolRing.LaunchIsVerifyStep` | overlay/glm5next_kpool_compress.py:553-575 | In a launch over many requests, one that brings its next tokens gets the ring and pools of the verify step of which the run theorems speak |
| `Hadamard.FwhtIsProduct` | overlay/glm5next_kpool_compress.py:29-61 | The butterfly stages with doubling strides compute the product with the matrix built by doubling, for every power of two |
| `Hadamard.FlattenedIsRowByRow` | overlay/glm5next_kpool_compress.py:101-113 | Running the stages over the flattened rows is running them row by row: no pair crosses a row |
| `Hadamard.FwhtTwice` | overlay/glm5next_kpool_compress.py:29-61 | Transforming twice multiplies by n |
| `Hadamard.DoubledAt` | overlay/glm5next_kpool_compress.py:29-61 | That multiple is 2^k in every entry |
| `Hadamard.FwhtIsometry` | overlay/glm5next_kpool_compress.py:29-61 | Inner products are preserved up to the factor n |
| `Hadamard.RotationKeepsScores` | overlay/glm5next_kpool_compress.py:40-48 | With a scale whose square is 1/n, queries and keys rotated alike keep their scores |
| `Expander.Fused` | overlay/glm5next_kpool_compress.py:921-994 | The fused, tiled kernel writes what expanding and then appending the tail gives, for all pool ids and lengths |
| `Expander.ExpandAt` | overlay/glm5next_kpool_compress.py:837-853 | Column c of the expansion is token c % pool of the pool selected at c / pool, or -1 |
| `Expander.RowHasPlannedLength` | overlay/glm_early_plan.py:107-122 | Given the top-k's selection the row holds exactly the number of tokens the host plans for it |
| `Expander.RowAttendsDistinctTokens` | overlay/glm5next_kpool_compress.py:816-994 | Its entries are distinct tokens of the context, the whole incomplete pool among them |
| `EarlyPlan.EarlyPlanCore.PlanBases` | overlay/glm_early_plan.py:165-209 | Waits for the snapshot's event only when no guard refuses, and returns per row the host mirror of an added request, else the snapshot's value, or the guard's reason |
| `EarlyPlan.SlotAfterWait` | overlay/glm_early_plan.py:346-357 | After the wait the pinned slot holds its own snapshot, neither an older nor a newer one, for a ring of any size |
| `EarlyPlan.NextKeeps` | overlay/glm_early_plan.py:125-209 | Every action of the worker and every step of the device keeps the mirror in agreement with the device |
| `EarlyPlan.RunBasesAreExact` | overlay/glm_early_plan.py:165-209 | After any run of real and dummy steps, additions, removals, index reuse and taken, missed or failed snapshots, returned bases are the device's current values, row by row |
| `EarlyPlan.LensFromBases` | overlay/glm_early_plan.py:107-122 | The nested loop builds the lengths request by request |
| `EarlyPlan.LensAt` | overlay/glm_early_plan.py:107-122 | Row j of request r is planned for base + (j - start) + 1 tokens of context |
| `EarlyPlan.EarlyLensAreExact` | overlay/glm_early_plan.py:382-415 | The early lengths are those the device path computes from its positions |
| `PlanFence.Guard.BeforePlan` | overlay/glm_early_plan.py:241-246 | Waits for the last plan's event and for the chosen slot's |
| `PlanFence.RewriteIsSafe` | overlay/glm_early_plan.py:216-246 | At the rewrite no upload of any earlier plan is pending, whatever it reads |
| `PlanFence.RunIsSafe` | overlay/glm_early_plan.py:216-252 | So in every run in which no unfenced plan has uploaded since the last fenced one, for any number of slots and any completion timing |
| `PlanFence.FenceIsExact` | overlay/glm_early_plan.py:418-427 | Over all device timings, the rewrite that follows a host's actions is safe if and only if no unfenced plan has uploaded since the last fenced one or the start |
| `PlanFence.UnfencedPlanBreaks` | overlay/glm_early_plan.py:418-427 | Uploads of a plan made with the switch off outlast both waits of the next fenced plan |
| `DraftTrunc.CumBounded` | overlay/glm_draft_trunc.py:141-148 | The chance that all drafts so far are accepted stays between 0 and 1 |
| `DraftTrunc.ExpectedBounded` | overlay/glm_draft_trunc.py:141-148 | The expected tokens lie between 1 and 1 + the drafts |
| `DraftTrunc.Policy.Expect` | overlay/glm_draft_trunc.py:141-148 | The loop's list holds the expected tokens of every length |
| `DraftTrunc.ChoiceIsBest` | overlay/glm_draft_trunc.py:150-160 | The chosen length is the smallest that maximises the worth as soon as any beats -1e30, and the full length otherwise |
| `DraftTrunc.PositiveMarginIsFull` | overlay/glm_draft_trunc.py:162-164 | The gate's margin is positive exactly when the full length is chosen |
| `DraftTrunc.Policy.BestOf` | overlay/glm_draft_trunc.py:155-160 | The scan over the lengths returns the choice for all worths |
| `DraftTrunc.Policy.Choose` | overlay/glm_draft_trunc.py:150-165 | Chooses at the current price, moves that price only, and records the margin |
| `DraftTrunc.NextLamBounded` | overlay/glm_draft_trunc.py:161 | One decision keeps the price positive and below any bound that covers its start and the best rate |
| `DraftTrunc.RunPricesBounded` | overlay/glm_draft_trunc.py:150-165 | So does every run of decisions of one policy, for requests in any numbers |
| `DraftTrunc.BlendMovesToRate` | overlay/glm_draft_trunc.py:161 | The new price lies the fixed fraction ALPHA of the way from the old price to the achieved rate |
| `DraftTrunc.Truncate` | overlay/glm_draft_trunc.py:302-324 | Acts exactly when the schedule is eligible; then every live request keeps the policy's length of its drafts and the total stays the sum of the counts; otherwise nothing changes |
| `DraftSchedule.Eligible` | overlay/glm_draft_trunc.py:277-287 | A common number of drafts exactly when nothing is structured, some request is live, all live ones are known and all have equally many |
| `DraftSchedule.SchedulerOutput.CutTo` | overlay/glm_draft_trunc.py:316-323 | The loop leaves each listed request a prefix of one length, and total minus sum unchanged |
| `DevSelect.Selector.Select` | overlay/glm_devselect.py:108-146 | One kernel run chooses the policy's length (or the forced one), moves the price, sets exactly one predicate, and logs the length in ring and histogram |
| `DevSelect.Selector.ScanDepths` | overlay/glm_devselect.py:118-135 | The loop over the depths ends with the policy's choice and the kernel's expected tokens |
| `DevSelect.KernelPriceIsPolicyPrice` | overlay/glm_devselect.py:122-139 | Kernel and policy move the price alike if and only if some worth beats the start of the scan or full length is worth one token |
| `DevSelect.KernelPriceCanDiffer` | overlay/glm_devselect.py:122-139 | A table with which they differ: no length beats the start of the scan and the drafts are always accepted |
| `DevSelect.SlotAfterAwait` | overlay/glm_draft_trunc.py:226-238 | After waiting for a draft its pinned slot holds its own scores |
| `DevSelect.PullIsCurrent` | overlay/glm_devselect.py:984-991 | Pulling leaves the host with the current price and the flag clear |
| `DevSelect.HostDecisionKeeps` | overlay/glm_draft_trunc.py:290-299 | A host decision, pulled and pushed, is the sequential policy's next decision |
| `DevSelect.LiveDecisionKeeps` | overlay/glm_draft_trunc.py:290-299 | A draft of several requests is such a decision exactly when one of them is live; otherwise this price is left alone |
| `DevSelect.OnDeviceKeeps` | overlay/glm_devselect.py:971-974 | So is a device decision, published behind it |
| `DevSelect.DraftedKeeps` | overlay/glm_devselect.py:803-814 | A new draft disturbs neither the price nor the scores still to be read |
| `DevSelect.ExecutedKeeps` | overlay/glm_draft_trunc.py:358-404 | Scoring the gated draft of any number of requests and then deciding, gating, selecting on the device or skipping keeps both sides coherent |
| `DevSelect.OneSequentialPolicy` | overlay/glm_devselect.py:961-999 | Over every interleaving and device timing the lengths chosen on both sides and the price are those of one sequential policy with one price |
| `DevSelect.OneSlotOverwrites` | overlay/glm_draft_trunc.py:70 | With a single pinned slot the next draft replaces the scores of a gated one before they are read; two slots suffice |
| `AdaptiveK.ObservedSound` | overlay/adaptive_k_scheduler.py:254-261 | An observation keeps the average in [0, 1] and the length one of the two |
| `AdaptiveK.Policy.Observe` | overlay/adaptive_k_scheduler.py:254-262 | Moves that request's average and counts an observation when something was drafted, and changes no length and no other request |
| `AdaptiveK.Policy.Decide` | overlay/adaptive_k_scheduler.py:264-271 | Asks one request's hysteresis, counts a switch exactly when the length changes, and touches no other request |
| `AdaptiveK.Policy.AssignLengths` | overlay/adaptive_k_scheduler.py:375-383 | Lengths never exceed the engine's; in the uniform mode all are equal and high only if every request is high |
| `AdaptiveK.RunMovesSlowly` | overlay/adaptive_k_scheduler.py:254-261 | Over any events the average approaches neither end faster than the weight of its observations allows |
| `AdaptiveK.UpwardDwell` | overlay/adaptive_k_scheduler.py:222-227 | Between a switch down and the next switch up at least n observations count, n the least with (1 - alpha)^n (1 - down) <= 1 - up |
| `AdaptiveK.DownwardDwell` | overlay/adaptive_k_scheduler.py:222-227 | Between a switch up and the next switch down likewise with (1 - alpha)^n up <= down |
| `AdaptiveK.StreakIsFastest` | overlay/adaptive_k_scheduler.py:237-261 | Full acceptances, and full rejections, attain that speed |
| `AdaptiveK.DwellIsTight` | overlay/adaptive_k_scheduler.py:222-227 | From an average at the threshold as many observations as either dwell asks for do switch |
| `AdaptiveK.DraftedRing.Push` | overlay/adaptive_k_scheduler.py:341-344 | The ring keeps the newest hand-outs up to its slots |
| `AdaptiveK.DraftedRing.Contains` | overlay/adaptive_k_scheduler.py:352-353 | Membership holds exactly when some hand-out still in the ring has the request |
| `AdaptiveK.RingIsLastHandouts` | overlay/adaptive_k_scheduler.py:328-353 | After any hand-outs the ring is the last `slots` of all of them |
| `PackedTopK.TopKCount` | overlay/glm_ds_draft.py:188 | A top-k holds as many values from any threshold on as there are, up to k |
| `PackedTopK.TwoStageIsTopK` | overlay/glm_ds_draft.py:188-199 | Top-k of the shards' top-ks has the same values in the same order as top-k of the whole vocabulary, whatever the ties |
| `PackedTopK.IdsHoldValues` | overlay/glm_ds_draft.py:189-199 | Every gathered id is a token of the vocabulary that really has the value gathered beside it |
| `PackedTopK.PickedIsTopK` | overlay/glm_ds_draft.py:188-199 | The ids finally picked are themselves a top-k of the whole vocabulary: different tokens, in descending order, none left out being larger |
| `PackedTopK.OneGatherIsTwo` | overlay/glm_ds_draft.py:153-167 | The packed gather unpacks to exactly what two gathers give, for every number of ranks and every k |
| `MarlinLayout.SourceOfPlace` | overlay/glm_dense_fast.py:403-415 | Reading back the place of (k, n) gives (k, n): no two elements share a byte |
| `MarlinLayout.PlaceInRange` | overlay/glm_dense_fast.py:403-415 | The place lies in the packed buffer |
| `MarlinLayout.PlaceOfSource` | overlay/glm_dense_fast.py:403-415 | Every byte of the buffer is the place of an element: the map is onto |
| `MarlinLayout.ScaleColumnsPermute` | overlay/glm_dense_fast.py:416-422 | Both scale column maps permute [0, PN) |
| `RankAgree.AgreedIffAllPass` | overlay/glm_dense_fast.py:579-595 | An entry is agreed exactly when every rank passed it and all hold the same dispatch table |
| `RankAgree.SelfTestAll` | overlay/glm_dense_fast.py:611-678 | The loop over the entries gives the neutral flag to what the rank does not take, 0 to what does not build, fails or raises, and 0 to everything when an exception escapes |
| `RankAgree.EnabledIffUnopposed` | overlay/glm_dense_fast.py:672-690 | A rank has an entry on exactly when it takes it, all tables are the same, no rank's self-test ended early and every rank that takes it passed it |
| `RankAgree.EnabledOnAllOrNone` | overlay/glm_dense_fast.py:650-690 | For any local outcomes an entry is on everywhere or nowhere if and only if something stands in its way or all ranks take it alike |
| `RankAgree.SplitOnAllOrNone` | overlay/glm_ds_split.py:206-242 | For any local outcomes a layer is split at a row count on every rank or on none, and only where every check passed |
| `RankAgree.SameGathers` | overlay/glm_ds_split.py:117-141 | All ranks make the same gather calls |
| `RankAgree.GatheredIsFull` | overlay/glm_ds_split.py:98-128 | The ranks' column ranges partition the output, and gathering the slice products gives the full product |

## Left out

- CertMath.CertLocal: the noise of a row is a given finite table, not computed from seed and position; rows of the screen emulation and stock arithmetic modes are given accumulators under the stated premises.
- CertStep.StepIsStockArgmax: the ranks' results are given by what `CertLocal` promises; the gather itself is not modelled.
- CertHead.SelectKernel.ListIsExact: one launch of the selection kernel on the flags of the reference; the screen, bound and exact-recompute kernels, token masks as stop lists and CUDA graphs are not modelled.
- FpFormats.RoundUpF32: applies to reals in the fp32 range and beyond; NaN inputs are not modelled.
- KpoolRing.RunIsExact: one request at a time, in its own block and its own cache slots; `LaunchIsPerRequest`, `SeedIsPerRequest` and `KpoolPrefill.CompressIsPerRequest` reduce launches over many requests to it. Reuse of a block by a later request starts a new run with an arbitrary ring.
- Hadamard.RotationKeepsScores: the scale is a real with n c^2 = 1; the fp32 constant, the bf16 round trip and the fp8 quantisation are not modelled.
- Expander.Fused: ids are unbounded integers; only values that are masked out could leave 32 bits. Page tables and offsets are the paths the indexer does not use.
- EarlyPlan.RunBasesAreExact: the plan is built before the step's own post-update, as the engine orders it; the debug comparison, the per-metadata cache and graph capture are not modelled.
- DevSelect.OneSequentialPolicy: one graph set and the price of one live request, which no other number of requests touches; no forced length. A ring of slots that has to grow drops a gated draft unscored and is not modelled. Staging of the per-length plans, the fixups and the conditional graph bodies are not modelled; a launch that falls back decides nothing.
- DraftTrunc.Policy.Choose: the power n^0.7 of the starting price is a given function; the table's fill of unpopulated bins is not modelled.
- AdaptiveK.Policy.AssignLengths: the counters of decisions and steps, `should_observe` and `filter_candidates` are simple guards and are not modelled.
- RankAgree.SplitOnAllOrNone: that the slice product equals the stock columns at the checked row counts is what the bit-exact check establishes for its seeds, not a result here.
- The MXINT8 and fp8 screening copies (`make_mxint8`, `make_fp8_twin`): the certificate is proved for any screening copy.
- The decode dispatch table, bucket choice and minimum row count of `glm_dense_fast.py`, and padding, scaling and soft-capping of the top-k logits.
- Softmax, exponentials, import hooks, graph capture and building, timing, logging and A/B plumbing.

# AIPool, modelled and proved in Dafny

AIPool lets one requester run a local language model on several computers. This project models the
parts of it whose correctness is not visible from any one function and proves what they promise for
every input, every run and every interleaving.

| module | models |
|---|---|
| `Planner`, `PlannerTheorems` | the layer planner: ranking, the least sufficient group of nodes, greedy cuts |
| `Gguf` | tensor sizes, per-layer totals of a GGUF file, the share of the non-layer bytes |
| `Control`, `ControlServer`, `ControlTheorems` | the control plane: registrations, leases, atomic group reservations |
| `Rendezvous`, `RendezvousTheorems` | the relay's meeting of two half-streams under one mutex |
| `Admission` | the relay's connection limits and once-only close counters |
| `Pipeline`, `PipelineTheorems` | stage runtimes and the session that drives them, with failures and late frames |
| `SecureConn`, `SecureConnTheorems` | the encrypted tunnel connection: records, counters, nonces |
| `TensorWire`, `BigEndian` | the activation frame format |
| `ModelCache`, `Upload` | the host's resumable content-addressed cache and the proxy's upload loop |
| `HostTasks` | the host's compare-and-swap admission of chats |

Code that changes state is modelled by classes and methods with loops. Each such method is proved
against a specification of its result and new state: a function of the old state, or, where the order
of a map's entries is open, a relation that is proved to leave one result. What such a
specification means is stated once more beside it in plain terms, over the fields and bytes themselves,
and proved equivalent. The theorems are about those specifications over whole runs.
Concurrent code is a state machine: one step per lock-held region or atomic action, in any order.
Clock readings, random identifiers, failures of files and of the network, and the outcome of token
issuing are inputs. The cipher, the MAC, the hash and the float32 operations are arbitrary functions;
a theorem that needs a law of theirs (opening what was sealed, a fixed tag length) states it.

## Findings

Where the code does not do what one would expect of it, the model follows the code. For each case
there is a lemma with a concrete input or run, and the exact condition is proved.

- A tensor whose element count plus block size minus 1 does not fit in 64 bits is accepted with size
  0 (`Gguf.WrappedTensorExists`). Below that limit sizes are exact (`Gguf.SizeIsExactUnlessItWraps`).
- Releasing a live group's reservation through the lease endpoint breaks the group
  (`ControlTheorems.ReleaseBreaksALiveGroup`). Releases are safe exactly for identifiers of no live
  group (`ControlTheorems.ReleaseIsSafeExactly`).
- A failed run can strand its session for good: a later stage that cannot be reached, a reply of
  stage 0 that is lost, or a frame given up on that arrives late
  (`PipelineTheorems.UnreachableStageStrandsSession`, `LostReplyStrandsSession`,
  `LateFrameStrandsSession`, `StuckForever`). Whatever else happens in between, the next undisturbed run
  succeeds exactly when no stage is ahead and no frame given up on can still be executed
  (`PipelineTheorems.SurvivalIsExact`). What the error tells about that: a failure behind stage 0 or
  over a mismatched reply strands the session, one at stage 0 does not, except that a missing answer
  leaves it open (`PipelineTheorems.ErrorTellsSurvival`).
- At its pending limit a pair cannot even complete the streams that wait: with a limit of one, no
  stream is ever paired (`RendezvousTheorems.LimitOfOneNeverPairs`). The second half joins exactly
  below the limit (`RendezvousTheorems.SecondHalfJoinsExactly`).
- When a status check must discard a part file and the removal fails, the next chunk is appended
  behind the stale bytes (`ModelCache.FailedRemovalBreaksThePrefix`). Uploads follow the source
  exactly when that does not happen (`ModelCache.SourceIsFollowedExactly`). The digest check still
  keeps a wrong file from becoming final, but the upload may then be reported as done for a lease of
  another size (`Upload.StalePartEndsWithWrongSize`); as long as removals work the size is right
  (`Upload.SuccessMeansSize`).
- Six header bytes of a frame are not read (`TensorWire.UnreadByteIsAccepted`). Accepted input is the
  encoding of its frame exactly when they are zero (`TensorWire.AcceptedInputIsCanonical`).
- A record that the connection does not take whole leaves the write counter where it was, so what is
  written after a failed write starts with the nonce of the failed record
  (`SecureConnTheorems.RetriedWriteRepeatsNonce`). In every run nonces are distinct exactly when no data is
  written after a failed write, up to 2^64 records (`SecureConnTheorems.NoncesNeverRepeat`).
- A failed group creation removes the reservations it made by their identifiers. It leaves exactly what
  the sweep left if and only if those identifiers were unused (`ControlServer.FailedCreationIsUndone`).

## Model

| member | source | states |
|---|---|---|
| Planner.SortCandidates | internal/distributed/planner.go:50-59 | the result is a permutation of the candidates in which nobody comes before a candidate with lower load, then greater capacity, then smaller ID |
| Prelude.StringLessMeans | internal/distributed/planner.go:58 | the order of IDs: at the first difference the smaller character, or the end, comes first |
| Planner.SortIsUnique | internal/distributed/planner.go:51-59 | two rankings of the same candidates are equal when equal IDs mean equal candidates, stable sort or not |
| Planner.SumRemainingWeights | internal/distributed/planner.go:104-107 | the sum of the remaining capacities, each counted as at least 1 |
| Planner.SumLayers | internal/distributed/planner.go:108-111 | the byte sum of a range of layers |
| Planner.SumOfOne | internal/distributed/planner.go:104-111 | a single layer counts its bytes, and a single candidate its capacity but at least 1 |
| Planner.SumBytesSplit | internal/distributed/planner.go:108-111 | byte sums of adjacent ranges add up |
| Planner.SumWeightsSplit | internal/distributed/planner.go:104-107 | and so do capacities |
| Planner.StopIsOptimal | internal/distributed/planner.go:115-122 | a local stop of the greedy walk is a global optimum over all allowed ends, because sizes are not negative |
| Planner.WalkToTarget | internal/distributed/planner.go:114-123 | the end reached minimises the distance from the stage's bytes to the target over all allowed ends, with ties decided uniquely |
| Planner.NearestEndIsUnique | internal/distributed/planner.go:114-123 | that optimum with its tie rule is one end only |
| Planner.OvershootIsBounded | internal/distributed/planner.go:115-122 | a stage of several layers overshoots its target by at most half of its last layer |
| Planner.ChooseLayerEnd | internal/distributed/planner.go:100-124 | the last stage takes everything left; any other stage takes the optimal end that leaves a layer for each later stage |
| Planner.CountNodes | internal/distributed/planner.go:63-78 | the least count from the minimum on whose combined weight covers the need, or the largest allowed count when none does |
| Planner.CutLayers | internal/distributed/planner.go:82-93 | one stage per node; each starts where the one before ended, holds at least one layer, ends optimally and carries the bytes of its layers |
| Planner.LinkStages | internal/distributed/planner.go:94-97 | the cuts are kept and every stage but the last names the next stage's node |
| Planner.PlanRanked | internal/distributed/planner.go:60-98 | for ranked candidates: exactly which error is returned and when, and otherwise the group size and every field of every stage |
| Planner.PlanLayers | internal/distributed/planner.go:29-98 | that outcome for a ranking of the given candidates |
| PlannerTheorems.PlanCoversOnce | internal/distributed/planner.go:82-93 | every layer belongs to exactly one stage |
| PlannerTheorems.PlanTakesTheBest | internal/distributed/planner.go:50-97 | in plain terms: the stages go in order to candidates of which no later one and none left out has lower load, then greater capacity, then smaller ID; the fewest that the limits and the size in MiB allow |
| PlannerTheorems.PlanFailsExactly | internal/distributed/planner.go:30-62 | in plain terms: exactly when each error before the memory check is returned, in their order |
| PlannerTheorems.TargetIsProportional | internal/distributed/planner.go:104-112 | the target is the stage's proportional share of the remaining bytes, rounded down |
| PlannerTheorems.PlanIsPartition | internal/distributed/planner.go:29-98 | a successful plan has between the effective minimum and maximum of non-empty contiguous chained stages that hold every layer once and whose bytes add up to the model |
| PlannerTheorems.PlanAddsUp | internal/distributed/planner.go:82-97 | for candidates in any order, the ranges follow each other and hold all bytes |
| PlannerTheorems.GroupSizeIsUnique | internal/distributed/planner.go:63-81 | the number of nodes taken is determined by the ranking and the limits |
| PlannerTheorems.OutcomeIsUnique | internal/distributed/planner.go:29-98 | PlanLayers's contract allows one outcome per ranking: it fixes the whole plan or the error |
| PlannerTheorems.PlanIgnoresCandidateOrder | internal/distributed/planner.go:50-97 | with distinct node IDs the outcome does not depend on the order of the candidates |
| PlannerTheorems.FirstTargetFitsItsNode | internal/distributed/planner.go:104-112 | the first stage's target never exceeds its node's MiB budget |
| PlannerTheorems.MemoryFailureIsExact | internal/distributed/planner.go:63-78 | a plan past the other checks fails for memory if and only if no allowed prefix of the ranking can hold the model, and for no other reason |
| PlannerTheorems.SpreadEvenly | internal/distributed/planner.go:16-24 | equal layers, the remainder of the division on the last, adding up to the model size |
| PlannerTheorems.SpreadIsUnique | internal/distributed/planner.go:16-24 | that description fits one list of layer sizes only |
| PlannerTheorems.PlanEvenly | internal/distributed/planner.go:16-26 | the planner's outcome for such a spread |
| Gguf.CountElements | internal/gguf/metadata.go:160-166 | the divided guard stops exactly when a dimension is zero or the true product does not fit in 64 bits |
| Gguf.ElementsOfOneMore | internal/gguf/metadata.go:160-166 | the element count is the product of the dimensions |
| Gguf.TensorStorageBytes | internal/gguf/metadata.go:159-183 | the divided overflow guards decide exactly on the true products: which error, or the size, with the block sum wrapping at 64 bits |
| Gguf.RefusalsAreExact | internal/gguf/metadata.go:160-177 | a tensor is refused for its dimensions exactly when one is zero or their product exceeds 64 bits, and then for its type exactly when the table lacks it |
| Gguf.WrappedBlocksAreExactUnlessTheyWrap | internal/gguf/metadata.go:178 | the wrapped division gives the least sufficient number of blocks if the sum fits in 64 bits, and 0 otherwise |
| Gguf.SizeIsExactUnlessItWraps | internal/gguf/metadata.go:178-182 | the accepted size is the rounded-up block size, or too large, if elements plus block minus 1 fits in 64 bits; otherwise the tensor is accepted as 0 bytes |
| Gguf.WrappedTensorExists | internal/gguf/metadata.go:178-182 | a concrete tensor of that kind |
| Gguf.BlockTensorsAreFound | internal/gguf/metadata.go:185-202 | a tensor named "blk.n.…" counts for layer n, for every n below the count and every suffix |
| Gguf.NumbersAreDecimal | internal/gguf/metadata.go:196 | layer numbers are read as decimal, with an optional sign |
| Gguf.LayersAreNamed | internal/gguf/metadata.go:185-202 | a tensor has a layer only if a marker in its name is followed by that number and a dot; without a marker it has none |
| Gguf.LongBlockTensorsAreFound | internal/gguf/metadata.go:185-202 | a tensor named "block.n.…" counts for layer n unless the shorter marker occurs in its name |
| Gguf.AddTensor | internal/gguf/metadata.go:111-116 | one tensor's bytes go to the total and to its layer or the non-layer bytes, in wrapping signed 64-bit sums |
| Gguf.MeasureAndAdd | internal/gguf/metadata.go:107-116 | one turn of the loop: the tensor's error, or the books with its bytes |
| Gguf.BookKeepsBooks | internal/gguf/metadata.go:111-116 | one more tensor keeps the books balanced modulo 2^64, and exact while the true total is below 2^63 |
| Gguf.BooksBalance | internal/gguf/metadata.go:101-117 | whatever the tensors, the books balance modulo 2^64 and are exact below 2^63 bytes |
| Gguf.BooksAreByLayer | internal/gguf/metadata.go:101-117 | below 2^63 bytes every layer's total is the sum of the sizes of the tensors named for it, and the non-layer bytes are those of the others |
| Gguf.Accumulate | internal/gguf/metadata.go:101-118 | the error of the first tensor that cannot be measured, or the books of all tensors; their layer and non-layer bytes balance the total, and below 2^63 every entry is exact |
| Gguf.SumOfBooks | internal/gguf/metadata.go:101-117 | per-layer sums and the non-layer sum of any list of tensors add up to its total |
| Gguf.ShareNonLayerBytes | internal/distributed/manager.go:73-80 | first and last layer share the non-layer bytes within one byte of each other, the sum is kept and inner layers are untouched |
| Gguf.BytesAreConserved | internal/distributed/manager.go:73-81 | below 2^63 bytes, file totals, planner input and planned stage bytes all equal the exact tensor bytes |
| Gguf.PlanFile | internal/distributed/manager.go:69-82 | the first tensor's error, or exactly the planner's outcome for the shared layer bytes; in a plan every byte of the file is in one of the contiguous stages |
| BigEndian.GetPut | internal/tensorwire/frame.go:40-48 | reading back a big-endian number of any width gives the number |
| BigEndian.PutDigit | internal/tensorwire/frame.go:40-47 | the most significant byte comes first |
| BigEndian.PutGet | internal/tensorwire/frame.go:72-94 | writing what was read gives the same bytes |
| BigEndian.PutAt | internal/tensorwire/frame.go:40-47 | the number's bytes are put at the position and the rest of the buffer is unchanged |
| TensorWire.WriteHeader | internal/tensorwire/frame.go:36-44 | the filled 40-byte buffer is the header of the frame |
| TensorWire.HeaderParts | internal/tensorwire/frame.go:36-44 | which bytes of the header hold which field |
| TensorWire.WritePayload | internal/tensorwire/frame.go:45-48 | the filled buffer is the big-endian payload of all values in order |
| TensorWire.WriteFrame | internal/tensorwire/frame.go:29-59 | which error for a short key or value count; otherwise the encoding is appended to the connection, or as much of it as a failing connection takes, and the error says so |
| TensorWire.SignatureCoversFrame | internal/tensorwire/frame.go:49-58 | the last 32 bytes are the MAC of everything before them |
| TensorWire.ReadValues | internal/tensorwire/frame.go:91-94 | the values of the payload in order |
| TensorWire.ReadFrame | internal/tensorwire/frame.go:61-96 | the decoding of the input: which error, or the frame and what is left behind it |
| TensorWire.FramesAreReadExactly | internal/tensorwire/frame.go:61-96 | byte by byte: exactly which input is accepted, and the frame holds the numbers at the fields' places |
| TensorWire.DecodeEncode | internal/tensorwire/frame.go:29-96 | reading a written frame returns that frame and consumes exactly 72 + 4n bytes, whatever follows |
| TensorWire.TruncatedFrameIsRefused | internal/tensorwire/frame.go:65-84 | no proper part of a frame that a failed write leaves behind is read as a frame |
| TensorWire.DecodeManyEncodeAll | internal/tensorwire/frame.go:29-96 | frames written back to back decode to the same list |
| TensorWire.AcceptedInputIsCanonical | internal/tensorwire/frame.go:61-96 | accepted input is the encoding of its frame if and only if header bytes 6, 7 and 36 to 39 are zero |
| TensorWire.UnreadByteIsAccepted | internal/tensorwire/frame.go:69-91 | a signed frame with header byte 6 set decodes to the frame without being its encoding |
| SecureConn.EndsAgree | internal/tunnel/crypto.go:31-65 | the two ends of a stream derive matching keys and labels for both directions, and the directions differ |
| SecureConn.WrapIsExact | internal/tunnel/crypto.go:31-55 | exactly when wrapping fails, and the associated data of either direction |
| SecureConn.LabelsAreDistinct | internal/tunnel/crypto.go:57-65 | key derivation labels of equally long pairs agree only for the same pair, stream and direction, whatever the stream ID contains |
| SecureConn.WriteCipherHasLabel | internal/tunnel/crypto.go:40-45 | the write cipher is derived from that label |
| SecureConn.NonceIsInjective | internal/tunnel/crypto.go:120-124 | different counters have different nonces |
| SecureConn.NonceHoldsCounter | internal/tunnel/crypto.go:120-124 | a nonce is four zero bytes and the counter |
| SecureConn.Chunks | internal/tunnel/crypto.go:71-73 | a write is cut into non-empty pieces, all of 65536 bytes but the last, that concatenate to the data |
| SecureConn.RecordMeans | internal/tunnel/crypto.go:74-83 | a record is its length in four bytes and the plaintext sealed under counter and label |
| SecureConn.Conn.constructor | internal/tunnel/crypto.go:50-54 | counters and buffer start empty |
| SecureConn.Conn.WriteRecord | internal/tunnel/crypto.go:74-84 | a length-prefixed record sealed under the current counter, as far as the connection takes it; the counter steps only if all of it was taken |
| SecureConn.ReadMeans | internal/tunnel/crypto.go:91-118 | for any wire: a read serves the buffer, or splits the plaintext its record opens to, or fails and leaves counter and buffer alone; a record that does not open is an authentication error and delivers nothing |
| SecureConn.Conn.Write | internal/tunnel/crypto.go:67-89 | the records of the chunks up to the first that is not taken whole; the count returned, the counter and the error agree with how many were |
| SecureConn.Conn.Read | internal/tunnel/crypto.go:91-118 | the buffer is served first; otherwise one record is fetched, checked, opened and split between caller and buffer; exactly which error otherwise, and the bytes fetched before a transport error are lost |
| SecureConn.SendAllFacts | internal/tunnel/crypto.go:71-87 | a write leaves whole records and behind them at most part of one |
| SecureConn.SendAllLog | internal/tunnel/crypto.go:74-84 | the cipher is used once per record tried, each time under the nonce of its place |
| SecureConnTheorems.FirstRecordOpens | internal/tunnel/crypto.go:97-117 | a written record passes the size check and opens to its plaintext, leaving the rest of the wire |
| SecureConnTheorems.StubWaits | internal/tunnel/crypto.go:97-108 | on part of a record a read waits and delivers nothing of it |
| SecureConnTheorems.SendKeeps | internal/tunnel/crypto.go:67-89 | a write of any size, cut short or not, keeps wire, counters and history consistent |
| SecureConnTheorems.ReceiveKeeps | internal/tunnel/crypto.go:91-118 | so does a read of any size, failing or not |
| SecureConnTheorems.StreamIsFaithful | internal/tunnel/crypto.go:67-118 | in every run that stops on errors, whatever the connection does: bytes delivered, then the read buffer, then the plaintext on the wire equal the bytes reported as written; the counters differ by the whole records in flight; a read errs only by waiting on an empty stream |
| SecureConnTheorems.OnlyOpenedIsDelivered | internal/tunnel/crypto.go:91-118 | whatever becomes of the wire between reads, what they deliver and then the buffer is the concatenation of plaintexts opened under successive counters |
| SecureConnTheorems.NewListenerIsGenuine | internal/tunnel/crypto.go:91-118 | from a new connection on, under the counters 0, 1, 2, … |
| SecureConnTheorems.NoncesNeverRepeat | internal/tunnel/crypto.go:74-84 | in every run, whatever cipher, connection and reader do, all uses of the cipher in a direction are under different nonces if and only if no data is written after a failed write and there are at most 2^64 of them |
| SecureConnTheorems.RetriedWriteRepeatsNonce | internal/tunnel/crypto.go:74-84 | a write of which nothing is taken and a second write seal two plaintexts under one nonce |
| Pipeline.ExecuteLayer | internal/stage/runtime.go:73-76 | in place, every value is replaced by the written-out formula of its layer, position and index |
| Pipeline.Execute | internal/stage/runtime.go:71-79 | in place, the composition of the layers in order |
| Pipeline.LayersCompose | internal/stage/runtime.go:71-79 | executing a range equals executing its two parts one after the other |
| Pipeline.SmallRanges | internal/stage/runtime.go:71-79 | no layers change nothing, and one layer is itself |
| Pipeline.Runtime.constructor | internal/stage/runtime.go:29-34 | a new runtime expects sequence 0 of every session |
| Pipeline.Runtime.Process | internal/stage/runtime.go:45-64 | a frame is executed exactly when its width and sequence fit and the backend does not fail, and then the session's expectation steps; otherwise which error, without a change |
| Pipeline.Session.CallStage | internal/stage/client.go:21-54 | one call under each kind of fault: unreachable, backend error, given up with the frame possibly still arriving, executed with the reply lost, answered for another frame |
| Pipeline.Session.RunStages | internal/distributed/session.go:26-37 | the loop over the stages stops at the first failure and steps the counter only after the last success |
| Pipeline.FailureNamesStage | internal/distributed/session.go:26-33 | a run that fails from some stage on names that stage or a later one |
| Pipeline.Session.Run | internal/distributed/session.go:19-38 | exactly when a session is refused; the new session and stage states and the result for any faults, with the stage an error names; the counter steps exactly on success; the caller's activation is unchanged |
| PipelineTheorems.RunEqualsSingleProcess | internal/distributed/session.go:25-37 | whatever fails or interferes, a run that returns values returns bit for bit those of one process executing all layers |
| PipelineTheorems.PlannedRunEqualsSingleProcess | internal/distributed/planner.go:82-93 | the same for runtimes built from any plan of the planner |
| PipelineTheorems.ProcessKeepsOrder | internal/stage/runtime.go:49-61 | whatever frame arrives, a stage has executed 0, 1, 2, … of each session, each once |
| PipelineTheorems.HistoryKeepsOrder | internal/stage/runtime.go:49-61 | so do all stages in every history of runs, late frames and other sessions |
| PipelineTheorems.LateKeeps | internal/stage/client.go:39-51 | a late frame is stale and refused, or executed by the first stage that is not yet ahead |
| PipelineTheorems.RunFromKeeps | internal/distributed/session.go:25-37 | a failed run leaves a prefix of the stages one frame ahead; a successful one leaves all in agreement |
| PipelineTheorems.FailureTellsPrefix | internal/distributed/session.go:30-33 | with nothing else going on, the stage named in the error tells which stages are one frame ahead: those before it, itself after a mismatched reply, and perhaps itself after a missing one |
| PipelineTheorems.HistoryKeepsPrefix | internal/distributed/session.go:25-37 | in every history some prefix of the stages expects next + 1 and the rest expect next |
| PipelineTheorems.StuckRunFails | internal/distributed/session.go:30-33 | with a non-empty prefix a run is refused outright or fails at stage 0, and changes nothing itself |
| PipelineTheorems.StuckForever | internal/distributed/session.go:25-37 | from then on every attempt of every history fails and the counter never moves |
| PipelineTheorems.QuietRunSucceedsExactly | internal/distributed/session.go:22-37 | an undisturbed run succeeds if and only if the session is usable, no stage is ahead and all widths match |
| PipelineTheorems.SurvivalIsExact | internal/distributed/session.go:25-37 | whatever happens elsewhere before it, the next undisturbed run of a usable session succeeds if and only if no stage is ahead and no frame given up on can still be executed |
| PipelineTheorems.ErrorTellsSurvival | internal/distributed/session.go:30-33 | a failure behind stage 0 or over a mismatched reply strands the session; one at stage 0 for a cause other than a missing answer is survived, whatever happens in between |
| PipelineTheorems.UnreachableStageStrandsSession | internal/distributed/session.go:30-36 | a session in agreement whose second stage cannot be reached is stranded with its first stage ahead |
| PipelineTheorems.LostReplyStrandsSession | internal/stage/client.go:43-47 | so is one whose stage 0 executes the frame and whose reply is lost, although the error names stage 0 |
| PipelineTheorems.LateFrameStrandsSession | internal/stage/client.go:39-47 | so is one whose frame is given up on and arrives after the run has failed |
| PipelineTheorems.QuietHistoryIsExact | internal/distributed/session.go:19-38 | undisturbed attempts all succeed, each with the single-process result |
| PipelineTheorems.FreshSessionIsConsistent | internal/distributed/session.go:12-17 | new stages and a new session satisfy the invariants |
| PipelineTheorems.EveryHistoryIsOrderly | internal/distributed/session.go:19-38 | in every history of a new session all stages execute each session in order, each frame once, and keep the prefix shape |
| Control.PreferenceIsStrictOrder | internal/control/server.go:171 | the comparison of nodes is a strict total order on distinct IDs |
| Control.BestIsUnique | internal/control/server.go:158-176 | at most one node is the eligible minimum |
| Control.SweepMeans | internal/control/server.go:339-350 | at a clock reading exactly the entries that expire later stay, as they were |
| Control.GrantMeans | internal/control/server.go:192-196 | a lease adds its own reservation to what the sweep leaves |
| Control.DropMeans | internal/control/server.go:300-307 | dropping a group takes it and its reservations and nothing else |
| Control.RenewMeans | internal/control/server.go:317-330 | a group that has not expired, and its reservations, go on for fifteen minutes; everything that has expired goes |
| Control.EligibleMeans | internal/control/server.go:160-169 | in plain terms: which nodes may take a lease and which may join a group |
| Control.PreferredMeans | internal/control/server.go:170-171 | in plain terms: smaller part of its limit in use, then more free memory on one GPU, then smaller ID |
| Control.LeaseGoesToTheBest | internal/control/server.go:158-181 | the selected node can serve the lease and is a better choice than every other node that can |
| Control.CandidatesMean | internal/control/server.go:238-246 | the candidates are exactly the nodes that can join, each with its free GPU memory or else its memory, and its load |
| Control.AvailableVram | internal/control/server.go:404-412 | the largest free memory of one GPU, and 0 without any |
| Control.LeaseTtl | internal/control/server.go:381-394 | never below the configured time, never raised past six hours, and otherwise enough for an upload at 512 KiB per second and ten minutes more |
| Control.LeaseExpiry | internal/control/server.go:186-195 | the reservation ends with its token, issued at its own clock reading and in whole seconds, or after fifteen minutes if that is earlier |
| ControlServer.CheckRegistration | internal/control/server.go:75-115 | exactly which registrations are refused and what defaults an accepted one gets |
| ControlServer.Server.Register | internal/control/server.go:73-120 | exactly which registrations are refused; an accepted one is stored under its own non-empty ID with a limit of at least 1 |
| ControlServer.Server.ExpireReservations | internal/control/server.go:339-350 | exactly the reservations and groups that expire after now stay, as they were |
| ControlServer.Server.ReservedForNode | internal/control/server.go:371-379 | the number of reservations on the node |
| ControlServer.Server.Compare | internal/control/server.go:160-175 | one turn of the selection loop takes the node if it is eligible and preferred |
| ControlServer.Server.SelectNode | internal/control/server.go:158-181 | in any iteration order the result is the eligible node preferred to all others; none is chosen if and only if none is eligible |
| ControlServer.Server.GrantLease | internal/control/server.go:139-199 | exactly which requests are refused; after the sweep, one reservation on the best node with its expiry, or an error that changes nothing more |
| ControlServer.Server.ReleaseLease | internal/control/server.go:201-215 | only that reservation goes |
| ControlServer.Server.CollectCandidates | internal/control/server.go:238-246 | in any iteration order, exactly the eligible nodes, each once, with capacity and load |
| ControlServer.Server.PlanStages | internal/control/server.go:247-263 | the planner's outcome for the request's layers, or for an even spread of its size |
| ControlServer.Server.PlanGroup | internal/control/server.go:238-263 | the planner's outcome over exactly the eligible nodes |
| ControlServer.Server.ReserveStages | internal/control/server.go:270-289 | all reservations are made, or the table is left without the identifiers used so far |
| ControlServer.Server.IssueGroup | internal/control/server.go:264-290 | exactly when tokens and identifiers make a group of a plan, and the state in either case |
| ControlServer.Server.CreateGroup | internal/control/server.go:217-293 | which error each failing check gives; otherwise the planner's outcome over the eligible nodes decides: its error, or an issuing error exactly when an identifier or token fails, or the group with one reservation per stage; the exact state after each |
| ControlServer.Server.ReleaseGroup | internal/control/server.go:295-310 | the group and all its reservations go together |
| ControlServer.Server.RenewDistributedGroup | internal/control/server.go:312-337 | succeeds exactly for a group on record that expires after now; it and its reservations get one new expiry, and everything expired goes |
| ControlServer.ReserveIsUndone | internal/control/server.go:278-281 | undoing the first n reservations removes their identifiers and nothing else |
| ControlServer.FailedCreationIsUndone | internal/control/server.go:278-285 | a failed creation leaves what the sweep left if and only if its nonces were unused |
| ControlServer.ClaimsAreCheckedExactly | internal/auth/token.go:26-29 | which stage claims are refused |
| ControlServer.PlannedStagesAreValid | internal/auth/token.go:26-29 | the stage token check never refuses a planned range |
| ControlTheorems.GroupAddsOneEach | internal/control/server.go:272-289 | a group adds exactly one reservation on each of its nodes and none elsewhere |
| ControlTheorems.CreationMeans | internal/control/server.go:270-290 | a created group is on record with one reservation per stage on its node, beside what the sweep leaves |
| ControlTheorems.GroupIsWithinLimits | internal/control/server.go:230-258 | a group has as many stages as the request allows, with its defaults, over exactly its layers and bytes |
| ControlTheorems.StepKeepsCaps | internal/control/server.go:104-350 | every registration, sweep, grant, release, creation and renewal that can happen keeps every node within its cap |
| ControlTheorems.StepKeepsInvariant | internal/control/server.go:73-350 | every such step with fresh identifiers that releases no live group's reservation as a lease keeps groups whole too |
| ControlTheorems.GroupsAreAtomic | internal/control/server.go:270-350 | in every run, a group ever created is on record if and only if all its reservations are held, then with its own expiry; otherwise none is |
| ControlTheorems.ReservationsAreCapped | internal/control/server.go:104-350 | in every run, with any identifiers and any releases, a node's reservations never exceed the largest limit it has registered |
| ControlTheorems.ReleaseIsSafeExactly | internal/control/server.go:201-215 | releasing an identifier as a lease keeps all groups whole if and only if it belongs to no live group |
| ControlTheorems.ReleaseBreaksALiveGroup | internal/control/server.go:201-215 | two registrations and a creation lead to a live group, and releasing one of its reservations leaves it with the other |
| ControlTheorems.GoneGroupsStayGone | internal/control/server.go:295-350 | in every run, a group that has expired or been released never comes back, nor does any of its reservations: no renewal or other step revives it |
| ControlTheorems.ExpiredGroupsNeverReturn | internal/control/server.go:312-350 | once any step's clock has passed a group's expiry, neither the group nor any of its reservations is on record again in any run |
| ControlTheorems.RegistrationIsAllowed | internal/control/server.go:104-118 | an accepted registration is a step of the run |
| ControlTheorems.GrantIsAllowed | internal/control/server.go:156-196 | a lease on the selected node is a step of the run |
| ControlTheorems.PlannedNodesHaveRoom | internal/control/server.go:238-263 | the nodes of a planned group are distinct and each has room for one more reservation |
| ControlTheorems.CreateIsAllowed | internal/control/server.go:236-290 | a created group is a step of the run |
| ControlTheorems.GroupOutcomeIsDetermined | internal/control/server.go:238-263 | the state and the request determine the plan or its error, in whatever order the node map is iterated |
| Rendezvous.KeyIsInjective | internal/tunnel/relay.go:180 | a stream key determines pair and stream, because authentication fixes the pair's length |
| Rendezvous.KeysOfArePairs | internal/tunnel/relay.go:243-252 | the prefix scan counts exactly the streams of the pair |
| Rendezvous.Relay.constructor | internal/tunnel/relay.go:74-88 | an empty table with the configured or default limit |
| Rendezvous.Relay.PendingForPair | internal/tunnel/relay.go:243-252 | the number of keys with the pair's prefix, in any iteration order |
| Rendezvous.Relay.EnterStream | internal/tunnel/relay.go:175-217 | the whole new table and the outcome of the lock-held region: refused, waiting or paired |
| Rendezvous.Relay.RemoveStream | internal/tunnel/relay.go:271-277 | only a record that holds the connection is removed |
| Rendezvous.Relay.ExpireStream | internal/tunnel/relay.go:254-269 | only the record the timer was started for is removed, and exactly its connections are to be closed |
| RendezvousTheorems.NextKeepsInvariant | internal/tunnel/relay.go:175-277 | every step of every handler keeps: exactly one side filled in each waiting record, and sides, handlers and starters matching their records |
| RendezvousTheorems.InvariantHolds | internal/tunnel/relay.go:175-277 | so does every interleaving |
| RendezvousTheorems.WaitingRecordsAreOneSided | internal/tunnel/relay.go:187-217 | in every interleaving, a waiting record has exactly one side filled whenever the mutex is free |
| RendezvousTheorems.FirstHalfWaitsExactly | internal/tunnel/relay.go:176-217 | in every interleaving, a first half gets a record of its own, on its own side, exactly when stream, target and limit allow; otherwise the table stays |
| RendezvousTheorems.TwoHalvesMeet | internal/tunnel/relay.go:187-217 | in every interleaving in which the pair has room, two new halves of one stream end as a pairing of exactly those two |
| RendezvousTheorems.TakenBackHalvesAreGone | internal/tunnel/relay.go:271-277 | a handler that takes its half back leaves no waiting record with it |
| RendezvousTheorems.PairingsMatch | internal/tunnel/relay.go:187-216 | in every interleaving, a pairing joins one requester and one provider of the same pair, stream and target |
| RendezvousTheorems.ConnectionsJoinOnce | internal/tunnel/relay.go:197-211 | in every interleaving, a connection is part of at most one record |
| RendezvousTheorems.OneHandlerRelays | internal/tunnel/relay.go:212-240 | in every interleaving, at most one handler relays a pairing, which is complete and out of the table |
| RendezvousTheorems.OldTimersAreHarmless | internal/tunnel/relay.go:254-269 | a record that left the table never returns, and its timer never removes a newer stream under the same key |
| RendezvousTheorems.ExpiredHalvesNeverPair | internal/tunnel/relay.go:254-269 | a half whose stream expired is never paired or relayed by anything that comes after |
| RendezvousTheorems.SecondHalfJoinsExactly | internal/tunnel/relay.go:181-216 | in every interleaving, the second half completes a stream if and only if role, target and pending limit allow it |
| RendezvousTheorems.LimitOfOneNeverPairs | internal/tunnel/relay.go:182-187 | with a limit of one, no run pairs anything |
| RendezvousTheorems.LimitHolds | internal/tunnel/relay.go:182-191 | in every interleaving no pair has more waiting streams than its limit |
| Admission.Relay.constructor | internal/tunnel/relay.go:64-88 | zero counters and the configured or default limits |
| Admission.Relay.AcquireConnection | internal/tunnel/relay.go:320-329 | admits below both limits, and then counts once in total and once for the IP |
| Admission.Relay.ReleaseConnection | internal/tunnel/relay.go:331-339 | uncounts both, deleting a counter that reaches zero |
| Admission.Relay.AcquirePair | internal/tunnel/relay.go:341-349 | joins below the pair's limit and counts once |
| Admission.Relay.ReleasePair | internal/tunnel/relay.go:351-358 | uncounts, deleting a counter that reaches zero |
| Admission.NextIsExact | internal/tunnel/relay.go:96-123 | every admission, wrap and close keeps all counters exact and within limits |
| Admission.SumIsTotal | internal/tunnel/relay.go:320-339 | per-key counters add up to the number of open connections |
| Admission.CountersAreExact | internal/tunnel/relay.go:48-123 | on every run from an empty relay: each counter is the number of its unclosed connections, none is kept at zero or below, no limit is exceeded, and the per-IP counters add up to activeConnections |
| Admission.AdmissionIsExact | internal/tunnel/relay.go:320-349 | in every run a connection is admitted exactly below both limits, and joins its pair exactly below the pair's |
| ModelCache.Store.StatusUnlocked | internal/modelcache/store.go:93-125 | the new files and the reply for every state and every I/O failure; other digests are untouched |
| ModelCache.Store.Status | internal/modelcache/store.go:31-38 | the same behind the digest and size check |
| ModelCache.Store.CopyChunk | internal/modelcache/store.go:56-88 | the files and the reply once the offset is right, through broken copies |
| ModelCache.Store.FinishAppend | internal/modelcache/store.go:66-87 | truncation, verification and renaming after the copy |
| ModelCache.Store.Append | internal/modelcache/store.go:40-88 | the whole call, with its argument checks and any failures; other digests are untouched |
| ModelCache.LeaseIsCheckedExactly | internal/modelcache/store.go:139-145 | a digest is 64 hexadecimal characters and a size is positive |
| ModelCache.AppendMeans | internal/modelcache/store.go:40-88 | an upload to an incomplete model: which are refused without a trace, what is added, and when the whole becomes final or is thrown away |
| ModelCache.FailuresAreReported | internal/modelcache/store.go:57-84 | a failed open, copy, close or rename is reported, and what had been added stays |
| ModelCache.StatusMeans | internal/modelcache/store.go:104-124 | what a status check finds in an incomplete model and makes of a long enough part file |
| ModelCache.StatusFailuresAreReported | internal/modelcache/store.go:95-124 | a failed look at a file or rename is reported and changes nothing |
| ModelCache.FinishedFilesAreServed | internal/modelcache/store.go:95-100 | a complete model is left alone, and refused under another size |
| ModelCache.FinalFilesAreSoundAndStable | internal/modelcache/store.go:77-87 | over all calls by anyone with any failures, a final file hashes to its digest and never changes |
| ModelCache.UploadFollowsSource | internal/modelcache/store.go:49-87 | one upload of a piece of the source leaves both files prefixes of the source |
| ModelCache.FilesFollowSource | internal/modelcache/store.go:40-125 | so do all runs, through interrupted copies, oversize chunks and leases naming another size |
| ModelCache.SourceIsFollowedExactly | internal/modelcache/store.go:104-120 | for a lease and a state, every upload keeps the prefixes if and only if the status check does not leave behind a part file that it reports as discarded |
| ModelCache.FailedRemovalBreaksThePrefix | internal/modelcache/store.go:117-120 | a concrete upload after a failed removal |
| ModelCache.ReadyMeansWholeSource | internal/modelcache/store.go:104-116 | a Ready status for the right size means the whole source is in the final file |
| Upload.GetStatus | internal/proxy/server.go:418-438 | the host's files and the answer for every exchange, with either message lost and any file failure; other digests are untouched |
| Upload.PutChunk | internal/proxy/server.go:370-398 | the host's files and the answer for every upload, with either message lost, a source shorter than promised and any file failure |
| Upload.StepUnderWay | internal/modelcache/store.go:49-87 | the host's side of that step |
| Upload.SendChunks | internal/proxy/server.go:369-403 | the files, the result and the number of uploads of the loop, for any exchanges |
| Upload.EnsureModel | internal/proxy/server.go:354-404 | the files, the result and the number of uploads of a whole attempt, for any exchanges and whether or not the source file opens |
| Upload.EarlyEndsAreExact | internal/proxy/server.go:357-367 | a lost or refused status, a finished model or a source that does not open ends the attempt with exactly that result and no upload |
| Upload.SuccessMeansCached | internal/proxy/server.go:354-404 | for every course of events, success means a final file with the lease's digest |
| Upload.SuccessMeansSize | internal/proxy/server.go:354-404 | and of the lease's size, if removals work |
| Upload.SuccessMeansSource | internal/proxy/server.go:354-404 | and, for the source's own lease, the source itself unless a finished file was there before |
| Upload.StalePartEndsWithWrongSize | internal/modelcache/store.go:117-120 | a concrete upload after a failed removal that ends Ready with a file of another size |
| Upload.LoopIsBounded | internal/proxy/server.go:369-399 | with any host whatever, the loop sends no more chunks than bytes are missing, since it goes on only after an answer that raised the offset |
| Upload.UploadsAreBounded | internal/proxy/server.go:354-404 | so a whole attempt sends no more chunks than the lease has bytes |
| Upload.UndisturbedUploadIsExact | internal/proxy/server.go:354-404 | an undisturbed attempt ends Ready with the source cached after exactly ceil(missing / chunk) uploads if the host takes such chunks, and is refused at the first upload if not |
| Upload.AttemptKeepsResumable | internal/proxy/server.go:354-404 | however an attempt is disturbed, the next one can go on from the files it leaves |
| Upload.UploadsResume | internal/proxy/server.go:354-404 | after any number of disturbed attempts on an empty cache, an undisturbed one ends Ready with the whole source after exactly ceil(missing / chunk) uploads |
| HostTasks.ActKeepsExact | internal/host/server.go:252-262 | every load, compare-and-swap and release keeps the counter equal to the chats in flight and within the limit |
| HostTasks.ActiveTasksAreExact | internal/host/server.go:203-262 | so does every interleaving |
| HostTasks.AdmissionIsExact | internal/host/server.go:252-262 | a request nobody interferes with gets its chat exactly below the limit, and finishing gives the place back |
| HostTasks.LostRaceStartsOver | internal/host/server.go:258-260 | a swap fails exactly when the counter has changed, and then the request starts over |
| HostTasks.NewHostIsExact | internal/host/server.go:94-96 | a new host starts so, with a limit of at least 1 |
| HostTasks.RegistrationsAreInRange | internal/control/server.go:104-110 | the registration a host sends at any time passes Control's check of active tasks against the limit |

## Left out

- PlanLayers: sums and products are mathematical integers; the program's 64-bit ones agree while remaining bytes times a capacity stay below 2^63. The in-place sort of a copied slice is modelled on a sequence.
- ShareNonLayerBytes: its two additions are mathematical integers, which agree with the program's when the total is below 2^63.
- LeaseTtl: the duration is a mathematical integer; the program's wraps for sizes of more than about 4.8 petabytes.
- Load is an exact fraction and not a rounded float64, so loads that differ only by rounding are ordered by their true values.
- Float32 operations are arbitrary functions shared by all stages. Nodes whose compilers fuse multiply and add differently are outside the claim.
- HistoryKeepsPrefix: stated for fewer than 2^64 - 2 successful runs of a session, because the sequence number wraps after that; failed runs and other events are not counted. HistoryKeepsOrder has no such bound.
- StuckForever: the session's own sequence number is below 2^64 - 2, for the same reason.
- Conn.Read: a read that would wait for more bytes returns WouldBlock and changes nothing.
- StreamIsFaithful: what a reader gets from a connection that failed it in the middle of a record, or that was written to after a failed write, is not claimed; the runs it speaks of stop on errors.
- ExpireStream: the program closes the two counted connections while it holds the relay's mutex, and those closes take the mutex again. The model removes the record in this step and closes the connections in later ones.
- Relay control connections appear only as the presence of a peer; the handshake, authentication, relayed bytes and statistics are not modelled, nor is it claimed that every control entry has a live handler.
- Liveness of pending streams: at the pending limit the second half is refused as well, which SecondHalfJoinsExactly states.
- Register: whether the caller is authorized, and the scope a node credential imposes, are inputs.
- GrantLease: the token's nonce, or the failure to issue it, is an input, and so are the clock readings. Token contents and the lifetime of group tokens against their reservations are not modelled.
- Listing nodes, HTTP, JSON and TLS of all servers.
- That each stage fits its own node's memory, or that reservations stay within a limit lowered later: the program checks neither.
- Accumulate: starts from parsed tensor infos; reading GGUF strings, metadata values and dimension counts is not modelled.
- The tensor split passed to llama.cpp, child processes, health checks and group renewal timers of the distributed manager.
- EnsureModel: the lock maps of store and proxy, and other proxies uploading the same digest between two requests; the store's own theorems allow any callers.
- UploadsResume: the host does not both fail to verify a complete part file and fail to remove it in one status check, the case SourceIsFollowedExactly is about.
- CallStage: a reply that names the right session, sequence and position is taken to be the stage's own, since it is authenticated.
- Process: a remote stage that refuses a frame closes the connection, so its client sees no cause; the model keeps the cause, as a local client does.
- Argument checks of NewRuntime, and sessions with a missing stage client, which fail like an unreachable stage.
- Command-line programs, runtime management, hardware detection, request routing of the proxy, scripts and container files: they start processes, call foreign code or pass values on, and keep no state of their own that a law could be about.

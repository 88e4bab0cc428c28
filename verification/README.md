# Verified model of the TFP core

TFP moves content between nodes that hear each other badly: payloads travel as rateless fountain
droplets over lossy radio frames and a gossiping mesh, archives are updated by content-defined delta
patches, and signed bulletins are admitted under revision watermarks. This project models that core and
proves what the parts promise, for all inputs and over whole runs.

Each component has one module with its behaviour as functions on values. Code that works step by step
is a method, or a class whose methods update its fields, and its contract equates the result or the new
state with that function. The properties are lemmas about the functions and invariants of the state
machines.

| component | modules |
|---|---|
| GF(2) fountain codec | BitXor, Gf2, GaussJordan, Fountain, FountainDecoding, FountainEncoding, FountainCodec, DropletWire |
| transport channel and radio broadcast | DropletStore, TransportChannel, Slip, Meshtastic, Broadcast |
| chunking, recipes, publish and fetch | Cdc, GearWindow, Digests, Recipes, Fetch |
| delta patches | StreamChunks, ZimPatch, ZimRoundTrip, ZimRecords, ZimAccepted, ZimDelta |
| bulletins | BulletinIdentity, BulletinContent, Bulletins, BulletinSafety, BulletinReopen, BulletinRuns, BulletinServing, BulletinNode |
| mesh | Gossip, GossipRound, Swarm, SwarmMesh |
| proofs of inclusion and rate limiting | MerkleShape, Merkle, MerkleHex, RateLimit |
| mnemonics | Mnemonic |

Bytes, Wrappers and Sets hold what all of them share. Slip follows the section PROTOCOL of RFC 1055, and
Mnemonic the section "Generating the mnemonic" of BIP-39.

## Conventions

- Hashes, the keyed hash of the seed schedule, the seeded index sampler, the gear table, the public-key
  check, white space and the word list are parameters. Nothing assumes a hash to be injective: where
  a result needs it, the theorem says that the result holds or that a named pair of strings, both hashed on
  the way, collides.
- Python integers are integers; the places where the code masks, truncates or packs to a width say so.
  Clock readings, redundancies and token counts are reals.
- Errors are results. A method that raises in the original returns a failure and leaves the state as the
  original leaves it.
- A set or table that the original walks in an unspecified order is walked in an arbitrary order here.
  Random draws, losses, read sizes, delivery orders and clock readings are arbitrary too.
- The database is the bulletin, watermark and content tables, with atomic commit. SQL upserts are per-key joins, and a failed
  transaction changes nothing.

## Where the code and its description differ

- The seed schedule is described as returning seeds from the block count up to 2^32 - 2. It does so exactly
  while the block count is below 2^32 - 1; at that count it divides by zero and above it seeds
  fall below the block count (FountainEncoding.ScheduleRangeIff).
- The admission filter is described as keeping polluted droplets out. It takes a root and a nonce but uses
  neither, and no payload: what it lets through is genuine exactly if it agrees with the payload
  (AdmittedGenuineIff), and one droplet that does not displaces a genuine one and makes decoding fail
  (PollutionDisplaces). ChannelExact and ChannelNeverLies state what still holds.
- A broadcast of no data never completes at the listener (EmptyNeverCompletes).
- The broadcaster repeats its manifest for receivers that join late. One that joins between two frames hears
  all that follow (JoinBetween); one that joins inside a frame takes END bytes in the wrong pairs from then on
  and hears nothing of the broadcast (JoinInside).
- Publishing more than 65536 blocks raises after chunks, recipe and droplets were stored (SerializeIff).
- A patch can be created that cannot be applied: metadata whose keys print alike give a header with a
  duplicate field, which the reader refuses (PatchRoundTrip, KeysPrintAlike).
- A recipe may carry negative sizes and still validate. Its slices then need not spell out what fetch
  returns; FetchTiledIff gives the exact condition and OverlappingSlices an instance. Fetching published
  content is not affected (FetchPublished).
- A known revision below the watermark is reported stale, although on the full history it is a duplicate
  or a conflict (AdmissionRefinesHistory); any two stores lead there (ForgottenReached).
- The last decoding attempt of a swarm fetch, behind the five sweeps, runs on the droplets the last sweep
  already failed on and cannot succeed (asserted in SwarmMesh.SwarmNetwork.Sweeps).
- A bulletin's receipt time is read before the admission lock is taken, so prune order follows revision
  order only when those times are in admission order (PruneOrderIff, PruneDropsLowerFirst, ClockSetBack).
- A watermark table from before titles were kept gets no title for a bulletin whose display row was pruned.
  The authentic replay then conflicts, and the content under the bulletin's name is taken instead
  (ReplayOfNewest, TitleForgotten).
- A displayed row whose content the node does not have makes every submission of its publisher at the
  watermark's revision raise, an authentic replay included (AtWatermarkOutcome, ContentForgotten). Runs from
  an empty database, or from one such a run left, get there only if strings they hashed collide (RunRaises).
- A database does not open while a bulletin's newest display row lacks its digest or root, and a prune can
  make that row the newest (BulletinNode.Open, PruneBlocksOpening).
- The rate limiter reads the clock before it creates a new client's record, so the first refill takes tokens
  away, more than there are exactly under the condition of NewClientIff (NewClientInDebt).

## Model

| member | source | states |
|---|---|---|
| Gf2.ReduceSolves | tfp_core_v4/fountain.py:345-378 | Swapping rows and clearing columns neither loses nor invents a solution of the droplets' equations, from any column on. |
| Gf2.ReduceEchelon | tfp_core_v4/fountain.py:345-378 | What elimination leaves is reduced echelon form: each pivot column is a unit column and the rows below the last pivot are zero on the columns done. |
| Gf2.RankTheorem | tfp_core_v4/fountain.py:345-383 | Elimination of k unknowns finds k pivots exactly when the equations determine their unknowns, that is, have no nonzero kernel vector. |
| Gf2.ReduceKernel | tfp_core_v4/fountain.py:345-383 | Reducing keeps the kernel: a vector is in the kernel of the equations exactly when it is in that of the reduced ones. |
| Gf2.FullRankSolution | tfp_core_v4/fountain.py:385-391 | After k pivots every solution of the reduced system has its right-hand sides as the unknowns, in order. |
| Gf2.TooFewEquations | tfp_core_v4/fountain.py:304-307 | Fewer than k equations never determine k unknowns, so the early exit raises no error elimination would not raise. |
| Gf2.KernelBitPlane | tfp_core_v4/fountain.py:358-371 | A nonzero vector of whole symbols in the kernel has a nonzero bit plane in the kernel: ranks over symbols and over bits agree. |
| Gf2.AmbiguousIffKernel | tfp_core_v4/fountain.py:380-383 | Given one solution, a different one exists exactly when some nonzero 0/1 vector is in the kernel. |
| GaussJordan.Eliminate | tfp_core_v4/fountain.py:345-378 | The in-place loops over the two parallel tables, with their swap, row and column scans and early stop, end in the elimination function of the initial system, and the pivot map names its columns. |
| GaussJordan.UsePivot | tfp_core_v4/fountain.py:359-374 | One pivot: both tables are swapped together and the column is cleared in every other row. |
| BitXor.XorBit | tfp_core_v4/fountain.py:233-236 | Each bit of a combined symbol is the exclusive-or of the bits of the two symbols. |
| BitXor.XorBound | tfp_core_v4/fountain.py:233-236 | Combining n-byte symbols gives an n-byte symbol, so writing it back never overflows. |
| FountainDecoding.RankErrorIff | tfp_core_v4/fountain.py:302-383 | For arbitrary droplets, consistent or not, a rank error is raised exactly when the usable equations do not determine k unknowns. |
| FountainDecoding.SolvedFits | tfp_core_v4/fountain.py:385-388 | Whatever the droplets say, every word elimination solves for fits its symbol, so writing it out never overflows. |
| FountainDecoding.RecoveredExact | tfp_core_v4/fountain.py:309-391 | On droplets consistent with a source the systematic fast path and elimination both return that source. |
| FountainDecoding.SystematicFullRank | tfp_core_v4/fountain.py:309-322 | When the fast path applies the droplets have full rank, so it never hides an ambiguity. |
| FountainDecoding.DecodeExact | tfp_core_v4/fountain.py:267-404 | If some source explains every usable droplet, decoding raises the rank error exactly when a second source explains them too, and otherwise returns that source cut to the original length, subject to the root check. |
| FountainDecoding.DecodeOrderInsensitive | tfp_core_v4/fountain.py:283-404 | Two lists with the same usable droplets, in any order and with any repetition, that some source explains decode alike but for which of the two rank errors is raised. |
| FountainDecoding.DecodeIntegrity | tfp_core_v4/fountain.py:323-335 | Whatever was received, a returned payload has the configured digest, and the integrity error occurs only with a configured root. |
| FountainDecoding.DecodeLength | tfp_core_v4/fountain.py:322-324 | A returned payload has the declared length, or all k symbols if that is less. |
| FountainDecoding.UnvalidatedDecode | tfp_core_v4/fountain.py:283-299 | With the filter switched off a root only decides whether what is decoded without a root is returned or refused. |
| FountainDecoding.SystematicMapFirst | tfp_core_v4/fountain.py:309-316 | Of several systematic copies of a symbol, polluted ones included, the first is taken. |
| FountainCodec.Decode | tfp_core_v4/fountain.py:267-404 | The decoder's loops (filter, systematic table, row building, elimination, assembly) compute the decoding function and change nothing they were given. |
| FountainCodec.BuildRow | tfp_core_v4/fountain.py:338-343 | Setting bits for the listed indices, dropping those at or above k, builds the row whose ones are exactly the listed columns. |
| FountainEncoding.JoinSource | tfp_core_v4/fountain.py:186-195 | Padding, splitting and joining the source symbols gives the payload back. |
| FountainEncoding.DotIndices | tfp_core_v4/fountain.py:229-236 | Combining symbols one by one over distinct indices is the product with the row the decoder builds from them. |
| FountainEncoding.EncodedExplained | tfp_core_v4/fountain.py:205-245 | Every emitted droplet is one symbol wide and satisfied by the source, whatever redundancy, root and nonce. |
| FountainEncoding.ScheduleRangeIff | tfp_core_v4/fountain.py:67-79 | The promise that derived seeds are at least k and below 2^32 - 1 holds, for every keyed hash, exactly when the block count is below 2^32 - 1. |
| FountainEncoding.SchedulePrefix | tfp_core_v4/fountain.py:67-79 | A longer seed schedule under the same root and nonce continues a shorter one. |
| FountainEncoding.EncodedPrefix | tfp_core_v4/fountain.py:197-245 | Raising the redundancy only appends droplets. |
| FountainEncoding.EncodedCoherent | tfp_core_v4/fountain.py:107-128 | A droplet is determined by payload, symbol size and seed alone, and every emitted droplet passes the admission filter. |
| FountainEncoding.AnyLossRoundTrip | tfp_core_v4/fountain.py:174-404 | From any subset, order, repetition and mixture of droplets of one payload, decoding returns the payload exactly when they have full rank and a rank error otherwise. |
| FountainEncoding.EncodedFullRank | tfp_core_v4/fountain.py:205-245 | A complete encoding always has full rank. |
| FountainEncoding.EncodedCount | tfp_core_v4/fountain.py:185-198 | A nonempty payload gets as many blocks as cover it, and as many droplets as the least number that is no less than those and than the multiple the redundancy asks for. |
| FountainEncoding.EncodedSource | tfp_core_v4/fountain.py:188-212 | The first droplets are numbered in order and carry the blocks of the payload, padded with zero bytes, byte for byte. |
| FountainEncoding.EncodedRepair | tfp_core_v4/fountain.py:67-79 | A repair droplet combines the sample of its seed, which is its position without a root, and under a root the block count plus the number in the first four bytes of the keyed hash of the position, modulo the distance from the block count to 2^32 - 1. |
| FountainEncoding.FilterIs | tfp_core_v4/fountain.py:108-129 | The filter compares degree and indices, where given, with the one equation the seed stands for, and refuses negative seeds. |
| FountainEncoding.UsableFollows | tfp_core_v4/fountain.py:287-300 | Under a root the decoder keeps exactly the droplets of one symbol's width whose equation is that of their seed. |
| FountainEncoding.ForgedEquationsIgnored | tfp_core_v4/fountain.py:283-404 | Forged equations are ignored: under a root that names the payload, if no droplet that follows its seed is polluted, decoding returns the payload exactly when the genuine droplets have full rank and else raises a rank error, whatever the other droplets are. |
| FountainCodec.Encode | tfp_core_v4/fountain.py:174-247 | The encoder's loops emit exactly the specified droplets, with block count and length; the seed schedule's division by zero is the only failure. |
| FountainCodec.DeriveRepairSeedSchedule | tfp_core_v4/fountain.py:38-79 | The schedule loop computes the specified seeds, with Python's modulo and the division by zero at 2^32 - 1 blocks. |
| Fountain.FloorModIs | tfp_core_v4/fountain.py:78 | The remainder of the schedule is Python's for a divisor of either sign. |
| DropletWire.SerializeRoundTrip | tfp_core_v4/fountain.py:142-156 | A droplet that serializes is read back unchanged. |
| DropletWire.DeserializeRoundTrip | tfp_core_v4/fountain.py:142-156 | A buffer that parses is the serialization of what it parses to. |
| DropletWire.WireLayout | tfp_core_v4/fountain.py:142-147 | A droplet packs exactly if its fields fit 32 and 16 bits, and then into seed, degree, index count and indices at their offsets, least significant byte first, and the payload. |
| TransportChannel.TransportFountainChannel.AdmitDroplet | tfp_transport/fountain.py:53-78 | A droplet is stored, replacing one of its seed, exactly when its width and its seed's equation are right; every other one is counted as rejected, and the count is that of all so far. |
| TransportChannel.TransportFountainChannel.Decode | tfp_transport/fountain.py:80-91 | Decoding is the decoder under the channel's root on what was admitted, and fails for want of droplets while fewer than k are held. |
| TransportChannel.FilterIgnoresPayload | tfp_core_v4/fountain.py:82-131 | Whether a droplet passes the filter does not depend on what its payload says, only on its width. |
| TransportChannel.AdmissibleIff | tfp_transport/fountain.py:60-75 | Droplets are admitted exactly if they are one symbol wide and have the equation their seed stands for. |
| DropletStore.PutPlace | tfp_transport/fountain.py:77 | Writing a droplet under its seed keeps the place of the entry it replaces, and puts a new one last. |
| TransportChannel.AdmittedGenuineIff | tfp_core_v4/fountain.py:82-131 | For a nonempty payload, a droplet the filter lets through is consistent with the payload exactly if it is the droplet the encoder makes of its seed. |
| TransportChannel.ReceivedIsLast | tfp_transport/fountain.py:53-78 | Over any arrivals the channel holds exactly the last admissible one of each seed. |
| TransportChannel.ReceivedGenuine | tfp_transport/fountain.py:53-78 | If the admissible arrivals are genuine, exactly those are held at the end, whatever else is offered. |
| TransportChannel.ChannelExact | tfp_transport/fountain.py:53-91 | If what is held, the last admissible arrival of each seed, agrees with the payload, the channel returns the payload exactly when it has full rank, and raises a rank error otherwise, whatever else was offered. |
| TransportChannel.ChannelLosesNothing | tfp_transport/fountain.py:53-91 | If every admissible arrival is genuine, the channel returns the payload exactly when the genuine arrivals have full rank, and raises a rank error otherwise. |
| TransportChannel.PollutionDisplaces | tfp_transport/fountain.py:53-91 | The filter's promise fails: behind a complete set of source droplets, which decodes, one admitted droplet with another payload displaces the genuine one of its seed, and decoding then fails unless two payloads have one digest. |
| TransportChannel.ChannelNeverLies | tfp_transport/fountain.py:84-91 | Whatever is offered, well-formed equations with polluted payloads included, a returned payload has the digest of the named one. |
| Slip.UnpackPack | tfp_transport/meshtastic_bridge.py:58-109 | Unpacking a packed payload gives the payload, for every payload. |
| Slip.UnescapeIff | tfp_transport/meshtastic_bridge.py:86-109 | A body is accepted exactly when it is the escaping of the payload returned for it. |
| Slip.EscapesSpelledOut | tfp_transport/meshtastic_bridge.py:24-27 | The escape code of RFC 1055, byte by byte, wherever the byte stands. |
| Slip.SlipPack | tfp_transport/meshtastic_bridge.py:58-72 | The packing loop writes the escaped payload between two END bytes. |
| Slip.SlipUnpack | tfp_transport/meshtastic_bridge.py:75-109 | The stripping and unescaping loops compute unpacking, with the three framing errors. |
| Slip.ListenAnyReads | tfp_transport/meshtastic_bridge.py:496-512 | How the byte stream is divided into reads does not affect the frames emitted or the bytes left. |
| Slip.StreamRoundTrip | tfp_transport/meshtastic_bridge.py:496-512 | Starting aligned, any division of the concatenated frames into reads yields exactly those frames in order, with nothing left over. |
| Slip.StreamPrefix | tfp_transport/meshtastic_bridge.py:496-512 | Before the stream ends, what has been emitted is a prefix of the frames. |
| Slip.SplitLaw | tfp_transport/meshtastic_bridge.py:505-512 | What any stream is cut into: a frame runs from one END byte to the next, what lies in front of it is dropped, and what is no frame yet is kept. |
| Slip.LateJoin | tfp_transport/meshtastic_bridge.py:505-512 | Joined inside a frame, a stream yields an empty frame for every packet that follows, and no packet. |
| Slip.ListenStream | tfp_transport/meshtastic_bridge.py:496-512 | The buffer loop of the listener computes the splitting function. |
| Meshtastic.DecodeEncodeFrame | tfp_transport/meshtastic_bridge.py:112-154 | A wire frame carries its packet with each field masked to its width. |
| Meshtastic.FrameLayout | tfp_transport/meshtastic_bridge.py:112-133 | A frame is the escaped ten header bytes, session and seed most significant byte first, degree, flags, channel and hop limit, each modulo its width, and the data. |
| Meshtastic.ManifestLayout | tfp_transport/meshtastic_bridge.py:292 | The manifest holds length, block count and symbol size in four, four and two bytes, and packs exactly if they fit. |
| Meshtastic.FramesDecoded | tfp_transport/meshtastic_bridge.py:293-325 | Manifest frames decode to flag one, seed and degree zero and the manifest, droplet frames to flag zero, seed, degree and payload of the droplet. |
| Meshtastic.InterleavedAt | tfp_transport/meshtastic_bridge.py:309-330 | Where every frame lies: droplet i behind i droplets and a manifest for each multiple of the interval up to i, the last of them right before it where i is one. |
| Meshtastic.BroadcastBytes | tfp_transport/meshtastic_bridge.py:278-331 | The broadcaster writes the manifest first and again before every droplet but the first whose position the interval divides, a negative interval included, and one frame per droplet; an interval of zero raises behind the first droplet. |
| Meshtastic.MeshtasticListener.IngestFrame | tfp_transport/meshtastic_bridge.py:343-410 | Ingesting a frame updates the session table as specified: first manifest wins, data before it is ignored, droplets are rebuilt from their seeds. |
| Broadcast.ListenerExact | tfp_transport/meshtastic_bridge.py:343-410 | For any subset, order and repetition of one broadcast's frames, mixed with any frames of other sessions, the listener's session is exactly what the droplets after the first manifest determine, empty broadcasts included. |
| Broadcast.ReconstructionIff | tfp_transport/meshtastic_bridge.py:287-420 | A caller is given the sent data exactly when it is not empty, a manifest has arrived and the data droplets after it have full rank, and an error otherwise. |
| Broadcast.EmptyNeverCompletes | tfp_transport/meshtastic_bridge.py:287-420 | A broadcast of no data is a manifest and nothing else, and its session never completes, whatever subset of frames arrives. |
| Broadcast.ReconstructionIsStable | tfp_transport/meshtastic_bridge.py:372-373 | Once set the reconstruction never changes, whatever frames follow. |
| Broadcast.LosslessStream | tfp_transport/meshtastic_bridge.py:287-512 | When all frames of a broadcast that did not raise arrive as a byte stream cut in any way, a caller is given exactly the data, or an error if there was none. |
| Broadcast.JoinBetween | tfp_transport/meshtastic_bridge.py:287-512 | A listener that joins between two frames hears all frames that follow, however the stream is read. |
| Broadcast.JoinInside | tfp_transport/meshtastic_bridge.py:264-512 | The promise to late receivers fails inside a frame: a listener that joins there hears nothing of the broadcast, however often the manifest is repeated and however the stream is read. |
| Cdc.ChunksConcat | tfp_core_v4/cdc.py:162-219 | The chunks concatenate to the input. |
| Cdc.ChunkSizes | tfp_core_v4/cdc.py:162-219 | No chunk is empty or over the maximum; only the last may be under the minimum. |
| Cdc.CutIsLocal | tfp_core_v4/cdc.py:177-214 | Bytes behind the maximum chunk size do not influence a cut. |
| Cdc.EditLocality | tfp_core_v4/cdc.py:175-219 | A non-final chunk of a + b that ends within a is a chunk of a + d with the same number and offset. |
| Cdc.Resynchronise | tfp_core_v4/cdc.py:175-219 | Once two inputs both have a boundary where a common tail starts, their remaining chunks are identical. |
| Cdc.ChunkBuffer | tfp_core_v4/cdc.py:162-219 | The whole-buffer loop returns the specified chunk list. |
| Cdc.FindCut | tfp_core_v4/cdc.py:177-216 | Warm-up, tight region and loose region find the specified cut. |
| GearWindow.WindowHash | tfp_core_v4/cdc.py:186-213 | Once m <= 64 bytes are hashed, the low m bits of the rolling hash are those of the weighted sum of the last m gear values. |
| GearWindow.BoundaryIsWindow | tfp_core_v4/cdc.py:152-213 | A boundary test depends only on as many of the last bytes as its mask has bits, and on which side of the target size it falls. |
| GearWindow.HashIsSum | tfp_core_v4/cdc.py:181-196 | The rolling hash of the first bytes is their weighted sum of gear values, as far as 64 bits show it. |
| GearWindow.CutLaw | tfp_core_v4/cdc.py:152-216 | The cut law, for every mask width: the first chunk ends behind the first position from the minimum size on at which the weighted sum is zero modulo 2 to the target bits plus one, before the target size, or minus one, from it on, or else at the maximum size or the end; data up to the minimum size is one chunk. |
| GearWindow.ChunkEnds | tfp_core_v4/cdc.py:162-219 | Every chunk of a buffer is the piece of it that the cut law cuts off at the chunk's offset. |
| StreamChunks.StreamFile | tfp_core_v4/zim_sync.py:118-201 | For every file and every way of splitting it into nonempty reads, streaming terminates and yields the whole-buffer chunks with prefix-sum offsets and their digests. |
| StreamChunks.BufferStep | tfp_core_v4/zim_sync.py:150-195 | The cut found in a sufficiently filled buffer is the cut of everything still to come. |
| StreamChunks.EntryIsSlice | tfp_core_v4/zim_sync.py:118-201 | Every entry is the slice of the file at its offset, with that slice's digest. |
| Recipes.CreateRecipe | tfp_core_v4/cdc.py:221-240 | Creating a recipe lists digests and sizes of the chunks under the root digest of the digests. |
| Recipes.CreatedMatches | tfp_core_v4/cdc.py:105-121 | A created recipe is valid, and its sizes cut the payload back into the chunks with the listed digests. |
| Recipes.CreatedFields | tfp_core_v4/cdc.py:221-240 | The recipe of a payload, field by field: its root is the digest of the chunks' hexadecimal digests one after another. |
| Recipes.Assemble | tfp_core_v4/cdc.py:243-258 | Assembly succeeds exactly on a valid recipe whose chunks are all present with the right size and digest, and the result matches the recipe; else the error says what is wrong with the first chunk that does not fit. |
| Recipes.SlicesCover | tfp_core_v4/node.py:515-525 | Python slices cut by integer sizes cover the payload from any offset on, and concatenate to exactly it when no cut goes backwards and to more otherwise. |
| Recipes.SameSlices | tfp_core_v4/cdc.py:98-121 | Payloads matching recipes with one root are cut into the same slices, or one of the listed pairs of hashed strings collides. |
| Fetch.AutomaticDroplets | tfp_core_v4/node.py:407-425 | Left to itself the node emits six, four, three or two times the blocks of the payload, by its size. |
| Fetch.ChosenDroplets | tfp_core_v4/node.py:409-410 | With a redundancy of the caller, negative ones counting as zero, the node makes the least number of droplets that reaches it. |
| Fetch.FetchMatches | tfp_core_v4/node.py:457-531 | Whatever is stored and received, inconsistent droplets included, a fetch that returns has a valid recipe for the root and returns as many bytes as it says, whose slices have its digests. |
| Fetch.FetchTiledIff | tfp_core_v4/node.py:457-531 | The slices spell out the returned bytes exactly when no cut of the recipe's sizes goes backwards. |
| Fetch.FetchTiled | tfp_core_v4/node.py:457-531 | With nonnegative sizes the returned bytes are tiled by the slices and have the total size. |
| Fetch.OverlappingSlices | tfp_core_v4/node.py:488-531 | The condition is needed: a node holding a valid recipe with a negative size, given the droplets of a payload, returns that payload although the recipe's slices do not spell it out. |
| Fetch.FetchesAgree | tfp_core_v4/node.py:457-531 | Two fetches of one root, on any nodes with any forward-cutting recipes and droplets, return the same bytes or a listed pair collides. |
| Fetch.FetchPublished | tfp_core_v4/node.py:381-531 | Fetching the root of a published payload returns the published bytes, whatever valid recipe the node holds, or a listed pair collides. |
| Fetch.PublishThenFetch | tfp_core_v4/node.py:381-486 | A published payload is fetched back from its own node unless two of its chunks have one digest. |
| Fetch.FetchAnyLoss | tfp_core_v4/node.py:488-531 | From any nonempty mix of droplets of the payload the fetch returns it exactly when they have full rank, with no assumption on the hash. |
| Fetch.LossyFetch | tfp_core_v4/node.py:381-531 | Under simulated loss the publishing node recovers from nothing but the droplets whose draws reach the loss rate, even with all chunks at hand: the payload exactly at full rank, and an error each for none and too few. |
| Fetch.FetchErrors | tfp_core_v4/node.py:457-504 | Which check of a fetch fails: unknown root, invalid recipe, symbol size, no droplets, no survivors. |
| Fetch.TFPNode.Publish | tfp_core_v4/node.py:381-445 | Publishing stores chunks, recipe and droplets as specified and refuses an empty payload before, and a droplet that cannot be packed after, they are stored. |
| Fetch.SerializeIff | tfp_core_v4/node.py:428-430 | Packing a publication's droplets succeeds exactly for at most 65536 blocks and 2^32 droplets of which none combines 65536 symbols. |
| Fetch.TFPNode.Fetch | tfp_core_v4/node.py:447-531 | The fast path with its verification loop, and the fountain path behind it, compute the specified result; only the success counter changes. |
| ZimDelta.ScanBaseFile | tfp_core_v4/zim_sync.py:203-221 | The scan returns the index of first occurrences and the file digest, or the limit error. |
| ZimDelta.CreatePatch | tfp_core_v4/zim_sync.py:223-263 | The patch writer emits the specified bytes: magic, header length, header and one record per first occurrence of a novel chunk. |
| ZimDelta.ApplyPatch | tfp_core_v4/zim_sync.py:269-354 | The patch reader installs the specified output and nothing on any error. |
| ZimRoundTrip.PatchRoundTrip | tfp_core_v4/zim_sync.py:223-354 | With one engine and one set of limits, a created patch rebuilds the target byte for byte exactly if no two keys of an object in its metadata print alike, and is refused otherwise, or two different chunks of the two files have one digest. |
| ZimRoundTrip.PatchReadsBack | tfp_core_v4/zim_sync.py:223-354 | Without saying why a header text fails to read: a created patch is applied exactly if its text reads back as the header it was printed from, under the same condition on chunks. |
| ZimRoundTrip.KeysPrintAlike | tfp_core_v4/zim_sync.py:223-354 | A failing input: a patch created with metadata that has a number and the string it prints as for keys of one object is refused. |
| ZimRoundTrip.InstalledMatchesHeader | tfp_core_v4/zim_sync.py:286-354 | For an arbitrary patch, what is installed has the declared size and digest, on a base with the declared digest. |
| ZimRoundTrip.SameTargetSameBytes | tfp_core_v4/zim_sync.py:353-354 | Two patches naming one target digest install the same bytes or exhibit a collision. |
| ZimRecords.PatchContents | tfp_core_v4/zim_sync.py:223-263 | A created patch is magic, length and text of a header that names both files, the digests of the target's chunks in order and the chunker, then one record for each digest of the target that no chunk of the base has, with the first chunk of that digest. |
| ZimAccepted.IndexIff | tfp_core_v4/zim_sync.py:215-221 | A base archive is indexed exactly if its chunks and the number of its different digests keep to the limits. |
| ZimAccepted.CreatedIff | tfp_core_v4/zim_sync.py:223-263 | A patch is created exactly if sizes, chunk sizes, the base's digests and the target's chunks keep to the limits, and the header can be printed and keeps to its own. |
| ZimAccepted.RecordsAre | tfp_core_v4/zim_sync.py:308-325 | Records that are read are exactly those the writer makes, of entries with different digests, each of its own chunk. |
| ZimAccepted.AcceptedShape | tfp_core_v4/zim_sync.py:269-354 | An accepted patch, whoever wrote it, has the shape of a created one, with as many records and bytes as its bounded header says, all of them listed, and nothing behind; what is installed is made of chunks with the listed digests in order, carried by the patch or else from the base, and of the declared size and digest. |
| Merkle.Complete | tfp_core_v4/merkle.py:30-82 | For every nonempty leaf list, odd levels included, and every index, the generated proof verifies. |
| Merkle.Binding | tfp_core_v4/merkle.py:68-82 | Two different leaves accepted for one root by proofs with equal directions hash, on the way, two different strings to one digest. |
| Merkle.DirectionsOfIndex | tfp_core_v4/merkle.py:52-65 | Proofs of one index over equally many leaves have the same directions. |
| Merkle.RootFromAbove | tfp_core_v4/merkle.py:30-45 | The root seen from above: the digest of the roots of two halves, the left one full, and taken twice where there is no right one. |
| Merkle.ProofLength | tfp_core_v4/merkle.py:52-65 | A proof has as many steps as the tree is high. |
| Merkle.ProofSides | tfp_core_v4/merkle.py:52-65 | The sibling of a step stands on the left exactly where the index has a one bit. |
| Merkle.ShortProofs | tfp_core_v4/merkle.py:73-82 | A left sibling is hashed in front of the running digest and a right one behind it. |
| Merkle.MerkleTree.Build | tfp_core_v4/merkle.py:30-41 | The level loop builds exactly the levels of the tree. |
| Merkle.MerkleTree.GetProof | tfp_core_v4/merkle.py:52-65 | The index walk yields the specified proof, and an error exactly for indices out of range. |
| Merkle.VerifyMerkleProof | tfp_core_v4/merkle.py:68-82 | The verification loop decides the specified climb. |
| MerkleHex.Complete | tfp_transport/merkleized_raptorq.py:51-130 | The transport layer's separate proofs verify against its root for every shard list and index. |
| MerkleHex.Binding | tfp_transport/merkleized_raptorq.py:105-130 | Two different shards accepted for one root by proofs of the same shape, whatever text their siblings are, hash, on the way, two different strings to one digest. |
| MerkleHex.RootFromAbove | tfp_transport/merkleized_raptorq.py:400-417 | The transport root seen from above, over hexadecimal text. |
| MerkleHex.ProofLength | tfp_transport/merkleized_raptorq.py:51-103 | A transport proof has as many steps as the tree is high. |
| MerkleHex.ProofSides | tfp_transport/merkleized_raptorq.py:86-101 | Its siblings stand on the left exactly where the index has a one bit. |
| MerkleHex.ShortProofs | tfp_transport/merkleized_raptorq.py:111-128 | What each kind of step hashes, an odd last node with itself. |
| MerkleHex.WalkBeyond | tfp_transport/merkleized_raptorq.py:86-101 | Off the level, for two leaves: a negative index counts from the end, odd ones beyond the end raise, and even ones are taken for an odd last node. |
| MerkleHex.BuildMerkleRoot | tfp_transport/merkleized_raptorq.py:400-417 | The level loop computes the specified root, the digest of nothing for no leaves. |
| MerkleHex.GetProof | tfp_transport/merkleized_raptorq.py:51-103 | The level and index loops yield the specified walk for any index and total, with Python's negative indices and index errors, and an empty proof for an index beyond the total. |
| MerkleHex.GivenVerifies | tfp_transport/merkleized_raptorq.py:51-130 | For any total, a leaf counted by it gets a proof that verifies against the root of the leaves counted; a total beyond the leaves counts all. |
| MerkleHex.VerifyProof | tfp_transport/merkleized_raptorq.py:105-130 | The step loop decides the specified climb, for siblings of any text and any root text. |
| RateLimit.RateBound | tfp_transport/merkleized_raptorq.py:209-241 | For any clock readings, ordered or not, of the requests read between start and end at most the maximum plus the refill of that interval are allowed, whatever happens before, between and after. |
| RateLimit.TokensWithinIff | tfp_transport/merkleized_raptorq.py:215-241 | On nondecreasing readings the tokens stay between zero and the maximum exactly if what the first refill may take away, when the record is newer than the first reading, is no more than the bucket holds. |
| RateLimit.NewClientIff | tfp_transport/merkleized_raptorq.py:171-241 | Over any run of any clients, a new client whose own readings do not decrease stays in range exactly if the refill of the time from its first reading to the creation of its record is no more than the maximum. |
| RateLimit.NewClientInDebt | tfp_transport/merkleized_raptorq.py:171-241 | With one token and a refill of a thousand per second, a record created half a second after the reading leaves a new client 499 tokens in debt. |
| RateLimit.TokensPaid | tfp_transport/merkleized_raptorq.py:215-241 | Every allowed request has been paid for: tokens left plus requests allowed never exceed the maximum plus the refill of the time that passed. |
| RateLimit.WaitSuffices | tfp_transport/merkleized_raptorq.py:236-241 | A client told to wait is allowed next exactly if it comes back when that time has passed, when the bucket can hold a token. |
| RateLimit.AllowedExactly | tfp_transport/merkleized_raptorq.py:220-241 | The bucket is exactly its bound: for any readings and whatever was refused before, a request is allowed if and only if it fits into every window of requests that ends with it, next to those allowed in it. |
| RateLimit.AllowedOrRejected | tfp_transport/merkleized_raptorq.py:232-237 | Every request is allowed or counted as rejected. |
| RateLimit.Independent | tfp_transport/merkleized_raptorq.py:209-241 | A run's effect on one client, its record and what it is allowed in any interval, depends only on that client's requests. |
| RateLimit.RunRateBound | tfp_transport/merkleized_raptorq.py:209-241 | Over any run of any clients each client stays within its bound in every interval, of any length and anywhere in the run. |
| RateLimit.ServedExactly | tfp_transport/merkleized_raptorq.py:209-241 | Over any run of any clients, a request is allowed exactly if it fits into every window of its own client's requests that ends with it. |
| RateLimit.ServedIff | tfp_transport/merkleized_raptorq.py:209-241 | All requests of a client in a run are allowed exactly if no window of its readings holds more of them than its bucket, or a full one, and the refill provide for. |
| RateLimit.NewClientServedIff | tfp_transport/merkleized_raptorq.py:209-241 | The converse of the rate bound: a client without a record, created no later than its first reading, has all its requests allowed exactly if every window i to j of its readings has at most maximum plus refill of the time between them. |
| RateLimit.RateLimiter.CheckRateLimit | tfp_transport/merkleized_raptorq.py:209-241 | The method updates the client's record and answers as specified, touching no other client. |
| Mnemonic.ValidateGenerated | tfp_cli/identity.py:126-171 | Validating the generated words succeeds and recovers the entropy, for all five sizes. |
| Mnemonic.GenerateValidated | tfp_cli/identity.py:126-171 | Every accepted word list is the one generated from its recovered entropy. |
| Mnemonic.MnemonicRoundTrip | tfp_cli/identity.py:126-171 | From entropy to the joined text, split at white space and validated, back to the entropy. |
| Mnemonic.WordCapacity | tfp_cli/identity.py:131-137 | Entropy and checksum bits fill the 11-bit words exactly, for every size. |
| Mnemonic.GeneratedBits | tfp_cli/identity.py:129-142 | What the words say, bit by bit: each is the list's entry at the next eleven bits of the entropy followed by its SHA-256 hash, so that the last one ends in the leading bits of the hash's first byte. |
| Mnemonic.SplitConcat | tfp_cli/identity.py:154 | Texts that white space parts are split on their own. |
| Mnemonic.JoinConcat | tfp_cli/identity.py:143 | Joined words stand with one space between them. |
| Mnemonic.GenerateMnemonic | tfp_cli/identity.py:126-143 | The generator emits the joined words, and refuses exactly the other entropy sizes. |
| Mnemonic.WordsFrom | tfp_cli/identity.py:138-142 | Shifting and masking from the left picks the words of the base-2048 digits. |
| Mnemonic.ValidateMnemonic | tfp_cli/identity.py:152-171 | The validator accepts exactly the texts whose words pass the specified check. |
| BulletinIdentity.EnvelopeInjective | tfp_core_v4/bulletin_identity.py:36-45 | Different bulletins never share a signed text, whatever characters their fields contain. |
| BulletinIdentity.ClosingUnique | tfp_core_v4/bulletin_identity.py:43-45 | Whatever follows, an escaped and quoted string can be read back in only one way. |
| BulletinIdentity.StatusSound | tfp_core_v4/bulletin_identity.py:28-76 | Content counts as verified exactly with a nonblank name, a revision from 1 to 2^53 - 1, a nonempty version 2 signature, digest and key of 64 hexadecimal digits, and a key check that accepts the signature on the envelope; as unsigned exactly without any signature under the name for it. |
| BulletinIdentity.PlainEnvelope | tfp_core_v4/bulletin_identity.py:43-45 | The signed text of a bulletin with a plain name and title, character by character, the revision in digits without leading zeros. |
| BulletinIdentity.EscapeConcat | tfp_core_v4/bulletin_identity.py:43-45 | Escaping works character by character. |
| BulletinIdentity.EscapesSpelledOut | tfp_core_v4/bulletin_identity.py:43-45 | The escapes of JSON; all other characters stand for themselves. |
| BulletinIdentity.CheckRevisionLoop | tfp_core_v4/bulletin_identity.py:79-98 | The loop and the closing comparison compute the revision policy on the list. |
| BulletinSafety.CheckIsSetVerdict | tfp_core_v4/bulletin_identity.py:79-98 | On coherent records the verdict depends on the set of records, not on their order. |
| BulletinSafety.AdmissionRefinesHistory | tfp_core_v4/node.py:617-762 | Watermarks plus pruned rows admit exactly what the policy admits on the complete history; a request past the watermark is never rejected by the second check; verdicts differ exactly for a known revision below the watermark, reported stale. |
| BulletinSafety.WatermarkVersusHistory | tfp_core_v4/node.py:617-656 | The watermark's verdict equals the policy on the complete history except in that one case. |
| BulletinSafety.ExpectedIsMarked | tfp_core_v4/node.py:639-648 | The title expected of a replay is the watermark's, whether or not the display row was pruned. |
| BulletinSafety.RecachedIsUpserted | tfp_core_v4/node.py:800-826 | The cache assignment and the SQL upsert compute the same watermarks. |
| BulletinSafety.DuplicateIsMarked | tfp_core_v4/node.py:638-656 | An accepted replay is the very record the watermark stands for. |
| BulletinSafety.StoredKeepsInv | tfp_core_v4/node.py:734-837 | A store keeps the invariant, whatever order the queries list rows in; what it accepts is in the history, and what it admits was fresh to it. |
| BulletinSafety.ReadmittedKeepsInv | tfp_core_v4/node.py:662-699 | Re-admitting a pruned record keeps the invariant, caches included. |
| BulletinReopen.ReopenKeepsInv | tfp_core_v4/node.py:177-264 | A restart in the middle of a run keeps the invariant and with it every watermark's record. |
| BulletinReopen.OpenedHasInv | tfp_core_v4/node.py:177-264 | Once a database opens, with what its tables still know as the history, the invariant holds exactly if the tables do not contradict themselves: one publisher per bulletin, and watermarks that agree with display rows of their revision up to what they lack. Untitled rows and watermarks are no contradiction, and for contradictory tables no history would do. |
| BulletinReopen.BackfilledIs | tfp_core_v4/node.py:177-242 | For a database that kept some of a history, however incomplete, the backfill makes a bulletin's watermark its newest record exactly if row and watermark between them still carry that record's digest and title, or its title is the bulletin's name. |
| BulletinReopen.ReplayOfNewest | tfp_core_v4/node.py:617-702 | After opening such a database a replay of the newest record is accepted exactly if its display row or, without one, the watermark still carries title and digest up to a title equal to the bulletin's name, the content of a displayed row can be read, and the watermark's recipe is found or the payload can be published anew. |
| BulletinReopen.AtWatermarkOutcome | tfp_core_v4/node.py:617-702 | In any state, a submission of the watermark's revision by its publisher raises exactly if its displayed row's content cannot be read, whether it agrees or not; otherwise a conflict is refused, and an exact replay accepted unless it must be published and cannot be packed. |
| BulletinReopen.ContentForgotten | tfp_core_v4/node.py:617-702 | On a display row of an earlier version without content, the authentic replay and every other submission of its publisher at that revision raise; once the row is pruned the replay is accepted if its payload can be packed. |
| BulletinReopen.TitleForgotten | tfp_core_v4/node.py:161-264 | On a watermark from before titles were kept, its display row pruned, the authentic replay is a revision conflict while the same content under the bulletin's name is a replay. |
| BulletinReopen.TwoPublishersFrozen | tfp_core_v4/node.py:617-627 | A bulletin with watermarks of two publishers admits nothing more from anyone. |
| BulletinRuns.RunKeepsInv | tfp_core_v4/node.py:734-988 | Every state of every run of stores, replays, prunes, rolled-back failures and restarts satisfies the invariant. |
| BulletinRuns.RunProgress | tfp_core_v4/node.py:734-988 | Over any run nothing admitted is forgotten and no watermark decreases or disappears. |
| BulletinRuns.AdmittedIff | tfp_core_v4/node.py:734-837 | At any point of any run a submission is admitted exactly when the policy accepts it against the complete history and its payload can be packed. |
| BulletinRuns.ForgottenReached | tfp_core_v4/node.py:617-656 | After any two stores of successive revisions the first record is stale to the node and a duplicate to the complete history. |
| BulletinRuns.HistoryIsAdmitted | tfp_core_v4/node.py:734-837 | The history of a state is what was there at the start and what the run admitted, and nothing else. |
| BulletinRuns.OneContentPerRevision | tfp_core_v4/node.py:734-837 | Over any run a bulletin keeps one publisher and no revision is accepted with two contents or titles. |
| BulletinRuns.WatermarkBounds | tfp_core_v4/node.py:795-837 | In every state the watermark of its publisher bounds every stored revision, and the cached watermarks are the committed ones. |
| BulletinRuns.RunKeepsRoots | tfp_core_v4/node.py:662-837 | Over any run, a record displayed at its watermark is displayed under the recipe root the watermark names. |
| BulletinRuns.PruneDropsLowerFirst | tfp_core_v4/node.py:955-988 | Under a clock that does not run backwards no prune in a run drops a revision while keeping a lower one of the same bulletin. |
| BulletinRuns.PruneOrderIff | tfp_core_v4/node.py:968-976 | Prunes of every size drop lower revisions first exactly if receipt times follow the revisions of each bulletin. |
| BulletinRuns.ClockSetBack | tfp_core_v4/node.py:732-988 | From an empty database, two revisions stored under a clock that was set back are both admitted, their rows are out of order, and a prune to one row drops the later revision. |
| BulletinRuns.PruneBlocksOpening | tfp_core_v4/node.py:177-206 | A database whose older row of a bulletin lacks its digest opens, but not any more after a prune that keeps that row alone. |
| BulletinContent.GenuineFetch | tfp_core_v4/node.py:447-486 | From stores that hold only recipes and chunks of some payloads that are apart, each payload whose root is listed is fetched byte for byte. |
| BulletinContent.ApartOrCollision | tfp_core_v4/node.py:381-401 | Payloads have different roots and their different chunks different digests, or two different strings among their chunks and the texts of their chunk digests, which publishing them hashes, have one digest. |
| BulletinContent.CommittedContent | tfp_core_v4/node.py:269-379 | A process restarted on the database has recipe, chunks and droplets of a committed payload once its root is looked up. |
| BulletinContent.RestartedFetch | tfp_core_v4/node.py:269-531 | What was committed survives a restart without the help of any chunk: under simulated loss the restarted process returns the payload exactly if the droplets left have full rank. |
| BulletinServing.NewIsStocked | tfp_core_v4/node.py:81-264 | An empty database is a start for the three results below. |
| BulletinServing.ResumedStocked | tfp_core_v4/node.py:81-264 | So is any database that a run from such a start left, opened by a new process that knows only what its tables still do, with the payloads of the run. |
| BulletinServing.RunServes | tfp_core_v4/node.py:840-905 | In every state of every run from such a start, across prunes, failures and restarts, reading a displayed bulletin returns the payload its record was admitted with, in the run or before it, which has the row's digest; or two different strings with one digest are among the chunks and chunk-digest texts of the payloads known to that state. |
| BulletinServing.RunRaises | tfp_core_v4/node.py:734-837 | In every such run, metadata that cannot be printed apart, a store raises inside its transaction only for a payload that cannot be packed, never for missing content; or two different strings with one digest are among the chunks and chunk-digest texts of the payloads known to that state. |
| BulletinServing.RunOpens | tfp_core_v4/node.py:177-264 | Every state of such a run can be reopened. |
| BulletinServing.PayloadIsAdmitted | tfp_core_v4/node.py:770-837 | The payload a state remembers for a record is the one known at the start or the one a store of the run admitted the record with. |
| BulletinNode.BulletinStore.CheckWatermark | tfp_core_v4/node.py:617-636 | The loop over the listed watermarks computes the first check, reads the content of a displayed row of the watermark's revision before it compares, and raises where that read raises. |
| BulletinNode.SelectNewest | tfp_core_v4/node.py:969-976 | Repeated selection keeps the newest rows by receipt time and revision; a negative limit keeps all. |
| BulletinNode.BackfillMarks | tfp_core_v4/node.py:177-242 | Grouping rows and merging each group's newest row computes the backfill, and raises exactly if some newest row lacks digest or root. |
| BulletinNode.Open | tfp_core_v4/node.py:81-264 | A database opens, whoever wrote it, exactly if every newest row has digest and root; its watermarks are then backfilled and cached, caches and content stores empty, and the invariant holds exactly if the tables do not contradict themselves. |
| BulletinNode.BulletinStore.StoreBulletin | tfp_core_v4/node.py:707-837 | Storing goes on to admission only for a bulletin that is unsigned without a signature, or whose publisher's key check accepts its signature on the envelope of the very record stored; admission then runs as one transaction as specified, errors inside it included, and the errors in front of it leave the node unchanged. |
| BulletinNode.BulletinStore.Admit | tfp_core_v4/node.py:734-837 | The two checks, the reads and publications behind them and the table and cache updates have exactly the specified effect, and an error inside leaves tables and caches alone. |
| BulletinNode.BulletinStore.AcceptReplay | tfp_core_v4/node.py:638-702 | An accepted replay uses the watermark's recipe, from memory or database, or publishes the payload, committing it only with the row it puts back. |
| BulletinNode.BulletinStore.LoadRecipe | tfp_core_v4/node.py:313-379 | Looking a root up copies a valid recipe with its chunks and droplets from the database, and finds it exactly if memory or database has it. |
| BulletinNode.BulletinStore.GetBulletin | tfp_core_v4/node.py:840-905 | Reading back selects the revision asked for or the newest one and returns what a fetch of the row's root, or of its digest if it has none, returns. |
| BulletinNode.BulletinStore.Readmit | tfp_core_v4/node.py:662-699 | Putting a pruned row back updates table, watermark and both caches as specified. |
| BulletinNode.BulletinStore.PruneDisplayBulletins | tfp_core_v4/node.py:968-988 | Pruning keeps the newest rows, leaves every watermark and reports how many rows went. |
| BulletinNode.BulletinStore.Reopen | tfp_core_v4/node.py:81-264 | A restart backfills, reloads the watermark cache and empties the display cache and the content stores; it raises exactly if some newest row lacks digest or root. |
| Gossip.RunSafe | tfp_core_v4/mesh.py:62-100 | Under any delivery order and any churn a peer accepts at most once, the origin never does, and only peers within ten hops do. |
| Gossip.DeliveryDecreases | tfp_core_v4/mesh.py:79-100 | Every delivery lowers the pair of peers that have not seen the message and deliveries scheduled. |
| Gossip.DeliveriesBounded | tfp_core_v4/mesh.py:62-100 | However deliveries are ordered and peers come and go, at most peers times degree of them run. |
| Gossip.FirstDelivery | tfp_core_v4/mesh.py:79-100 | Delivering first in, first out keeps scheduled deliveries in order of their hop and every pending neighbour promised. |
| Gossip.ForwardedTo | tfp_core_v4/mesh.py:88-100 | An accepted announcement is sent on, with one hop less and while hops remain, to exactly the live neighbours other than its sender. |
| Gossip.QuietIsExact | tfp_core_v4/mesh.py:79-100 | When nothing is left, exactly the live peers within ten hops have accepted. |
| GossipRound.Round.ReceiveGossip | tfp_core_v4/mesh.py:79-100 | A peer accepts unless dead or already informed, and forwards to its live neighbours except the sender while hops remain. |
| GossipRound.Round.Drain | tfp_core_v4/mesh.py:62-100 | Running a first-in-first-out round to its end makes exactly the live peers within ten hops accept, each once. |
| Swarm.EncodedGenuine | tfp_core_v4/mesh.py:116-124 | Every encoder of a payload emits genuine droplets, whatever its symbol size and redundancy. |
| Swarm.DecodeGenuine | tfp_core_v4/mesh.py:164-176 | Decoding genuine droplets of any mix of symbol sizes succeeds exactly at full rank of those of the decoder's size, and then returns the payload. |
| SwarmMesh.SynthesizedSafe | tfp_core_v4/mesh.py:112-124 | Synthesizing fresh droplets keeps the peer's store genuine, loses no seed, and leaves it empty only when there is nothing to synthesize from. |
| Swarm.EncodingSuffices | tfp_core_v4/mesh.py:116-124 | A complete encoding among the gathered droplets determines the payload, whatever else was gathered. |
| SwarmMesh.SourceSuffices | tfp_core_v4/mesh.py:112-132 | The answer of a peer that has the payload makes any gathered droplets sufficient for a peer of its symbol size. |
| SwarmMesh.SynthesisCount | tfp_core_v4/mesh.py:114-119 | A reconstructed payload is served with ten droplets more than blocks, and from twenty blocks on with half as many again. |
| SwarmMesh.SilenceMeansNothing | tfp_core_v4/mesh.py:126-140 | A request over lossless links that comes back empty proves that no live peer on any route stores a droplet of the root or has a payload to make one from. |
| SwarmMesh.SwarmNetwork.StoreContent | tfp_core_v4/mesh.py:52-60 | Storing content keeps every peer consistent with the payloads. |
| SwarmMesh.TaughtStores | tfp_core_v4/mesh.py:52-60 | Storing content sets the recipe, replaces droplets by seed, loses no seed and concerns this root alone. |
| SwarmMesh.SwarmNetwork.RequestDroplets | tfp_core_v4/mesh.py:102-140 | A request terminates because the visited set grows with every hop; it changes no store but that of the root, leaves visited peers alone and answers with genuine droplets out of the store of one visited peer, over lossless links with all of them, and with the asked peer's own if it has any. |
| SwarmMesh.SwarmNetwork.RouteOn | tfp_core_v4/mesh.py:133-140 | Asking neighbours one after another passes on the first answer, or explores all of them. |
| SwarmMesh.SwarmNetwork.TryDecode | tfp_core_v4/mesh.py:162-176 | An attempt succeeds exactly when the gathered droplets determine the payload, and then keeps payload and droplets. |
| SwarmMesh.SwarmNetwork.SwarmFetch | tfp_core_v4/mesh.py:142-204 | In every reachable mesh a fetch returns the payload its root stands for and leaves the peer with it and with droplets that suffice to decode it, all else but droplets of the root unchanged and no seed lost. It fails only when what was gathered does not determine the payload, behind five sweeps over the live neighbours; over lossless links that includes every seed these stored, and none of them had the payload in the peer's symbol size. |
| SwarmMesh.SwarmNetwork.FetchThroughChurn | tfp_core_v4/mesh.py:5-204 | Origin churn is survived: behind a fetch of a nonempty payload every peer but the fetcher and a live neighbour of its symbol size may die, and over lossless links the neighbour still fetches the payload. |

## Left out

- Sockets, serial ports, airtime pacing, HTTP, command lines, audio, metrics and simulators: input and output only.
- The foreign Wirehair codec, spectrum encapsulation, ghost nodes and linters: no logic of the modelled core.
- Real SHA3, SHA-256, HMAC, Ed25519, PBKDF2 and Python's generator: parameters, as described above.
- Soliton degree sampling: the sampler is any function giving sorted distinct indices below the block count, at least one.
- Floating point: redundancy, block counts and token arithmetic are exact, so block counts beyond 2^53 and rounding of the droplet count are not covered.
- Droplet indices are naturals; negative indices, which Python would wrap, are not modelled, nor are seeds beyond 64 bits in the schedule's packing.
- Digest comparison of non-ASCII text, which raises in Python, is inequality here.
- Broadcast.ReconstructionIff: covers broadcasts of at most 65536 droplets, because beyond that the 16-bit seed field aliases droplets.
- Merkle.Binding: compares proofs with equal directions, because leaves and nodes are not separated; MerkleHex.Binding compares proofs of the same shape likewise.
- MerkleHex.VerifyProof: siblings are encoded piece by piece, which UTF-8 allows; the error on text that has no encoding is not modelled. The leaf index is not checked, as in the original; shard metadata and content registration around it are not modelled.
- JSON text of the patch header: an abstract printer and parser, of which ZimRoundTrip.PatchRoundTrip assumes only that the one printed header reads back exactly if no object in its metadata repeats a printed key. The signed bulletin envelope is modelled to the character, before its UTF-8 encoding.
- Paths, file existence, temporary files, fsync and renames: a patch is installed or nothing is; aliasing of input and output paths is not modelled.
- Files that change while they are scanned: the two passes over an archive see the same bytes.
- Chunker sizes are naturals with a positive target; the gear table is any 256 values of 64 bits and the mask width any positive number of bits.
- Cdc.EditLocality: is about chunks that end within the common prefix; the number of chunks an edit can disturb beyond it is not bounded.
- Malformed recipe text and droplet blobs in the database, which loading skips, and the Merkle tree kept beside published droplets. A droplet table is read in the order its rows were first written; by FountainDecoding.DecodeOrderInsensitive another order of droplets that one payload accounts for changes at most which rank error is raised.
- Fetch.FetchAnyLoss: is about a node whose codec has no root of its own, which is how the node constructs it.
- Bulletin mode without a database, listing and watermark queries: the same tables behind simpler access paths.
- BulletinRuns.RunKeepsInv: leaves out the timestamps of watermarks, on which nothing else depends.
- BulletinServing.RunRaises: the caller's bulletin metadata is not modelled, so neither is the error of printing it inside the transaction.
- Display rows without publisher, and watermarks whose digest or root is NULL, which the declared columns exclude.
- Lock contention: each store, prune and restart is one step; RateLimit.RateBound needs no order of clock readings, so it covers them.
- Node ids are distinct and name the peers; peers are records in one table rather than linked objects.
- Gossip.QuietIsExact: fixes liveness during the round; with churn RunSafe and DeliveriesBounded hold.
- SwarmMesh.SwarmNetwork.RequestDroplets: runs to completion as one step, since the original never suspends inside it; how many droplets survive loss is arbitrary.
- The choice of fresh entropy and the tfp_core bip39 module, which is not part of this model, in front of the mnemonic fallback.

# petri: a verified model

petri runs agent workloads in micro-VMs. This project models its hardest logic in Dafny and proves
what that logic promises:

- **Layered block storage** (`Blocks`, `Layers`, `Stack`, `Drift`, `Crc`, `Sealed`, `SealedLaws`, `Store`,
  `Wire`, `Server`, `Handshake`, `Shared`). A virtual disk is a stack of read-only layers under one append-log
  scratch. Everything is proved against a flat byte array: unaligned reads, writes, zeroing and trims, the
  sealed file format and its checksum, content addressing, garbage collection, the NBD connection on any byte
  stream, and every interleaving of connections and live seals.
- **Freeze and serve** (`Images`, `Chains`, `ImageRuns`, `ImageRounds`). Rounds of serve, write and freeze grow
  parent chains across image stores; over every run, the next serve shows the bytes last frozen exactly when a
  condition on the frozen session holds. `Calendar` is the timestamp arithmetic.
- **Guest enforcement** (`Policy`, `Netfilter`, `Dns`, `Guest`, `Enforcement`, `Capture`). Two capability axes with
  ceilings, a first-match egress ruleset, a DNS proxy that runs concurrently with mode switches, all of them in one
  step system, and a shared output budget.
- **Instance lifecycle** (`Lifecycle`). Any number of drivers over one advisory lock and one persisted state.
- **Language-server framing** (`JsonRpc`).

Code that mutates is modelled by classes and loops (`LayeredDisk`, `ScratchLayer`, `MetaReader`, `LayerStore`,
`ImageRoot`, `Server`, `CapturedOutput`, `Instance`, `Reader`), each method proved against a specification
function or a stated property. Concurrency is modelled by step systems whose invariants hold in every run.

Outside the model, and entering as parameters: SHA-256 (`sha`; freedom from collisions is assumed only for the
finite set of inputs a run hashes, and only where stated), JSON, TOML, DNS message and address parsing, the
outcome of `nft`, processes, sockets and helpers, and faults of the backing medium (`Media`). `nft -f` is
atomic. Persisted lifecycle writes succeed, `create` has returned before other operations run, and no id is
created twice.

`dafny verify dfyconfig.toml` checks the whole project.

## Where the code and its comments differ

- A second freeze of one live session may not keep the session's bytes: blocks frozen before and trimmed since
  come back (`ImageRounds.TrimResurfaces`, `ImageRounds.RefreezeExample`). `ImageRounds.FreezeThenServe` gives the
  exact condition; the first freeze after a serve always meets it (`ImageRounds.RoundTrip`).
- "With the lock free the state is not a running dispatch" fails exactly when a driver process died in the middle
  of a dispatch (`Lifecycle.FreeNeverRunning`, `Lifecycle.StrandedExample`); the instance then refuses every operation.
- `read_message` says it reports a clean end of stream, but headers cut short are reported the same way
  (`JsonRpc.EndsWithoutBlankLine`, `JsonRpc.CutHeaderExample`).
- The proxy reads the level when a query arrives, so an answer may enter the sets of a ruleset installed later
  (`Dns.StaleExample`). That happens exactly for the query in hand at the switch, so at most once per ruleset and
  never when the proxy is idle (`Dns.StaleIff`).
- When storing a partly covered block fails, the disk's block buffer is not put back (stack.rs line 179). From then
  on reads panic, and so do writes, zeroings and trims that are not block-aligned. An aligned `write_zeroes` reports
  success but passes an empty payload to `write_block`, whose length check is a `debug_assert`: in a release build
  nothing is stored, also on a full medium, and the blocks take on whatever is stored next. "Indexed regions are
  disjoint and below the cursor" then fails (`Drift.ZeroOnFull`, `Drift.ZeroThenWrite`, `Drift.ZeroThenSeal`).
  `LayeredDisk.WriteAt` and `LayeredDisk.WriteZeroes` say exactly when the buffer is lost and when the log goes out of
  order; `Drift.HoldsWhatItReported` says, over every run, exactly which blocks no longer hold what was reported.

## Model

| member | source | states |
|---|---|---|
| Bytes.BEAt | crates/petri-nbd/src/protocol.rs:97-125 | Big-endian byte order: byte i of a field is the digit of weight 256 to the width minus 1 minus i. |
| Bytes.LEAt | crates/petri-nbd/src/layer.rs:377-412 | Little-endian byte order: byte i of a field is the digit of weight 256 to the i. |
| Blocks.NewGeometry | crates/petri-nbd/src/stack.rs:27-45 | A geometry is built exactly when the block size is non-zero and divides the virtual size. |
| Blocks.Resolve | crates/petri-nbd/src/stack.rs:123-136 | The reference meaning of a layer stack: the highest layer that populates a block wins, a hole is one block of zeroes. |
| Blocks.BlockIsSlice | crates/petri-nbd/src/stack.rs:125-136 | A resolved block is exactly its slice of the flat array the stack stands for. |
| Blocks.StoreSplices | crates/petri-nbd/src/stack.rs:163-188 | Read-modify-write of one block changes exactly the written bytes of the flat array. |
| Blocks.ForgetSplices | crates/petri-nbd/src/stack.rs:223-247 | Forgetting a block reveals exactly the lower layers in that block of the flat array and nothing else. |
| Layers.ImmutableLayer.ReadBlock | crates/petri-nbd/src/layer.rs:152-174 | A sealed or raw layer yields a block exactly when it populates it, with the contents its block map gives; only a payload cut off by the end of its file fails on a sound medium. |
| Layers.RawBaseShowsFile | crates/petri-nbd/src/layer.rs:98-109 | A raw base shows its file, zero-extended or cut to the virtual size, for any file length. |
| Layers.ScratchLayer.Create | crates/petri-nbd/src/layer.rs:195-208 | A fresh overlay is valid and populates nothing. |
| Layers.ScratchLayer.ReadBlock | crates/petri-nbd/src/layer.rs:221-231 | A block of the overlay reads as last stored, or is reported missing. |
| Layers.ScratchLayer.WriteBlock | crates/petri-nbd/src/layer.rs:233-242 | Storing a block updates exactly that block and keeps indexed regions disjoint and below the cursor; a write torn at any byte leaves contents, index and cursor as they were. An empty payload is written even on a full medium and always puts the log out of order: the block points at the cursor and takes on the next payload stored. |
| Layers.ScratchLayer.ForgetBlock | crates/petri-nbd/src/layer.rs:244-247 | Exactly the named block leaves the overlay; data and cursor stay. |
| Layers.TornWriteKeepsPayloads | crates/petri-nbd/src/layer.rs:233-246 | Whatever a torn write leaves at or past the append cursor, every indexed payload reads as before. |
| Stack.ResolveLower | crates/petri-nbd/src/stack.rs:125-136 | Walking the lower layers top down yields the resolved block; it can fail only on a failing medium or a cut file. |
| Stack.LayeredDisk.New | crates/petri-nbd/src/stack.rs:92-109 | A stack is composed exactly when every layer has the scratch's geometry. |
| Stack.LayeredDisk.ResolveBlock | crates/petri-nbd/src/stack.rs:125-136 | A resolved block is the block's slice of the disk's flat view. |
| Stack.LayeredDisk.ReadAt | crates/petri-nbd/src/stack.rs:140-159 | For every offset and length, with the block buffer or without it: out of range is refused; without the buffer a read panics exactly when it is in range and not empty; otherwise the result is exactly that slice of the flat view. |
| Stack.LayeredDisk.WriteAt | crates/petri-nbd/src/stack.rs:163-188 | For every offset and length: the flat view changes in exactly the written slice; out of range changes nothing; a failure part way leaves a written prefix that ends on a block boundary. The block buffer is lost exactly when storing a partly covered block failed, never for an aligned range. Without the buffer a write panics exactly when it is not empty and not aligned, its leading whole blocks are stored, and every hung block takes on the first of them. On a full medium the outcome follows from offset and length. |
| Stack.AlignedPiece | crates/petri-nbd/src/stack.rs:163-188 | However far a write of an aligned range has come, its next piece is a whole block. |
| Drift.ZeroOnFull | crates/petri-nbd/src/stack.rs:163-219 | On every disk whose medium is full: a write that starts with a partly covered block loses the block buffer, zeroing whole blocks then reports success, and exactly those blocks point at the append cursor. |
| Drift.LostBufferExample | crates/petri-nbd/src/stack.rs:140-219 | A concrete disk of one block: a write that fails, a zeroing that reports success, a read that panics. |
| Drift.ZeroThenWrite | crates/petri-nbd/src/stack.rs:163-219 | Zeroing whole blocks and writing others, both reported as done without the buffer: every block zeroed and not written shows the first block written. |
| Drift.ZeroThenSeal | crates/petri-nbd/src/layer.rs:270-347 | A seal after such a zeroing fails, or files for every zeroed block what a torn write left past the cursor. |
| Drift.Extend | crates/petri-nbd/src/layer.rs:233-247 | Over every run of the scratch its state is the replay of what it reported as done, and a run without empty payloads keeps regions disjoint and below the cursor. |
| Drift.HoldsWhatItReported | crates/petri-nbd/src/layer.rs:233-247 | After every run a block holds what was reported if and only if it was not last stored as nothing with the first payload stored since, if any, other than zeroes. |
| Stack.LayeredDisk.WriteZeroes | crates/petri-nbd/src/stack.rs:192-219 | As a write of zeroes, with the same failure prefix. Without the block buffer it panics exactly when the range is not empty and not aligned; otherwise it reports success, the wholly covered blocks hang, and the append log goes out of order exactly when there is one. |
| Stack.LayeredDisk.Trim | crates/petri-nbd/src/stack.rs:223-247 | Wholly covered blocks reveal the lower layers, covered parts of other blocks read zero, nothing else changes; the same failure prefix. Without the block buffer whole blocks are forgotten, hung ones too, and it panics exactly when the range is not empty and not aligned. |
| Stack.LayeredDisk.Flush | crates/petri-nbd/src/stack.rs:250-252 | A flush that succeeds has put the whole scratch on stable storage; it changes nothing else and fails only on a failing medium. |
| Crc.Crc32 | crates/petri-nbd/src/layer.rs:499-509 | The bit-by-bit loop computes the CRC-32 register function of clause 3.2.9 of IEEE 802.3. |
| Crc.Residue | crates/petri-nbd/src/layer.rs:499-509 | A blob followed by its own CRC always leaves the residue 0xDEBB20E3 of the standard, which fixes the polynomial and the final complement. |
| Crc.EmptyCrc | crates/petri-nbd/src/layer.rs:499-509 | The CRC of the empty blob is 0, which fixes the initial value. |
| Crc.CheckValue | crates/petri-nbd/src/layer.rs:499-509 | The CRC of the nine bytes "123456789" is the standard's check value 0xCBF43926. |
| Crc.FeedIsSerial | crates/petri-nbd/src/layer.rs:499-509 | Byte-wise feeding equals shifting in the message one bit at a time. |
| Crc.BurstDetected | crates/petri-nbd/src/layer.rs:499-509 | Messages of one length that differ only within 32 consecutive bits have different CRCs. |
| Crc.WindowDetected | crates/petri-nbd/src/layer.rs:499-509 | So do blobs of one length that differ only within four consecutive bytes. |
| Sealed.Sorted | crates/petri-nbd/src/layer.rs:270-347 | The keys of a B-tree map in iteration order: ascending, complete, without repetition. |
| Sealed.WriteMeta | crates/petri-nbd/src/layer.rs:377-401 | The metadata blob grown field by field is the encoding of geometry, id, parents and ascending index. |
| Sealed.Compact | crates/petri-nbd/src/layer.rs:297-334 | The compaction loop packs the live payloads in key order and collects their index and the hash pre-image; it can fail only on a failing medium. |
| Sealed.Seal | crates/petri-nbd/src/layer.rs:270-347 | For every overlay state the sealed file is a function of geometry, parents and what the index reads out, so any history of overwrites and trims gives the same bytes; refused exactly for more than 65535 parents; it fails when an indexed payload is cut off by the end of the file, and otherwise only when the scratch cannot be read or the output cannot be written. |
| Sealed.MetaReader.Next | crates/petri-nbd/src/layer.rs:517-530 | Taking n bytes advances exactly n or fails without moving. |
| Sealed.ReadMeta | crates/petri-nbd/src/layer.rs:464-495 | Decoding is total on arbitrary bytes, equals the specification, and takes a number of steps bounded by the input length whatever the stored counts claim. |
| SealedLaws.OpenSealed | crates/petri-nbd/src/layer.rs:116-131 | Opening any byte string equals its specification, error by error. |
| SealedLaws.MetaRoundTrip | crates/petri-nbd/src/layer.rs:377-401 | Metadata decodes to what was encoded. |
| SealedLaws.FooterRoundTrip | crates/petri-nbd/src/layer.rs:403-461 | The footer's length, checksum, version and magic read back. |
| SealedLaws.MetaLayout | crates/petri-nbd/src/layer.rs:377-401 | The metadata blob field by field at its offsets: block size, virtual size, hash, id, parent count, each parent, entry count, each entry in ascending order. |
| SealedLaws.FileLayout | crates/petri-nbd/src/layer.rs:297-412 | The file is payloads, metadata and footer; the footer holds the metadata's length and CRC, version 2 and the magic, at fixed offsets from the end. |
| SealedLaws.PayloadLayout | crates/petri-nbd/src/layer.rs:297-334 | The i-th block in ascending order has the i-th payload, and its index entry points there. |
| SealedLaws.PreImageLayout | crates/petri-nbd/src/layer.rs:297-334 | The hashed pre-image field by field: domain, geometry, parents, and each block in ascending order with its digest. |
| SealedLaws.SealOpenRoundTrip | crates/petri-nbd/src/layer.rs:270-347 | Seal then open is the identity: geometry, id, parents, index and file. |
| SealedLaws.SealedBlocks | crates/petri-nbd/src/layer.rs:270-347 | The reopened layer populates exactly the sealed blocks with exactly their payloads, each inside the file. |
| SealedLaws.ContentsSealable | crates/petri-nbd/src/layer.rs:270-347 | Every overlay of a disk whose full index fits 64 bits can be sealed and reopened. |
| SealedLaws.CorruptionRejected | crates/petri-nbd/src/layer.rs:414-461 | Any damage within four consecutive metadata bytes of a layer that opens makes it fail its checksum. |
| SealedLaws.PreImageInjective | crates/petri-nbd/src/layer.rs:297-334 | The hashed pre-image determines geometry, parents and every block's digest. |
| SealedLaws.SameIdSameLayer | crates/petri-nbd/src/layer.rs:297-347 | Without hash collisions, equal content ids mean equal geometry, parents and blocks. |
| Store.LayerStore.SealInto | crates/petri-nbd/src/store.rs:48-67 | The layer is filed under its content id unless one is there already; refused and failed seals change nothing. |
| Store.LayerStore.AdoptSealed | crates/petri-nbd/src/store.rs:74-91 | A file is adopted exactly when it opens, under its own id, and an existing copy is kept. |
| Store.LayerStore.Mark | crates/petri-nbd/src/store.rs:143-154 | The explicit-stack mark terminates on any parent graph, cyclic ones included, and marks exactly the layers a root reaches through stored parents. |
| Store.LayerStore.Gc | crates/petri-nbd/src/store.rs:143-166 | Exactly the reachable layers stay and exactly the rest is returned; a reachable layer that does not open stops it with nothing removed. |
| Store.KeptKeepsParents | crates/petri-nbd/src/store.rs:143-166 | No kept layer loses a stored parent or its bytes. |
| Store.GcIdempotent | crates/petri-nbd/src/store.rs:143-166 | A second collection removes nothing. |
| Store.FiledUnderItsId | crates/petri-nbd/src/store.rs:48-91 | Filing keeps the store content-addressed, and what is found under the id is that very file, new or deduplicated. |
| Wire.RequestRoundTrip | crates/petri-nbd/src/protocol.rs:128-149 | A request header reads back, whatever bytes follow. |
| Wire.ReplySlices | crates/petri-nbd/src/protocol.rs:151-155 | A reply field by field at its offsets: magic, error, handle, data. |
| Wire.RepliesRoundTrip | crates/petri-nbd/src/protocol.rs:151-155 | A client that knows only the protocol and the lengths it asked for reads back exactly the replies written, and then what follows. |
| Server.ExecMeans | crates/petri-nbd/src/server.rs:301-399 | One command on the flat array, code by code and byte by byte: when it is refused and how, what a read returns, and every byte after a write, zeroing or trim. |
| Server.Command | crates/petri-nbd/src/server.rs:301-399 | One command on the layered disk, with its block buffer or without it, gives the reply and contents, or the panic, of the flat array; when the medium fails the reply is EIO and exactly a prefix of the command, ending on a block boundary, has taken effect. A flush or forced write answered with success has made the scratch durable. |
| Server.Transmission | crates/petri-nbd/src/server.rs:287-402 | On every byte stream and every medium the command loop's output, consumption, ending and disk equal those of the flat array under the faults that occurred, past the loss of the block buffer and up to the end of the stream or a panic; without faults, those of the plain flat array. |
| Server.NoFaults | crates/petri-nbd/src/server.rs:287-402 | A run without faults on a disk with its block buffer is the run of the plain flat array. |
| Server.WireRun | crates/petri-nbd/src/server.rs:287-402 | For every encoded command list: 28 bytes (plus payload) consumed per request, one reply each in order with its handle, flat-array codes and data, framing kept across error replies. |
| Server.ClientSees | crates/petri-nbd/src/server.rs:287-402 | The client of any command list reads off the wire, for each command, its reply on the flat array, in order, and nothing more. |
| Server.WireEnds | crates/petri-nbd/src/server.rs:294-325 | End of stream, a disconnect and an oversized write end the run; nothing after the last two is read. |
| Server.ReadOnlyKeeps | crates/petri-nbd/src/server.rs:301-399 | On a read-only export no byte stream changes the disk, whatever the medium does. |
| Handshake.OptionRoundTrip | crates/petri-nbd/src/server.rs:236-248 | An option reads back with its data, whatever bytes follow. |
| Handshake.OptionAnswerRead | crates/petri-nbd/src/server.rs:249-283 | A client reads from the answer to any option exactly what it is told: size and flags, with 124 zero bytes after export-name unless waived, an acknowledgement, or that it is unsupported; whatever follows. |
| Handshake.FlagBits | crates/petri-nbd/src/server.rs:404-410 | The export flags bit by bit; the read-only bit is that of the export. |
| Handshake.ServeConnection | crates/petri-nbd/src/server.rs:215-284 | On every byte stream and every medium the whole connection — greeting, haggling, commands — equals its specification over the flat array under the faults that occurred, and a sound medium has none. |
| Handshake.HaggleRun | crates/petri-nbd/src/server.rs:236-284 | Any number of queries and unknown options before entry are answered in turn without losing framing. |
| Handshake.WholeConnection | crates/petri-nbd/src/server.rs:215-402 | For every client script of flags, options, entry and commands the server sends exactly greeting, option answers and flat-array replies, and reads exactly the script. |
| Handshake.ClientTalks | crates/petri-nbd/src/server.rs:215-402 | A whole connection as its client reads it, knowing only the protocol: greeting, what each option asked, the export entered, each command's reply on the flat array, then nothing more. |
| Shared.Linearizable | crates/petri-nbd/src/server.rs:199-402 | Every interleaving of any number of connections and live seals, block by block and on any medium, with failed commands, a lost block buffer, panics and the poisoned lock, is explained by one sequential order on a flat array: replies, panics, per-thread order, and the disk whenever the lock is free. Every snapshot opens as a layer over exactly the parents asked for, under its content id, and shows the array at its place. |
| Shared.LinearizableWithoutFaults | crates/petri-nbd/src/server.rs:199-402 | Where nothing fails every command is answered as the plain flat array answers it at its place in the order, and every snapshot opens as a layer over the parents asked for, under its content id, that shows exactly the array. |
| Shared.SealLive | crates/petri-nbd/src/server.rs:127-132 | Sealing the scratch itself gives the very file of the seal step. |
| Shared.RealTime | crates/petri-nbd/src/server.rs:199-402 | The sequential order respects real time, on any medium: it only grows at its end, and a command answered before another one began comes before it. |
| Shared.StepKeeps | crates/petri-nbd/src/server.rs:301-399 | Every single step of every thread, failures and panics included, keeps the linearization invariant. |
| Shared.ReadOnlyNeverChanges | crates/petri-nbd/src/server.rs:301-399 | On a read-only export the view is the initial one in every reachable state, also mid-command. |
| Images.Lower | crates/petri/src/image.rs:885-898 | The walk over all stores returns the first-parent chain bottom-first, or stops at a layer that is missing or does not open; it terminates when parents sit lower than children. |
| Images.WalkMeans | crates/petri/src/image.rs:885-898 | A walk to the bottom layer by layer: the top is the layer asked for, each other the first parent of the one above, and the lowest has none. |
| Images.ImageRoot.Create | crates/petri/src/image.rs:361-395 | A new image is refused exactly when the name exists; its wrapped 64-bit size always gives a valid geometry. |
| Images.SizeMeans | crates/petri/src/image.rs:361-380 | 8 GiB unless given, otherwise that many GiB as long as they fit 64 bits. |
| Images.ImageRoot.CreateFrom | crates/petri/src/image.rs:396-446 | A derived image is created exactly from a frozen, stored, readable layer and inherits its size and id. |
| Images.ImageRoot.ServeScratch | crates/petri/src/image.rs:857-880 | A serve yields an empty scratch over the walked chain with its geometry, and cannot fail when every walk meets whole layers of one geometry. |
| Images.ImageRoot.AutoFreeze | crates/petri/src/image.rs:928-977 | A freeze seals what the scratch's index reads out over the image's current parent, adopts, replaces the tag and rolls a new scratch; refusals and failed seals change nothing, and on a sound medium with whole payloads every legal tag of a known image succeeds. |
| Images.TagMeans | crates/petri/src/image.rs:148-165 | Every tag may be frozen to but the empty one, "scratch", and those with a colon in them. |
| Images.RefMeans | crates/petri/src/image.rs:134-145 | A reference names an image and a tag exactly when it is a non-empty name without a colon, a colon and a non-empty tag. |
| Images.NewestTag | crates/petri/src/image.rs:981-1059 | After a freeze, looking the tag up gives the layer just frozen, whatever carried the tag before. |
| Images.OtherTag | crates/petri/src/image.rs:981-1059 | Every other tag still leads to the layer it led to. |
| Chains.ChainUnique | crates/petri/src/image.rs:885-898 | Without hash collisions, one id ends exactly one chain. |
| Chains.WalkFollowsChain | crates/petri/src/image.rs:885-898 | Any walk from the end of a stored chain follows that chain down, layer by layer. |
| Chains.ChainIsWalk | crates/petri/src/image.rs:885-898 | The whole chain, bottom-first, is a walk that reaches the bottom. |
| ImageRuns.EveryRun | crates/petri/src/image.rs:361-1059 | In every run of create, derive, serve, write and freeze over any images the stores are content-addressed and closed under parents, every tag leads to a stored layer, every scratch stands on a stored chain of its geometry, and each live session's image stands on the chain it was served over plus what the session froze. |
| ImageRuns.FreezeShowsIff | crates/petri/src/image.rs:928-1059 | A freeze leaves a chain that shows the session's bytes if and only if no block the session froze earlier has left its scratch while its frozen payload differs from the layers the session was served over. |
| ImageRounds.FreezeThenServe | crates/petri/src/image.rs:857-1059 | Over every run: from a freeze until the next freeze of the image, every serve of it shows exactly the bytes of the frozen session if and only if that condition held. |
| ImageRounds.RoundTrip | crates/petri/src/image.rs:857-1059 | Over every run: the first freeze after a serve keeps the session's bytes, and every serve until the next freeze shows them, through any other operations before, between and after. |
| ImageRounds.FreezeThenDerive | crates/petri/src/image.rs:396-446 | Over every run: an image derived from a frozen tag and not frozen since shows the bytes of the session frozen under the tag, under the same exact condition. |
| ImageRounds.DerivedRoundTrip | crates/petri/src/image.rs:396-446 | Serve, write, freeze, derive, serve: the derived image shows the session's bytes. |
| ImageRounds.TrimResurfaces | crates/petri/src/image.rs:928-1059 | Freezing and then trimming a block that differs from the layers below always breaks the condition for the next freeze. |
| ImageRounds.TrimAndRefreeze | crates/petri/src/image.rs:928-1059 | From every state with such a block the operations freeze, trim, freeze are possible and end there. |
| ImageRounds.RefreezeExample | crates/petri/src/image.rs:928-1059 | A concrete six-event run after which the next serve does not show what the session showed. |
| ImageRounds.WalkTerminates | crates/petri/src/image.rs:885-898 | In every reachable world parents sit lower than children, so the walk terminates. |
| ImageRounds.NextServe | crates/petri/src/image.rs:857-898 | In every reachable world a serve of any image reaches the bottom and meets only whole, readable layers of one geometry. |
| ImageRounds.CreateReachable | crates/petri/src/image.rs:361-395 | The create method is the create step of the runs, or changes nothing. |
| ImageRounds.DeriveReachable | crates/petri/src/image.rs:396-446 | The derive method is the derive step of the runs, or changes nothing. |
| ImageRounds.ServeReachable | crates/petri/src/image.rs:857-880 | The serve method never fails on a reachable world, is the serve step, and its disk shows what every serve shows. |
| ImageRounds.FreezeReachable | crates/petri/src/image.rs:928-1059 | The freeze method on the live disk of a session is the freeze step, or changes nothing; on a sound medium with whole payloads every legal tag succeeds. |
| Calendar.CivilExact | crates/petri/src/image.rs:334-351 | For every day number the formula yields a valid Gregorian date whose independently counted day number it is. |
| Calendar.CivilInverts | crates/petri/src/image.rs:334-351 | Every valid date comes back from its day number. |
| Calendar.CivilSteps | crates/petri/src/image.rs:334-351 | Day 0 is 1 January 1970 and each next day is the calendar successor. |
| Calendar.CivilIncreases | crates/petri/src/image.rs:334-351 | Later days give later dates. |
| Calendar.CivilBounds | crates/petri/src/image.rs:334-351 | Year of era, day of year, month and day stay within [0,399], [0,365], [1,12] and [1,31]. |
| Calendar.FromUnixExact | crates/petri/src/image.rs:321-330 | The timestamp fields are in range and stand for exactly that second. |
| Policy.ParseCommandLevel | crates/petri-protocol/src/policy.rs:37-45 | A name parses to a level exactly when it is that level's wire name. |
| Policy.ParseNetworkLevel | crates/petri-protocol/src/policy.rs:95-102 | A name parses to a level exactly when it is that level's wire name. |
| Policy.ValidateCommandSet | crates/petri-protocol/src/policy.rs:350-364 | A command list is accepted exactly when its entries are executable names without repetition, as that set. |
| Policy.ValidateAllowlist | crates/petri-protocol/src/policy.rs:328-348 | An allowlist is accepted exactly when its entries are non-empty, free of white space and distinct, unchanged. |
| Policy.BuildCommandPolicy | crates/petri-protocol/src/policy.rs:240-279 | Accepted exactly in one of the two shapes with known, ordered levels. What each level allows is exactly what the raw lists say: nothing, the read-only list, both lists, anything; the legacy list allows exactly its commands at a fixed level. |
| Policy.ShellNamesRefused | crates/petri-protocol/src/policy.rs:366-385 | A name with a path separator, a shell operator or white space anywhere in it is no command name. |
| Policy.PlainNamesAccepted | crates/petri-protocol/src/policy.rs:366-385 | A name of ASCII letters, digits, dots, dashes and underscores is one. |
| Policy.BuildNetworkPolicy | crates/petri-protocol/src/policy.rs:284-323 | Accepted exactly when well formed and enabled; a disabled network is pinned at none. |
| Policy.Validate | crates/petri-protocol/src/policy.rs:203-234 | A document loads exactly when limits, workspace and both axes are well formed, and what loads says what the document says: levels, command lists, allowlist and limits. |
| Netfilter.MakePlan | crates/petri-guest/src/netfilter.rs:37-69 | The classified sets, skipped domains and rendered chain are those the level specifies. |
| Netfilter.Render | crates/petri-guest/src/netfilter.rs:124-182 | The chain written rule by rule is the specified rule list with empty resolved sets. |
| Netfilter.PlanExact | crates/petri-guest/src/netfilter.rs:37-182 | First-match evaluation accepts exactly the packets a rule-free reading of the level lets out, for every allowlist, packet and resolved set. |
| Netfilter.LevelsNest | crates/petri-guest/src/netfilter.rs:37-182 | None lets out no more than allowlist, and allowlist no more than full. |
| Netfilter.NoDnsAroundProxy | crates/petri-guest/src/netfilter.rs:157-168 | With domains listed no new, off-machine, non-root flow to port 53 or 853 is accepted, even to an allowlisted address. |
| Netfilter.DomainsSkipped | crates/petri-guest/src/netfilter.rs:52-67 | The plan skips domains exactly when the allowlist has entries that are not address literals. |
| Netfilter.ClassifiedByAddress | crates/petri-guest/src/netfilter.rs:79-90 | An entry is classified by its address alone, IPv4 before IPv6; a prefix length changes nothing. |
| Dns.FromAllowlist | crates/petri-guest/src/dnsproxy.rs:73-95 | A matcher is built exactly when the allowlist has domains, and matches exactly the names some domain entry stands for. |
| Dns.EntryMeans | crates/petri-guest/src/dnsproxy.rs:60-115 | What an entry stands for in its own characters, for every entry and name: itself, or the names below the suffix of a wildcard, up to ASCII case and trailing dots. |
| Dns.DotsDoNotMatter | crates/petri-guest/src/dnsproxy.rs:113-115 | Trailing dots make no difference to what is permitted. |
| Dns.CaseDoesNotMatter | crates/petri-guest/src/dnsproxy.rs:113-115 | Names equal up to ASCII case are permitted alike. |
| Dns.ProxyNeeded | crates/petri-guest/src/dnsproxy.rs:73-95 | The proxy is needed exactly when the plan has skipped domains. |
| Dns.ExtractAddrs | crates/petri-guest/src/dnsproxy.rs:262-277 | Exactly the A and AAAA addresses of the answer section are collected, by family, each with its TTL. |
| Dns.HandleQuery | crates/petri-guest/src/dnsproxy.rs:170-227 | Relayed exactly when the request parses, the level or the matcher allows it and upstream answered; addresses are admitted exactly from an answer to a permitted first question at the allowlist level; form error, refusal and server failure exactly otherwise. |
| Dns.Configure | crates/petri-guest/src/dnsproxy.rs:73-95 | The proxy is configured exactly when the allowlist has domains, with a matcher that permits exactly what the allowlist permits. |
| Dns.EveryRun | crates/petri-guest/src/dnsproxy.rs:303-329 | In every interleaving of proxy steps, expiry and mode switches the resolved sets hold only addresses admitted into the present ruleset for questions the allowlist permits, and the ruleset is that of the installed level. |
| Dns.EgressSound | crates/petri-guest/src/netfilter.rs:37-182 | In every reachable state a new unprivileged flow leaves only to a listed literal or to an address admitted since the present ruleset was installed for a name the allowlist permits, unless the level is full. |
| Dns.QuietMatches | crates/petri-guest/src/server.rs:404-440 | Between mode switches the installed ruleset is that of the published level. |
| Dns.StaleIff | crates/petri-guest/src/dnsproxy.rs:303-329 | In every run an admission into a ruleset answers a question asked before that ruleset was installed if and only if the proxy had that very query in hand at the installation; with an idle proxy there is none, and otherwise at most one, the first. |
| Dns.StaleExample | crates/petri-guest/src/dnsproxy.rs:303-329 | A concrete four-step run with such an admission. |
| Guest.Server.Boot | crates/petri-guest/src/netfilter.rs:212-228 | Boot installs the default level's ruleset, and fails exactly when a required one could not be installed. |
| Guest.Server.SetMode | crates/petri-guest/src/server.rs:297-443 | A mode switch succeeds exactly when well formed, within both ceilings and installable; then exactly the named axes move, otherwise nothing does. |
| Guest.Server.BashCommand | crates/petri-guest/src/server.rs:205-287 | A command starts exactly when it is an executable name, allowed at the active level, in the workspace, with the effective limits. |
| Guest.Server.CheckLimits | crates/petri-guest/src/server.rs:152-184 | Requested limits pass exactly when positive and within policy. |
| Guest.Server.Route | crates/petri-guest/src/server.rs:45-203 | Through all checks in order: what launches, what switches and what succeeds is exactly what the declarative conditions say. |
| Guest.Server.ProxyActs | crates/petri-guest/src/dnsproxy.rs:303-329 | Between frames the proxy may change the resolved sets of the present ruleset and nothing else. |
| Guest.Server.HandleFrame | crates/petri-guest/src/server.rs:45-203 | Every frame keeps levels within ceilings and records a sound entry; a launch is the named program with exactly the limits requested, or those of the policy; a frame that is not an accepted switch changes neither level nor ruleset, and an accepted network switch installs the fresh ruleset of the new level. |
| Guest.Server.ServeLines | crates/petri-guest/src/server.rs:18-43 | A connection starts at the default command level and answers each frame once, in order. |
| Guest.Server.ServeConnections | crates/petri-guest/src/main.rs:69-91 | Over any frames on any successive connections, with the proxy acting in between: levels within ceilings, no change on non-success, every launch allowed at the ceiling within limits, and the ruleset that of the active level with its present resolved sets. |
| Guest.LaunchWithin | crates/petri-guest/src/server.rs:501-528 | A launchable command is allowed at the ceiling, with positive timeout and output cap within policy. |
| Guest.EgressWithinCeiling | crates/petri-guest/src/server.rs:404-440 | Enforced egress, resolved addresses included, never exceeds what the network ceiling lets out with those resolved sets. |
| Enforcement.EveryGuardedRun | crates/petri-guest/src/server.rs:297-443 | In every interleaving of frames, the two halves of a mode switch, and proxy steps, the installed and the published level stay within the ceiling, so does the command level, and every launch is allowed within policy. |
| Enforcement.LevelComesFrom | crates/petri-guest/src/server.rs:297-443 | In every such run the command level is the default or was named by an accepted switch since the last connection was opened. |
| Enforcement.LaunchedAsWritten | crates/petri-guest/src/server.rs:205-287 | In every such run every process was started at a level whose lists, as the policy document writes them, name it, within the document's limits. |
| Enforcement.GuardedEgress | crates/petri-guest/src/server.rs:404-440 | In every such run what the kernel accepts is let out by the ceiling with the present resolved sets, each of them vouched for by a permitted question; below a full ceiling a new unprivileged flow goes only to a listed or a vouched address. |
| Enforcement.HandleAsSteps | crates/petri-guest/src/server.rs:45-203 | The frame handler alone is exactly the frame step followed by publication of the level, launches included. |
| Capture.CapturedOutput.Append | crates/petri-guest/src/server.rs:767-788 | The budget is never exceeded, each buffer stays a prefix of its stream, and truncation is reported exactly when more was written than the budget. |
| Capture.Collect | crates/petri-guest/src/server.rs:794-815 | For every schedule of the two readers and every chunking: truncated exactly when the streams together exceed the cap, otherwise both captured whole. |
| Lifecycle.Instance.Dispatch | crates/petri/src/backend.rs:626-662 | A dispatch is refused exactly off ready and never leaves the instance running: ready after an answer or a recoverable error, failed otherwise. |
| Lifecycle.Instance.Stop | crates/petri/src/backend.rs:664-691 | A stop is refused exactly outside booting and ready; unable to reach the helper it leaves the instance stopping. |
| Lifecycle.Instance.Teardown | crates/petri/src/backend.rs:693-717 | A teardown is refused exactly on a running dispatch and otherwise ends with the state gone or torn down. |
| Lifecycle.AloneAsInstance | crates/petri/src/backend.rs:626-717 | Run alone on a free lock, the steps of each operation leave exactly the state the operation's method promises. |
| Lifecycle.StepKeeps | crates/petri/src/backend.rs:626-717 | Every step of any driver, death included, keeps the lock-protocol invariant. |
| Lifecycle.EveryRun | crates/petri/src/backend.rs:626-717 | So does every run of any number of drivers over any lock-file generations. |
| Lifecycle.FreeNeverRunning | crates/petri/src/backend.rs:626-717 | With the lock free the state is a running dispatch if and only if a driver died mid-dispatch; unless one did, no teardown was ever refused. |
| Lifecycle.NobodyDied | crates/petri/src/backend.rs:626-717 | Only a dying driver strands an instance. |
| Lifecycle.StrandedForever | crates/petri/src/backend.rs:626-717 | No step of any driver changes a stranded instance again. |
| Lifecycle.StrandedExample | crates/petri/src/backend.rs:626-717 | A concrete run that strands a ready instance; dispatch, stop and teardown are refused from there. |
| Lifecycle.TornDownFinal | crates/petri/src/backend.rs:693-717 | Torn-down is final until removal and a removed state does not come back. |
| Lifecycle.ConcurrentDispatches | crates/petri/src/backend.rs:626-662 | Any number of concurrent dispatches on a ready instance with a live guest see no lifecycle error, and the instance is ready whenever the lock is free. |
| JsonRpc.DecimalRoundTrip | crates/petri-guest/src/lsp/jsonrpc.rs:319-324 | A printed length parses back. |
| JsonRpc.ParseUsizeMeans | crates/petri-guest/src/lsp/jsonrpc.rs:343-347 | A length parses to n exactly when it is a decimal numeral of n, with any leading zeros and perhaps a plus sign, that fits 64 bits. |
| JsonRpc.LengthForms | crates/petri-guest/src/lsp/jsonrpc.rs:343-347 | The length header is recognised in any case, with white space around name and value, and any numeral that fits. |
| JsonRpc.WriteMessage | crates/petri-guest/src/lsp/jsonrpc.rs:319-324 | The frame is appended to the wire. |
| JsonRpc.TextMeans | crates/petri-guest/src/lsp/jsonrpc.rs:331-332 | A header line is text exactly when it is the UTF-8 form of some sequence of Unicode scalar values. |
| JsonRpc.Reader.ReadLine | crates/petri-guest/src/lsp/jsonrpc.rs:331-336 | One line up to and including the first line feed, or the rest of the input. |
| JsonRpc.Reader.ReadMessage | crates/petri-guest/src/lsp/jsonrpc.rs:328-367 | On any input the header loop and body read equal their specification — bad UTF-8 in a header line, bad lengths, missing headers, short and non-JSON bodies included — and advance to the end of the message. |
| JsonRpc.ReadAll | crates/petri-guest/src/lsp/jsonrpc.rs:328-367 | Repeated reads yield the specified messages and ending on any input. |
| JsonRpc.FrameRead | crates/petri-guest/src/lsp/jsonrpc.rs:319-367 | One written frame reads back exactly, whatever follows it. |
| JsonRpc.OtherHeadersIgnored | crates/petri-guest/src/lsp/jsonrpc.rs:328-367 | Any other well-formed headers before and after the length leave the message read unchanged. |
| JsonRpc.StreamRoundTrip | crates/petri-guest/src/lsp/jsonrpc.rs:319-367 | Any list of JSON bodies within the cap, written one after another, reads back as exactly that list and then end of stream. |
| JsonRpc.Exchange | crates/petri-guest/src/lsp/jsonrpc.rs:319-367 | The writing and the reading loop, one after the other, give back exactly the bodies. |
| JsonRpc.EndsWithoutBlankLine | crates/petri-guest/src/lsp/jsonrpc.rs:328-345 | End of stream is reported if and only if no blank line follows and every line is text, so headers cut short look like a clean end. |
| JsonRpc.CutHeaderExample | crates/petri-guest/src/lsp/jsonrpc.rs:334-337 | A concrete input of that kind. |

## Left out

- Shared.Linearizable: clients send whole commands; streams cut anywhere are covered by `Server.Transmission`, one connection at a time.
- Shared.RealTime: assumes the same.
- ImageRuns.EveryRun: one live handle per image. After a freeze the code leaves the first handle live on the unlinked scratch file when the image is served again; that handle is not followed.
- Images.Lower: takes the absence of parent cycles, on which image.rs would loop, as given; `ImageRounds.WalkTerminates` proves it for every reachable world.
- Images.ImageRoot.ServeScratch: takes the same as given.
- Calendar.CivilExact: unbounded integers; the 64-bit day counts the caller passes cannot overflow.
- `image::delete`, tag overwrite as a dangling-parent question, and deleting store layers by hand.
- The append cursor and file offsets are unbounded; a log of 2^64 bytes is not modelled.
- The order of the ids a garbage collection returns; they are a set here.
- Hex forms of content ids, and files in a store directory whose names are not ids.
- Accept loops, sockets, threads as such, vsock and process spawning; threads are step systems.
- TTL values of resolved addresses: an element may expire at any step.
- IP and CIDR syntax: which literals parse and which addresses they cover are parameters.
- Codes and texts of error frames beyond those the guest's contracts name; elapsed times.
- Canonicalisation of working directories; whether one lies in the workspace is an input.
- Which bodies are JSON is a parameter.
- `debug_assert` checks: the model is of a release build.
- Request/response correlation and restart of language servers, and the text of RFC 3339 timestamps.
- Writes of the lifecycle state that fail or tear, and `create` racing other operations.
- The CLI, image build pipeline, VM boot, SDK clients, policy templates, examples and benchmarks: plumbing with easy claims only.

# A verified model of the BitTorrent daemon

This project models the parts of the daemon whose correctness spans functions, and proves them with Dafny:

- **The download engine.** Files on disk are one byte space: writing a block is one splice of it, reading is one
  slice. The peer loops with their piece guards are a transition system over any number of peers that may receive any
  messages. A step keeps each piece with exactly one owner and each counted byte with an owner if and only if it meets
  a condition on its guard; so does every run. With honest blocks that answer what was requested, every marked piece is
  good; a restart rebuilds the same from disk; and no state is a dead end.
- **A network of engines.** Connections carry in order what the peer loops send each other. Two of these engines
  request, write and count the first block of a connection twice; a run in which every block answers its request
  transfers nothing at all. So a piece can be marked, and served to others, before it is on disk. Among engines that
  fetch from each other in any way, what is marked or counted is true or can still arrive, and every reply is true,
  until an event of one of these kinds: a connection ends or a request is refused where such a byte was under way
  nowhere else, a peer loop goes on behind an ended one for such a byte, an engine serves bytes that are not true on
  its disk, or a session mistakes a piece on disk. Each of these breaks it, and no other event does. Every
  schedule of an exchange with a seeder comes to an end and leaves the client with the content. While nothing was lost
  all clients of a seeder can complete as they are; with a new session of each engine, every state of every network
  with a seeder can be completed.
- **Creating a torrent.** However its reads are split, the creator hashes the pieces that the verifier checks, and
  the torrent it writes loads unchanged with the info hash it computed.
- **Bencode and metainfo.** The decoder accepts exactly the texts of a written-out grammar; decoder and encoder are
  inverse, exactly on canonical input; the raw scanner for the info dictionary agrees with the decoder exactly when a
  stated condition on the keys holds. Torrent files are given to the letter, and which files load, field by field.
- **Wire formats and selection.** The bytes of messages, handshakes and bitfields as the standards give them, metadata
  exchange, magnet links parameter by parameter, and rarest-first picking.

`dafny verify dfyconfig.toml` checks everything.

## Layout

| file | models |
|---|---|
| `Prelude.dfy`, `Utf8.dfy`, `Utf8Scalars.dfy`, `Decimal.dfy` | bytes, sums and splices; Rust's strings, their code points, and integer texts |
| `Bencoding.dfy`, `BencodingProofs.dfy`, `Grammar.dfy` | `crates/core/src/bencode.rs`; the texts it reads and writes |
| `Metainfo.dfy`, `MetainfoProofs.dfy`, `MetainfoTexts.dfy`, `MetainfoLoads.dfy` | `crates/core/src/meta.rs`; torrent files to the letter, and what loads |
| `Geometry.dfy` | the piece and block arithmetic of `crates/daemon/src/engine.rs` |
| `Swarm.dfy`, `SwarmProofs.dfy`, `SwarmTruth.dfy`, `SwarmProgress.dfy`, `QueueOrder.dfy` | the scheduler of `crates/daemon/src/engine.rs` as a transition system: who owns what, what is true on disk, what can always be completed, in which order pieces are fetched |
| `Network.dfy`, `Connections.dfy`, `NetworkOrder.dfy`, `Greetings.dfy` | several engines and their connections, what each event does, when blocks answer requests, and why nothing is transferred while they do |
| `Sharing.dfy`, `Losses.dfy`, `Seeding.dfy` | what engines rely on is true or can still arrive, and which events end this; clients of a seeder |
| `DoubledRequests.dfy`, `LostBlocks.dfy` | runs in which a piece is marked too early, and what they leave behind |
| `Exchange.dfy`, `Distribution.dfy`, `Completion.dfy` | one exchange from start to end; every engine completing, with new sessions and without |
| `Storage.dfy`, `FileLoops.dfy`, `Engine.dfy` | the files and the methods of `TorrentDownloader` |
| `Creator.dfy` | `crates/daemon/src/creator.rs` |
| `MagnetWorker.dfy`, `MagnetAnswers.dfy` | the metadata exchange of `crates/daemon/src/magnet_worker.rs`, and how it fails |
| `Wire.dfy` | `crates/peer/src/protocol.rs` |
| `Bitfields.dfy`, `Picker.dfy` | `crates/piece/src/lib.rs` and the packing in `peer_loop` |
| `Magnet.dfy`, `MagnetLinks.dfy` | `crates/core/src/magnet.rs`, `to_hex`, and the bare-hash expansion of `crates/daemon/src/server.rs` |
| `Differences.dfy` | one input for each condition of the exact results below |

## How the program is modelled

- SHA-1 is a parameter `H`, any function from bytes to 20 bytes. Nothing assumes that it is injective. Where a session
  has to trust what it finds on disk, the hypothesis `SwarmTruth.NoFalseMatch` is about that one disk: none of its
  pieces has the right hash and the wrong content. A running hasher is the sequence of bytes it was fed.
- A Rust string is a byte sequence that is valid UTF-8. The lossy conversion is modelled in full.
- A `BTreeMap` is the sequence of its entries in key order; `Insert` is its `insert`.
- A file system is a map from paths below the download directory to file contents.
- Machine integers are mathematical integers with the casts and wrap-arounds written out where the program casts
  (`as i64`, `as u64`, `as u32`, `% U32`) and with saturating subtraction where it saturates. Where the program
  subtracts without saturating, the model needs the proof that this cannot underflow.
- Every region under a lock and every file write is one step of the transition system; other tasks run in between.
  So counting a block, marking a piece, taking the next one, and the two halves of a refund are separate steps.
- A connection is two queues of messages. Reading one and writing the answer is one event; of the messages, those that
  `peer_loop` acts on are modelled (`crates/daemon/src/engine.rs:554-663`). A message is read whole (see *Messages*).
- A buffer or offset that the program passes by mutable reference is an in- and an out-parameter; the state of
  `TorrentDownloader`, the running hash, the stream reader, the bitfields and the picker are objects.
- Each loop of the program is a method with that loop, proved against a function on values; the lemmas are about the
  functions. The methods of `Engine.TorrentDownloader` are proved to take exactly one step of the transition system.

### Hypotheses

- *Metainfo* (`Geometry.WellFormed`): 0 < piece length < 2^32, one hash per piece, fewer than 2^32 pieces, and the
  size of the torrent state is the total of the file lengths. Where a doubled reply has to be counted without wrapping
  (`Exchange`, `Distribution`, `Completion`), the piece length leaves room for one more block below 2^32.
- *Files* (`Engine.TorrentDownloader.FilesReady`): distinct non-empty paths, each file present at its length. The
  first part is a property of the metainfo; `InitializeFiles` is proved to establish the second. Paths are compared
  part by part, so their parts are taken to be plain names: not empty, not `.` or `..`, without separators, not
  absolute. Without this hypothesis `FileLoops.BlockWritten` and `FileLoops.BytesRead` say what happens.
- *Sessions* (`Swarm.Restart`): a new session starts after the peer loops and refund tasks of the old one. The program
  aborts the announce worker with the loops of the peers it dialled (`crates/daemon/src/server.rs:814-866`), but a
  loop spawned for an incoming peer (`crates/daemon/src/server.rs:441-470`) keeps the old `TorrentDownloader` and goes
  on writing to the same files. So "no two peers" below means: no two of one session.
- *Answers* (`Swarm.Expected`), only where named: a Piece message answers the current request of an incomplete guard,
  and a peer loop does not end between counting the last block of a piece and marking it. The handler does not check
  the first. `SwarmProofs.StepKeepsExactly` needs neither and says what happens without them.
- *Honesty* (`SwarmTruth.Honest`), only where named: a block carries the true bytes of the place it names. For
  networks nothing of the kind is assumed; `Losses.StaysFaithfulExactly` says which events end it.
- *Messages* (`Network` and all that builds on it): a peer loop reads its messages whole. The program does not ensure
  this: the `select!` of `peer_loop` drops a read that has begun when a completed piece is announced
  (`crates/daemon/src/engine.rs:555-556`, `crates/daemon/src/engine.rs:668`), be it by another peer loop or by its own
  broadcast (`crates/daemon/src/engine.rs:608`), and then the rest of that frame is read as a new one.

### Where the code differs from what one might expect

- Every peer loop sends an Unchoke when it starts and another one in answer to Interested, and each Unchoke makes an
  incomplete guard send its request. So the first block of a connection between two of these engines is requested
  twice. The second copy is written to the same place, but the guard advances by its length, and from then on it is one
  block ahead of the disk: `DoubledRequests.MarksFalsely` runs two engines up to a marked piece whose last block is not
  on disk. This is no exception: in a run in which no guard asks twice, no block is ever read
  (`Greetings.SafeRunsTransferNothing`). `Losses.MarksAreSettled` says that the missing bytes can still arrive, as long
  as none was lost. They are lost when the connection ends at that moment: nothing is missing and nothing is requested
  again, so the piece stays marked and wrong until the next session (`LostBlocks.HangupLosesHalf`). They are also lost
  when the server's side ends after both copies were sent, because the client goes on and counts the second copy as the
  block it asks for in vain (`DoubledRequests.MarksInVain`). And a third engine may fetch the bytes before they are
  there, and then it keeps them until its next session (`DoubledRequests.FalseBytesStay`).
  `Losses.StaysFaithfulExactly` says for every event whether it does one of these things.
- The handler takes any Piece message, also one with another index or offset or for a complete guard.
  `SwarmTruth.OnlyAnswersExtend` says exactly which ones keep the guard's bytes true, `SwarmProofs.CreditExactly` which
  ones keep the byte count right.
- A peer loop cancelled between completing a piece and marking it loses the piece until the next session:
  `SwarmProofs.DropExactly`.
- `write_block` over several files passes over a missing one without advancing in the data, so its bytes overwrite the
  start of the next file: `FileLoops.MissingFileShifts`. A single missing file is an error.
- `decode` ignores the bytes after the first value, and a repeated dictionary key keeps its last value, while
  `find_info_dict_slice` returns the first (`Differences.DuplicateInfoKeyDisagrees`); it also looks for the spelling
  `4:info` only, while the decoder takes `04:info` as well (`Differences.PaddedInfoKeyIsNotScanned`).
  `BencodingProofs.ScannerAgreesExactly` says when the two agree.
- The decoder takes integers with a plus sign (`Differences.PlusSignIsLost`) or leading zeros, lengths with leading
  zeros, and dictionaries with unsorted or repeated keys (`Grammar.AnyOrderIsRead`). `BencodingProofs.ReencodeExactly`
  says that these are exactly the inputs that encode differently after decoding. Metadata of that kind passes a
  magnet's check and gets another info hash (`Differences.PlusMetadataIsRehashed`).
- A metainfo with empty tracker tiers does not load as it was: `Differences.EmptyTierIsLost`,
  `MetainfoProofs.MetaRoundTripExactly`.
- A space in a tracker does not survive the expansion of a bare hash, because the encoder writes `+` and the decoder
  keeps it: `Differences.SpacedTrackerChanges`, `Magnet.ExpansionKeepsTrackersExactly`. Only `magnet:?` in lower case
  parses, although the caller compares without regard to case.
- `read` does not look at the length of fixed-size messages (`Differences.WrongLengthIsRead`):
  `Wire.ReserializeExactly` says when a frame that was read is what `serialize` writes.
- Reading past the end of a torrent of several files returns zeros there, while a single file is refused:
  `FileLoops.OneFileLayoutsAgree`.
- The index at `crates/core/src/bencode.rs:101` panics at the end of the input, and the length at
  `crates/peer/src/protocol.rs:230` underflows for a Piece message shorter than its header; both are error results
  here. The sum at `crates/core/src/bencode.rs:126` is unbounded here.

## Model

| member | source | states |
|---|---|---|
| Bencoding.DecodeInner | crates/core/src/bencode.rs:60-135 | the offset-passing decoder returns what the grammar reads at the offset and moves the offset past exactly that; it terminates on every input |
| Bencoding.DecodeInteger | crates/core/src/bencode.rs:66-82 | the integer branch, with its three ways to fail |
| Bencoding.DecodeList | crates/core/src/bencode.rs:83-94 | the list loop collects the items up to the closing byte, in order |
| Bencoding.DecodeDict | crates/core/src/bencode.rs:95-111 | the dictionary loop ends with the map of all entries inserted in reading order |
| Bencoding.DecodeEntry | crates/core/src/bencode.rs:99-103 | one key and value; a key that is no string is an error carrying the next byte |
| Bencoding.DecodeString | crates/core/src/bencode.rs:112-132 | the byte string branch, with its ways to fail |
| Bencoding.DecodeBytes | crates/core/src/bencode.rs:55-58 | decoding reads the first value and ignores the rest |
| Bencoding.EncodeInner | crates/core/src/bencode.rs:143-175 | appending to the buffer writes the encoding of the value |
| Bencoding.FindInfoDictSlice | crates/core/src/bencode.rs:179-205 | the scan returns the bytes of the first value under a key spelled 4:info |
| Bencoding.LessTrichotomy | crates/core/src/bencode.rs:24 | the order of dictionary keys is total and strict |
| BencodingProofs.GetInsert | crates/core/src/bencode.rs:104 | inserting changes the lookup of that key and of no other |
| BencodingProofs.CollectIsLastWins | crates/core/src/bencode.rs:97-105 | a parsed dictionary has ascending keys, and a repeated key keeps its last value |
| BencodingProofs.RoundTrip | crates/core/src/bencode.rs:60-175 | every value decodes from its encoding, whatever follows, and takes exactly its bytes |
| BencodingProofs.RoundTripInContext | crates/core/src/bencode.rs:60-175 | the same at any offset inside any input |
| BencodingProofs.EncodingsArePrefixFree | crates/core/src/bencode.rs:137-175 | encoding is injective and no encoding is a prefix of another |
| BencodingProofs.ParseIsLocal | crates/core/src/bencode.rs:60-135 | a successful result depends only on the bytes consumed |
| BencodingProofs.ParsedIsValid | crates/core/src/bencode.rs:60-135 | whatever is decoded has 64-bit integers and ascending keys at every level, so it can be encoded and decoded again |
| BencodingProofs.ReencodeExactly | crates/core/src/bencode.rs:60-175 | encoding a decoded value gives back the consumed bytes if and only if they were canonical |
| BencodingProofs.ScannerFindsFirst | crates/core/src/bencode.rs:179-205 | on every dictionary the scanner returns the raw value of the first canonically spelled info key |
| BencodingProofs.ScannerAgreesExactly | crates/core/src/bencode.rs:95-111 | scanner and decoder agree on info if and only if the first canonically spelled info entry has the value of the last info entry |
| BencodingProofs.ScannerAgreesOnDistinctKeys | crates/core/src/bencode.rs:179-205 | they agree on every dictionary with distinct, canonically spelled keys |
| BencodingProofs.FindInfoOfEncoded | crates/core/src/bencode.rs:162-205 | on the encoding of a dictionary the slice is exactly the encoding of its info value |
| Grammar.TextIsRead | crates/core/src/bencode.rs:60-135 | every text of the grammar, with any spelling of its numbers and any order of its keys, is read as what it means, whatever follows |
| Grammar.DecodesExactly | crates/core/src/bencode.rs:55-135 | the decoder returns a value if and only if the input starts with a text of the grammar that means it |
| Grammar.IntExactly | crates/core/src/bencode.rs:66-82 | integers are an optional sign and decimal digits, within 64 bits, and nothing else |
| Grammar.WriterIsPlain | crates/core/src/bencode.rs:137-175 | what is encoded is the text with canonical numbers |
| Grammar.AnyOrderIsRead | crates/core/src/bencode.rs:95-111 | entries in any order of keys are read as the map in which the last of equal keys counts |
| Grammar.LessExactly | crates/core/src/bencode.rs:24 | keys ascend by the first byte that differs, a prefix coming first |
| Grammar.ScannerIs | crates/core/src/bencode.rs:179-205 | the scanner returns the text after the first key spelled 4:info, whatever follows, and nothing if there is none |
| Grammar.NoValue | crates/core/src/bencode.rs:60-135 | no input is an unexpected end, a byte that starts no value an error with that byte |
| Grammar.BadInteger | crates/core/src/bencode.rs:66-82 | an integer without an end, not in UTF-8, or no number: which error each of them is |
| Grammar.BadString | crates/core/src/bencode.rs:112-132 | a length without an end, no number, or more than there is: which error each of them is |
| Grammar.BadKey | crates/core/src/bencode.rs:99-103 | after a key that is no string the next byte is reported; without one the program panics |
| Grammar.BadInside | crates/core/src/bencode.rs:83-111 | a list or a dictionary fails the way its first bad part does |
| Decimal.NatTextIs | crates/core/src/bencode.rs:149-155 | a number is written digit by digit from the lowest, without a leading zero |
| Differences.DuplicateInfoKeyDisagrees | crates/core/src/bencode.rs:200-202 | an input with two info keys on which scanner and decoder differ |
| Differences.PaddedInfoKeyIsNotScanned | crates/core/src/bencode.rs:121-202 | an info key spelled 04:info with any value is decoded and not scanned |
| Differences.PlusSignIsLost | crates/core/src/bencode.rs:76-78 | an integer with a plus sign encodes without it |
| Decimal.ParseIntText | crates/core/src/bencode.rs:76-78 | every 64-bit integer parses back from its text |
| Decimal.CanonicalIntExactly | crates/core/src/bencode.rs:76-78 | an accepted integer text is what printing writes if and only if it has no plus sign, leading zero or negative zero |
| Decimal.CanonicalNatExactly | crates/core/src/bencode.rs:121-123 | the same for string lengths |
| Utf8.LossyIsIdentityOnValid | crates/core/src/meta.rs:215-218 | the lossy conversion changes no valid string |
| Utf8.LossyIsValid | crates/core/src/meta.rs:215-218 | it produces a valid string from any bytes |
| Utf8Scalars.ValidExactly | crates/core/src/magnet.rs:112 | bytes are a string if and only if they are the concatenated encodings of Unicode scalar values |
| Utf8Scalars.LossyShows | crates/core/src/meta.rs:215-218 | however the bytes are cut into encodings and maximal ill-formed parts, the lossy conversion keeps the former and shows U+FFFD for each of the latter |
| Utf8Scalars.LossyExactly | crates/core/src/meta.rs:215-218 | its result is the one that such a cut gives, and there is one |
| Metainfo.BuildModeFields | crates/core/src/meta.rs:50-70 | the loops over files and path parts insert the fields of the mode |
| Metainfo.BuildInfo | crates/core/src/meta.rs:74-88 | the info dictionary, with all hashes joined |
| Metainfo.BuildMeta | crates/core/src/meta.rs:92-111 | the root dictionary, with the tiers of trackers |
| Metainfo.ReadAnnounceList | crates/core/src/meta.rs:244-271 | the loops that keep strings of lists and drop empty tiers |
| Metainfo.ReadPieces | crates/core/src/meta.rs:147-152 | the hashes are the consecutive 20-byte chunks |
| Metainfo.ReadFileList | crates/core/src/meta.rs:164-188 | the file loop, failing at the first bad entry |
| Metainfo.ReadMode | crates/core/src/meta.rs:155-192 | a length wins over files, and one of the two must be there |
| Metainfo.ReadMeta | crates/core/src/meta.rs:116-211 | loading checks the fields in the program's order, with its errors |
| MetainfoProofs.CastsInverse | crates/core/src/meta.rs:53-59 | the casts to i64 and back are inverse on every u64 |
| MetainfoProofs.PiecesBack | crates/core/src/meta.rs:79-152 | joined hashes split into the same hashes |
| MetainfoProofs.InfoBack | crates/core/src/meta.rs:73-192 | every info dictionary loads from its fields |
| MetainfoProofs.MetaFieldsBack | crates/core/src/meta.rs:92-271 | every field is found under its own key, tiers without the empty ones |
| MetainfoProofs.MetaRoundTrip | crates/core/src/meta.rs:113-211 | written metainfo loads with the same contents, empty tiers dropped, and with the hash of the encoded info dictionary as info hash |
| MetainfoProofs.MetaRoundTripExactly | crates/core/src/meta.rs:113-271 | it loads unchanged if and only if its info hash is that of its info dictionary and no tier is empty |
| MetainfoTexts.InfoIsText | crates/core/src/meta.rs:50-88 | the info dictionary that is hashed, to the letter |
| MetainfoTexts.MetaIsText | crates/core/src/meta.rs:92-115 | the torrent file that is written, to the letter |
| MetainfoLoads.LoadsExactly | crates/core/src/meta.rs:116-211 | a file loads as a metainfo if and only if it is a dictionary with these fields: names, sizes, hashes by index, files by index, the scanned hash |
| MetainfoLoads.TiersGrow | crates/core/src/meta.rs:244-271 | each list of the announce list is a tier; what is no list, or has no strings, is passed over |
| MetainfoLoads.TierGrows | crates/core/src/meta.rs:244-271 | a tier is the strings of its list in order |
| MetainfoLoads.AnnounceListIs | crates/core/src/meta.rs:244-271 | without tiers there is no list |
| MetainfoLoads.MetaRefused | crates/core/src/meta.rs:116-211 | which error a file is refused with, in the program's order |
| MetainfoLoads.InfoRefused | crates/core/src/meta.rs:139-152 | the same for the info dictionary |
| MetainfoLoads.ModeRefused | crates/core/src/meta.rs:155-192 | the same for the mode |
| MetainfoLoads.FilesRefused | crates/core/src/meta.rs:164-188 | the first file that cannot be loaded decides |
| MetainfoLoads.FileRefused | crates/core/src/meta.rs:164-186 | which error a file entry is refused with |
| Differences.EmptyTierIsLost | crates/core/src/meta.rs:244-271 | metainfo whose only tier is empty loads without a tracker list |
| Geometry.PieceBounds | crates/daemon/src/engine.rs:285-291 | all pieces but the last are whole and inside the torrent, the last one ends it |
| Geometry.TargetIsPieceSize | crates/daemon/src/engine.rs:596-602 | the target computed with casts is the piece's size, for the last piece too |
| Geometry.RequestLengthIsRest | crates/daemon/src/engine.rs:545-550 | a request asks for the rest of the piece, at most one block, and for nothing exactly when the offset reaches the target |
| Geometry.RequestsTilePiece | crates/daemon/src/engine.rs:545-634 | the successive requests for a piece number ceil(size/16384), have 1 to 16384 bytes, and cover every offset exactly once |
| SwarmProofs.ConnectKeeps | crates/daemon/src/engine.rs:521-535 | a new peer loop that pops its first piece keeps the invariant: one owner for each piece, an owner for each counted byte, a status that says whether all are counted |
| SwarmProofs.WriteKeeps | crates/daemon/src/engine.rs:574-580 | so does writing a block, whatever the Piece message says |
| SwarmProofs.CreditExactly | crates/daemon/src/engine.rs:582-606 | counting a block and advancing the guard keeps it if and only if the block fits the rest of the guard's piece, or its excess is hidden by the clamp; for a complete guard, if and only if it is empty or everything is counted |
| SwarmProofs.MarkExactly | crates/daemon/src/engine.rs:609-614 | marking keeps it if and only if the guard held the piece or the mark changes nothing |
| SwarmProofs.TakeNextKeeps | crates/daemon/src/engine.rs:616-621 | taking the next piece keeps it |
| SwarmProofs.DropExactly | crates/daemon/src/engine.rs:502-519 | the end of a peer loop keeps it, and every piece owned, if and only if its guard is not between completion and marking |
| SwarmProofs.SubtractRefundKeeps | crates/daemon/src/engine.rs:510-514 | the first half of a refund keeps it, and the status stays right |
| SwarmProofs.PushRefundKeeps | crates/daemon/src/engine.rs:515 | so does the second half |
| SwarmProofs.ResumeInv | crates/daemon/src/engine.rs:66-124 | a session built from any disk satisfies the invariant; its bytes are those of the verified pieces, and it is complete exactly when all are verified |
| SwarmProofs.RestartKeeps | crates/daemon/src/engine.rs:66-124 | a new session keeps it, whatever state it replaces |
| SwarmProofs.StepKeepsExactly | crates/daemon/src/engine.rs:494-634 | a step of the program from a state of the invariant, with any message, keeps it if and only if it meets the condition of its kind |
| SwarmProofs.RunKeepsExactly | crates/daemon/src/engine.rs:66-634 | every state of a run is in the invariant if and only if each step of it meets its condition where it is taken; any number of peers and restarts |
| SwarmProofs.OwnershipExactly | crates/daemon/src/engine.rs:494-634 | the counters do not matter for ownership: whatever is counted, a step keeps exactly one owner for each piece unless it is a drop in the window or marks what it did not hold |
| SwarmProofs.StepKeepsShape | crates/daemon/src/engine.rs:494-634 | whatever messages arrive, the queue, the guards and the refunds stay within the torrent and every offset within its piece |
| SwarmProofs.RunKeeps | crates/daemon/src/engine.rs:66-634 | while Piece messages answer and no loop ends in the window, every run keeps the invariant |
| SwarmProofs.NoTwoPeersShareAPiece | crates/daemon/src/engine.rs:529-535 | no two peers of a session ever fetch the same piece |
| SwarmProofs.QueueIsExclusive | crates/daemon/src/engine.rs:515-535 | the queue has no duplicates and nothing that is held, on its way back or marked |
| SwarmProofs.NoPieceIsLost | crates/daemon/src/engine.rs:494-622 | a piece not marked is queued, held or on its way back |
| SwarmProofs.CountedFits | crates/daemon/src/engine.rs:582-592 | the bytes of marked pieces, guards and refunds are at most the size, and all of it exactly when every piece is done |
| SwarmProofs.CompletedExactly | crates/daemon/src/engine.rs:587-591 | the status is Completed exactly when every piece is done, so between completions exactly when every piece is marked |
| SwarmProofs.ClampsNeverBite | crates/daemon/src/engine.rs:511-586 | for a block that fits the clamp to the size changes nothing, and the saturating subtraction never does |
| SwarmProofs.GuardsCanAlwaysAsk | crates/daemon/src/engine.rs:545-573 | the u32 subtraction never underflows, an incomplete guard asks for 1 to 16384 bytes of its piece, and counting them does not wrap |
| QueueOrder.QueueIsFifo | crates/daemon/src/engine.rs:515-618 | along every run of a session, the pieces taken from the queue, followed by those left, are those it had, followed by those given back |
| QueueOrder.FirstLoopFetchesFirst | crates/daemon/src/engine.rs:77-535 | the first peer loop of a new session starts with the first piece that is not verified, at its beginning |
| QueueOrder.FreshPiecesAscend | crates/daemon/src/engine.rs:77-618 | a new session hands out the pieces that are not verified in ascending order, before any that was given back |
| QueueOrder.GivenBackWaits | crates/daemon/src/engine.rs:515-618 | a piece that was given back is taken after every piece that was queued before it |
| SwarmTruth.WriteInPiece | crates/daemon/src/engine.rs:677-678 | a block written at a guard's offset extends the piece's bytes before it |
| SwarmTruth.WriteBesidePiece | crates/daemon/src/engine.rs:677-678 | and leaves every other piece alone |
| SwarmTruth.OnlyAnswersExtend | crates/daemon/src/engine.rs:574-606 | for a nonempty true block that fits, every disk with a true prefix up to the guard's offset has one up to the new offset afterwards, if and only if the block goes to the guard's offset in its piece |
| SwarmTruth.SamePlace | crates/daemon/src/engine.rs:574-580 | that is, for places inside a piece, if and only if the message names the guard's piece and offset |
| SwarmTruth.StepSound | crates/daemon/src/engine.rs:574-622 | a step with an honest answer keeps marked pieces good and guards holding a true prefix of their piece |
| SwarmTruth.HonestRunsAreSafe | crates/daemon/src/engine.rs:66-733 | after any honest run from any disk every marked piece has its hash and every guard's counted bytes are true |
| SwarmTruth.FetchedPiecesAreTrue | crates/daemon/src/engine.rs:494-733 | a piece fetched in a session is the true one, whatever the hash function |
| SwarmTruth.HonestRunsHoldTheTruth | crates/daemon/src/engine.rs:66-733 | if no disk that a session starts from matches falsely, marked pieces are the true ones, and a completed torrent is exactly the true content |
| SwarmTruth.RestartRecovers | crates/daemon/src/engine.rs:66-124 | a restart at any point of an honest run verifies at least every marked piece and counts exactly the verified ones |
| SwarmProgress.SomeStep | crates/daemon/src/engine.rs:494-634 | in every state that is not complete some honest step leads nearer to completion |
| SwarmProgress.CanAlwaysComplete | crates/daemon/src/engine.rs:494-634 | from every state of the invariant some honest run marks every piece: no dead end, no stranded piece |
| SwarmProgress.DownloadsCanComplete | crates/daemon/src/engine.rs:66-634 | every honest run that started from disks without false matches can be continued until the files are exactly the true content |
| Network.Effect | crates/daemon/src/engine.rs:490-674 | in an event of a network nothing is rewired, and a peer loop changes its phase only in its own events or in a new session of its engine |
| Connections.ReadDoes | crates/daemon/src/engine.rs:554-663 | what reading each kind of message does to the engine and the disk, and what is sent: a loop reads the first message that waits, and only the other end of its connection receives anything |
| Connections.BeginDoes | crates/daemon/src/engine.rs:488-535 | a new loop sends Interested and Unchoke and takes the first piece of the queue |
| Connections.ProceedDoes | crates/daemon/src/engine.rs:582-635 | counting, marking and taking the next piece, and the request that follows |
| Connections.HangupDoes | crates/daemon/src/engine.rs:502-519 | a loop that ends sends nothing and leaves a refund for an incomplete guard |
| Connections.DeliversInOrder | crates/daemon/src/engine.rs:550-663 | along every run, what an end has read, followed by what waits there, is what waited, followed by what the other end sent |
| NetworkOrder.ServedIsTrue | crates/daemon/src/engine.rs:640-653 | a block served from a marked piece is true |
| NetworkOrder.StaysOrderlyExactly | crates/daemon/src/engine.rs:554-663 | an event keeps every block an answer to its request, and every engine in its invariant and true, if and only if it is none of these: an Unchoke read by an incomplete guard with a request under way, a peer loop ending before it marks its piece, a session started from a disk with a false match |
| NetworkOrder.RunStaysOrderlyExactly | crates/daemon/src/engine.rs:66-674 | the same for every run of every number of engines and connections, from any state with that order; from the start such runs transfer nothing (next row) |
| Greetings.SafeRunsTransferNothing | crates/daemon/src/engine.rs:490-663 | engines started on any disks and connected in any way: in a run without such events no block is ever read, and every engine keeps its disk and its marks; so every run that transfers a block breaks the order |
| DoubledRequests.MarksFalsely | crates/daemon/src/engine.rs:490-614 | among any number of engines, one with the content and one without: a possible run ends with the piece marked and only its first half on disk, for every torrent of one piece of two blocks and any disks |
| DoubledRequests.FalseBytesStay | crates/daemon/src/engine.rs:490-663 | a third engine that then connects to the second gets its false half: it marks the piece, nothing is under way for it, and its disk is wrong; the first event of that run to lose or falsify anything is the serving of that half |
| DoubledRequests.ZerosForOnes | crates/daemon/src/engine.rs:490-663 | for instance a piece of ones and files of zeros |
| DoubledRequests.MarksInVain | crates/daemon/src/engine.rs:490-614 | the same piece is marked falsely when the seeder's side ends after sending both copies: the client reads them and its second request is never answered |
| LostBlocks.HangupLosesHalf | crates/daemon/src/engine.rs:490-614 | when the connection ends just after the false mark, the second half stays as it was in every continuation without a new session of that engine, although nothing can arrive any more |
| LostBlocks.StaysAsItIs | crates/daemon/src/engine.rs:490-674 | an engine with nothing missing, being fetched or able to arrive keeps its marks and its disk in every run in which it starts no new session |
| Sharing.PlacedStays | crates/daemon/src/engine.rs:490-674 | in every event, endings included, every request and reply lies inside its piece, nothing is under way for a loop that has not begun, and a complete guard that still reads has its piece marked |
| Sharing.GenuineStaysExactly | crates/daemon/src/engine.rs:640-663 | every reply that can be read stays true if and only if no request of a running loop is served with bytes that are not true on the server's disk |
| Losses.StaysFaithfulExactly | crates/daemon/src/engine.rs:490-674 | among engines that fetch from each other, an event keeps each byte that a guard or a mark relies on true, or in a message that can still be read or answered, and every such reply true, if and only if it is none of these: a hangup, a new session or a refused request after which a byte is relied on, not true, and awaited nowhere else; a request of a running loop served with untrue bytes; a peer loop that goes on to ask behind an ended loop, with replies left to be read, for a block neither true nor awaited; a session started from a disk with a false match |
| Losses.RunStaysFaithfulExactly | crates/daemon/src/engine.rs:66-674 | the same for every run, event by event |
| Losses.MarksAreSettled | crates/daemon/src/engine.rs:66-674 | any engines on any disks without false matches, connected in any way: after every run without such events, whatever one has marked is true or in a request or reply that can still be answered or read, and true when there is none |
| Losses.TruthfulRunKeeps | crates/daemon/src/engine.rs:490-674 | no run in which no peer loop ends and every request is served with true bytes has such an event, however much is requested and counted twice |
| Seeding.FrameStays | crates/daemon/src/engine.rs:490-674 | in every event, endings included, the seeder stays complete and true, and what is under way for its clients lies inside its piece and is true |
| Seeding.StarStaysExactly | crates/daemon/src/engine.rs:490-674 | the exact condition for clients around a seeder: such a network stays one, with all its clients rely on true or able to arrive, if and only if the event is none of those above |
| Seeding.RunStaysStarExactly | crates/daemon/src/engine.rs:66-674 | the same for every run, event by event |
| Seeding.CalmRunKeeps | crates/daemon/src/engine.rs:490-674 | runs in which no connection is closed but by new sessions of clients lose nothing, however much is requested and counted twice |
| Seeding.SeededMarksAreSettled | crates/daemon/src/engine.rs:66-674 | after every run of clients around a seeder that loses nothing, whatever a client has marked is true or in a request or reply that can still be answered or read, and true when there is none |
| Exchange.EveryScheduleEnds | crates/daemon/src/engine.rs:494-663 | however the two peer loops of an exchange with a seeder are scheduled, doubled requests included, each event takes at least one from what is left to do, and the exchange goes on |
| Exchange.StuckIsDone | crates/daemon/src/engine.rs:494-663 | so a schedule that cannot go on has left the client with every mark and the true content |
| Exchange.QuietIsDone | crates/daemon/src/engine.rs:494-663 | as has any exchange in which nothing is left to read or to handle |
| Exchange.LinkEnds | crates/daemon/src/engine.rs:494-663 | a running connection can be brought to rest whatever else its client is doing, without touching other engines and connections or losing a piece |
| Distribution.RunServes | crates/daemon/src/engine.rs:66-674 | an engine with all pieces keeps them in every run of every network |
| Distribution.EveryoneCanComplete | crates/daemon/src/engine.rs:66-674 | from every state of a network with a seeder, whatever was doubled or lost, some run that starts a new session of each engine gives all the true content, as long as no disk has a false match |
| Distribution.CreatedTorrentDistributes | crates/daemon/src/creator.rs:27-151 | one engine over the files a torrent was created from, others over any disks: after any run, with new sessions of all engines, the run can continue until every engine has exactly those files |
| Completion.ClientsComplete | crates/daemon/src/engine.rs:66-674 | without a new session of anyone: from any state around a seeder in which what is relied on is true or can arrive, no piece is lost and no reply is left behind an ended loop, some run gives all clients the true content |
| Completion.SwarmCompletes | crates/daemon/src/engine.rs:66-674 | so every run that loses neither a byte nor a piece and leaves no such reply can be continued, without new sessions, until all engines have the true content |
| Completion.CalmSwarmCompletes | crates/daemon/src/engine.rs:66-674 | in particular every run in which no connection was closed but by new sessions of clients, however much was doubled |
| Completion.CreatedSwarmCompletes | crates/daemon/src/creator.rs:27-151 | the same for a created torrent and the files it was made from |
| Storage.FlatAt | crates/daemon/src/engine.rs:328-341 | a file's bytes are the stretch of the torrent's bytes that starts at the lengths before it |
| Storage.FlatWrite | crates/daemon/src/engine.rs:711-720 | a write inside one file is a splice of the torrent's bytes |
| Storage.FileWriteAt | crates/daemon/src/engine.rs:684-724 | a write at any position of any file, byte by byte, with zeros in a gap before it |
| Storage.WriteRound | crates/daemon/src/engine.rs:697-728 | one round of the write loop adds its part of the splice, the rest carried to the next file |
| Storage.ReadRound | crates/daemon/src/engine.rs:333-366 | one round of the read loop adds its part of the slice |
| FileLoops.InitializeFiles | crates/daemon/src/engine.rs:386-408 | afterwards every file has its length; its bytes are the old ones as far as those reached and zeros after that; files in place and other paths are untouched |
| FileLoops.BytesAreKept | crates/daemon/src/engine.rs:386-408 | a byte of the torrent that was on disk, in a file shorter than its length or not, is at its place afterwards |
| FileLoops.WriteFiles | crates/daemon/src/engine.rs:690-729 | the write loop does on every disk, with files missing or of another length, what the recursive definition over the files says |
| FileLoops.WriteThroughIsSplice | crates/daemon/src/engine.rs:690-729 | with every file in place, empty files included, the skip, clip and carry arithmetic is one splice of the concatenation |
| FileLoops.WriteThroughElsewhere | crates/daemon/src/engine.rs:690-729 | whatever is missing, no file outside the torrent is touched |
| FileLoops.MissingFileShifts | crates/daemon/src/engine.rs:704-728 | data for a missing file overwrites the start of the next one |
| FileLoops.MissingFileIsPassedOver | crates/daemon/src/engine.rs:343-347 | a read that begins in a missing file gives the bytes of the next one from the same offset on |
| FileLoops.BadFilesFail | crates/daemon/src/engine.rs:328-729 | a file that is too short ends the read, an entry without a path both, after the files before it |
| FileLoops.OneFile | crates/daemon/src/engine.rs:319-688 | a single file of any length on disk: what is written, what is read, and the error for a missing one |
| FileLoops.ReadFiles | crates/daemon/src/engine.rs:328-367 | the read loop returns on every disk what the recursive definition says: a slice, zeros or an error |
| FileLoops.ReadThroughIsSlice | crates/daemon/src/engine.rs:328-367 | with every file in place it is the slice of the concatenation however many files it crosses, with zeros past the end |
| FileLoops.BlockWrittenIsSplice | crates/daemon/src/engine.rs:677-732 | in both modes a write is one splice of the torrent's bytes, clipped at their end |
| FileLoops.BytesReadIsSlice | crates/daemon/src/engine.rs:317-371 | in both modes a read is one slice; past the end an error or zeros |
| FileLoops.WrittenIsRead | crates/daemon/src/engine.rs:317-733 | what was written is read back, and every read beside it gives what it gave before, errors included |
| FileLoops.OneFileLayoutsAgree | crates/daemon/src/engine.rs:322-367 | the two layouts of one file: writes agree if and only if the file is there, reads if and only if they do not pass its end |
| Engine.TorrentDownloader.InitializeFiles | crates/daemon/src/engine.rs:373-411 | in both modes every file has its length afterwards, with the old bytes as far as they reached and zeros after that; the hypothesis on the files holds, and files in place are kept |
| Engine.TorrentDownloader.WriteBlock | crates/daemon/src/engine.rs:677-732 | what each mode does on every disk; with the files in place each byte of the block is at its place, what passes the end is dropped, and every other byte is as before; other paths untouched |
| Engine.TorrentDownloader.ReadPieceFromDisk | crates/daemon/src/engine.rs:317-371 | what each mode returns on every disk; with the files in place the bytes from the offset on, and past the end an error or zeros |
| Engine.TorrentDownloader.WriteThenRead | crates/daemon/src/engine.rs:317-733 | writing a block and reading it back returns it, and a read beside it is not affected |
| Engine.OneFileClientsAgree | crates/daemon/src/engine.rs:317-733 | clients with the two layouts of one file and equal contents have equal results and contents after equal calls |
| Engine.TorrentDownloader.VerifyPieces | crates/daemon/src/engine.rs:273-314 | a piece is flagged if and only if it can be read and what is read has its hash; with the files in place, if and only if its bytes have it |
| Engine.TorrentDownloader.CheckIsVerified | crates/daemon/src/engine.rs:273-314 | the program's cut of the last piece checks the same bytes as the transition system |
| Engine.TorrentDownloader.VerifyAndResume | crates/daemon/src/engine.rs:66-124 | the new state is the one the transition system resumes with and satisfies its invariant; the missing list holds exactly the pieces not verified, ascending; and a piece whose bytes were on disk, if only in files that were too short, is verified if and only if they have its hash |
| Engine.TorrentDownloader.PieceIsKept | crates/daemon/src/engine.rs:66-75 | the hash check of a piece whose bytes were on disk is over those bytes |
| Engine.TorrentDownloader.Connect | crates/daemon/src/engine.rs:521-535 | takes exactly the connecting step and keeps the invariant: the guard gets the first missing piece at offset 0 and the rest stays queued; with none it is complete |
| Engine.TorrentDownloader.NextRequest | crates/daemon/src/engine.rs:561-573 | the request of an incomplete guard is for the next bytes of its piece, never empty, never beyond it |
| Engine.TorrentDownloader.PieceArrives | crates/daemon/src/engine.rs:574-580 | takes exactly the writing step for any Piece message and keeps the invariant: the bytes of the block are at the place it names, all others as before |
| Engine.TorrentDownloader.CreditBlock | crates/daemon/src/engine.rs:582-606 | takes exactly the counting step, given on the fields, and keeps the invariant if and only if the condition on counts holds before |
| Engine.TorrentDownloader.MarkHave | crates/daemon/src/engine.rs:609-614 | takes exactly the marking step, given on the fields, and keeps the invariant if and only if its condition holds before |
| Engine.TorrentDownloader.TakeNextPiece | crates/daemon/src/engine.rs:616-621 | takes exactly the step to the next piece and keeps the invariant: the guard gets the first missing piece at offset 0, or stays as it was if there is none |
| Engine.TorrentDownloader.DropPeer | crates/daemon/src/engine.rs:502-519 | takes exactly the dropping step, given on the fields, and keeps the invariant if and only if the guard is not in the window |
| Engine.TorrentDownloader.SubtractRefundBytes | crates/daemon/src/engine.rs:510-514 | takes exactly the first refund step, given on the fields, and keeps the invariant |
| Engine.TorrentDownloader.PushRefundPiece | crates/daemon/src/engine.rs:515 | takes exactly the second refund step and keeps the invariant: the piece goes to the end of the queue |
| Engine.TorrentDownloader.ServeRequest | crates/daemon/src/engine.rs:640-663 | a request for a piece not marked is not served; otherwise what can be read is sent: inside the torrent exactly those bytes, beyond it zeros from several files and nothing from a single one |
| Engine.TorrentDownloader.BitfieldToSend | crates/daemon/src/engine.rs:478-487 | the bitfield sent is the packing of the marked pieces |
| Engine.ListMissing | crates/daemon/src/engine.rs:77-83 | the missing list is strictly ascending and holds exactly the pieces not verified |
| Engine.SumVerified | crates/daemon/src/engine.rs:88-126 | the fold gives the bytes of the verified pieces, without underflow at the last one |
| Creator.PieceHasher.HashPiece | crates/daemon/src/creator.rs:41-57 | feeding a buffer continues the chunking wherever the last one stopped |
| Creator.PieceHasher.HashFile | crates/daemon/src/creator.rs:63-70 | a file read in any portions has the effect of all its bytes |
| Creator.PieceHasher.Finish | crates/daemon/src/creator.rs:106-111 | the hashes are those of the consecutive pieces of everything fed, the last one short |
| Creator.HashesAt | crates/daemon/src/creator.rs:41-57 | there are ceil(total/length) hashes, and hash i is that of bytes i*length to the next piece or the end |
| Creator.CreateTorrent | crates/daemon/src/creator.rs:27-151 | whatever the sizes of the reads, the torrent written is that of the concatenated files, their layout and the trackers |
| Creator.SourceLayout | crates/daemon/src/creator.rs:78-103 | the layout recorded gives the engine the creator's byte order |
| Creator.CreatedTorrentLoads | crates/daemon/src/creator.rs:113-150 | a created torrent loads unchanged, with the info hash the creator computed |
| Creator.LoadedTorrentHas | crates/daemon/src/creator.rs:113-150 | what the loader finds in a created torrent: the first tracker or the default one, a tier for each tracker exactly when there are two or more, the name, the hashes of the 512 KiB pieces, and the files by index |
| Creator.CreatedTorrentVerifies | crates/daemon/src/creator.rs:41-111 | over the files it was made from every piece verifies, and a session starts complete with every byte counted |
| MagnetWorker.AwaitPiece | crates/daemon/src/magnet_worker.rs:333-370 | up to 30 messages are read for a piece; others are skipped, a reject fails |
| MagnetWorker.CopyBlock | crates/daemon/src/magnet_worker.rs:349-353 | any block at all is copied within the buffer: a splice at its place |
| MagnetWorker.TryFetch | crates/daemon/src/magnet_worker.rs:311-398 | the whole exchange after the handshake: its result, and the requests sent, which are those of the pieces in order up to the first that does not arrive |
| MagnetWorker.DataMessage | crates/daemon/src/magnet_worker.rs:341-350 | a data message yields exactly the block after its dictionary, whatever bytes the block has |
| MagnetWorker.Reassembles | crates/daemon/src/magnet_worker.rs:319-371 | blocks delivered in turn with skipped messages between them rebuild the metadata exactly |
| MagnetWorker.InfoHashIsTheMagnets | crates/daemon/src/magnet_worker.rs:378-398 | re-wrapping gives back the metadata's bytes if and only if they were canonical without trailing bytes, and then the info hash is the magnet's |
| Differences.PlusMetadataIsRehashed | crates/daemon/src/magnet_worker.rs:378-398 | metadata with a plus sign that has the magnet's hash is returned under the hash of other bytes |
| MagnetWorker.FetchDelivers | crates/daemon/src/magnet_worker.rs:311-398 | from a peer with the encoding of an info dictionary the fetch returns that dictionary under the magnet's hash |
| MagnetWorker.RequestIsRead | crates/daemon/src/magnet_worker.rs:321-325 | a request reads back as the piece it is for |
| MagnetWorker.RequestsAreServed | crates/daemon/src/magnet_worker.rs:319-398 | with a peer that answers each request with the block it names, every piece is requested once and in order and the info dictionary arrives |
| MagnetAnswers.RequestText | crates/daemon/src/magnet_worker.rs:321-331 | the request for a piece, to the letter |
| MagnetAnswers.RejectMessage | crates/daemon/src/magnet_worker.rs:358-360 | a dictionary with msg_type 2 rejects, whatever else it holds |
| MagnetAnswers.OthersAreSkipped | crates/daemon/src/magnet_worker.rs:337-366 | every other message is skipped |
| MagnetAnswers.FetchFails | crates/daemon/src/magnet_worker.rs:319-371 | if k pieces arrive and the next is rejected, does not come within thirty messages, or the peer is gone, the fetch fails in that way and exactly k + 1 pieces were requested |
| MagnetAnswers.WrongSizeOrHash | crates/daemon/src/magnet_worker.rs:308-384 | metadata above 10 MiB and metadata with another hash are refused |
| Wire.Serialize | crates/peer/src/protocol.rs:97-184 | every message is written as its frame, and that is what BEP 3 and BEP 10 say it is, byte by byte |
| Wire.ReadMessage | crates/peer/src/protocol.rs:186-276 | reading consumes exactly one frame, or fails as the program does; the bytes that the standards give for a message are read as that message, whatever follows |
| Wire.ReadHandshake | crates/peer/src/protocol.rs:32-56 | reading a handshake consumes its 68 bytes: protocol name, reserved bytes, info hash, peer id |
| Wire.NewHandshake | crates/peer/src/protocol.rs:13-21 | a new handshake announces the extension protocol and nothing else |
| Wire.SerializeHandshake | crates/peer/src/protocol.rs:23-30 | the 68 bytes of a handshake in their order |
| Wire.SpelledIsRead | crates/peer/src/protocol.rs:186-276 | for every message and every bytes the standards give for it, those bytes read as the message |
| Wire.FrameSpells | crates/peer/src/protocol.rs:97-184 | and those bytes are what is written |
| Wire.TruncatedIsEof | crates/peer/src/protocol.rs:186-276 | a frame cut off anywhere is an unexpected end |
| Wire.LengthIsIgnored | crates/peer/src/protocol.rs:186-276 | the length field of a message of fixed size can be anything but 0 |
| Wire.ShortLengths | crates/peer/src/protocol.rs:226-262 | a Piece message shorter than its header panics, an extended one without an id is invalid |
| Wire.SpelledShakeIsRead | crates/peer/src/protocol.rs:32-56 | the 68 bytes of a handshake read as its fields, whatever follows |
| Wire.BadShake | crates/peer/src/protocol.rs:32-56 | another protocol name is invalid, a handshake cut off an unexpected end |
| Wire.RoundTrip | crates/peer/src/protocol.rs:97-276 | every message whose length fits reads back from its frame, whatever follows |
| Wire.StreamRoundTrip | crates/peer/src/protocol.rs:97-276 | so does every list of messages, with nothing left over |
| Wire.SessionRoundTrip | crates/peer/src/protocol.rs:23-276 | also after a handshake |
| Wire.ReserializeExactly | crates/peer/src/protocol.rs:186-276 | a message read is written back as the bytes it was read from if and only if its length field counted exactly the bytes taken |
| Differences.WrongLengthIsRead | crates/peer/src/protocol.rs:204-210 | a Have frame with a wrong length is read and written back with the right one |
| Bitfields.PackBits | crates/daemon/src/engine.rs:478-487 | the bytes number ceil(n/8), their bits are the flags from the most significant on, and spare bits are zero |
| Bitfields.PackedBytesAreUnique | crates/daemon/src/engine.rs:478-487 | there is only one such byte sequence |
| Bitfields.PackedByteIs | crates/daemon/src/engine.rs:478-487 | eight pieces make a byte, the first counting 128 and the last 1 |
| Bitfields.UnpackPacked | crates/piece/src/lib.rs:20-32 | reading it with the number of pieces gives every flag back and None beyond |
| Bitfields.RepackExactly | crates/piece/src/lib.rs:20-24 | which received bytes are the packing of what is read from them |
| Bitfields.BitfieldOverTheWire | crates/peer/src/protocol.rs:124-215 | what one client has is what the other reads from the message |
| Bitfields.Bitfield.Set | crates/piece/src/lib.rs:34-38 | changes one bit; an index beyond the end is ignored |
| Picker.PiecePicker.PeerHasPiece | crates/piece/src/lib.rs:71-75 | counts one more peer for the piece, if it exists |
| Picker.PiecePicker.PeerLostPiece | crates/piece/src/lib.rs:77-81 | counts one less, never below zero |
| Picker.PiecePicker.MarkDownloaded | crates/piece/src/lib.rs:83-85 | sets one flag; an index beyond the end is ignored |
| Picker.PiecePicker.MarkRequested | crates/piece/src/lib.rs:87-89 | sets or clears one flag |
| Picker.PiecePicker.PickNextPiece | crates/piece/src/lib.rs:93-110 | the loop, the stable sort and the first element: the pick specified below |
| Picker.StableSortSorts | crates/piece/src/lib.rs:107-108 | on ascending candidates the stable sort orders by count, then index, and is a permutation |
| Picker.PickIsRarest | crates/piece/src/lib.rs:93-110 | the pick is wanted, and every other wanted piece is less rare or equally rare with a larger index; None if and only if nothing is wanted |
| Picker.PickIs | crates/piece/src/lib.rs:93-110 | the pick is not downloaded, not requested and offered, with the least count and then the least index; None if and only if there is no such piece |
| Picker.RunIsTheStableSort | crates/piece/src/lib.rs:87-110 | picking and marking until there is none yields the stable sort of the candidates |
| Picker.RunPicksEachOnce | crates/piece/src/lib.rs:87-110 | such a run picks each wanted piece exactly once and nothing else |
| Magnet.ToHexString | crates/core/src/lib.rs:8-16 | two digits for each byte |
| Magnet.DecodeHexInto | crates/core/src/magnet.rs:67-80 | succeeds exactly on digits of the right number, and then fills the buffer with their bytes |
| Magnet.UrlDecodeString | crates/core/src/magnet.rs:91-113 | the decoding loop with its three ways to fail |
| Magnet.ParseLink | crates/core/src/magnet.rs:24-64 | the loop over the parameters has the result described by LinkSays below |
| MagnetLinks.LinkSays | crates/core/src/magnet.rs:24-64 | for parameters in any order: the last well-formed hash, without which the link is refused, the trackers that decode in order, and the last name that decodes |
| MagnetLinks.EveryLink | crates/core/src/magnet.rs:24-33 | every text that starts with magnet:? is such a link, every other one is refused |
| MagnetLinks.HexExactly | crates/core/src/magnet.rs:67-89 | bytes are read from a text if and only if it is their hexadecimal digits in either case |
| MagnetLinks.HexAt | crates/core/src/lib.rs:8-16 | the two lower-case digits of each byte, by index |
| MagnetLinks.DecodesExactly | crates/core/src/magnet.rs:91-113 | a value decodes to bytes if and only if it is their characters or escapes and they are UTF-8 |
| MagnetLinks.EncodedByteIs | crates/daemon/src/server.rs:509-512 | which bytes the encoder keeps, and how it writes the others |
| MagnetLinks.WrittenLinkParses | crates/core/src/magnet.rs:24-64 | a link written with a hash, a name and trackers gives all three back, with plus signs for spaces |
| MagnetLinks.ExpansionText | crates/daemon/src/server.rs:507-517 | the link made of a bare hash, to the letter |
| Magnet.ExpandBareHash | crates/daemon/src/server.rs:507-517 | the expansion loop writes the link |
| Magnet.HexRoundTrip | crates/core/src/magnet.rs:67-89 | hexadecimal text decodes to bytes whose text is its lower case |
| Magnet.HexBack | crates/core/src/lib.rs:8-16 | bytes decode from their text |
| Magnet.PercentRoundTrip | crates/core/src/magnet.rs:91-113 | an encoded string decodes to itself with plus signs for its spaces |
| Magnet.ExpansionParses | crates/daemon/src/server.rs:507-520 | the link made of a bare hash parses to that hash in lower case and to the trackers in order, with plus signs for spaces |
| Magnet.ExpansionKeepsTrackersExactly | crates/daemon/src/server.rs:507-520 | the trackers survive if and only if none contains a space |
| Differences.SpacedTrackerChanges | crates/daemon/src/server.rs:507-520 | a tracker that is a space arrives as a plus sign |

## Left out

- MagnetWorker.AwaitPiece: timeouts and read errors of the stream are the end of the messages; the extended handshake before the exchange is not modelled.
- Wire.ReadMessage: the stream is a sequence of bytes in memory, so a read waits for nothing and fails only at the end.
- Creator.CreateTorrent: the directory walk, its sorting and the conversion of paths to strings are left out; the files arrive as a list in their order, and a file does not change while it is read.
- In networks, starting a peer loop is one event, so nothing happens between its greeting and its first piece; and a request beyond the end of the torrent, which no engine sends, is not answered.
- In networks messages are read whole; what a peer loop does with the rest of a frame whose reading was dropped is not modelled.
- A reply that was sent before the sender's peer loop ended can still be read, as on a socket closed in order; that a reset discards it is not modelled.
- Completion.SwarmCompletes: says nothing about the reported status, because the byte count, from which it follows, can be wrong after a block was counted twice.
- Peer loops of an earlier session that go on beside a new one.
- I/O errors other than a missing file, a directory in the place of a file, and a read past the end; directories and their creation; conflicts between a file and a directory path.
- Liveness: an idle peer does not pick up a piece refunded later, and nothing says that messages arrive. What is proved is that completion always stays reachable.
- Counters of uploads and connected peers, timestamps and the broadcast of completed pieces.
- Sockets, timeouts, tracker clients, the RPC server, persistence, configuration and the command line.
- SHA-1 itself, `verify_piece`, bincode and serde.
- `Bitfield::to_bytes` after a truncation, which the bitvec library decides, and the library's own storage.
- Overflow of the availability counters and of 64-bit byte offsets.
- The recursion depth of the bencode decoder, and base32 info hashes, which the program does not parse either.

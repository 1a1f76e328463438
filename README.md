# Burst-sharp plotter and miner, modelled in Dafny

This project models the core of a Burst proof-of-capacity plotter and miner.

- **Plotter.** It fills a file with plots. A plot is 4096 scoops of 64 bytes, built from an account id and a nonce by a backward chain of Shabal-256 hashes.
- **Miner.** Each round, it lists the plot files, derives the round's scoop number from the generation signature and reads that scoop of every nonce of every accepted file. It hashes each scoop with the signature to get a deadline and queues the qualifying deadlines for submission to a pool.
- **Submission.** A small state machine per deadline controls submission.

The hash function is a parameter `H: Hasher` from byte strings to 32-byte digests; every property holds for any such function. C# integer widths are written out:

- `u32`, `u64` and `i32` are subset types of `int`;
- `Wrap32`, `Wrap64`, `ToInt32` and `ToInt64` make unchecked overflow and casts explicit.

Exceptions are modelled as `Result`, and `null` as `Option`.

Modules follow the source files:

| Module | Source file | What it holds |
|---|---|---|
| `Plot` | BurstLib/Plot.cs | The plot, its seed, chain, final hash and XOR, and `GetHash`/`GetScoop` |
| `Hex`, `LibStringExtensions`, `MinerStringExtensions` | BurstLib/StringExtensions.cs, Miner/StringExtensions.cs, Plotter/Program.cs | The two `ToByteArray` decoders and `Encode`, the specification of the plotter's `ByteArrayToString` |
| `Text` | (support functions) | Decimal formatting and parsing, and `String.Split` with a count |
| `Bytes` | (support functions) | Fixed-width integers, bit operations, byte order and `Array.Copy` |
| `Scoop` | Miner/Scoop.cs | Scoops |
| `MiningInfo` | Miner/MiningInfo.cs | Round information |
| `Deadline` | Miner/Deadline.cs, Miner/DeadlineStatus.cs | The deadline state machine |
| `DeadlineSubmitter` | Miner/DeadlineSubmitter.cs | The submission queue and its worker pass |
| `DeadlineCalculator` | Miner/DeadlineCalculator.cs | The bounded scoop queue and the hashing workers |
| `PlotReader` | Miner/PlotReader.cs | File guards, storage totals and the chunked read of one scoop's region |
| `PlotReaderManager` | Miner/PlotReaderManager.cs | The round start and the scoop number |
| `Plotter` | Plotter/Program.cs | The file name, thread ranges, write offsets, the threads' writes and the plot-then-mine round trip |

Objects whose fields the source updates become classes with `modifies` frames: `Plot`, `Deadline`, `DeadlineSubmitter`, `DeadlineCalculator`, `PlotReader` and `PlotReaderManager`.

Loops become methods with invariants, each proved against a specification function:

- the chain and XOR loops of the plot;
- the hex loops;
- the submitter's pass;
- the reader's file, chunk and slice loops;
- the plotter's nonce, scoop and thread loops.

## Model

| member | source | states |
|---|---|---|
| Plot.Seed | BurstLib/Plot.cs:21-29 | The 16-byte seed decodes, big-endian, to the account id followed by the nonce |
| Plot.ChainSuffix | BurstLib/Plot.cs:38-52 | After k backward steps the scratch tail is the seed plus k hashes of 32 bytes |
| Plot.ChainSuffixStable | BurstLib/Plot.cs:38-49 | A chain step never changes bytes written by earlier steps |
| Plot.GenData | BurstLib/Plot.cs:35-52 | The scratch buffer is PLOT_SIZE + 16 bytes |
| Plot.GenDataSeed | BurstLib/Plot.cs:35-36 | The seed is at the tail of the scratch buffer |
| Plot.GenDataStep | BurstLib/Plot.cs:38-52 | Each 32-byte block at i - 32 is the hash of the next min(PLOT_SIZE + 16 - i, 4096) bytes |
| Plot.PlotData | BurstLib/Plot.cs:53-60 | The plot data is PLOT_SIZE bytes |
| Plot.PlotScoop | BurstLib/Plot.cs:70-75 | Scoop s of a plot is 64 bytes |
| Plot.RunChain | BurstLib/Plot.cs:38-52 | The chain loop leaves the buffer equal to the full chain, for any hash |
| Plot.ChainStep | BurstLib/Plot.cs:41-49 | One step extends the finished suffix by one hash of at most HASH_CAP bytes |
| Plot.XorWithHash | BurstLib/Plot.cs:57-60 | Every data byte is the chain byte XOR the final hash byte at i mod 32 |
| Plot.Plot.constructor | BurstLib/Plot.cs:19-61 | The plot's data is exactly PlotData(accountId, nonce) |
| Plot.Plot.GetHash | BurstLib/Plot.cs:63-68 | In range it is the 32 bytes at 32·number; the int product wraps; a negative offset throws ArgumentOutOfRangeException, an overrun ArgumentException |
| Plot.Plot.GetScoop | BurstLib/Plot.cs:70-75 | In range it is the 64 bytes at 64·number, with the same wrapping and exceptions |
| Plot.ScoopIsTwoHashes | BurstLib/Plot.cs:63-75 | Scoop n is hash 2n followed by hash 2n + 1 |
| Plot.GetScoopIsPlotScoop | BurstLib/Plot.cs:70-75 | GetScoop of a constructed plot is its PlotScoop |
| Plot.GetScoopWrapsAround | BurstLib/Plot.cs:73 | GetScoop(2^26) wraps to offset 0 and returns scoop 0 instead of throwing |
| Bytes.Wrap32 | Plotter/Program.cs:72 | The uint cast keeps the value below 2^32 and agrees with it modulo 2^32 |
| Bytes.Wrap64 | Plotter/Program.cs:71 | The ulong sum is the value when it fits |
| Bytes.Wrap64Add | Plotter/Program.cs:40 | Wrapping after each ulong addition equals wrapping once |
| Bytes.ToInt32 | Plotter/Program.cs:79-80 | The int cast agrees with the value modulo 2^32 and is the value when it fits |
| Bytes.ToInt64 | Miner/PlotReader.cs:111 | The long cast is the value below 2^63 and negative above it |
| Bytes.BigEndianRoundTrip | BurstLib/Plot.cs:21-26 | Decoding an n-byte big-endian encoding gives back the value |
| Bytes.FromBigEndianInjective | BurstLib/Plot.cs:21-26 | Encoding a byte string's big-endian value gives back the string |
| Bytes.BigEndian64RoundTrip | Miner/MiningInfo.cs:72-74 | The reversed BitConverter bytes of a ulong decode back to it |
| Bytes.ToUInt64 | Miner/DeadlineCalculator.cs:127 | BitConverter.ToUInt64 is the little-endian value of the first 8 bytes |
| Bytes.LittleIsReversedBig | Miner/DeadlineCalculator.cs:127 | The little-endian value of a byte string is the big-endian value of its reversal |
| Bytes.ToUInt64IsReversedBigEndian | Miner/DeadlineCalculator.cs:127 | ToUInt64 reads the first 8 bytes as a big-endian number read backwards |
| Bytes.ToUInt64GetBytes | Miner/DeadlineCalculator.cs:127 | ToUInt64 of a ulong's 8 little-endian bytes, followed by anything, gives the ulong back |
| Bytes.AndFifteen | Miner/PlotReaderManager.cs:136 | Masking with 0x0F is reduction modulo 16 |
| Bytes.OrBelowShift | Miner/PlotReaderManager.cs:136 | OR-ing a value below 2^k into a value shifted left by k adds them |
| Bytes.ArrayCopy | BurstLib/Plot.cs:36 | Array.Copy overwrites exactly dst[at .. at + len) with the source |
| Text.ParseU64 | Miner/PlotReader.cs:101-108 | TryParse succeeds iff the string is a non-empty run of digits whose value fits 64 bits; it then yields that value |
| Text.ULongParse | Miner/MiningInfo.cs:70-71 | Parse throws ArgumentNullException on null, FormatException on an empty or non-digit string and OverflowException on a too large run of digits; otherwise it succeeds exactly where TryParse does, with the same value |
| Text.DecimalStringValue | Plotter/Program.cs:23 | The decimal rendering of n has value n |
| Text.ParseDecimalString | Plotter/Program.cs:23 | Parsing a ulong's decimal rendering gives it back |
| Text.DecimalStringOfDigits | Miner/PlotReader.cs:101-108 | A digit run without a leading zero is the decimal rendering of its value |
| Text.ParsedIsDecimalString | Miner/PlotReader.cs:101-108 | A string TryParse accepts, if it has no leading zero, is the decimal rendering of the parsed value |
| Text.DecimalStringHasNoUnderscore | Plotter/Program.cs:23 | A decimal rendering holds no '_' |
| Text.IndexOf | Miner/PlotReader.cs:96 | The first occurrence of the separator, or none |
| Text.SplitN | Miner/PlotReader.cs:96 | Split with a count yields between 1 and count parts |
| Text.SplitNFull | Miner/PlotReader.cs:96 | With at least count - 1 separators there are exactly count parts |
| Text.SplitJoined | Miner/PlotReader.cs:96 | A first part without a separator splits off the front |
| Hex.PairValue | BurstLib/StringExtensions.cs:16 | Convert.ToByte(pair, 16) is the value of two hex digits; it refuses a pair unless it is two hex digits or '+' and a hex digit; a refused pair is an ArgumentException when it starts with '-' and a FormatException otherwise |
| Hex.DecodeMeaning | BurstLib/StringExtensions.cs:13-16 | Decoding succeeds iff the length is even and every pair is accepted; byte k is then the value of characters 2k and 2k + 1 |
| Hex.OddLengthFails | BurstLib/StringExtensions.cs:15-16 | An odd-length string fails, because Substring runs past the end |
| Hex.FirstRefusedPair | BurstLib/StringExtensions.cs:15-16 | The first refused pair decides the exception: ArgumentException when it starts with '-', FormatException otherwise |
| Hex.LoneLastChar | BurstLib/StringExtensions.cs:15-16 | An odd-length string whose full pairs are all accepted throws ArgumentOutOfRangeException |
| Hex.DecodeLoop | BurstLib/StringExtensions.cs:13-16 | The decoding loop computes Decode, including its exception: ArgumentException for a refused pair starting with '-', FormatException for any other refused pair, ArgumentOutOfRangeException for a lone last character |
| Hex.Encode | Plotter/Program.cs:97-103 | The rendering has two characters per byte |
| Hex.EncodeAt | Plotter/Program.cs:100-101 | Characters 2k and 2k + 1 are byte k's high and low nibbles in lowercase hex |
| Hex.PairOfByte | Plotter/Program.cs:101 | The two digits of a byte parse back to it |
| Hex.DecodeEncode | Plotter/Program.cs:97-103 | ToByteArray(ByteArrayToString(bs)) == bs for every byte string |
| LibStringExtensions.ToByteArray | BurstLib/StringExtensions.cs:9-18 | Null or empty input gives null; otherwise the result is Decode of the input, with Decode's exception (ArgumentException for a refused pair starting with '-') |
| MinerStringExtensions.ToByteArray | Miner/StringExtensions.cs:9-16 | Null input throws NullReferenceException; otherwise the result is Decode of the input, with Decode's exception (ArgumentException for a refused pair starting with '-') |
| Plotter.ByteArrayToString | Plotter/Program.cs:97-103 | The loop computes Encode of the array |
| Scoop.NewScoop | Miner/Scoop.cs:52-59 | It succeeds iff the offset is below 2^31 and the 64 bytes fit; the scoop holds those bytes and the three numbers; an offset of 2^31 or more throws ArgumentOutOfRangeException |
| MiningInfo.NewMiningInfo | Miner/MiningInfo.cs:66-79 | It succeeds iff the signature decodes and both numbers parse; the first step that throws decides the exception: NullReferenceException for a null signature, then Decode's exception (ArgumentException for a pair starting with '-'), then the base target's Parse exception, then the height's; the height and the target are stored big-endian |
| MiningInfo.DecimalHeightRoundTrip | Miner/MiningInfo.cs:71-74 | A decimal height parses back to itself, and its bytes are its big-endian encoding |
| Deadline.TerminalHasNoTransition | Miner/Deadline.cs:64-100 | Every transition from Accepted or Rejected throws |
| Deadline.SubmitOnlyFromFound | Miner/Deadline.cs:84-89 | A transition to Submitted is only Submit, and only from Found |
| Deadline.TerminalIsFinal | Miner/Deadline.cs:64-79 | From a terminal status, any attempts leave it unchanged |
| Deadline.SubmissionFailureIsAbsorbing | Miner/Deadline.cs:84-100 | From SubmissionFailure, any attempts leave it in SubmissionFailure |
| Deadline.TerminalNeedsSubmit | Miner/Deadline.cs:64-89 | Accepted or Rejected is reached only from Found through a Submit |
| Deadline.Deadline.constructor | Miner/Deadline.cs:51-58 | A new deadline is Found and due now |
| Deadline.Deadline.Accept | Miner/Deadline.cs:64-69 | Succeeds iff Submitted and moves to Accepted; otherwise throws and changes nothing |
| Deadline.Deadline.Reject | Miner/Deadline.cs:74-79 | Succeeds iff Submitted and moves to Rejected; otherwise throws and changes nothing |
| Deadline.Deadline.Submit | Miner/Deadline.cs:84-89 | Succeeds iff Found and moves to Submitted; otherwise throws and changes nothing |
| Deadline.Deadline.SubmissionFailed | Miner/Deadline.cs:94-100 | From Submitted or SubmissionFailure it moves to SubmissionFailure, due five seconds later; otherwise throws and changes nothing |
| DeadlineSubmitter.HandleFound | Miner/DeadlineSubmitter.cs:111-135 | A Found deadline is posted; a deadline key accepts it, an errorCode key rejects it, anything else fails it |
| DeadlineSubmitter.HandleNeverThrowsAfterPruning | Miner/DeadlineSubmitter.cs:95-141 | After pruning, the catch block's SubmissionFailed never throws |
| DeadlineSubmitter.RetryNeverReachesTransport | Miner/DeadlineSubmitter.cs:111 | A SubmissionFailure deadline is refused by Submit and never posted |
| DeadlineSubmitter.FailedStaysUnposted | Miner/DeadlineSubmitter.cs:104-141 | Over any number of passes, a failed deadline stays failed and unposted |
| DeadlineSubmitter.CorrectedRetryReachesTransport | Miner/Deadline.cs:86 | With retry allowed, a failed deadline is posted and classified like a Found one |
| DeadlineSubmitter.Pruned | Miner/DeadlineSubmitter.cs:95-98 | Exactly the non-terminal entries are kept; distinct entries stay distinct |
| DeadlineSubmitter.Due | Miner/DeadlineSubmitter.cs:101 | Exactly the entries due by now are kept; distinct entries stay distinct |
| DeadlineSubmitter.Fresh | Miner/DeadlineSubmitter.cs:111-113 | The posted entries are exactly the queued entries in Found |
| DeadlineSubmitter.DeadlineSubmitter.constructor | Miner/DeadlineSubmitter.cs:57-71 | The queue starts empty |
| DeadlineSubmitter.DeadlineSubmitter.UpdateUtilisedStorage | Miner/DeadlineSubmitter.cs:78-81 | Only the reported capacity changes |
| DeadlineSubmitter.DeadlineSubmitter.Reset | Miner/DeadlineSubmitter.cs:155-160 | The queue is emptied |
| DeadlineSubmitter.DeadlineSubmitter.NewDeadline | Miner/DeadlineSubmitter.cs:168-177 | The deadline is appended and nothing else changes |
| DeadlineSubmitter.DeadlineSubmitter.Pass | Miner/DeadlineSubmitter.cs:86-147 | The queue keeps its non-terminal entries; every due entry is handled once as Handle says; entries not due are left alone; the dropped Accepted or Rejected entries are left alone; the posted entries are the Found ones |
| DeadlineSubmitter.Process | Miner/DeadlineSubmitter.cs:104-142 | Each deadline ends as Handle says, and the posted ones are those that were Found |
| DeadlineSubmitter.HandleOne | Miner/DeadlineSubmitter.cs:106-141 | The loop body never throws, posts iff Found, sets the status as Handle says and delays a failure by five seconds |
| DeadlineCalculator.Admitted | Miner/DeadlineCalculator.cs:171-178 | A round admits all pending scoops or fills the queue to its maximum, never more |
| DeadlineCalculator.ScoopStep | Miner/DeadlineCalculator.cs:108-133 | Moving on keeps the 96-byte hash buffer |
| DeadlineCalculator.Scan | Miner/DeadlineCalculator.cs:108-133 | A scan only appends events |
| DeadlineCalculator.StepRaisesExpected | Miner/DeadlineCalculator.cs:116-132 | A live scoop raises exactly its qualifying deadline and keeps the cache in agreement with the round |
| DeadlineCalculator.ScanRaisesExpected | Miner/DeadlineCalculator.cs:108-133 | A live batch raises, in order, exactly the scoops of the round's height whose ToUInt64(H(gensig ++ data)) / baseTarget is below the target |
| DeadlineCalculator.ScanEventsQualify | Miner/DeadlineCalculator.cs:116-132 | Every event is for the round's height and below its target; stale scoops raise nothing |
| DeadlineCalculator.StaleSignatureAtSameHeight | Miner/DeadlineCalculator.cs:120-124 | The cache is keyed on height alone, so a new signature at the same height is not copied |
| DeadlineCalculator.DeadlineCalculator.constructor | Miner/DeadlineCalculator.cs:60-75 | An empty queue with the given capacity, alive, with no round |
| DeadlineCalculator.DeadlineCalculator.EnqueueRound | Miner/DeadlineCalculator.cs:159-185 | Without round information it gives up; otherwise it appends the admitted prefix of the pending scoops in order |
| DeadlineCalculator.DeadlineCalculator.TakeBatch | Miner/DeadlineCalculator.cs:92-98 | Takes at most 100 scoops from the tail, last first, and leaves the rest in order |
| DeadlineCalculator.DeadlineCalculator.NotifyNewRound | Miner/DeadlineCalculator.cs:143-151 | Replaces the round and empties the queue |
| DeadlineCalculator.DeadlineCalculator.Dispose | Miner/DeadlineCalculator.cs:191-210 | Stops the workers, sets the largest capacity and drops the round |
| DeadlineCalculator.HashWorker.constructor | Miner/DeadlineCalculator.cs:84-85 | A zeroed 96-byte buffer, with height 0 cached |
| DeadlineCalculator.HashWorker.ProcessBatch | Miner/DeadlineCalculator.cs:108-133 | The foreach over a batch computes Scan |
| PlotReader.Listed | Miner/PlotReader.cs:177 | The listing is exactly the files that match "*_*_*_*" |
| PlotReader.ParseName | Miner/PlotReader.cs:96-108 | The name is split in four and each part parsed with TryParse |
| PlotReader.Accepted | Miner/PlotReader.cs:189-225 | A file is accepted iff its name parses, stagger equals the count, and its length equals the long cast of PLOT_SIZE times the count; the length is then PLOT_SIZE per nonce modulo 2^64, and exactly that when the product fits a long |
| PlotReader.ExpectedSizeMeaning | Miner/PlotReader.cs:218 | The long-cast ulong product agrees with the exact product modulo 2^64 when non-negative, and equals it when it fits a long |
| PlotReader.EmptyFileAcceptedWhenSizeWraps | Miner/PlotReader.cs:218-219 | With 2^46 nonces the expected size wraps to 0, so an empty file is accepted |
| PlotReader.StorageUnits | Miner/PlotReader.cs:111-115 | The gigabyte total is the byte total over 10^9 |
| PlotReader.BufferSize | Miner/PlotReader.cs:229-238 | The buffer is 64 bytes per nonce, capped by the memory limit |
| PlotReader.ChunkWithin | Miner/PlotReader.cs:248-256 | A chunk holds at most one scoop per 64-byte slot of the buffer |
| PlotReader.SliceCount | Miner/PlotReader.cs:252-256 | The slices cover every offset below the bytes read; a chunk fails iff its last slot overruns the buffer |
| PlotReader.ChunkLoopEmits | Miner/PlotReader.cs:246-264 | Every scoop handed over has the round's height, the file's account and nonces counted up from the first |
| PlotReader.ChunkLoopReadsRegion | Miner/PlotReader.cs:246-264 | On an aligned region the loop hands over the region's scoops in order, and the counters grow by its bytes and slots |
| PlotReader.ReadFileReadsRegion | Miner/PlotReader.cs:226-264 | An accepted file hands over its n scoops from offset scoop·64n, with nonces from its first nonce |
| PlotReader.ReadFileEmits | Miner/PlotReader.cs:226-264 | Whatever the file holds, its scoops carry the height, the account and consecutive nonces |
| PlotReader.RegionInFile | Miner/PlotReader.cs:235-242 | An accepted file's region lies inside it, with no wrap-around |
| PlotReader.FileLoopStorage | Miner/PlotReader.cs:177-282 | A pass that ends alive totals the byte size of every accepted file |
| PlotReader.ReadFileSize | Miner/PlotReader.cs:226 | A file that is read adds its size to the total |
| PlotReader.FileLoopTagged | Miner/PlotReader.cs:177-282 | Every scoop of a pass has the round's height and 64 bytes |
| PlotReader.PlotReader.constructor | Miner/PlotReader.cs:73-76 | A stopped reader with zero counters and no round |
| PlotReader.PlotReader.UpdateUtilisedStorage | Miner/PlotReader.cs:82-127 | The total is StorageGB of the listing, or 0 when listing throws |
| PlotReader.PlotReader.StartMining | Miner/PlotReader.cs:138-148 | A running reader throws and stays unchanged; otherwise it stores the round and the scoop; a null round then throws NullReferenceException |
| PlotReader.PlotReader.Terminate | Miner/PlotReader.cs:153-162 | The reader is stopped and has no thread |
| PlotReader.PlotReader.Dispose | Miner/PlotReader.cs:297-300 | Same as Terminate |
| PlotReader.PlotReader.RunThread | Miner/PlotReader.cs:167-290 | The thread computes ThreadPass: its batches, counters and total; it then stops |
| PlotReader.PlotReader.ReadFiles | Miner/PlotReader.cs:177-280 | The file loop computes FileLoop |
| PlotReader.PlotReader.ReadRegion | Miner/PlotReader.cs:246-264 | The while loop computes ChunkLoop |
| PlotReader.PlotReader.SliceChunk | Miner/PlotReader.cs:252-256 | The for loop computes SliceFrom |
| PlotReaderManager.ScoopNumber | Miner/PlotReaderManager.cs:136 | The scoop is (g[30] mod 16)·256 + g[31], below 4096 |
| PlotReaderManager.ScoopNumberOnto | Miner/PlotReaderManager.cs:136 | Every scoop below 4096 is some digest's scoop |
| PlotReaderManager.GensigHashable | Miner/PlotReaderManager.cs:132-134 | The 40-byte input exists iff the fields are long enough; otherwise ArgumentException |
| PlotReaderManager.HashableIsSignatureThenHeight | Miner/PlotReaderManager.cs:132-134 | For a parsed round, the input is the 32-byte signature followed by the big-endian height |
| PlotReaderManager.NewReaders | Miner/PlotReaderManager.cs:54-62 | One fresh, stopped reader per directory, in order, all distinct |
| PlotReaderManager.PlotReaderManager.constructor | Miner/PlotReaderManager.cs:41-63 | Readers exist iff the directory list is non-empty |
| PlotReaderManager.PlotReaderManager.TerminateAll | Miner/PlotReaderManager.cs:105-106 | Every reader is stopped |
| PlotReaderManager.PlotReaderManager.StartAll | Miner/PlotReaderManager.cs:140-141 | Every reader is started on the same round and scoop |
| PlotReaderManager.PlotReaderManager.StartRound | Miner/PlotReaderManager.cs:109-141 | The queue is scrapped; a known round starts every reader on ScoopNumber(H(input)); a short field throws with every reader stopped |
| PlotReaderManager.PlotReaderManager.ReadPlots | Miner/PlotReaderManager.cs:102-143 | Without readers it throws NullReferenceException before scrapping the queue; otherwise as StartRound after stopping every reader |
| PlotReaderManager.PlotReaderManager.ReadPlotsGuarded | Miner/PlotReaderManager.cs:125-129 | Always scraps the queue, never throws without readers, and otherwise is ReadPlots |
| PlotReaderManager.PlotReaderManager.OnDeadlineFound | Miner/PlotReaderManager.cs:90-93 | A deadline above the TimeSpan range throws OverflowException; otherwise a new Found deadline is queued |
| PlotReaderManager.PlotReaderManager.Dispose | Miner/PlotReaderManager.cs:149-166 | Every reader is stopped with its round, scoop queue and counters unchanged, and the array is dropped |
| Plotter.FileNameParses | Plotter/Program.cs:23 | The plotter's name matches the pattern and parses back to its four numbers |
| Plotter.JoinedSplits | Plotter/Program.cs:23 | Four parts without '_', joined with '_', split back into those parts |
| Plotter.PlottedFileAccepted | Plotter/Program.cs:23-27 | A file of PLOT_SIZE bytes per nonce under that name passes every guard of the reader |
| Plotter.ThreadRanges | Plotter/Program.cs:32-41 | There is one range per thread |
| Plotter.AmountBound | Plotter/Program.cs:33-38 | No thread takes more than toCreate |
| Plotter.CoveredValue | Plotter/Program.cs:38 | m < threadCount threads cover m shares; all of them cover shares plus the remainder |
| Plotter.CoveredTotal | Plotter/Program.cs:33-40 | All threads cover toCreate nonces |
| Plotter.CoveredMonotone | Plotter/Program.cs:38-40 | Coverage only grows |
| Plotter.RangesContiguous | Plotter/Program.cs:40 | Thread i + 1 starts where thread i ends |
| Plotter.ThreadRangesStep | Plotter/Program.cs:34-41 | In ThreadRanges, each range starts where the one before ends |
| Plotter.ThreadRangesTotal | Plotter/Program.cs:34-41 | The range sizes add up to toCreate |
| Plotter.ThreadRangesPartition | Plotter/Program.cs:32-41 | The ranges start at nonce, are contiguous and add up to toCreate: every nonce is plotted exactly once |
| Plotter.TotalCountCovered | Plotter/Program.cs:34-41 | The first m ranges cover what m threads cover |
| Plotter.WriteOffsetAgrees | Plotter/Program.cs:79-80 | Up to 8192 nonces the int offset is exact |
| Plotter.WriteOffsetWraps | Plotter/Program.cs:79-80 | At 8193 nonces the offset of scoop 4095 of nonce 8192 is negative, though the exact offset lies inside the file |
| Plotter.ScoopOffsetInFile | Plotter/Program.cs:80-84 | Every write lies inside the file |
| Plotter.ScoopOffsetDisjoint | Plotter/Program.cs:80-84 | Different (scoop, nonce) pairs are written to disjoint places |
| Plotter.SlotOfOffset | Plotter/Program.cs:80 | Each written byte belongs to its own (scoop, nonce) |
| Plotter.ByteInSlot | Plotter/Program.cs:80 | Every byte of the file lies in its own slot's write |
| Plotter.LayoutScoop | Plotter/Program.cs:78-84 | In the finished file, the 64 bytes at ScoopOffset(s, k) are scoop s of nonce fileNonce + k |
| Plotter.RegionIsScoopRow | Plotter/Program.cs:80 | The reader's region for scoop s starts at the plotter's slot for (s, 0), and slot k is nonce k |
| Plotter.ReaderSeesPlottedScoops | Plotter/Program.cs:76-84 | The reader's scoops of a finished file are the plotted scoops, in nonce order |
| Plotter.ReaderReadsPlottedFile | Plotter/Program.cs:16-89 | The miner accepts the plotter's file and hands over scoop s of every nonce in order |
| Plotter.WrittenNone | Plotter/Program.cs:27 | A file of the right size has nothing written yet |
| Plotter.WriteStep | Plotter/Program.cs:78-84 | Writing one scoop extends the written part by it and changes no other byte |
| Plotter.NonceDone | Plotter/Program.cs:76 | Finishing every scoop of nonce k is beginning nonce k + 1 |
| Plotter.WrittenChain | Plotter/Program.cs:34-41 | Threads run one after another write the union of their ranges |
| Plotter.FullyWritten | Plotter/Program.cs:16-48 | Writing every nonce gives the finished file, whatever it held before |
| Plotter.WritePlot | Plotter/Program.cs:75-86 | Writing one nonce extends the written part by that nonce, at the offset computed in 64 bits (it agrees with the int offset of Program.cs:80 up to 8192 nonces, by WriteOffsetAgrees) |
| Plotter.CalculatePlots | Plotter/Program.cs:69-89 | A thread writes its nonces and clears only its own flag; a wrapping bound writes nothing; offsets are computed in 64 bits, agreeing with the int offset of Program.cs:80 up to 8192 nonces (WriteOffsetAgrees) |
| Plotter.StartThread | Plotter/Program.cs:36-40 | Thread i's range is RangeOf(i), and the written part grows by it |
| Plotter.RunThreads | Plotter/Program.cs:32-48 | The ranges are ThreadRanges and every nonce is written |
| Plotter.Generate | Plotter/Program.cs:16-53 | The file name, ThreadRanges, every flag cleared, and file == Layout, written at the 64-bit offsets, which agree with the int offset of Program.cs:80 up to 8192 nonces (WriteOffsetAgrees) |

## Left out

- Shabal-256 is not modelled. Every hash is the parameter `H`, so the properties hold for any 32-byte hash.
- Threads, locks, `Thread.Sleep`, `Join` and waiting on flags are not modelled. `Generate` runs the plotting threads one after another. `ScoopOffsetDisjoint` and `WrittenChain` show that their writes do not overlap and compose, which makes the order immaterial.
- The calculator's and submitter's worker threads are not modelled as threads either. Each is a method for one turn of its loop (`TakeBatch`, `ProcessBatch`, `Pass`).
- File I/O is modelled on sequences:
  - a listing is a sequence of name and content pairs;
  - `Stream.Read` returns what is available up to the count;
  - `FileStream` writes and `SetLength` are writes to a zeroed array.
- `File.Exists` and `File.Delete` in the plotter are left out: the file is created fresh.
- HTTP, JSON and the pool protocol are reduced to the `Response` datatype, and the clock `DateTime.UtcNow` is the parameter `now`.
- Logging, the console UI, `Stopwatch`, headers and event unsubscription are left out. They do not affect state.
- Configuration values (plot directories, memory limit, maximum scoops) are parameters.
- PlotReader.PlotReader.RunThread: the liveness flag, which another thread clears, is the count `checks` of checks that still see it set.
- PlotReader.ChunkLoop: the reader hands every batch over in one reused list that it clears before the next chunk. The model hands over a copy of each batch, so a subscriber that keeps the list, and then sees it change, is not modelled.
- Text.ParseU64: `TryParse` and `Parse` are modelled on digit strings plus null. Culture-specific signs, white space and group separators are not modelled.
- PlotChecker is not part of this model, and neither are the `ScoopsDiscovered` handler that feeds it or the `_plotChecker?.Reset` call in ReadPlots.
- Miner.cs, MiningInfoUpdater.cs, Configuration.cs, ConsoleUi.cs, Logger.cs and Miner/Program.cs are not part of this model. Miner.cs calls `NotifyNewRound`, which is modelled on the calculator.
- Plotter.Generate requires `nonce + toCreate < 2^64`. The program fixes nonce 0 and toCreate 400; `CalculatePlots` covers the wrapping bound.
- Hex.Decode: strings are sequences of Unicode scalar values, while C# strings are UTF-16 code units. For a string holding a character outside the Basic Multilingual Plane, lengths and pair positions differ. An example is "0000" followed by one emoji: the program reads the surrogate pair as a pair and throws FormatException, where Hex.LoneLastChar gives ArgumentOutOfRangeException. Text.SplitN and Text.ParseU64 give the same parts and values under either view, because '_' and the digits are single code units.
- PlotReaderManager.PlotReaderManager.OnDeadlineFound: `TimeSpan.FromSeconds` takes a double, and the tick count goes through a double product. Above 2^53 ticks the program therefore rounds, while the model's duration is the exact product `seconds * TICKS_PER_SECOND`. Floating point is not modelled.
- Bytes.ToUInt64 reads little-endian, as `BitConverter` does on the hosts the code targets; big-endian hosts are not modelled.
- The submitter's `Dispose` is left out: it only stops the worker thread and disposes the HTTP client, neither of which is modelled. The calculator's `Dispose` is modelled without its thread `Join`s.

## Findings

| source | as written | input that shows it | evidently intended | confidence | as-written member | corrected member |
|---|---|---|---|---|---|---|
| Miner/Deadline.cs:84-89 | `Submit` throws unless the status is Found, and the submitter calls it first for every due deadline. A deadline in SubmissionFailure therefore throws into the catch block and only gets a new five-second delay. It is never posted again. | A deadline whose first post got a body with neither "deadline" nor "errorCode" | A failed submission is retried after five seconds | not executed | DeadlineSubmitter.RetryNeverReachesTransport | DeadlineSubmitter.CorrectedRetryReachesTransport |
| Miner/PlotReaderManager.cs:102-129 | The first foreach runs over `_plotReaders` before the null check, so a miner without plot directories throws NullReferenceException at every round | `directories` = null or empty, any round | Skip mining when there are no readers, as the later guard does | not executed | PlotReaderManager.PlotReaderManager.ReadPlots | PlotReaderManager.PlotReaderManager.ReadPlotsGuarded |
| Plotter/Program.cs:79-80 | The write offset is computed in 32-bit int, which wraps for files of more than 8192 nonces | toCreate = 8193, nonce 8192, scoop 4095: the offset is negative and Seek throws | The offset computed in 64 bits | not executed | Plotter.WriteOffsetWraps | Plotter.CalculatePlots |

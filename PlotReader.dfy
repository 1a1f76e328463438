/** The plot reader of one directory: which files it accepts, how much
    storage they take, and the reading pass that slices the current scoop of
    every nonce out of each file into Scoop batches. The directory is a
    sequence of (name, bytes) files; the liveness flag, which another thread
    clears, is a count of the checks that still see it set. */
module PlotReader {
  import opened Bytes
  import opened Text
  import Plot
  import opened Scoop
  import opened MiningInfo

  datatype PlotFile = PlotFile(name: string, content: seq<byte>)

  /** The search pattern "*_*_*_*": at least three underscores. */
  predicate MatchesPattern(name: string)
  {
    CountChar(name, '_') >= 3
  }

  /** The directory listing filtered by the search pattern: the matching files, in order. */
  function Listed(files: seq<PlotFile>): (r: seq<PlotFile>)
    ensures forall i :: 0 <= i < |r| ==> MatchesPattern(r[i].name) && r[i] in files
    ensures forall f :: f in files && MatchesPattern(f.name) ==> f in r
    decreases |files|
  {
    if files == [] then []
    else
      var last := files[|files| - 1];
      var init := files[..|files| - 1];
      assert forall f :: f in files ==> f in init || f == last;
      Listed(init) + (if MatchesPattern(last.name) then [last] else [])
  }

  /** The four numbers of a plot file name: account id, first nonce, number
      of nonces and stagger size. */
  datatype PlotName = PlotName(accountId: u64, startNonce: u64, numberOfNonces: u64, staggerSize: u64)

  /** The name split on '_' into at most four parts, each parsed with
      ulong.TryParse; the last part holds the rest of the name. A listed
      name always splits into four parts. */
  function ParseName(name: string): (r: Option<PlotName>)
    requires MatchesPattern(name)
    ensures var parts := SplitN(name, '_', 4);
      |parts| == 4 &&
      (r.Some? <==> forall k :: 0 <= k < 4 ==> ParseU64(parts[k]).Some?) &&
      (r.Some? ==> r.value == PlotName(ParseU64(parts[0]).value, ParseU64(parts[1]).value,
                                       ParseU64(parts[2]).value, ParseU64(parts[3]).value))
  {
    var parts := SplitN(name, '_', 4);
    SplitNFull(name, '_', 4);
    var a := ParseU64(parts[0]);
    var n := ParseU64(parts[1]);
    var c := ParseU64(parts[2]);
    var st := ParseU64(parts[3]);
    if a.None? || n.None? || c.None? || st.None? then None
    else Some(PlotName(a.value, n.value, c.value, st.value))
  }

  /** The expected file length: the 64-bit unsigned product of the plot size
      and the number of nonces, wrapped, then read as a signed 64-bit value. */
  function ExpectedSize(numberOfNonces: u64): i64
  {
    ToInt64(Wrap64(Plot.PLOT_SIZE * numberOfNonces))
  }

  /** The guards both loops apply to a listed file: the name parses, the
      stagger size equals the number of nonces, and the length equals the
      expected size. An accepted file is PLOT_SIZE bytes per nonce when that
      product fits a long; in general its length agrees with the product only
      modulo 2^64. */
  function Accepted(f: PlotFile): (r: Option<PlotName>)
    requires MatchesPattern(f.name)
    ensures r.Some? <==> (ParseName(f.name).Some? &&
      ParseName(f.name).value.staggerSize == ParseName(f.name).value.numberOfNonces &&
      |f.content| == ExpectedSize(ParseName(f.name).value.numberOfNonces))
    ensures r.Some? ==> r == ParseName(f.name)
    ensures r.Some? && Plot.PLOT_SIZE * r.value.numberOfNonces < TWO_63 ==>
      |f.content| == Plot.PLOT_SIZE * r.value.numberOfNonces
    ensures r.Some? ==>
      |f.content| < TWO_63 && (Plot.PLOT_SIZE * r.value.numberOfNonces - |f.content|) % TWO_64 == 0
  {
    var p := ParseName(f.name);
    if p.None? || p.value.staggerSize != p.value.numberOfNonces then None
    else if |f.content| != ExpectedSize(p.value.numberOfNonces) then None
    else ExpectedSizeMeaning(p.value.numberOfNonces); p
  }

  /** A non-negative expected size agrees with the exact product modulo
      2^64, and is the product when that fits a long. */
  lemma {:induction false} ExpectedSizeMeaning(n: u64)
    ensures ExpectedSize(n) >= 0 ==> (Plot.PLOT_SIZE * n - ExpectedSize(n)) % TWO_64 == 0
    ensures Plot.PLOT_SIZE * n < TWO_63 ==> ExpectedSize(n) == Plot.PLOT_SIZE * n
  {
    var x := Plot.PLOT_SIZE * n;
    if ExpectedSize(n) >= 0 {
      assert ExpectedSize(n) == x % TWO_64;
      assert x - x % TWO_64 == TWO_64 * (x / TWO_64);
    }
  }

  /** The size guard compares against the wrapped product: with 2^46 nonces
      the expected size is 2^64 wrapped to 0, so an empty file passes every
      guard. */
  lemma {:induction false} EmptyFileAcceptedWhenSizeWraps(f: PlotFile)
    requires MatchesPattern(f.name) && f.content == []
    requires ParseName(f.name).Some?
    requires ParseName(f.name).value.numberOfNonces == 0x4000_0000_0000
    requires ParseName(f.name).value.staggerSize == 0x4000_0000_0000
    ensures Accepted(f) == ParseName(f.name)
  {
    assert Plot.PLOT_SIZE * 0x4000_0000_0000 == TWO_64;
    assert Wrap64(TWO_64) == 0;
  }

  /** UpdateUtilisedStorage's total: expectedSize / 10^9 summed over the
      accepted files, in exact decimal arithmetic. */
  function StorageGB(files: seq<PlotFile>): real
    requires forall i :: 0 <= i < |files| ==> MatchesPattern(files[i].name)
  {
    if files == [] then 0.0
    else
      (if Accepted(files[0]).Some? then (ExpectedSize(Accepted(files[0]).value.numberOfNonces) as real) / 1_000_000_000.0 else 0.0)
        + StorageGB(files[1..])
  }

  /** The byte total of the same files, without wrap-around. */
  function StorageBytes(files: seq<PlotFile>): nat
    requires forall i :: 0 <= i < |files| ==> MatchesPattern(files[i].name)
    decreases |files|, 1
  {
    if files == [] then 0 else StorageTurn(files[0], files[1..])
  }

  /** The byte total of one listed file and then the rest. */
  function StorageTurn(f: PlotFile, rest: seq<PlotFile>): nat
    requires MatchesPattern(f.name) && forall i :: 0 <= i < |rest| ==> MatchesPattern(rest[i].name)
    decreases |rest| + 1, 0
  {
    FileSize(f) + StorageBytes(rest)
  }

  /** The bytes a listed file counts for: its length if accepted, else none. */
  function FileSize(f: PlotFile): nat
    requires MatchesPattern(f.name)
  {
    if Accepted(f).Some? then |f.content| else 0
  }

  /** The two storage figures differ only in unit: gigabytes are bytes / 10^9. */
  lemma {:induction false} StorageUnits(files: seq<PlotFile>)
    requires forall i :: 0 <= i < |files| ==> MatchesPattern(files[i].name)
    ensures StorageGB(files) * 1_000_000_000.0 == StorageBytes(files) as real
  {
    if files != [] {
      StorageUnits(files[1..]);
      assert StorageBytes(files) == FileSize(files[0]) + StorageBytes(files[1..]);
    }
  }

  /** The state a reading pass carries from chunk to chunk and file to file:
      the two counters, the byte total of accepted files, the reused read
      buffer, and how many more liveness checks will still see the reader
      alive. */
  datatype Reading = Reading(bytesRead: u64, scoopsRead: u64, utilised: u64, buffer: seq<byte>, checks: nat)

  /** A reading state together with the batches handed to ScoopsDiscovered
      on the way to it, in order. */
  datatype Pass = Pass(r: Reading, batches: seq<seq<Scoop>>)

  /** The scoops of one chunk: one per 64-byte step of offsets below `read`,
      with consecutive nonces; `ok` is false when a Scoop constructor threw
      after the ones before it. */
  datatype Sliced = Sliced(scoops: seq<Scoop>, ok: bool)

  /** The inner for loop, from buffer offset `offset` on. */
  function SliceFrom(blockHeight: u64, nonce: u64, accountId: u64, buffer: seq<byte>, read: nat, offset: nat): (r: Sliced)
    requires read < TWO_31
    decreases read - offset
  {
    if offset >= read then Sliced([], true)
    else
      match NewScoop(blockHeight, nonce, accountId, buffer, offset)
      case Failure(_) => Sliced([], false)
      case Success(s) =>
        var rest := SliceFrom(blockHeight, Wrap64(nonce + 1), accountId, buffer, read, offset + Plot.SCOOP_SIZE);
        Sliced([s] + rest.scoops, rest.ok)
  }

  /** How many bytes a Read of `count` bytes at position `pos` returns. */
  function Available(content: seq<byte>, pos: nat, count: nat): (n: nat)
    ensures n <= count && (n == 0 || pos + n <= |content|)
  {
    if pos >= |content| then 0 else Min(count, |content| - pos)
  }

  /** A stream read into the start of the buffer having returned `read`
      bytes: the first `read` bytes of the buffer are overwritten, the rest
      kept. */
  function Refill(buffer: seq<byte>, content: seq<byte>, pos: nat, read: nat): (b: seq<byte>)
    requires read <= |buffer| && (read == 0 || pos + read <= |content|)
    ensures |b| == |buffer|
  {
    seq(|buffer|, i requires 0 <= i < |buffer| => if i < read then content[pos + i] else buffer[i])
  }

  /** The count passed to Stream.Read: min(remaining, bufferSize), cast to int. */
  function Request(remaining: u32, bufferSize: u32): (c: i32)
    ensures c >= 0 ==> c <= remaining && c <= bufferSize
    ensures remaining < TWO_31 || bufferSize < TWO_31 ==> c == Min(remaining, bufferSize)
  {
    ToInt32(if remaining > bufferSize then bufferSize else remaining)
  }

  /** One iteration's read and slice, before the batch is handed over. */
  datatype Chunk = Chunk(r: Reading, read: nat, sliced: Sliced)

  /** One iteration of the while loop up to the event: read min(remaining,
      bufferSize) bytes into the buffer, count them, and slice them. */
  function ReadChunk(r: Reading, content: seq<byte>, blockHeight: u64, accountId: u64,
                     bufferSize: u32, remaining: u32, pos: nat, nonce: u64): (c: Chunk)
    requires bufferSize <= |r.buffer| && Request(remaining, bufferSize) >= 0
    ensures c.read <= remaining && c.read <= bufferSize
    ensures c.r.bytesRead == Wrap64(r.bytesRead + c.read) && c.r.scoopsRead == Wrap64(r.scoopsRead + |c.sliced.scoops|)
    ensures c.r.utilised == r.utilised && c.r.checks == r.checks && |c.r.buffer| == |r.buffer|
  {
    var read := Available(content, pos, Request(remaining, bufferSize));
    var buffer := Refill(r.buffer, content, pos, read);
    var sl := SliceFrom(blockHeight, nonce, accountId, buffer, read, 0);
    Chunk(r.(bytesRead := Wrap64(r.bytesRead + read), scoopsRead := Wrap64(r.scoopsRead + |sl.scoops|),
             buffer := buffer), read, sl)
  }

  /** The while loop over one file's region: it goes round while something
      remains and the count passed to Stream.Read is not negative (a
      negative count throws). */
  function ChunkLoop(r: Reading, content: seq<byte>, blockHeight: u64, accountId: u64,
                     bufferSize: u32, remaining: u32, pos: nat, nonce: u64): (p: Pass)
    requires bufferSize <= |r.buffer|
    ensures |p.r.buffer| == |r.buffer| && p.r.utilised == r.utilised && p.r.checks <= r.checks
    ensures BatchesWithin(p.batches, Slots(bufferSize))
    decreases r.checks, 1
  {
    if remaining == 0 || Request(remaining, bufferSize) < 0 then Pass(r, [])
    else ChunkTurn(r, content, blockHeight, accountId, bufferSize, remaining, pos, nonce)
  }

  /** The body of the while loop and what follows it: read and slice one
      chunk, stop if a Scoop constructor threw, hand the batch over, and
      stop unless the liveness check passes. */
  function ChunkTurn(r: Reading, content: seq<byte>, blockHeight: u64, accountId: u64,
                     bufferSize: u32, remaining: u32, pos: nat, nonce: u64): (p: Pass)
    requires bufferSize <= |r.buffer| && Request(remaining, bufferSize) >= 0
    ensures |p.r.buffer| == |r.buffer| && p.r.utilised == r.utilised && p.r.checks <= r.checks
    ensures BatchesWithin(p.batches, Slots(bufferSize))
    decreases r.checks, 0
  {
    var c := ReadChunk(r, content, blockHeight, accountId, bufferSize, remaining, pos, nonce);
    ChunkWithin(r, content, blockHeight, accountId, bufferSize, remaining, pos, nonce);
    if !c.sliced.ok then Pass(c.r, [])
    else if r.checks == 0 then Pass(c.r, [c.sliced.scoops])
    else
      var rest := ChunkLoop(c.r.(checks := r.checks - 1), content, blockHeight, accountId,
                            bufferSize, remaining - c.read, pos + c.read, Wrap64(nonce + |c.sliced.scoops|));
      Pass(rest.r, [c.sliced.scoops] + rest.batches)
  }

  /** The bytes one scoop occupies across the file: the scoop size times the
      number of nonces, truncated to 32 bits. */
  function DesiredBufferSize(numberOfNonces: u64): u32
  {
    Wrap32(Plot.SCOOP_SIZE * numberOfNonces)
  }

  /** bufferSize: the desired size, capped at the per-reader memory limit. */
  function BufferSize(numberOfNonces: u64, memoryLimit: u32): (b: u32)
    ensures b <= memoryLimit && b <= DesiredBufferSize(numberOfNonces)
    ensures b == memoryLimit || b == DesiredBufferSize(numberOfNonces)
  {
    var desired := DesiredBufferSize(numberOfNonces);
    if desired > memoryLimit then memoryLimit else desired
  }

  /** Where the scoop's region starts: the 64-bit unsigned product of the
      scoop number and the desired buffer size, wrapped, read as a signed
      64-bit value. */
  function SeekOffset(scoop: u64, numberOfNonces: u64): i64
  {
    ToInt64(Wrap64(scoop * DesiredBufferSize(numberOfNonces)))
  }

  /** The body of the file loop for one listed file: None when a guard skips
      it (no liveness check follows); otherwise the file is read. */
  function ReadFile(r: Reading, f: PlotFile, blockHeight: u64, scoop: u64, memoryLimit: u32): (o: Option<Pass>)
    requires MatchesPattern(f.name)
    ensures o.Some? <==> Accepted(f).Some?
    ensures o.Some? ==> o.value.r.checks <= r.checks
  {
    match Accepted(f)
    case None => None
    case Some(p) => Some(OpenFile(r, p, f.content, blockHeight, scoop, memoryLimit))
  }

  /** An accepted file: its size is added to the total, the buffer is
      replaced by a zeroed one if it is too small, the stream seeks to
      scoop * desiredBufferSize (a negative offset throws) and the chunk
      loop runs from the file's first nonce. Exceptions are caught for the
      file. */
  function OpenFile(r: Reading, p: PlotName, content: seq<byte>, blockHeight: u64, scoop: u64, memoryLimit: u32): (o: Pass)
    ensures o.r.checks <= r.checks && o.r.utilised == Wrap64(r.utilised + ExpectedSize(p.numberOfNonces))
  {
    var r1 := Opened(r, p.numberOfNonces, memoryLimit);
    var offset := SeekOffset(scoop, p.numberOfNonces);
    if offset < 0 then Pass(r1, [])
    else ChunkLoop(r1, content, blockHeight, p.accountId, BufferSize(p.numberOfNonces, memoryLimit),
                   DesiredBufferSize(p.numberOfNonces), offset, p.startNonce)
  }

  /** The reading state once a file of n nonces is opened: its size is
      counted, and the buffer is replaced by a zeroed one if it is smaller
      than the buffer size. */
  function Opened(r: Reading, n: u64, memoryLimit: u32): (r1: Reading)
    ensures BufferSize(n, memoryLimit) <= |r1.buffer|
    ensures r1 == r.(utilised := r1.utilised, buffer := r1.buffer) && r1.utilised == Wrap64(r.utilised + ExpectedSize(n))
  {
    var bufferSize := BufferSize(n, memoryLimit);
    var buffer := if |r.buffer| < bufferSize then seq(bufferSize, _ => 0) else r.buffer;
    r.(utilised := Wrap64(r.utilised + ExpectedSize(n)), buffer := buffer)
  }

  /** The foreach over the listed files, with the liveness check after every
      file that was not skipped. */
  function FileLoop(r: Reading, files: seq<PlotFile>, blockHeight: u64, scoop: u64, memoryLimit: u32): (p: Pass)
    requires forall i :: 0 <= i < |files| ==> MatchesPattern(files[i].name)
    ensures p.r.checks <= r.checks
    decreases |files|, 2
  {
    if files == [] then Pass(r, [])
    else FileTurn(r, files[0], files[1..], blockHeight, scoop, memoryLimit)
  }

  /** One file, then the rest of the listing. */
  function FileTurn(r: Reading, f: PlotFile, rest: seq<PlotFile>, blockHeight: u64, scoop: u64, memoryLimit: u32): (p: Pass)
    requires MatchesPattern(f.name) && forall i :: 0 <= i < |rest| ==> MatchesPattern(rest[i].name)
    ensures p.r.checks <= r.checks
    decreases |rest| + 1, 1
  {
    FileNext(r, ReadFile(r, f, blockHeight, scoop, memoryLimit), rest, blockHeight, scoop, memoryLimit)
  }

  /** After one file: a skipped file goes straight on to the rest; after an
      accepted one the pass stops unless the liveness check passes. */
  function FileNext(r: Reading, o: Option<Pass>, rest: seq<PlotFile>, blockHeight: u64, scoop: u64, memoryLimit: u32): (p: Pass)
    requires forall i :: 0 <= i < |rest| ==> MatchesPattern(rest[i].name)
    requires o.Some? ==> o.value.r.checks <= r.checks
    ensures p.r.checks <= r.checks
    decreases |rest| + 1, 0
  {
    match o
    case None => FileLoop(r, rest, blockHeight, scoop, memoryLimit)
    case Some(p) =>
      if p.r.checks == 0 then p
      else
        var tail := FileLoop(p.r.(checks := p.r.checks - 1), rest, blockHeight, scoop, memoryLimit);
        Pass(tail.r, p.batches + tail.batches)
  }

  /** A whole ThreadEntry run: counters and the running total start at zero,
      the buffer starts out null, and the directory listing either throws
      (None) or yields the files the pattern matches. */
  function ThreadPass(files: Option<seq<PlotFile>>, blockHeight: u64, scoop: u64, memoryLimit: u32, checks: nat): Pass
  {
    var start := Reading(0, 0, 0, [], checks);
    if files.None? then Pass(start, []) else FileLoop(start, Listed(files.value), blockHeight, scoop, memoryLimit)
  }

  /** The scoops of a list of batches, in order. */
  function Flatten(batches: seq<seq<Scoop>>): seq<Scoop>
  {
    if batches == [] then [] else batches[0] + Flatten(batches[1..])
  }

  lemma {:induction false} FlattenCons(b: seq<Scoop>, rest: seq<seq<Scoop>>)
    ensures Flatten([b] + rest) == b + Flatten(rest)
  {
    assert ([b] + rest)[1..] == rest;
  }

  /** The number of 64-byte slots that start below n. The lemmas below write
      Plot.SCOOP_SIZE as the literal 64 so that offsets stay linear. */
  function Slots(n: nat): nat
  {
    (n + 63) / 64
  }

  /** The scoops of m consecutive 64-byte slots of a file from byte pos on,
      with nonces counted up (modulo 2^64) from `nonce`. */
  function RegionScoops(content: seq<byte>, pos: nat, blockHeight: u64, accountId: u64, nonce: u64, m: nat): (r: seq<Scoop>)
    requires pos + 64 * m <= |content|
    ensures |r| == m
    decreases m
  {
    if m == 0 then []
    else [Scoop(blockHeight, nonce, accountId, content[pos .. pos + 64])] +
         RegionScoops(content, pos + 64, blockHeight, accountId, Wrap64(nonce + 1), m - 1)
  }

  /** Slot j of a region is the 64 bytes at pos + 64j with nonce + j. */
  lemma {:induction false} RegionScoopsAt(content: seq<byte>, pos: nat, blockHeight: u64, accountId: u64, nonce: u64, m: nat, j: nat)
    requires pos + 64 * m <= |content| && j < m
    ensures RegionScoops(content, pos, blockHeight, accountId, nonce, m)[j]
         == Scoop(blockHeight, Wrap64(nonce + j), accountId, content[pos + 64 * j .. pos + 64 * j + 64])
    decreases j
  {
    if j > 0 {
      RegionScoopsAt(content, pos + 64, blockHeight, accountId, Wrap64(nonce + 1), m - 1, j - 1);
      Wrap64Add(nonce + 1, j - 1);
    }
  }

  /** Two adjacent regions make one. */
  lemma {:induction false} RegionScoopsSplit(content: seq<byte>, pos: nat, blockHeight: u64, accountId: u64, nonce: u64,
                                             m1: nat, m2: nat, at: nat, next: u64)
    requires pos + 64 * (m1 + m2) <= |content| && at == pos + 64 * m1 && next == Wrap64(nonce + m1)
    ensures RegionScoops(content, pos, blockHeight, accountId, nonce, m1) +
            RegionScoops(content, at, blockHeight, accountId, next, m2)
         == RegionScoops(content, pos, blockHeight, accountId, nonce, m1 + m2)
    decreases m1
  {
    if m1 > 0 {
      Wrap64Add(nonce + 1, m1 - 1);
      RegionScoopsSplit(content, pos + 64, blockHeight, accountId, Wrap64(nonce + 1), m1 - 1, m2, at, next);
      var head := [Scoop(blockHeight, nonce, accountId, content[pos .. pos + 64])];
      assert RegionScoops(content, pos, blockHeight, accountId, nonce, m1)
          == head + RegionScoops(content, pos + 64, blockHeight, accountId, Wrap64(nonce + 1), m1 - 1);
      assert RegionScoops(content, pos, blockHeight, accountId, nonce, m1 + m2)
          == head + RegionScoops(content, pos + 64, blockHeight, accountId, Wrap64(nonce + 1), m1 - 1 + m2);
    }
  }

  /** Slot j of one chunk is the 64 bytes of the buffer at offset + 64j,
      tagged with the round's height, the file's account and nonce + j. */
  lemma {:induction false} SliceAt(blockHeight: u64, nonce: u64, accountId: u64, buffer: seq<byte>, read: nat, offset: nat, j: nat)
    requires read < TWO_31 && j < |SliceFrom(blockHeight, nonce, accountId, buffer, read, offset).scoops|
    ensures offset + 64 * j < read && offset + 64 * j + 64 <= |buffer|
    ensures SliceFrom(blockHeight, nonce, accountId, buffer, read, offset).scoops[j]
         == Scoop(blockHeight, Wrap64(nonce + j), accountId, buffer[offset + 64 * j .. offset + 64 * j + 64])
    decreases j
  {
    assert Plot.SCOOP_SIZE == 64;
    assert ToInt32(offset) == offset;
    if j > 0 {
      SliceAt(blockHeight, Wrap64(nonce + 1), accountId, buffer, read, offset + 64, j - 1);
      Wrap64Add(nonce + 1, j - 1);
    }
  }

  /** The slots of one chunk cover every offset below `read`, and the chunk
      fails exactly when its last slot runs past the end of the buffer. */
  lemma {:induction false} SliceCount(blockHeight: u64, nonce: u64, accountId: u64, buffer: seq<byte>, read: nat, offset: nat)
    requires read < TWO_31
    ensures var r := SliceFrom(blockHeight, nonce, accountId, buffer, read, offset);
      (offset >= read ==> r == Sliced([], true)) &&
      (offset < read ==>
        |r.scoops| <= Slots(read - offset) &&
        (r.ok <==> offset + 64 * Slots(read - offset) <= |buffer|) &&
        (r.ok ==> |r.scoops| == Slots(read - offset)))
    decreases read - offset
  {
    assert Plot.SCOOP_SIZE == 64;
    if offset < read {
      assert ToInt32(offset) == offset;
      if offset + 64 <= |buffer| {
        var next := offset + 64;
        SliceCount(blockHeight, Wrap64(nonce + 1), accountId, buffer, read, next);
        if next < read {
          assert Slots(read - offset) == 1 + Slots(read - next);
        } else {
          assert Slots(read - offset) == 1;
        }
      }
    }
  }

  /** Scoops tagged with one block height and account, 64 bytes each, with
      nonces counting up (modulo 2^64) from `nonce`. */
  predicate Consecutive(scoops: seq<Scoop>, blockHeight: u64, accountId: u64, nonce: u64)
  {
    forall j :: 0 <= j < |scoops| ==>
      scoops[j].blockHeight == blockHeight && scoops[j].accountId == accountId &&
      scoops[j].nonce == Wrap64(nonce + j) && |scoops[j].data| == 64
  }

  /** No batch holds more than n scoops. */
  predicate BatchesWithin(batches: seq<seq<Scoop>>, n: nat)
  {
    forall i :: 0 <= i < |batches| ==> |batches[i]| <= n
  }

  lemma {:induction false} FlattenOne(b: seq<Scoop>)
    ensures Flatten([b]) == b
  {
    assert [b][1..] == [];
  }

  /** What ChunkTurn returns after a handed-over batch and a passed check. */
  function ChunkRest(c: Chunk, checks: nat, content: seq<byte>, blockHeight: u64, accountId: u64,
                     bufferSize: u32, remaining: u32, pos: nat, nonce: u64): Pass
    requires bufferSize <= |c.r.buffer| && c.read <= remaining
  {
    var rest := ChunkLoop(c.r.(checks := checks), content, blockHeight, accountId,
                          bufferSize, remaining - c.read, pos + c.read, Wrap64(nonce + |c.sliced.scoops|));
    Pass(rest.r, [c.sliced.scoops] + rest.batches)
  }

  /** A chunk that sliced cleanly and a passed liveness check: the batch
      comes first, then what the rest of the loop hands over. */
  lemma {:induction false} ChunkTurnStep(r: Reading, content: seq<byte>, blockHeight: u64, accountId: u64,
                      bufferSize: u32, remaining: u32, pos: nat, nonce: u64)
    requires bufferSize <= |r.buffer| && Request(remaining, bufferSize) >= 0 && r.checks > 0
    requires ReadChunk(r, content, blockHeight, accountId, bufferSize, remaining, pos, nonce).sliced.ok
    ensures ChunkTurn(r, content, blockHeight, accountId, bufferSize, remaining, pos, nonce)
         == ChunkRest(ReadChunk(r, content, blockHeight, accountId, bufferSize, remaining, pos, nonce), r.checks - 1,
                      content, blockHeight, accountId, bufferSize, remaining, pos, nonce)
  {
  }

  /** A chunk that sliced cleanly and took all that remained is the last
      batch, whether or not the liveness check after it passes. */
  lemma {:induction false} ChunkTurnLast(r: Reading, content: seq<byte>, blockHeight: u64, accountId: u64,
                      bufferSize: u32, remaining: u32, pos: nat, nonce: u64)
    requires bufferSize <= |r.buffer| && Request(remaining, bufferSize) >= 0
    requires ReadChunk(r, content, blockHeight, accountId, bufferSize, remaining, pos, nonce).sliced.ok
    requires ReadChunk(r, content, blockHeight, accountId, bufferSize, remaining, pos, nonce).read == remaining
    ensures var c := ReadChunk(r, content, blockHeight, accountId, bufferSize, remaining, pos, nonce);
      ChunkTurn(r, content, blockHeight, accountId, bufferSize, remaining, pos, nonce)
        == Pass(c.r.(checks := if r.checks == 0 then 0 else r.checks - 1), [c.sliced.scoops])
  {
    var c := ReadChunk(r, content, blockHeight, accountId, bufferSize, remaining, pos, nonce);
    assert [c.sliced.scoops] + [] == [c.sliced.scoops];
  }

  lemma {:induction false} ConsecutiveAppend(x: seq<Scoop>, rest: seq<Scoop>, blockHeight: u64, accountId: u64, nonce: u64)
    requires Consecutive(x, blockHeight, accountId, nonce)
    requires Consecutive(rest, blockHeight, accountId, Wrap64(nonce + |x|))
    ensures Consecutive(x + rest, blockHeight, accountId, nonce)
  {
    forall j | |x| <= j < |x| + |rest| ensures (x + rest)[j].nonce == Wrap64(nonce + j) {
      Wrap64Add(nonce + |x|, j - |x|);
    }
  }

  /** Every scoop a chunk loop hands over carries the round's block height,
      the file's account and consecutive nonces from `nonce` across all
      chunks. */
  lemma {:induction false} ChunkLoopEmits(r: Reading, content: seq<byte>, blockHeight: u64, accountId: u64,
                                          bufferSize: u32, remaining: u32, pos: nat, nonce: u64)
    requires bufferSize <= |r.buffer|
    ensures Consecutive(Flatten(ChunkLoop(r, content, blockHeight, accountId, bufferSize, remaining, pos, nonce).batches),
                        blockHeight, accountId, nonce)
    decreases r.checks, 2
  {
    if remaining != 0 && Request(remaining, bufferSize) >= 0 {
      ChunkTurnEmits(r, content, blockHeight, accountId, bufferSize, remaining, pos, nonce);
    }
  }

  lemma {:induction false} ChunkTurnEmits(r: Reading, content: seq<byte>, blockHeight: u64, accountId: u64,
                                          bufferSize: u32, remaining: u32, pos: nat, nonce: u64)
    requires bufferSize <= |r.buffer| && Request(remaining, bufferSize) >= 0
    ensures Consecutive(Flatten(ChunkTurn(r, content, blockHeight, accountId, bufferSize, remaining, pos, nonce).batches),
                        blockHeight, accountId, nonce)
    decreases r.checks, 1
  {
    var c := ReadChunk(r, content, blockHeight, accountId, bufferSize, remaining, pos, nonce);
    SliceTags(r, content, blockHeight, accountId, bufferSize, remaining, pos, nonce);
    if c.sliced.ok && r.checks > 0 {
      ChunkTurnStep(r, content, blockHeight, accountId, bufferSize, remaining, pos, nonce);
      ChunkRestEmits(c, r.checks - 1, content, blockHeight, accountId, bufferSize, remaining, pos, nonce);
    } else if c.sliced.ok {
      FlattenOne(c.sliced.scoops);
    }
  }

  /** The step case: a chunk of consecutive scoops, then the rest of the loop. */
  lemma {:induction false} ChunkRestEmits(c: Chunk, checks: nat, content: seq<byte>, blockHeight: u64, accountId: u64,
                                          bufferSize: u32, remaining: u32, pos: nat, nonce: u64)
    requires bufferSize <= |c.r.buffer| && c.read <= remaining
    requires Consecutive(c.sliced.scoops, blockHeight, accountId, nonce)
    ensures Consecutive(Flatten(ChunkRest(c, checks, content, blockHeight, accountId, bufferSize, remaining, pos, nonce).batches),
                        blockHeight, accountId, nonce)
    decreases checks + 1, 0
  {
    var r3 := c.r.(checks := checks);
    var next := Wrap64(nonce + |c.sliced.scoops|);
    var rest := ChunkLoop(r3, content, blockHeight, accountId, bufferSize, remaining - c.read, pos + c.read, next);
    assert ChunkRest(c, checks, content, blockHeight, accountId, bufferSize, remaining, pos, nonce)
        == Pass(rest.r, [c.sliced.scoops] + rest.batches);
    ChunkLoopEmits(r3, content, blockHeight, accountId, bufferSize, remaining - c.read, pos + c.read, next);
    ConsecutiveJoin(c.sliced.scoops, rest.batches, blockHeight, accountId, nonce);
  }

  /** A consecutive batch followed by batches that continue its nonces. */
  lemma {:induction false} ConsecutiveJoin(x: seq<Scoop>, batches: seq<seq<Scoop>>, blockHeight: u64, accountId: u64, nonce: u64)
    requires Consecutive(x, blockHeight, accountId, nonce)
    requires Consecutive(Flatten(batches), blockHeight, accountId, Wrap64(nonce + |x|))
    ensures Consecutive(Flatten([x] + batches), blockHeight, accountId, nonce)
  {
    FlattenCons(x, batches);
    ConsecutiveAppend(x, Flatten(batches), blockHeight, accountId, nonce);
  }

  /** The scoops of one chunk carry the round's height, the file's account
      and consecutive nonces from `nonce`. */
  lemma {:induction false} SliceTags(r: Reading, content: seq<byte>, blockHeight: u64, accountId: u64,
                  bufferSize: u32, remaining: u32, pos: nat, nonce: u64)
    requires bufferSize <= |r.buffer| && Request(remaining, bufferSize) >= 0
    ensures Consecutive(ReadChunk(r, content, blockHeight, accountId, bufferSize, remaining, pos, nonce).sliced.scoops,
                        blockHeight, accountId, nonce)
  {
    var read := Available(content, pos, Request(remaining, bufferSize));
    var buffer := Refill(r.buffer, content, pos, read);
    forall j | 0 <= j < |SliceFrom(blockHeight, nonce, accountId, buffer, read, 0).scoops| {
      SliceAt(blockHeight, nonce, accountId, buffer, read, 0, j);
    }
  }

  /** One chunk holds at most one scoop per 64-byte slot of the buffer size. */
  lemma {:induction false} ChunkWithin(r: Reading, content: seq<byte>, blockHeight: u64, accountId: u64,
                    bufferSize: u32, remaining: u32, pos: nat, nonce: u64)
    requires bufferSize <= |r.buffer| && Request(remaining, bufferSize) >= 0
    ensures |ReadChunk(r, content, blockHeight, accountId, bufferSize, remaining, pos, nonce).sliced.scoops| <= Slots(bufferSize)
  {
    var c := ReadChunk(r, content, blockHeight, accountId, bufferSize, remaining, pos, nonce);
    SliceCount(blockHeight, nonce, accountId, Refill(r.buffer, content, pos, c.read), c.read, 0);
  }

  /** How many reads of at most `size` bytes a region of n > 0 bytes takes. */
  function ChunksNeeded(n: nat, size: nat): (k: nat)
    requires size > 0
    ensures k >= 1
    decreases n
  {
    if n <= size then 1 else 1 + ChunksNeeded(n - size, size)
  }

  /** The conditions under which a chunk loop reads its whole region: the
      buffer size is a positive multiple of 64 that fits an int, the region
      is a multiple of 64 bytes inside the file, and the liveness checks
      last for every chunk but the last. */
  predicate Aligned(r: Reading, content: seq<byte>, bufferSize: u32, remaining: u32, pos: nat)
  {
    0 < bufferSize < TWO_31 && bufferSize % 64 == 0 && remaining % 64 == 0 &&
    pos + remaining <= |content| && ChunksNeeded(remaining, bufferSize) <= r.checks + 1
  }

  /** The pass reads the whole region from pos on: its batches flatten to
      the region's scoops, and the two counters grew by its bytes and slots. */
  predicate ReadsRegion(p: Pass, r: Reading, content: seq<byte>, pos: nat, blockHeight: u64, accountId: u64,
                        nonce: u64, n: nat)
  {
    pos + 64 * n <= |content| &&
    Flatten(p.batches) == RegionScoops(content, pos, blockHeight, accountId, nonce, n) &&
    p.r.bytesRead == Wrap64(r.bytesRead + 64 * n) &&
    p.r.scoopsRead == Wrap64(r.scoopsRead + n)
  }

  /** On an aligned region that lies inside the file, with a buffer size
      that is a positive multiple of 64 and enough liveness checks for every
      chunk, the chunk loop hands over exactly the scoops of the region in
      order, and the counters grow by the region's bytes and slots. */
  lemma {:induction false} ChunkLoopReadsRegion(r: Reading, content: seq<byte>, blockHeight: u64, accountId: u64,
                                                bufferSize: u32, remaining: u32, pos: nat, nonce: u64)
    requires bufferSize <= |r.buffer| && Aligned(r, content, bufferSize, remaining, pos)
    ensures ReadsRegion(ChunkLoop(r, content, blockHeight, accountId, bufferSize, remaining, pos, nonce),
                        r, content, pos, blockHeight, accountId, nonce, remaining / 64)
    decreases r.checks, 2
  {
    if remaining != 0 {
      ChunkTurnReadsRegion(r, content, blockHeight, accountId, bufferSize, remaining, pos, nonce);
    }
  }

  lemma {:induction false} ChunkTurnReadsRegion(r: Reading, content: seq<byte>, blockHeight: u64, accountId: u64,
                                                bufferSize: u32, remaining: u32, pos: nat, nonce: u64)
    requires bufferSize <= |r.buffer| && Aligned(r, content, bufferSize, remaining, pos) && remaining != 0
    ensures Request(remaining, bufferSize) >= 0
    ensures ReadsRegion(ChunkTurn(r, content, blockHeight, accountId, bufferSize, remaining, pos, nonce),
                        r, content, pos, blockHeight, accountId, nonce, remaining / 64)
    decreases r.checks, 1
  {
    ChunkStart(r, content, blockHeight, accountId, bufferSize, remaining, pos, nonce);
    if ReadChunk(r, content, blockHeight, accountId, bufferSize, remaining, pos, nonce).read == remaining {
      ChunkTurnLast(r, content, blockHeight, accountId, bufferSize, remaining, pos, nonce);
      RegionLast(r, content, blockHeight, accountId, bufferSize, remaining, pos, nonce);
    } else {
      ChunkTurnStep(r, content, blockHeight, accountId, bufferSize, remaining, pos, nonce);
      ChunkRestReadsRegion(ReadChunk(r, content, blockHeight, accountId, bufferSize, remaining, pos, nonce), r,
                           content, blockHeight, accountId, bufferSize, remaining, pos, nonce);
    }
  }

  /** The step case: the first chunk, then the rest of the loop on the
      rest of the region. */
  lemma {:induction false} ChunkRestReadsRegion(c: Chunk, r: Reading, content: seq<byte>, blockHeight: u64, accountId: u64,
                                                bufferSize: u32, remaining: u32, pos: nat, nonce: u64)
    requires bufferSize <= |c.r.buffer| && 0 < c.read < remaining && r.checks > 0
    requires pos + remaining <= |content| && remaining % 64 == 0 && c.read % 64 == 0
    requires c.sliced.scoops == RegionScoops(content, pos, blockHeight, accountId, nonce, c.read / 64)
    requires c.r.bytesRead == Wrap64(r.bytesRead + c.read) && c.r.scoopsRead == Wrap64(r.scoopsRead + |c.sliced.scoops|)
    requires Aligned(c.r.(checks := r.checks - 1), content, bufferSize, remaining - c.read, pos + c.read)
    ensures ReadsRegion(ChunkRest(c, r.checks - 1, content, blockHeight, accountId, bufferSize, remaining, pos, nonce),
                        r, content, pos, blockHeight, accountId, nonce, remaining / 64)
    decreases r.checks, 0
  {
    var r3 := c.r.(checks := r.checks - 1);
    var next := Wrap64(nonce + |c.sliced.scoops|);
    var rest := ChunkLoop(r3, content, blockHeight, accountId, bufferSize, remaining - c.read, pos + c.read, next);
    assert ChunkRest(c, r.checks - 1, content, blockHeight, accountId, bufferSize, remaining, pos, nonce)
        == Pass(rest.r, [c.sliced.scoops] + rest.batches);
    ChunkLoopReadsRegion(r3, content, blockHeight, accountId, bufferSize, remaining - c.read, pos + c.read, next);
    ChunkJoin(c, r, r3, rest, content, blockHeight, accountId, remaining, pos, nonce);
  }

  /** The first chunk of an aligned region, counted into r1, and a pass
      that reads the rest of the region from r1 on read the whole region. */
  lemma {:induction false} ChunkJoin(c: Chunk, r: Reading, r1: Reading, rest: Pass, content: seq<byte>,
                                     blockHeight: u64, accountId: u64, remaining: nat, pos: nat, nonce: u64)
    requires 0 < c.read < remaining && pos + remaining <= |content| && remaining % 64 == 0 && c.read % 64 == 0
    requires c.sliced.scoops == RegionScoops(content, pos, blockHeight, accountId, nonce, c.read / 64)
    requires r1.bytesRead == Wrap64(r.bytesRead + c.read) && r1.scoopsRead == Wrap64(r.scoopsRead + |c.sliced.scoops|)
    requires ReadsRegion(rest, r1, content, pos + c.read, blockHeight, accountId, Wrap64(nonce + |c.sliced.scoops|),
                         (remaining - c.read) / 64)
    ensures ReadsRegion(Pass(rest.r, [c.sliced.scoops] + rest.batches), r, content, pos, blockHeight, accountId,
                        nonce, remaining / 64)
  {
    AlignedSplit(remaining, c.read);
    RegionJoin(rest, r, r1, c.sliced.scoops, c.read, c.read / 64, (remaining - c.read) / 64, remaining / 64,
               content, pos, blockHeight, accountId, nonce);
  }

  /** The first chunk of an aligned region: a full read of min(remaining,
      bufferSize) bytes that slices cleanly into the region's first scoops,
      leaving an aligned region when it does not take all of it. */
  lemma {:induction false} ChunkStart(r: Reading, content: seq<byte>, blockHeight: u64, accountId: u64,
                   bufferSize: u32, remaining: u32, pos: nat, nonce: u64)
    requires bufferSize <= |r.buffer| && Aligned(r, content, bufferSize, remaining, pos) && remaining != 0
    ensures Request(remaining, bufferSize) >= 0
    ensures var c := ReadChunk(r, content, blockHeight, accountId, bufferSize, remaining, pos, nonce);
      c.read == Min(remaining, bufferSize) && c.read % 64 == 0 && c.sliced.ok &&
      c.sliced.scoops == RegionScoops(content, pos, blockHeight, accountId, nonce, c.read / 64) &&
      (c.read < remaining ==>
        r.checks > 0 && Aligned(c.r.(checks := r.checks - 1), content, bufferSize, remaining - c.read, pos + c.read))
  {
    var c := ReadChunk(r, content, blockHeight, accountId, bufferSize, remaining, pos, nonce);
    assert c.read == Min(remaining, bufferSize);
    ChunkSlicesRegion(blockHeight, nonce, accountId, r.buffer, content, pos, c.read);
    if c.read < remaining {
      AlignedSplit(remaining, bufferSize);
    }
  }

  /** A first chunk that takes the whole aligned region reads it. */
  lemma {:induction false} RegionLast(r: Reading, content: seq<byte>, blockHeight: u64, accountId: u64,
                   bufferSize: u32, remaining: u32, pos: nat, nonce: u64)
    requires bufferSize <= |r.buffer| && Aligned(r, content, bufferSize, remaining, pos) && remaining != 0
    requires ReadChunk(r, content, blockHeight, accountId, bufferSize, remaining, pos, nonce).read == remaining
    ensures var c := ReadChunk(r, content, blockHeight, accountId, bufferSize, remaining, pos, nonce);
      ReadsRegion(Pass(c.r.(checks := if r.checks == 0 then 0 else r.checks - 1), [c.sliced.scoops]),
                  r, content, pos, blockHeight, accountId, nonce, remaining / 64)
  {
    ChunkStart(r, content, blockHeight, accountId, bufferSize, remaining, pos, nonce);
    var c := ReadChunk(r, content, blockHeight, accountId, bufferSize, remaining, pos, nonce);
    FlattenOne(c.sliced.scoops);
  }

  /** A first batch of the region's first m scoops (read bytes), counted
      into r1, followed by a pass that reads the next k slots from r1 on,
      reads n = m + k slots: the batches join up and so do the counters. */
  lemma {:induction false} RegionJoin(rest: Pass, r: Reading, r1: Reading, x: seq<Scoop>, read: nat, m: nat, k: nat, n: nat,
                                      content: seq<byte>, pos: nat, blockHeight: u64, accountId: u64, nonce: u64)
    requires read == 64 * m && n == m + k && pos + 64 * n <= |content|
    requires x == RegionScoops(content, pos, blockHeight, accountId, nonce, m)
    requires r1.bytesRead == Wrap64(r.bytesRead + read) && r1.scoopsRead == Wrap64(r.scoopsRead + |x|)
    requires ReadsRegion(rest, r1, content, pos + read, blockHeight, accountId, Wrap64(nonce + |x|), k)
    ensures ReadsRegion(Pass(rest.r, [x] + rest.batches), r, content, pos, blockHeight, accountId, nonce, n)
  {
    RegionJoinScoops(rest, r, r1, x, read, m, k, n, content, pos, blockHeight, accountId, nonce);
    RegionJoinBytes(rest, r, r1, x, read, m, k, n, content, pos, blockHeight, accountId, nonce);
    RegionJoinSlots(rest, r, r1, x, read, m, k, n, content, pos, blockHeight, accountId, nonce);
  }

  /** RegionJoin for the scoops handed over. */
  lemma {:induction false} RegionJoinScoops(rest: Pass, r: Reading, r1: Reading, x: seq<Scoop>, read: nat, m: nat, k: nat, n: nat,
                                      content: seq<byte>, pos: nat, blockHeight: u64, accountId: u64, nonce: u64)
    requires read == 64 * m && n == m + k && pos + 64 * n <= |content|
    requires x == RegionScoops(content, pos, blockHeight, accountId, nonce, m)
    requires r1.bytesRead == Wrap64(r.bytesRead + read) && r1.scoopsRead == Wrap64(r.scoopsRead + |x|)
    requires ReadsRegion(rest, r1, content, pos + read, blockHeight, accountId, Wrap64(nonce + |x|), k)
    ensures Flatten([x] + rest.batches) == RegionScoops(content, pos, blockHeight, accountId, nonce, n)
  {
    ScoopsJoin(x, rest.batches, content, pos, blockHeight, accountId, nonce, read, m, k, n);
  }

  /** RegionJoin for the byte counter. */
  lemma {:induction false} RegionJoinBytes(rest: Pass, r: Reading, r1: Reading, x: seq<Scoop>, read: nat, m: nat, k: nat, n: nat,
                                      content: seq<byte>, pos: nat, blockHeight: u64, accountId: u64, nonce: u64)
    requires read == 64 * m && n == m + k && pos + 64 * n <= |content|
    requires x == RegionScoops(content, pos, blockHeight, accountId, nonce, m)
    requires r1.bytesRead == Wrap64(r.bytesRead + read) && r1.scoopsRead == Wrap64(r.scoopsRead + |x|)
    requires ReadsRegion(rest, r1, content, pos + read, blockHeight, accountId, Wrap64(nonce + |x|), k)
    ensures rest.r.bytesRead == Wrap64(r.bytesRead + 64 * n)
  {
    CountJoin(r.bytesRead, r1.bytesRead, rest.r.bytesRead, read, 64 * k, 64 * n);
  }

  /** RegionJoin for the scoop counter. */
  lemma {:induction false} RegionJoinSlots(rest: Pass, r: Reading, r1: Reading, x: seq<Scoop>, read: nat, m: nat, k: nat, n: nat,
                                      content: seq<byte>, pos: nat, blockHeight: u64, accountId: u64, nonce: u64)
    requires read == 64 * m && n == m + k && pos + 64 * n <= |content|
    requires x == RegionScoops(content, pos, blockHeight, accountId, nonce, m)
    requires r1.bytesRead == Wrap64(r.bytesRead + read) && r1.scoopsRead == Wrap64(r.scoopsRead + |x|)
    requires ReadsRegion(rest, r1, content, pos + read, blockHeight, accountId, Wrap64(nonce + |x|), k)
    ensures rest.r.scoopsRead == Wrap64(r.scoopsRead + n)
  {
    CountSlots(r.scoopsRead, r1.scoopsRead, rest.r.scoopsRead, x, k, n);
  }

  /** The region's first m scoops followed by batches that flatten to the
      next k slots flatten, with them, to the first n = m + k slots. */
  lemma {:induction false} ScoopsJoin(x: seq<Scoop>, batches: seq<seq<Scoop>>, content: seq<byte>, pos: nat,
                                      blockHeight: u64, accountId: u64, nonce: u64, read: nat, m: nat, k: nat, n: nat)
    requires read == 64 * m && n == m + k && pos + 64 * n <= |content|
    requires x == RegionScoops(content, pos, blockHeight, accountId, nonce, m)
    requires Flatten(batches) == RegionScoops(content, pos + read, blockHeight, accountId, Wrap64(nonce + |x|), k)
    ensures Flatten([x] + batches) == RegionScoops(content, pos, blockHeight, accountId, nonce, n)
  {
    FlattenCons(x, batches);
    RegionScoopsSplit(content, pos, blockHeight, accountId, nonce, m, k, pos + read, Wrap64(nonce + |x|));
  }

  /** Counting the scoops of x and then b more is counting c = |x| + b at once. */
  lemma {:induction false} CountSlots(s0: int, s1: int, s2: int, x: seq<Scoop>, b: int, c: int)
    requires s1 == Wrap64(s0 + |x|) && s2 == Wrap64(s1 + b) && c == |x| + b
    ensures s2 == Wrap64(s0 + c)
  {
    Wrap64Add(s0 + |x|, b);
  }

  /** Counting a and then b is counting their sum c at once. */
  lemma {:induction false} CountJoin(s0: int, s1: int, s2: int, a: int, b: int, c: int)
    requires s1 == Wrap64(s0 + a) && s2 == Wrap64(s1 + b) && c == a + b
    ensures s2 == Wrap64(s0 + c)
  {
    Wrap64Add(s0 + a, b);
  }

  /** Taking one full buffer off an aligned region leaves an aligned region
      that takes one read fewer. */
  lemma {:induction false} AlignedSplit(remaining: nat, size: nat)
    requires 0 < size < remaining && remaining % 64 == 0 && size % 64 == 0
    ensures (remaining - size) % 64 == 0 && remaining / 64 == size / 64 + (remaining - size) / 64
    ensures 64 * (size / 64) == size
    ensures ChunksNeeded(remaining, size) == 1 + ChunksNeeded(remaining - size, size)
  {
  }

  /** A full aligned chunk slices into the region's scoops. */
  lemma {:induction false} ChunkSlicesRegion(blockHeight: u64, nonce: u64, accountId: u64, buffer: seq<byte>, content: seq<byte>, pos: nat, read: nat)
    requires 0 < read < TWO_31 && read % 64 == 0 && read <= |buffer| && pos + read <= |content|
    ensures var sl := SliceFrom(blockHeight, nonce, accountId, Refill(buffer, content, pos, read), read, 0);
      sl.ok && sl.scoops == RegionScoops(content, pos, blockHeight, accountId, nonce, read / 64)
  {
    SliceRegion(blockHeight, nonce, accountId, Refill(buffer, content, pos, read), read, 0, content, pos);
  }

  /** Slicing an aligned stretch of the buffer that holds the file's bytes
      from pos on gives the region of the file at the same offset. */
  lemma {:induction false} SliceRegion(blockHeight: u64, nonce: u64, accountId: u64, buffer: seq<byte>, read: nat,
                                       offset: nat, content: seq<byte>, pos: nat)
    requires read < TWO_31 && read % 64 == 0 && offset % 64 == 0 && offset <= read <= |buffer| && pos + read <= |content|
    requires forall i :: offset <= i < read ==> buffer[i] == content[pos + i]
    ensures SliceFrom(blockHeight, nonce, accountId, buffer, read, offset)
         == Sliced(RegionScoops(content, pos + offset, blockHeight, accountId, nonce, (read - offset) / 64), true)
    decreases read - offset
  {
    assert Plot.SCOOP_SIZE == 64;
    if offset < read {
      assert ToInt32(offset) == offset;
      assert buffer[offset .. offset + 64] == content[pos + offset .. pos + offset + 64] by {
        forall i | offset <= i < offset + 64 ensures buffer[i] == content[pos + i] { }
      }
      SliceRegion(blockHeight, Wrap64(nonce + 1), accountId, buffer, read, offset + 64, content, pos);
      assert (read - offset) / 64 - 1 == (read - (offset + 64)) / 64;
    }
  }

  /** The conditions under which one accepted file of n nonces is read in
      full: 64n bytes fit a uint, the scoop number is a plot's, the memory
      limit is a positive multiple of 64 that fits an int, and the liveness
      checks last for every chunk but the last. */
  predicate Readable(n: u64, scoop: u64, memoryLimit: u32, checks: nat)
  {
    64 * n < TWO_32 && scoop < Plot.SCOOPS_PER_PLOT && 0 < memoryLimit < TWO_31 && memoryLimit % 64 == 0 &&
    (n > 0 ==> ChunksNeeded(64 * n, BufferSize(n, memoryLimit)) <= checks + 1)
  }

  /** The first byte of a scoop's region in a file of n nonces. */
  function RegionStart(scoop: nat, n: nat): nat
  {
    MulNat(scoop, 64 * n);
    scoop * (64 * n)
  }

  lemma {:induction false} MulNat(a: nat, b: nat)
    ensures a * b >= 0
  {
    if a > 0 {
      MulNat(a - 1, b);
      assert a * b == (a - 1) * b + b;
    }
  }

  /** For an accepted file whose numbers fit, the read starts at byte
      scoop * 64n and covers 64n bytes: the pass hands over the n scoops of
      that region with nonces from the file's first nonce, and the counters
      grow by 64n bytes and n scoops. */
  lemma {:induction false} ReadFileReadsRegion(r: Reading, f: PlotFile, blockHeight: u64, scoop: u64, memoryLimit: u32)
    requires MatchesPattern(f.name) && Accepted(f).Some?
    requires Readable(Accepted(f).value.numberOfNonces, scoop, memoryLimit, r.checks)
    ensures var p := Accepted(f).value;
      ReadsRegion(ReadFile(r, f, blockHeight, scoop, memoryLimit).value, r, f.content,
                  RegionStart(scoop, p.numberOfNonces), blockHeight, p.accountId, p.startNonce, p.numberOfNonces)
  {
    OpenFileReadsRegion(r, Accepted(f).value, f.content, blockHeight, scoop, memoryLimit);
  }

  lemma {:induction false} OpenFileReadsRegion(r: Reading, p: PlotName, content: seq<byte>, blockHeight: u64, scoop: u64, memoryLimit: u32)
    requires |content| == ExpectedSize(p.numberOfNonces) && Readable(p.numberOfNonces, scoop, memoryLimit, r.checks)
    ensures ReadsRegion(OpenFile(r, p, content, blockHeight, scoop, memoryLimit), r, content,
                        RegionStart(scoop, p.numberOfNonces), blockHeight, p.accountId, p.startNonce, p.numberOfNonces)
  {
    var n := p.numberOfNonces;
    var r1 := Opened(r, n, memoryLimit);
    RegionInFile(n, scoop, |content|);
    if n > 0 {
      ChunkLoopReadsRegion(r1, content, blockHeight, p.accountId, BufferSize(n, memoryLimit), 64 * n,
                           RegionStart(scoop, n), p.startNonce);
    }
  }

  /** The arithmetic of an accepted file's region: no wrap-around in the
      sizes, and the region lies inside the file. */
  lemma {:induction false} RegionInFile(n: u64, scoop: u64, length: nat)
    requires 64 * n < TWO_32 && scoop < Plot.SCOOPS_PER_PLOT && length == ExpectedSize(n)
    ensures DesiredBufferSize(n) == 64 * n && SeekOffset(scoop, n) == RegionStart(scoop, n)
    ensures RegionStart(scoop, n) + 64 * n <= length
    ensures (64 * n) / 64 == n
  {
    var m := 64 * n;
    MulMono(scoop + 1, Plot.SCOOPS_PER_PLOT, m);
    assert scoop * m + m == (scoop + 1) * m;
    assert Plot.PLOT_SIZE * n == Plot.SCOOPS_PER_PLOT * m;
  }

  lemma {:induction false} MulMono(a: nat, b: nat, c: nat)
    requires a <= b
    ensures a * c <= b * c
  {
    assert b * c - a * c == (b - a) * c;
  }

  /** Every scoop handed over for an accepted file carries the round's block
      height, the file's account and consecutive nonces from the file's
      first nonce, whatever the file holds and however reading ends. */
  lemma {:induction false} ReadFileEmits(r: Reading, f: PlotFile, blockHeight: u64, scoop: u64, memoryLimit: u32)
    requires MatchesPattern(f.name) && Accepted(f).Some?
    ensures Consecutive(Flatten(ReadFile(r, f, blockHeight, scoop, memoryLimit).value.batches),
                        blockHeight, Accepted(f).value.accountId, Accepted(f).value.startNonce)
  {
    OpenFileEmits(r, Accepted(f).value, f.content, blockHeight, scoop, memoryLimit);
  }

  lemma {:induction false} OpenFileEmits(r: Reading, p: PlotName, content: seq<byte>, blockHeight: u64, scoop: u64, memoryLimit: u32)
    ensures Consecutive(Flatten(OpenFile(r, p, content, blockHeight, scoop, memoryLimit).batches),
                        blockHeight, p.accountId, p.startNonce)
  {
    if SeekOffset(scoop, p.numberOfNonces) >= 0 {
      ChunkLoopEmits(Opened(r, p.numberOfNonces, memoryLimit), content, blockHeight, p.accountId,
                     BufferSize(p.numberOfNonces, memoryLimit), DesiredBufferSize(p.numberOfNonces),
                     SeekOffset(scoop, p.numberOfNonces), p.startNonce);
    }
  }

  /** A pass that ends with the reader still alive has added `total` to the
      running total that started at u. */
  predicate KeepsTotal(p: Pass, u: int, total: int)
  {
    p.r.checks > 0 ==> p.r.utilised == Wrap64(u + total)
  }

  /** What one file adds to the running total: its size if it was read; a
      skipped file counts for nothing. */
  predicate Counted(r: Reading, o: Option<Pass>, size: nat)
  {
    (o.Some? ==> o.value.r.checks <= r.checks && o.value.r.utilised == Wrap64(r.utilised + size)) &&
    (o.None? ==> size == 0)
  }

  /** When the pass ends with the reader still alive, no file was cut short
      and the running total is the byte size of every accepted file. */
  lemma {:induction false} FileLoopStorage(r: Reading, files: seq<PlotFile>, blockHeight: u64, scoop: u64, memoryLimit: u32)
    requires forall i :: 0 <= i < |files| ==> MatchesPattern(files[i].name)
    ensures KeepsTotal(FileLoop(r, files, blockHeight, scoop, memoryLimit), r.utilised, StorageBytes(files))
    decreases |files|, 2
  {
    if files != [] {
      FileTurnStorage(r, files[0], files[1..], blockHeight, scoop, memoryLimit);
    }
  }

  lemma {:induction false} FileTurnStorage(r: Reading, f: PlotFile, rest: seq<PlotFile>, blockHeight: u64, scoop: u64, memoryLimit: u32)
    requires MatchesPattern(f.name) && forall i :: 0 <= i < |rest| ==> MatchesPattern(rest[i].name)
    ensures KeepsTotal(FileTurn(r, f, rest, blockHeight, scoop, memoryLimit), r.utilised, StorageTurn(f, rest))
    decreases |rest| + 1, 1
  {
    ReadFileSize(r, f, blockHeight, scoop, memoryLimit);
    FileNextStorage(r, ReadFile(r, f, blockHeight, scoop, memoryLimit), FileSize(f), StorageTurn(f, rest),
                    rest, blockHeight, scoop, memoryLimit);
  }

  /** A file that is read adds its size to the running total. */
  lemma {:induction false} ReadFileSize(r: Reading, f: PlotFile, blockHeight: u64, scoop: u64, memoryLimit: u32)
    requires MatchesPattern(f.name)
    ensures Counted(r, ReadFile(r, f, blockHeight, scoop, memoryLimit), FileSize(f))
  {
  }

  lemma {:induction false} FileNextStorage(r: Reading, o: Option<Pass>, size: nat, total: int, rest: seq<PlotFile>,
                                           blockHeight: u64, scoop: u64, memoryLimit: u32)
    requires forall i :: 0 <= i < |rest| ==> MatchesPattern(rest[i].name)
    requires Counted(r, o, size) && total == size + StorageBytes(rest)
    ensures KeepsTotal(FileNext(r, o, rest, blockHeight, scoop, memoryLimit), r.utilised, total)
    decreases |rest| + 1, 0
  {
    match o
    case None =>
      FileLoopStorage(r, rest, blockHeight, scoop, memoryLimit);
    case Some(p) =>
      if p.r.checks > 0 {
        var r2 := p.r.(checks := p.r.checks - 1);
        var tail := FileLoop(r2, rest, blockHeight, scoop, memoryLimit);
        FileLoopStorage(r2, rest, blockHeight, scoop, memoryLimit);
        KeepsJoin(r.utilised, r2, tail, size, StorageBytes(rest), total, p.batches);
      }
  }

  /** A file that added `size`, then a pass that added b, added size + b. */
  lemma {:induction false} KeepsJoin(u0: int, r2: Reading, tail: Pass, size: int, b: int, total: int, batches: seq<seq<Scoop>>)
    requires r2.utilised == Wrap64(u0 + size) && KeepsTotal(tail, r2.utilised, b) && total == size + b
    ensures KeepsTotal(Pass(tail.r, batches + tail.batches), u0, total)
  {
    if tail.r.checks > 0 {
      CountJoin(u0, r2.utilised, tail.r.utilised, size, b, total);
    }
  }

  /** The scoops of a list of batches joined are those of each, in order. */
  lemma {:induction false} FlattenAppend(a: seq<seq<Scoop>>, b: seq<seq<Scoop>>)
    ensures Flatten(a + b) == Flatten(a) + Flatten(b)
    decreases |a|
  {
    if a != [] {
      assert (a + b)[0] == a[0] && (a + b)[1..] == a[1..] + b;
      FlattenAppend(a[1..], b);
      assert a[0] + (Flatten(a[1..]) + Flatten(b)) == (a[0] + Flatten(a[1..])) + Flatten(b);
    } else {
      assert a + b == b;
    }
  }

  /** Scoops of the given block height, 64 bytes each. */
  predicate Tagged(scoops: seq<Scoop>, blockHeight: u64)
  {
    forall j :: 0 <= j < |scoops| ==> scoops[j].blockHeight == blockHeight && |scoops[j].data| == 64
  }

  /** Every scoop a whole pass hands over, from every file, carries the
      round's block height and 64 bytes. */
  lemma {:induction false} FileLoopTagged(r: Reading, files: seq<PlotFile>, blockHeight: u64, scoop: u64, memoryLimit: u32)
    requires forall i :: 0 <= i < |files| ==> MatchesPattern(files[i].name)
    ensures Tagged(Flatten(FileLoop(r, files, blockHeight, scoop, memoryLimit).batches), blockHeight)
    decreases |files|, 2
  {
    if files != [] {
      FileTurnTagged(r, files[0], files[1..], blockHeight, scoop, memoryLimit);
    }
  }

  lemma {:induction false} FileTurnTagged(r: Reading, f: PlotFile, rest: seq<PlotFile>, blockHeight: u64, scoop: u64, memoryLimit: u32)
    requires MatchesPattern(f.name) && forall i :: 0 <= i < |rest| ==> MatchesPattern(rest[i].name)
    ensures Tagged(Flatten(FileTurn(r, f, rest, blockHeight, scoop, memoryLimit).batches), blockHeight)
    decreases |rest| + 1, 1
  {
    var o := ReadFile(r, f, blockHeight, scoop, memoryLimit);
    if o.Some? {
      ReadFileEmits(r, f, blockHeight, scoop, memoryLimit);
    }
    FileNextTagged(r, o, rest, blockHeight, scoop, memoryLimit);
  }

  lemma {:induction false} FileNextTagged(r: Reading, o: Option<Pass>, rest: seq<PlotFile>,
                                          blockHeight: u64, scoop: u64, memoryLimit: u32)
    requires forall i :: 0 <= i < |rest| ==> MatchesPattern(rest[i].name)
    requires o.Some? ==> o.value.r.checks <= r.checks && Tagged(Flatten(o.value.batches), blockHeight)
    ensures Tagged(Flatten(FileNext(r, o, rest, blockHeight, scoop, memoryLimit).batches), blockHeight)
    decreases |rest| + 1, 0
  {
    match o
    case None =>
      FileLoopTagged(r, rest, blockHeight, scoop, memoryLimit);
    case Some(p) =>
      if p.r.checks > 0 {
        var tail := FileLoop(p.r.(checks := p.r.checks - 1), rest, blockHeight, scoop, memoryLimit);
        FileLoopTagged(p.r.(checks := p.r.checks - 1), rest, blockHeight, scoop, memoryLimit);
        FlattenAppend(p.batches, tail.batches);
      }
  }

  /** A pass p preceded by batches that were handed over before it. */
  function Handed(batches: seq<seq<Scoop>>, p: Pass): (q: Pass)
    ensures q.r == p.r
  {
    Pass(p.r, batches + p.batches)
  }

  /** One turn's read and slice, read off the values the loop body computes:
      the count, the bytes read into the buffer and the slices. */
  lemma {:induction false} ChunkIs(cur: Reading, content: seq<byte>, blockHeight: u64, accountId: u64,
                                   bufferSize: u32, remaining: u32, pos: nat, nonce: u64,
                                   read: nat, buffer: seq<byte>, scoops: seq<Scoop>, ok: bool)
    requires bufferSize <= |cur.buffer| && Request(remaining, bufferSize) >= 0
    requires read == Available(content, pos, Request(remaining, bufferSize))
    requires buffer == Refill(cur.buffer, content, pos, read)
    requires Sliced(scoops, ok) == SliceFrom(blockHeight, nonce, accountId, buffer, read, 0)
    ensures ReadChunk(cur, content, blockHeight, accountId, bufferSize, remaining, pos, nonce)
         == Chunk(cur.(bytesRead := Wrap64(cur.bytesRead + read), scoopsRead := Wrap64(cur.scoopsRead + |scoops|),
                       buffer := buffer), read, Sliced(scoops, ok))
  {
  }

  /** A chunk after which the loop stops: a Scoop constructor threw, or the
      liveness check failed after the batch was handed over. */
  lemma {:induction false} ChunkStop(cur: Reading, content: seq<byte>, blockHeight: u64, accountId: u64,
                                     bufferSize: u32, remaining: u32, pos: nat, nonce: u64,
                                     read: nat, buffer: seq<byte>, scoops: seq<Scoop>, ok: bool, r1: Reading)
    requires bufferSize <= |cur.buffer| && remaining > 0 && Request(remaining, bufferSize) >= 0
    requires read == Available(content, pos, Request(remaining, bufferSize))
    requires buffer == Refill(cur.buffer, content, pos, read)
    requires Sliced(scoops, ok) == SliceFrom(blockHeight, nonce, accountId, buffer, read, 0)
    requires !ok || cur.checks == 0
    requires r1 == Reading(Wrap64(cur.bytesRead + read), Wrap64(cur.scoopsRead + |scoops|), cur.utilised, buffer, cur.checks)
    ensures ChunkLoop(cur, content, blockHeight, accountId, bufferSize, remaining, pos, nonce)
         == Handed(if ok then [scoops] else [], Pass(r1, []))
  {
    ChunkIs(cur, content, blockHeight, accountId, bufferSize, remaining, pos, nonce, read, buffer, scoops, ok);
  }

  /** A chunk handed over with the liveness check passed: the loop goes on
      with what remains. */
  lemma {:induction false} ChunkGo(cur: Reading, content: seq<byte>, blockHeight: u64, accountId: u64,
                                   bufferSize: u32, remaining: u32, pos: nat, nonce: u64,
                                   read: nat, buffer: seq<byte>, scoops: seq<Scoop>, next: u64, r1: Reading,
                                   batch: seq<seq<Scoop>>, remaining1: u32, pos1: nat)
    requires bufferSize <= |cur.buffer| && remaining > 0 && Request(remaining, bufferSize) >= 0
    requires read == Available(content, pos, Request(remaining, bufferSize))
    requires buffer == Refill(cur.buffer, content, pos, read)
    requires Sliced(scoops, true) == SliceFrom(blockHeight, nonce, accountId, buffer, read, 0)
    requires cur.checks > 0 && next == Wrap64(nonce + |scoops|)
    requires r1 == Reading(Wrap64(cur.bytesRead + read), Wrap64(cur.scoopsRead + |scoops|), cur.utilised, buffer, cur.checks - 1)
    requires batch == [scoops] && remaining1 == remaining - read && pos1 == pos + read
    ensures ChunkLoop(cur, content, blockHeight, accountId, bufferSize, remaining, pos, nonce)
         == Handed(batch, ChunkLoop(r1, content, blockHeight, accountId, bufferSize, remaining1, pos1, next))
  {
    var c := ReadChunk(cur, content, blockHeight, accountId, bufferSize, remaining, pos, nonce);
    ChunkIs(cur, content, blockHeight, accountId, bufferSize, remaining, pos, nonce, read, buffer, scoops, true);
    assert c.r.(checks := cur.checks - 1) == r1 && c.read == read && c.sliced.scoops == scoops;
    ChunkTurnStep(cur, content, blockHeight, accountId, bufferSize, remaining, pos, nonce);
    var rest := ChunkLoop(r1, content, blockHeight, accountId, bufferSize, remaining1, pos1, next);
    assert ChunkRest(c, cur.checks - 1, content, blockHeight, accountId, bufferSize, remaining, pos, nonce)
        == Pass(rest.r, batch + rest.batches);
  }

  /** The file loop from position i on is file i and then the rest. */
  lemma {:induction false} FileLoopAt(cur: Reading, files: seq<PlotFile>, i: nat, blockHeight: u64, scoop: u64, memoryLimit: u32)
    requires forall k :: 0 <= k < |files| ==> MatchesPattern(files[k].name)
    requires i < |files|
    ensures FileLoop(cur, files[i..], blockHeight, scoop, memoryLimit)
         == FileTurn(cur, files[i], files[i + 1..], blockHeight, scoop, memoryLimit)
  {
    assert files[i..][0] == files[i] && files[i..][1..] == files[i + 1..];
  }

  /** A file the guards skip: the loop goes straight on. */
  lemma {:induction false} FileTurnSkip(cur: Reading, f: PlotFile, rest: seq<PlotFile>, blockHeight: u64, scoop: u64, memoryLimit: u32,
                                        batches: seq<seq<Scoop>>)
    requires MatchesPattern(f.name) && forall k :: 0 <= k < |rest| ==> MatchesPattern(rest[k].name)
    requires Accepted(f).None? && batches == []
    ensures FileTurn(cur, f, rest, blockHeight, scoop, memoryLimit) == Handed(batches, FileLoop(cur, rest, blockHeight, scoop, memoryLimit))
  {
    assert [] + FileLoop(cur, rest, blockHeight, scoop, memoryLimit).batches == FileLoop(cur, rest, blockHeight, scoop, memoryLimit).batches;
  }

  /** An accepted file after which the liveness check fails: the pass ends
      with what the file handed over. */
  lemma {:induction false} FileTurnStop(cur: Reading, f: PlotFile, rest: seq<PlotFile>, blockHeight: u64, scoop: u64, memoryLimit: u32,
                                        p: PlotName, r1: Reading, batches: seq<seq<Scoop>>)
    requires MatchesPattern(f.name) && forall k :: 0 <= k < |rest| ==> MatchesPattern(rest[k].name)
    requires Accepted(f) == Some(p) && OpenFile(cur, p, f.content, blockHeight, scoop, memoryLimit) == Pass(r1, batches)
    requires r1.checks == 0
    ensures FileTurn(cur, f, rest, blockHeight, scoop, memoryLimit) == Handed(batches, Pass(r1, []))
  {
    assert batches + [] == batches;
  }

  /** An accepted file after which the liveness check passes: the pass goes
      on with the rest of the listing. */
  lemma {:induction false} FileTurnGo(cur: Reading, f: PlotFile, rest: seq<PlotFile>, blockHeight: u64, scoop: u64, memoryLimit: u32,
                                      p: PlotName, r0: Reading, r1: Reading, batches: seq<seq<Scoop>>)
    requires MatchesPattern(f.name) && forall k :: 0 <= k < |rest| ==> MatchesPattern(rest[k].name)
    requires Accepted(f) == Some(p) && OpenFile(cur, p, f.content, blockHeight, scoop, memoryLimit) == Pass(r0, batches)
    requires r0.checks > 0 && r1 == r0.(checks := r0.checks - 1)
    ensures FileTurn(cur, f, rest, blockHeight, scoop, memoryLimit) == Handed(batches, FileLoop(r1, rest, blockHeight, scoop, memoryLimit))
  {
    assert ReadFile(cur, f, blockHeight, scoop, memoryLimit) == Some(Pass(r0, batches));
  }

  /** The for loop's progress: the scoops sliced so far, followed by what
      slicing from `offset` with nonce `next` gives, is the whole chunk. */
  predicate SlicedFrom(blockHeight: u64, nonce0: u64, accountId: u64, data: seq<byte>, read: nat,
                       scoops: seq<Scoop>, next: u64, offset: nat)
    requires read < TWO_31
  {
    var rest := SliceFrom(blockHeight, next, accountId, data, read, offset);
    SliceFrom(blockHeight, nonce0, accountId, data, read, 0) == Sliced(scoops + rest.scoops, rest.ok)
  }

  lemma {:induction false} SliceStep(blockHeight: u64, nonce0: u64, accountId: u64, data: seq<byte>, read: nat,
                                     scoops: seq<Scoop>, next: u64, offset: nat, s: Scoop)
    requires read < TWO_31 && offset < read && SlicedFrom(blockHeight, nonce0, accountId, data, read, scoops, next, offset)
    requires NewScoop(blockHeight, next, accountId, data, offset) == Success(s)
    ensures SlicedFrom(blockHeight, nonce0, accountId, data, read, scoops + [s], Wrap64(next + 1), offset + Plot.SCOOP_SIZE)
  {
    var rest := SliceFrom(blockHeight, Wrap64(next + 1), accountId, data, read, offset + Plot.SCOOP_SIZE);
    assert scoops + ([s] + rest.scoops) == scoops + [s] + rest.scoops;
  }

  lemma {:induction false} SliceStop(blockHeight: u64, nonce0: u64, accountId: u64, data: seq<byte>, read: nat,
                                     scoops: seq<Scoop>, next: u64, offset: nat)
    requires read < TWO_31 && offset < read && SlicedFrom(blockHeight, nonce0, accountId, data, read, scoops, next, offset)
    requires NewScoop(blockHeight, next, accountId, data, offset).Failure?
    ensures SliceFrom(blockHeight, nonce0, accountId, data, read, 0) == Sliced(scoops, false)
  {
    assert scoops + [] == scoops;
  }

  lemma {:induction false} SliceEnd(blockHeight: u64, nonce0: u64, accountId: u64, data: seq<byte>, read: nat,
                                    scoops: seq<Scoop>, next: u64, offset: nat)
    requires read < TWO_31 && offset >= read && SlicedFrom(blockHeight, nonce0, accountId, data, read, scoops, next, offset)
    ensures SliceFrom(blockHeight, nonce0, accountId, data, read, 0) == Sliced(scoops, true)
  {
    assert scoops + [] == scoops;
  }

  /** One more after n counted from s0. */
  lemma {:induction false} CountOne(s0: int, n: int, s: int)
    requires s == Wrap64(s0 + n)
    ensures Wrap64(s + 1) == Wrap64(s0 + (n + 1))
  {
    Wrap64Add(s0 + n, 1);
  }

  /** Batches handed over before a pass that itself starts with batches. */
  lemma {:induction false} HandedTwice(events: seq<seq<Scoop>>, batches: seq<seq<Scoop>>, p: Pass)
    ensures Handed(events, Handed(batches, p)) == Handed(events + batches, p)
  {
    assert events + (batches + p.batches) == events + batches + p.batches;
  }

  /** The buffer after Stream.Read returned `read` bytes, as Array.Copy
      leaves it. */
  lemma {:induction false} RefillCopies(buffer: seq<byte>, content: seq<byte>, pos: nat, read: nat)
    requires read <= |buffer| && (read == 0 || pos + read <= |content|)
    ensures read == 0 ==> Refill(buffer, content, pos, read) == buffer
    ensures read > 0 ==>
      Refill(buffer, content, pos, read) == buffer[..0] + content[pos .. pos + read] + buffer[0 + |content[pos .. pos + read]|..]
  {
  }

  /** The reader of one plot directory. The directory's files are passed to
      the operations that list it; `threadSet` says whether the reading
      thread is set, and the thread's run is RunThread. */
  class PlotReader {
    const directory: string
    var isAlive: bool
    var threadSet: bool
    var miningInfo: Option<MiningInfo>
    var scoop: u64
    var utilisedStorage: real
    var scoopsRead: u64
    var bytesRead: u64

    /** The liveness flag is only set while the thread is, and the thread
        only once a round's mining information is known. */
    predicate Valid()
      reads this
    {
      (isAlive ==> threadSet) && (threadSet ==> miningInfo.Some?)
    }

    constructor(directory: string)
      ensures Valid() && this.directory == directory
      ensures !isAlive && !threadSet && miningInfo.None? && scoop == 0
      ensures utilisedStorage == 0.0 && scoopsRead == 0 && bytesRead == 0
    {
      this.directory := directory;
      isAlive := false;
      threadSet := false;
      miningInfo := None;
      scoop := 0;
      utilisedStorage := 0.0;
      scoopsRead := 0;
      bytesRead := 0;
    }

    /** Recompute the storage the accepted plot files take, in gigabytes.
        `listing` is the directory's files, or None when listing throws,
        which leaves the total at zero. */
    method UpdateUtilisedStorage(listing: Option<seq<PlotFile>>)
      modifies this`utilisedStorage
      ensures utilisedStorage == if listing.None? then 0.0 else StorageGB(Listed(listing.value))
    {
      var value := 0.0;
      if listing.Some? {
        var files := Listed(listing.value);
        var i := 0;
        while i < |files|
          invariant 0 <= i <= |files|
          invariant value + StorageGB(files[i..]) == StorageGB(files)
        {
          assert files[i..][0] == files[i] && files[i..][1..] == files[i + 1..];
          var a := Accepted(files[i]);
          if a.Some? {
            value := value + (ExpectedSize(a.value.numberOfNonces) as real) / 1_000_000_000.0;
          }
          i := i + 1;
        }
        assert files[i..] == [];
      }
      utilisedStorage := value;
    }

    /** Start reading for a round. A reader whose thread is set or that is
        alive throws and changes nothing. Otherwise the round and the scoop
        are stored; a missing round then throws NullReferenceException
        before the reader is marked alive. */
    method StartMining(info: Option<MiningInfo>, scoopNumber: u32) returns (thrown: Option<string>)
      requires Valid()
      modifies this`miningInfo, this`scoop, this`isAlive, this`threadSet
      ensures Valid()
      ensures old(threadSet || isAlive) ==> thrown == Some("Exception") && unchanged(this)
      ensures !old(threadSet || isAlive) ==>
        miningInfo == info && scoop == scoopNumber &&
        (info.None? ==> thrown == Some("NullReferenceException") && !isAlive && !threadSet) &&
        (info.Some? ==> thrown.None? && isAlive && threadSet)
    {
      if threadSet || isAlive {
        return Some("Exception");
      }
      miningInfo := info;
      scoop := scoopNumber;
      if info.None? {
        return Some("NullReferenceException");
      }
      isAlive := true;
      threadSet := true;
      thrown := None;
    }

    /** Clear the liveness flag and release the thread. Joining it is the
        thread's own RunThread, which sees the cleared flag at its next
        check. */
    method Terminate()
      requires Valid()
      modifies this`isAlive, this`threadSet
      ensures Valid() && !isAlive && !threadSet
    {
      isAlive := false;
      if threadSet {
        threadSet := false;
      }
    }

    /** Dispose is Terminate. */
    method Dispose()
      requires Valid()
      modifies this`isAlive, this`threadSet
      ensures Valid() && !isAlive && !threadSet
    {
      Terminate();
    }

    /** The thread's run: reset the counters, list the directory (None when
        it throws, which skips the rest) and read every accepted file, then
        publish the byte total and clear the flag and the thread. `checks`
        is how many liveness checks still see the flag set. */
    method RunThread(listing: Option<seq<PlotFile>>, memoryLimit: u32, checks: nat) returns (events: seq<seq<Scoop>>)
      requires Valid() && threadSet
      modifies this`bytesRead, this`scoopsRead, this`utilisedStorage, this`isAlive, this`threadSet
      ensures Valid() && !isAlive && !threadSet
      ensures var p := ThreadPass(listing, old(miningInfo).value.blockHeight, scoop, memoryLimit, checks);
        events == p.batches && bytesRead == p.r.bytesRead && scoopsRead == p.r.scoopsRead &&
        utilisedStorage == if listing.None? then old(utilisedStorage) else p.r.utilised as real
    {
      bytesRead := 0;
      scoopsRead := 0;
      events := [];
      if listing.Some? {
        var utilised;
        utilised, events := ReadFiles(Listed(listing.value), miningInfo.value.blockHeight, memoryLimit, checks);
        utilisedStorage := utilised as real;
      }
      isAlive := false;
      threadSet := false;
    }

    /** The foreach over the listed files, from a null buffer and a zero
        byte total. */
    method ReadFiles(files: seq<PlotFile>, blockHeight: u64, memoryLimit: u32, checks: nat)
      returns (utilised: u64, events: seq<seq<Scoop>>)
      requires forall k :: 0 <= k < |files| ==> MatchesPattern(files[k].name)
      modifies this`bytesRead, this`scoopsRead
      ensures var p := FileLoop(Reading(old(bytesRead), old(scoopsRead), 0, [], checks), files, blockHeight, scoop, memoryLimit);
        events == p.batches && bytesRead == p.r.bytesRead && scoopsRead == p.r.scoopsRead && utilised == p.r.utilised
    {
      ghost var goal := FileLoop(Reading(bytesRead, scoopsRead, 0, [], checks), files, blockHeight, scoop, memoryLimit);
      var readBuffer := new byte[0];
      assert readBuffer[..] == [];
      utilised := 0;
      events := [];
      var left: nat := checks;
      var i: nat := 0;
      var stopped := false;
      while i < |files| && !stopped
        invariant 0 <= i <= |files| && fresh(readBuffer)
        invariant stopped ==> goal == Handed(events, Pass(Reading(bytesRead, scoopsRead, utilised, readBuffer[..], left), []))
        invariant !stopped ==>
          goal == Handed(events, FileLoop(Reading(bytesRead, scoopsRead, utilised, readBuffer[..], left), files[i..],
                                          blockHeight, scoop, memoryLimit))
      {
        FileLoopAt(Reading(bytesRead, scoopsRead, utilised, readBuffer[..], left), files, i, blockHeight, scoop, memoryLimit);
        var batches;
        readBuffer, utilised, left, batches, stopped := NextFile(files[i], files[i + 1..], blockHeight, memoryLimit,
                                                                 readBuffer, utilised, left);
        if stopped {
          HandedTwice(events, batches, Pass(Reading(bytesRead, scoopsRead, utilised, readBuffer[..], left), []));
        } else {
          HandedTwice(events, batches, FileLoop(Reading(bytesRead, scoopsRead, utilised, readBuffer[..], left), files[i + 1..],
                                                blockHeight, scoop, memoryLimit));
        }
        events := events + batches;
        i := i + 1;
      }
      if !stopped {
        assert files[i..] == [];
      }
    }

    /** The body of the foreach for one listed file, with the liveness
        check after a file that was read; `stop` says the check failed. */
    method NextFile(f: PlotFile, rest: seq<PlotFile>, blockHeight: u64, memoryLimit: u32,
                    buffer: array<byte>, utilised: u64, left: nat)
      returns (buffer': array<byte>, utilised': u64, left': nat, batches: seq<seq<Scoop>>, stop: bool)
      requires MatchesPattern(f.name) && forall k :: 0 <= k < |rest| ==> MatchesPattern(rest[k].name)
      modifies this`bytesRead, this`scoopsRead, buffer
      ensures buffer' == buffer || fresh(buffer')
      ensures var p := FileTurn(Reading(old(bytesRead), old(scoopsRead), utilised, old(buffer[..]), left), f, rest,
                                blockHeight, scoop, memoryLimit);
        var r1 := Reading(bytesRead, scoopsRead, utilised', buffer'[..], left');
        (stop ==> p == Handed(batches, Pass(r1, []))) &&
        (!stop ==> p == Handed(batches, FileLoop(r1, rest, blockHeight, scoop, memoryLimit)))
    {
      ghost var cur := Reading(bytesRead, scoopsRead, utilised, buffer[..], left);
      match Accepted(f) {
        case None =>
          buffer', utilised', left', batches, stop := buffer, utilised, left, [], false;
          FileTurnSkip(cur, f, rest, blockHeight, scoop, memoryLimit, batches);
        case Some(p) =>
          buffer', utilised', left', batches := ReadPlotFile(p, f.content, blockHeight, memoryLimit, buffer, utilised, left);
          ghost var r0 := Reading(bytesRead, scoopsRead, utilised', buffer'[..], left');
          if left' == 0 {
            stop := true;
            FileTurnStop(cur, f, rest, blockHeight, scoop, memoryLimit, p, r0, batches);
          } else {
            left' := left' - 1;
            stop := false;
            FileTurnGo(cur, f, rest, blockHeight, scoop, memoryLimit, p, r0,
                       Reading(bytesRead, scoopsRead, utilised', buffer'[..], left'), batches);
          }
      }
    }

    /** One accepted file: count its size, grow the buffer if it is too
        small, seek to the scoop's region (a negative offset throws, which
        is caught for the file) and run the chunk loop. */
    method ReadPlotFile(p: PlotName, content: seq<byte>, blockHeight: u64, memoryLimit: u32,
                        buffer: array<byte>, utilised: u64, left: nat)
      returns (buffer': array<byte>, utilised': u64, left': nat, batches: seq<seq<Scoop>>)
      modifies this`bytesRead, this`scoopsRead, buffer
      ensures buffer' == buffer || fresh(buffer')
      ensures OpenFile(Reading(old(bytesRead), old(scoopsRead), utilised, old(buffer[..]), left), p, content, blockHeight, scoop, memoryLimit)
           == Pass(Reading(bytesRead, scoopsRead, utilised', buffer'[..], left'), batches)
    {
      utilised' := Wrap64(utilised + ExpectedSize(p.numberOfNonces));
      var desired := DesiredBufferSize(p.numberOfNonces);
      var bufferSize := if desired > memoryLimit then memoryLimit else desired;
      buffer' := buffer;
      if buffer.Length < bufferSize {
        buffer' := new byte[bufferSize](_ => 0);
        assert buffer'[..] == seq(bufferSize, _ => 0);
      }
      var offset := SeekOffset(scoop, p.numberOfNonces);
      if offset < 0 {
        left' := left;
        batches := [];
        return;
      }
      left', batches := ReadRegion(content, blockHeight, p.accountId, bufferSize, buffer', desired, offset, p.startNonce, utilised', left);
    }

    /** The while loop over one file's region, from stream position `pos0`. */
    method ReadRegion(content: seq<byte>, blockHeight: u64, accountId: u64, bufferSize: u32, buffer: array<byte>,
                      remaining0: u32, pos0: nat, nonce0: u64, utilised: u64, checks: nat)
      returns (left: nat, batches: seq<seq<Scoop>>)
      requires bufferSize <= buffer.Length
      modifies this`bytesRead, this`scoopsRead, buffer
      ensures ChunkLoop(Reading(old(bytesRead), old(scoopsRead), utilised, old(buffer[..]), checks), content,
                        blockHeight, accountId, bufferSize, remaining0, pos0, nonce0)
           == Pass(Reading(bytesRead, scoopsRead, utilised, buffer[..], left), batches)
    {
      ghost var goal := ChunkLoop(Reading(bytesRead, scoopsRead, utilised, buffer[..], checks), content,
                                  blockHeight, accountId, bufferSize, remaining0, pos0, nonce0);
      var remaining: u32 := remaining0;
      var pos: nat := pos0;
      var nonce: u64 := nonce0;
      left := checks;
      batches := [];
      var done := false;
      while !done && remaining > 0
        invariant done ==> goal == Handed(batches, Pass(Reading(bytesRead, scoopsRead, utilised, buffer[..], left), []))
        invariant !done ==>
          goal == Handed(batches, ChunkLoop(Reading(bytesRead, scoopsRead, utilised, buffer[..], left), content,
                                             blockHeight, accountId, bufferSize, remaining, pos, nonce))
        decreases left, !done
      {
        var batch;
        remaining, pos, nonce, left, batch, done := ReadChunkInto(content, blockHeight, accountId, bufferSize, buffer,
                                                                  remaining, pos, nonce, utilised, left);
        if done {
          HandedTwice(batches, batch, Pass(Reading(bytesRead, scoopsRead, utilised, buffer[..], left), []));
        } else {
          HandedTwice(batches, batch, ChunkLoop(Reading(bytesRead, scoopsRead, utilised, buffer[..], left), content,
                                                blockHeight, accountId, bufferSize, remaining, pos, nonce));
        }
        batches := batches + batch;
      }
    }

    /** One turn of the while loop: Stream.Read of min(remaining,
        bufferSize) bytes (a negative count throws, which ends the file),
        the counters, the slices, the event and the liveness check;
        `done` says the loop stops after it. */
    method ReadChunkInto(content: seq<byte>, blockHeight: u64, accountId: u64, bufferSize: u32, buffer: array<byte>,
                         remaining: u32, pos: nat, nonce: u64, utilised: u64, left: nat)
      returns (remaining': u32, pos': nat, nonce': u64, left': nat, batch: seq<seq<Scoop>>, done: bool)
      requires bufferSize <= buffer.Length && remaining > 0
      modifies this`bytesRead, this`scoopsRead, buffer
      ensures !done ==> left' < left
      ensures var p := ChunkLoop(Reading(old(bytesRead), old(scoopsRead), utilised, old(buffer[..]), left), content,
                                 blockHeight, accountId, bufferSize, remaining, pos, nonce);
        var r1 := Reading(bytesRead, scoopsRead, utilised, buffer[..], left');
        (done ==> p == Handed(batch, Pass(r1, []))) &&
        (!done ==> p == Handed(batch, ChunkLoop(r1, content, blockHeight, accountId, bufferSize, remaining', pos', nonce')))
    {
      ghost var cur := Reading(bytesRead, scoopsRead, utilised, buffer[..], left);
      var count := Request(remaining, bufferSize);
      if count < 0 {
        remaining', pos', nonce', left', batch, done := remaining, pos, nonce, left, [], true;
        assert Handed([], Pass(cur, [])) == Pass(cur, []);
        return;
      }
      var read := ReadStream(content, pos, count, buffer);
      var scoops, ok, next := SliceChunk(buffer, read, blockHeight, nonce, accountId);
      scoopsRead := Wrap64(scoopsRead + |scoops|);
      remaining', pos', nonce' := remaining - read, pos + read, next;
      if !ok || left == 0 {
        left', done := left, true;
        ChunkStop(cur, content, blockHeight, accountId, bufferSize, remaining, pos, nonce, read, buffer[..], scoops, ok,
                  Reading(bytesRead, scoopsRead, utilised, buffer[..], left'));
        batch := if ok then [scoops] else [];
      } else {
        left', done := left - 1, false;
        batch := [scoops];
        ChunkGo(cur, content, blockHeight, accountId, bufferSize, remaining, pos, nonce, read, buffer[..], scoops, next,
                Reading(bytesRead, scoopsRead, utilised, buffer[..], left'), batch, remaining', pos');
      }
    }

    /** A stream read of `count` bytes into the buffer at stream position `pos`, and
        BytesRead advanced by what it returned. */
    method ReadStream(content: seq<byte>, pos: nat, count: nat, buffer: array<byte>) returns (read: nat)
      requires count <= buffer.Length
      modifies this`bytesRead, buffer
      ensures read == Available(content, pos, count)
      ensures buffer[..] == Refill(old(buffer[..]), content, pos, read)
      ensures bytesRead == Wrap64(old(bytesRead) + read)
    {
      read := Available(content, pos, count);
      RefillCopies(buffer[..], content, pos, read);
      if read > 0 {
        ArrayCopy(content[pos .. pos + read], buffer, 0);
      }
      bytesRead := Wrap64(bytesRead + read);
    }

    /** The for loop over one chunk: a Scoop per 64-byte offset below
        `read`, with consecutive nonces; a Scoop constructor that throws
        ends the chunk. */
    method SliceChunk(buffer: array<byte>, read: nat, blockHeight: u64, nonce0: u64, accountId: u64)
      returns (scoops: seq<Scoop>, ok: bool, next: u64)
      requires read < TWO_31
      ensures Sliced(scoops, ok) == SliceFrom(blockHeight, nonce0, accountId, buffer[..], read, 0)
      ensures next == Wrap64(nonce0 + |scoops|)
    {
      scoops := [];
      next := nonce0;
      var offset: nat := 0;
      while offset < read
        invariant SlicedFrom(blockHeight, nonce0, accountId, buffer[..], read, scoops, next, offset)
        invariant next == Wrap64(nonce0 + |scoops|)
        decreases read - offset
      {
        match NewScoop(blockHeight, next, accountId, buffer[..], offset)
        case Failure(_) =>
          SliceStop(blockHeight, nonce0, accountId, buffer[..], read, scoops, next, offset);
          return scoops, false, next;
        case Success(s) =>
          SliceStep(blockHeight, nonce0, accountId, buffer[..], read, scoops, next, offset, s);
          CountOne(nonce0, |scoops|, next);
          scoops := scoops + [s];
          offset := offset + Plot.SCOOP_SIZE;
          next := Wrap64(next + 1);
      }
      SliceEnd(blockHeight, nonce0, accountId, buffer[..], read, scoops, next, offset);
      ok := true;
    }
  }
}

/** The plotter: it writes the plots of a run of nonces into one file named
    after them, scoop-major (all copies of scoop 0 first, then scoop 1, ...),
    so that a miner reads one contiguous region per round. Threads split the
    nonces into contiguous ranges. */
module Plotter {
  import opened Bytes
  import opened Text
  import Plot
  import Scoop
  import Hex
  import PlotReader

  // ---------------------------------------------------------------- file name

  /** The plot file's name: four decimal numbers joined by underscores, namely
      the account, the first nonce, the number of nonces and the stagger
      size, which the plotter always makes equal to the number of nonces. */
  function FileName(accountId: u64, nonce: u64, toCreate: u32): (name: string)
  {
    DecimalString(accountId) + "_" + DecimalString(nonce) + "_" +
    DecimalString(toCreate) + "_" + DecimalString(toCreate)
  }

  lemma {:induction false} CountCharJoined(a: string, rest: string, c: char)
    requires c !in a
    ensures CountChar(a + [c] + rest, c) == CountChar(rest, c) + 1
  {
    IndexOfPrefix(a, rest, c);
    CountCharSplitsAtIndexOf(a + [c] + rest, c);
    assert (a + [c] + rest)[|a| + 1..] == rest;
  }

  /** Four parts without '_' joined with '_' split back into those parts. */
  lemma {:induction false} JoinedSplits(name: string, a: string, b: string, c: string, d: string)
    requires '_' !in a && '_' !in b && '_' !in c
    requires name == a + "_" + b + "_" + c + "_" + d
    ensures CountChar(name, '_') >= 3
    ensures SplitN(name, '_', 4) == [a, b, c, d]
  {
    var r2 := c + ['_'] + d;
    var r1 := b + ['_'] + r2;
    Regroup(name, a, b, c, d);
    JoinedCount(name, a, r1, b, r2, c, d);
    SplitsTwo(r2, c, d);
    SplitJoined(r1, b, r2, '_', 3);
    SplitJoined(name, a, r1, '_', 4);
    PrependParts(a, b, c, d);
  }

  lemma {:induction false} PrependParts(a: string, b: string, c: string, d: string)
    ensures [a] + ([b] + [c, d]) == [a, b, c, d]
  {
    var x := [a] + ([b] + [c, d]);
    assert |x| == 4 && x[0] == a && x[1] == b && x[2] == c && x[3] == d;
  }

  lemma {:induction false} Regroup(name: string, a: string, b: string, c: string, d: string)
    requires name == a + "_" + b + "_" + c + "_" + d
    ensures name == a + ['_'] + (b + ['_'] + (c + ['_'] + d))
  {
  }

  lemma {:induction false} JoinedCount(name: string, a: string, r1: string, b: string, r2: string, c: string, d: string)
    requires '_' !in a && '_' !in b && '_' !in c
    requires name == a + ['_'] + r1 && r1 == b + ['_'] + r2 && r2 == c + ['_'] + d
    ensures CountChar(name, '_') >= 3
  {
    CountCharJoined(a, r1, '_');
    CountCharJoined(b, r2, '_');
    CountCharJoined(c, d, '_');
  }

  lemma {:induction false} SplitsTwo(r2: string, c: string, d: string)
    requires '_' !in c && r2 == c + ['_'] + d
    ensures SplitN(r2, '_', 2) == [c, d]
  {
    assert SplitN(d, '_', 1) == [d];
    SplitJoined(r2, c, d, '_', 2);
  }

  /** The plotter's file name matches the miner's search pattern and parses
      back to the four numbers it was made from. */
  lemma {:induction false} FileNameParses(accountId: u64, nonce: u64, toCreate: u32)
    ensures PlotReader.MatchesPattern(FileName(accountId, nonce, toCreate))
    ensures PlotReader.ParseName(FileName(accountId, nonce, toCreate)) ==
            Some(PlotReader.PlotName(accountId, nonce, toCreate, toCreate))
  {
    DecimalStringHasNoUnderscore(accountId);
    DecimalStringHasNoUnderscore(nonce);
    DecimalStringHasNoUnderscore(toCreate);
    JoinedSplits(FileName(accountId, nonce, toCreate), DecimalString(accountId), DecimalString(nonce),
                 DecimalString(toCreate), DecimalString(toCreate));
    ParseDecimalString(accountId);
    ParseDecimalString(nonce);
    ParseDecimalString(toCreate);
  }

  /** A file of PLOT_SIZE bytes per nonce under the plotter's name passes
      every guard of the plot reader. */
  lemma {:induction false} PlottedFileAccepted(accountId: u64, nonce: u64, toCreate: u32, content: seq<byte>)
    requires |content| == Plot.PLOT_SIZE * toCreate
    ensures PlotReader.MatchesPattern(FileName(accountId, nonce, toCreate))
    ensures PlotReader.Accepted(PlotReader.PlotFile(FileName(accountId, nonce, toCreate), content)) ==
            Some(PlotReader.PlotName(accountId, nonce, toCreate, toCreate))
  {
    FileNameParses(accountId, nonce, toCreate);
    Plot.Sizes();
    assert Plot.PLOT_SIZE * toCreate < TWO_63;
  }

  // ---------------------------------------------------------------- thread ranges

  /** The nonces thread i of threadCount plots, given the share
      perThread = toCreate / threadCount and remainder = toCreate % threadCount:
      the last thread also takes the remainder. */
  function Amount(i: nat, threadCount: nat, perThread: nat, remainder: nat): nat
  {
    perThread + (if i != threadCount - 1 then 0 else remainder)
  }

  /** The nonces the first m threads plot, together. */
  function Covered(m: nat, threadCount: nat, perThread: nat, remainder: nat): nat
  {
    if m == 0 then 0
    else Covered(m - 1, threadCount, perThread, remainder) + Amount(m - 1, threadCount, perThread, remainder)
  }

  datatype ThreadRange = ThreadRange(startNonce: u64, count: nat)

  /** The arguments (startNonce, amountForThread) handed to thread i. */
  function RangeOf(nonce: u64, i: nat, threadCount: nat, perThread: nat, remainder: nat): ThreadRange
  {
    ThreadRange(Wrap64(nonce + Covered(i, threadCount, perThread, remainder)),
                Amount(i, threadCount, perThread, remainder))
  }

  function ThreadRanges(nonce: u64, toCreate: u32, threadCount: nat): (r: seq<ThreadRange>)
    requires threadCount > 0
    ensures |r| == threadCount
  {
    var perThread, remainder := toCreate / threadCount, toCreate % threadCount;
    seq(threadCount, i requires 0 <= i < threadCount => RangeOf(nonce, i, threadCount, perThread, remainder))
  }

  /** The nonces a list of thread ranges plots, together. */
  function TotalCount(r: seq<ThreadRange>): nat
  {
    if r == [] then 0 else TotalCount(r[..|r| - 1]) + r[|r| - 1].count
  }

  /** No thread plots more than the share and the remainder together, which
      is at most toCreate. */
  lemma {:induction false} AmountBound(threadCount: nat, toCreate: u32)
    requires threadCount > 0
    ensures toCreate / threadCount + toCreate % threadCount <= toCreate
  {
    var q := toCreate / threadCount;
    assert toCreate == threadCount * q + toCreate % threadCount;
    PlotReader.MulMono(1, threadCount, q);
  }

  /** Before the last thread, m threads cover m shares; all of them cover
      the shares and the remainder. */
  lemma {:induction false} CoveredValue(m: nat, threadCount: nat, perThread: nat, remainder: nat)
    requires m <= threadCount
    ensures Covered(m, threadCount, perThread, remainder) ==
      m * perThread + (if m == threadCount && m > 0 then remainder else 0)
  {
    if m > 0 {
      CoveredValue(m - 1, threadCount, perThread, remainder);
      assert (m - 1) * perThread + perThread == m * perThread;
    }
  }

  /** All threads together plot toCreate nonces. */
  lemma {:induction false} CoveredTotal(threadCount: nat, toCreate: u32)
    requires threadCount > 0
    ensures Covered(threadCount, threadCount, toCreate / threadCount, toCreate % threadCount) == toCreate
  {
    CoveredValue(threadCount, threadCount, toCreate / threadCount, toCreate % threadCount);
    assert toCreate == threadCount * (toCreate / threadCount) + toCreate % threadCount;
  }

  /** Shares only grow: thread i starts no earlier than thread j < i ends. */
  lemma {:induction false} CoveredMonotone(j: nat, i: nat, threadCount: nat, perThread: nat, remainder: nat)
    requires j <= i
    ensures Covered(j, threadCount, perThread, remainder) <= Covered(i, threadCount, perThread, remainder)
    decreases i - j
  {
    if j < i {
      CoveredMonotone(j, i - 1, threadCount, perThread, remainder);
    }
  }

  /** Thread i + 1 starts where thread i ends. */
  lemma {:induction false} RangesContiguous(nonce: u64, i: nat, threadCount: nat, perThread: nat, remainder: nat)
    ensures RangeOf(nonce, i + 1, threadCount, perThread, remainder).startNonce ==
      Wrap64(RangeOf(nonce, i, threadCount, perThread, remainder).startNonce +
             RangeOf(nonce, i, threadCount, perThread, remainder).count)
  {
    Wrap64Add(nonce + Covered(i, threadCount, perThread, remainder), Amount(i, threadCount, perThread, remainder));
  }

  /** The first m ranges plot what the first m threads cover. */
  lemma {:induction false} TotalCountCovered(nonce: u64, toCreate: u32, threadCount: nat, m: nat)
    requires 0 < threadCount && m <= threadCount
    ensures TotalCount(ThreadRanges(nonce, toCreate, threadCount)[..m]) ==
            Covered(m, threadCount, toCreate / threadCount, toCreate % threadCount)
  {
    if m > 0 {
      var r := ThreadRanges(nonce, toCreate, threadCount);
      assert r[..m][..m - 1] == r[..m - 1];
      TotalCountCovered(nonce, toCreate, threadCount, m - 1);
    }
  }

  /** Thread i + 1 of ThreadRanges starts where thread i ends. */
  lemma {:induction false} ThreadRangesStep(nonce: u64, toCreate: u32, threadCount: nat, i: nat)
    requires 0 <= i < threadCount - 1
    ensures ThreadRanges(nonce, toCreate, threadCount)[i + 1].startNonce ==
      Wrap64(ThreadRanges(nonce, toCreate, threadCount)[i].startNonce + ThreadRanges(nonce, toCreate, threadCount)[i].count)
  {
    RangesContiguous(nonce, i, threadCount, toCreate / threadCount, toCreate % threadCount);
  }

  /** The sizes of all ranges add up to toCreate. */
  lemma {:induction false} ThreadRangesTotal(nonce: u64, toCreate: u32, threadCount: nat)
    requires threadCount > 0
    ensures TotalCount(ThreadRanges(nonce, toCreate, threadCount)) == toCreate
  {
    var r := ThreadRanges(nonce, toCreate, threadCount);
    TotalCountCovered(nonce, toCreate, threadCount, threadCount);
    assert r[..threadCount] == r;
    CoveredTotal(threadCount, toCreate);
  }

  /** The ranges start at `nonce`, each starts where the one before ends,
      and their sizes add up to toCreate: the threads plot every nonce of
      the file exactly once. */
  lemma {:induction false} ThreadRangesPartition(nonce: u64, toCreate: u32, threadCount: nat)
    requires threadCount > 0
    ensures ThreadRanges(nonce, toCreate, threadCount)[0].startNonce == nonce
    ensures forall i :: 0 <= i < threadCount - 1 ==>
      ThreadRanges(nonce, toCreate, threadCount)[i + 1].startNonce ==
      Wrap64(ThreadRanges(nonce, toCreate, threadCount)[i].startNonce + ThreadRanges(nonce, toCreate, threadCount)[i].count)
    ensures TotalCount(ThreadRanges(nonce, toCreate, threadCount)) == toCreate
  {
    forall i | 0 <= i < threadCount - 1
      ensures ThreadRanges(nonce, toCreate, threadCount)[i + 1].startNonce ==
        Wrap64(ThreadRanges(nonce, toCreate, threadCount)[i].startNonce + ThreadRanges(nonce, toCreate, threadCount)[i].count)
    {
      ThreadRangesStep(nonce, toCreate, threadCount, i);
    }
    ThreadRangesTotal(nonce, toCreate, threadCount);
  }

  // ---------------------------------------------------------------- offsets

  /** Where CalculatePlots writes scoop s of the k-th nonce of a file of n
      nonces, in exact (64-bit) arithmetic. */
  function ScoopOffset(s: nat, k: nat, n: nat): nat
  {
    s * (Plot.SCOOP_SIZE * n) + Plot.SCOOP_SIZE * k
  }

  /** The offset as CalculatePlots computes it: the scoop stride is a uint,
      the product is cast to int, the nonce index is cast to int, and the
      int sum wraps. */
  function WriteOffset(scoopNumber: nat, nonce: u64, fileNonce: u64, allThreadGenerationCount: u32): i32
  {
    var totalScoopSize := Wrap32(Plot.SCOOP_SIZE * allThreadGenerationCount);
    var plotNumber := ToInt32(Wrap64(nonce - fileNonce));
    ToInt32(ToInt32(scoopNumber * totalScoopSize) + ToInt32(Plot.SCOOP_SIZE * plotNumber))
  }

  /** For files of up to 8192 nonces the int arithmetic computes the exact
      offset. */
  lemma {:induction false} WriteOffsetAgrees(s: nat, nonce: u64, fileNonce: u64, n: u32)
    requires s < Plot.SCOOPS_PER_PLOT && n <= 8192 && fileNonce <= nonce < fileNonce + n
    ensures WriteOffset(s, nonce, fileNonce, n) == ScoopOffset(s, nonce - fileNonce, n)
  {
    Plot.Sizes();
    var k := nonce - fileNonce;
    PlotReader.MulMono(s, 4095, 64 * n);
    PlotReader.MulMono(n, 8192, 4095 * 64);
    assert s * (64 * n) <= 4095 * (64 * 8192);
  }

  /** From 8193 nonces on it does not: the last scoop of nonce 8192 lands at
      a negative offset, where Seek throws. */
  lemma {:induction false} WriteOffsetWraps()
    ensures WriteOffset(4095, 8192, 0, 8193) < 0
    ensures ScoopOffset(4095, 8192, 8193) + Plot.SCOOP_SIZE <= Plot.PLOT_SIZE * 8193
  {
    Plot.Sizes();
  }

  /** Every write lies inside the file of PLOT_SIZE bytes per nonce. */
  lemma {:induction false} ScoopOffsetInFile(s: nat, k: nat, n: nat)
    requires s < Plot.SCOOPS_PER_PLOT && k < n
    ensures ScoopOffset(s, k, n) + Plot.SCOOP_SIZE <= Plot.PLOT_SIZE * n
  {
    Plot.Sizes();
    PlotReader.MulMono(s + 1, 4096, 64 * n);
    assert s * (64 * n) + 64 * n == (s + 1) * (64 * n);
  }

  /** Euclidean division is determined by quotient and remainder. */
  lemma {:induction false} DivModUnique(x: nat, b: nat, q: nat, r: nat)
    requires b > 0 && r < b && x == b * q + r
    ensures x / b == q && x % b == r
  {
    var q2 := x / b;
    var r2 := x % b;
    assert x == b * q2 + r2;
    if q2 > q {
      PlotReader.MulMono(q + 1, q2, b);
      assert false;
    } else if q2 < q {
      PlotReader.MulMono(q2 + 1, q, b);
      assert false;
    }
  }

  /** The scoop number and the nonce index that byte q of the file holds. */
  function ScoopOf(q: nat, n: nat): nat
    requires n > 0
  {
    (q / 64) / n
  }

  function NonceOf(q: nat, n: nat): (k: nat)
    requires n > 0
    ensures k < n
  {
    (q / 64) % n
  }

  /** Byte j of the write of (s, k) holds scoop s of nonce index k. */
  lemma {:induction false} SlotOfOffset(s: nat, k: nat, n: nat, j: nat)
    requires k < n && j < 64
    ensures ScoopOf(ScoopOffset(s, k, n) + j, n) == s && NonceOf(ScoopOffset(s, k, n) + j, n) == k
    ensures (ScoopOffset(s, k, n) + j) % 64 == j
  {
    Plot.Sizes();
    var q := ScoopOffset(s, k, n) + j;
    assert q == 64 * (n * s + k) + j;
    DivModUnique(q, 64, n * s + k, j);
    DivModUnique(n * s + k, n, s, k);
  }

  /** Every byte of the file belongs to the write of its own (scoop, nonce). */
  lemma {:induction false} ByteInSlot(q: nat, n: nat)
    requires n > 0
    ensures ScoopOffset(ScoopOf(q, n), NonceOf(q, n), n) <= q < ScoopOffset(ScoopOf(q, n), NonceOf(q, n), n) + 64
  {
    Plot.Sizes();
    var slot := q / 64;
    assert q == 64 * slot + q % 64;
    assert slot == n * (slot / n) + slot % n;
    assert 64 * slot == (slot / n) * (64 * n) + 64 * (slot % n);
  }

  lemma {:induction false} ScoopOfBound(q: nat, n: nat)
    requires n > 0 && q < Plot.PLOT_SIZE * n
    ensures ScoopOf(q, n) < Plot.SCOOPS_PER_PLOT
  {
    Plot.Sizes();
    if ScoopOf(q, n) >= 4096 {
      ByteInSlot(q, n);
      PlotReader.MulMono(4096, ScoopOf(q, n), 64 * n);
    }
  }

  /** Two different (scoop, nonce) pairs are written to disjoint places. */
  lemma {:induction false} ScoopOffsetDisjoint(s1: nat, k1: nat, s2: nat, k2: nat, n: nat)
    requires k1 < n && k2 < n && (s1, k1) != (s2, k2)
    ensures ScoopOffset(s1, k1, n) + 64 <= ScoopOffset(s2, k2, n) ||
            ScoopOffset(s2, k2, n) + 64 <= ScoopOffset(s1, k1, n)
  {
    var o1, o2 := ScoopOffset(s1, k1, n), ScoopOffset(s2, k2, n);
    if o1 <= o2 < o1 + 64 {
      SlotOfOffset(s1, k1, n, o2 - o1);
      SlotOfOffset(s2, k2, n, 0);
    } else if o2 <= o1 < o2 + 64 {
      SlotOfOffset(s2, k2, n, o1 - o2);
      SlotOfOffset(s1, k1, n, 0);
    }
  }

  // ---------------------------------------------------------------- file content

  /** Byte q of a finished plot file: byte q % 64 of scoop ScoopOf(q) of the
      plot of nonce fileNonce + NonceOf(q). */
  function LayoutByte(accountId: u64, fileNonce: u64, n: nat, H: Hasher, q: nat): byte
    requires q < Plot.PLOT_SIZE * n
  {
    ScoopOfBound(q, n);
    Plot.PlotScoop(accountId, Wrap64(fileNonce + NonceOf(q, n)), ScoopOf(q, n), H)[q % 64]
  }

  /** The finished plot file of n nonces from fileNonce. */
  function Layout(accountId: u64, fileNonce: u64, n: nat, H: Hasher): (c: seq<byte>)
    ensures |c| == Plot.PLOT_SIZE * n
  {
    PlotReader.MulNat(Plot.PLOT_SIZE, n);
    seq(Plot.PLOT_SIZE * n, q requires 0 <= q < Plot.PLOT_SIZE * n => LayoutByte(accountId, fileNonce, n, H, q))
  }

  /** The 64 bytes at ScoopOffset(s, k, n) of the finished file are scoop s
      of the plot of nonce fileNonce + k. */
  lemma {:induction false} LayoutScoop(accountId: u64, fileNonce: u64, n: nat, H: Hasher, s: nat, k: nat)
    requires s < Plot.SCOOPS_PER_PLOT && k < n
    ensures ScoopOffset(s, k, n) + 64 <= |Layout(accountId, fileNonce, n, H)|
    ensures Layout(accountId, fileNonce, n, H)[ScoopOffset(s, k, n) .. ScoopOffset(s, k, n) + 64] ==
            Plot.PlotScoop(accountId, Wrap64(fileNonce + k), s, H)
  {
    Plot.Sizes();
    ScoopOffsetInFile(s, k, n);
    var c := Layout(accountId, fileNonce, n, H);
    var o := ScoopOffset(s, k, n);
    forall q | o <= q < o + 64
      ensures c[q] == Plot.PlotScoop(accountId, Wrap64(fileNonce + k), s, H)[q - o]
    {
      SlotOfOffset(s, k, n, q - o);
    }
  }

  /** The miner's region for a scoop starts where the plotter wrote that
      scoop of the first nonce, and slot k of it is the write of nonce k. */
  lemma {:induction false} RegionIsScoopRow(s: nat, k: nat, n: nat)
    ensures PlotReader.RegionStart(s, n) + 64 * k == ScoopOffset(s, k, n)
  {
    Plot.Sizes();
  }

  /** Plotting then mining: the reader's scoops of a finished file are
      exactly the plotted scoops, slot k carrying nonce fileNonce + k. */
  lemma {:induction false} ReaderSeesPlottedScoops(accountId: u64, fileNonce: u64, n: nat, H: Hasher,
                                                   blockHeight: u64, scoop: nat, k: nat)
    requires scoop < Plot.SCOOPS_PER_PLOT && k < n
    ensures PlotReader.RegionStart(scoop, n) + 64 * n <= |Layout(accountId, fileNonce, n, H)|
    ensures PlotReader.RegionScoops(Layout(accountId, fileNonce, n, H), PlotReader.RegionStart(scoop, n),
                                    blockHeight, accountId, fileNonce, n)[k] ==
            Scoop.Scoop(blockHeight, Wrap64(fileNonce + k), accountId,
                        Plot.PlotScoop(accountId, Wrap64(fileNonce + k), scoop, H))
  {
    var c := Layout(accountId, fileNonce, n, H);
    var pos := PlotReader.RegionStart(scoop, n);
    RegionIsScoopRow(scoop, n - 1, n);
    ScoopOffsetInFile(scoop, n - 1, n);
    PlotReader.RegionScoopsAt(c, pos, blockHeight, accountId, fileNonce, n, k);
    RegionIsScoopRow(scoop, k, n);
    LayoutScoop(accountId, fileNonce, n, H, scoop, k);
  }

  /** The whole round trip: the miner accepts the plotter's file and, given
      enough liveness checks, hands over scoop `scoop` of every plotted
      nonce, in nonce order. */
  lemma {:induction false} ReaderReadsPlottedFile(r: PlotReader.Reading, accountId: u64, nonce: u64, toCreate: u32,
                                                  H: Hasher, blockHeight: u64, scoop: u64, memoryLimit: u32)
    requires PlotReader.Readable(toCreate, scoop, memoryLimit, r.checks)
    ensures PlotReader.MatchesPattern(FileName(accountId, nonce, toCreate))
    ensures
      var f := PlotReader.PlotFile(FileName(accountId, nonce, toCreate), Layout(accountId, nonce, toCreate, H));
      var o := PlotReader.ReadFile(r, f, blockHeight, scoop, memoryLimit);
      o.Some? &&
      var scoops := PlotReader.Flatten(o.value.batches);
      |scoops| == toCreate &&
      forall k :: 0 <= k < toCreate ==>
        scoops[k] == Scoop.Scoop(blockHeight, Wrap64(nonce + k), accountId,
                                 Plot.PlotScoop(accountId, Wrap64(nonce + k), scoop, H))
  {
    var c := Layout(accountId, nonce, toCreate, H);
    var f := PlotReader.PlotFile(FileName(accountId, nonce, toCreate), c);
    PlottedFileAccepted(accountId, nonce, toCreate, c);
    PlotReader.ReadFileReadsRegion(r, f, blockHeight, scoop, memoryLimit);
    forall k | 0 <= k < toCreate
      ensures PlotReader.RegionScoops(c, PlotReader.RegionStart(scoop, toCreate), blockHeight, accountId, nonce, toCreate)[k] ==
              Scoop.Scoop(blockHeight, Wrap64(nonce + k), accountId, Plot.PlotScoop(accountId, Wrap64(nonce + k), scoop, H))
    {
      ReaderSeesPlottedScoops(accountId, nonce, toCreate, H, blockHeight, scoop, k);
    }
  }

  // ---------------------------------------------------------------- writing the file

  /** Byte q belongs to a plot that is already written: a nonce index in
      [k0, k), or scoops below s of nonce index k. */
  predicate InDone(q: nat, n: nat, k0: nat, k: nat, s: nat)
    requires n > 0
  {
    k0 <= NonceOf(q, n) < k || (NonceOf(q, n) == k && ScoopOf(q, n) < s)
  }

  /** c is `before` with the written part replaced by the finished layout. */
  predicate Written(c: seq<byte>, before: seq<byte>, accountId: u64, fileNonce: u64, n: nat, H: Hasher,
                    k0: nat, k: nat, s: nat)
  {
    |c| == |before| == Plot.PLOT_SIZE * n &&
    forall q :: 0 <= q < |c| ==>
      c[q] == (if InDone(q, n, k0, k, s) then LayoutByte(accountId, fileNonce, n, H, q) else before[q])
  }

  /** Nothing is written yet. */
  lemma {:induction false} WrittenNone(c: seq<byte>, accountId: u64, fileNonce: u64, n: nat, H: Hasher, k0: nat)
    requires |c| == Plot.PLOT_SIZE * n
    ensures Written(c, c, accountId, fileNonce, n, H, k0, k0, 0)
  {
  }

  /** Writing scoop s of nonce index k at ScoopOffset(s, k, n) extends the
      written part by that scoop and changes no other byte. */
  lemma {:induction false} WriteStep(c: seq<byte>, c2: seq<byte>, before: seq<byte>, accountId: u64, fileNonce: u64,
                                     n: nat, H: Hasher, k0: nat, k: nat, s: nat)
    requires k0 <= k < n && s < Plot.SCOOPS_PER_PLOT
    requires Written(c, before, accountId, fileNonce, n, H, k0, k, s)
    requires ScoopOffset(s, k, n) + Plot.SCOOP_SIZE <= |c|
    requires c2 == c[..ScoopOffset(s, k, n)] + Plot.PlotScoop(accountId, Wrap64(fileNonce + k), s, H) +
                   c[ScoopOffset(s, k, n) + Plot.SCOOP_SIZE..]
    ensures Written(c2, before, accountId, fileNonce, n, H, k0, k, s + 1)
  {
    forall q | 0 <= q < |c2|
      ensures c2[q] == (if InDone(q, n, k0, k, s + 1) then LayoutByte(accountId, fileNonce, n, H, q) else before[q])
    {
      WriteStepAt(c, c2, before, accountId, fileNonce, n, H, k0, k, s, q);
    }
  }

  lemma {:induction false} WriteStepAt(c: seq<byte>, c2: seq<byte>, before: seq<byte>, accountId: u64, fileNonce: u64,
                                       n: nat, H: Hasher, k0: nat, k: nat, s: nat, q: nat)
    requires k0 <= k < n && s < Plot.SCOOPS_PER_PLOT
    requires Written(c, before, accountId, fileNonce, n, H, k0, k, s)
    requires ScoopOffset(s, k, n) + Plot.SCOOP_SIZE <= |c|
    requires c2 == c[..ScoopOffset(s, k, n)] + Plot.PlotScoop(accountId, Wrap64(fileNonce + k), s, H) +
                   c[ScoopOffset(s, k, n) + Plot.SCOOP_SIZE..]
    requires q < |c2|
    ensures c2[q] == (if InDone(q, n, k0, k, s + 1) then LayoutByte(accountId, fileNonce, n, H, q) else before[q])
  {
    var o := ScoopOffset(s, k, n);
    if o <= q < o + 64 {
      SlotOfOffset(s, k, n, q - o);
      assert c2[q] == Plot.PlotScoop(accountId, Wrap64(fileNonce + k), s, H)[q - o];
      assert InDone(q, n, k0, k, s + 1);
    } else {
      ByteInSlot(q, n);
      assert c2[q] == c[q];
      assert InDone(q, n, k0, k, s + 1) == InDone(q, n, k0, k, s);
    }
  }

  /** All scoops of nonce index k written is nonce index k + 1 begun. */
  lemma {:induction false} NonceDone(c: seq<byte>, before: seq<byte>, accountId: u64, fileNonce: u64,
                                     n: nat, H: Hasher, k0: nat, k: nat)
    requires k0 <= k
    requires Written(c, before, accountId, fileNonce, n, H, k0, k, Plot.SCOOPS_PER_PLOT)
    ensures Written(c, before, accountId, fileNonce, n, H, k0, k + 1, 0)
  {
    forall q | 0 <= q < |c|
      ensures InDone(q, n, k0, k, Plot.SCOOPS_PER_PLOT) == InDone(q, n, k0, k + 1, 0)
    {
      ScoopOfBound(q, n);
    }
  }

  /** Two threads run one after the other write the union of their ranges. */
  lemma {:induction false} WrittenChain(c0: seq<byte>, c1: seq<byte>, c2: seq<byte>, accountId: u64, fileNonce: u64,
                                        n: nat, H: Hasher, k0: nat, k1: nat, k2: nat)
    requires k0 <= k1 <= k2
    requires Written(c1, c0, accountId, fileNonce, n, H, k0, k1, 0)
    requires Written(c2, c1, accountId, fileNonce, n, H, k1, k2, 0)
    ensures Written(c2, c0, accountId, fileNonce, n, H, k0, k2, 0)
  {
    forall q | 0 <= q < |c2|
      ensures c2[q] == (if InDone(q, n, k0, k2, 0) then LayoutByte(accountId, fileNonce, n, H, q) else c0[q])
    {
      assert c2[q] == (if InDone(q, n, k1, k2, 0) then LayoutByte(accountId, fileNonce, n, H, q) else c1[q]);
    }
  }

  /** Every nonce written is the finished file, whatever it held before. */
  lemma {:induction false} FullyWritten(c: seq<byte>, before: seq<byte>, accountId: u64, fileNonce: u64, n: nat, H: Hasher)
    requires Written(c, before, accountId, fileNonce, n, H, 0, n, 0)
    ensures c == Layout(accountId, fileNonce, n, H)
  {
    var l := Layout(accountId, fileNonce, n, H);
    forall q | 0 <= q < |c|
      ensures c[q] == l[q]
    {
      assert InDone(q, n, 0, n, 0);
    }
  }

  /** The body of the nonce loop of CalculatePlots: build the plot of
      `nonce` and write each of its scoops at its place in the file. */
  method WritePlot(file: array<byte>, fileNonce: u64, n: nat, nonce: u64, accountId: u64, H: Hasher,
                   ghost before: seq<byte>, ghost k0: nat)
    requires fileNonce <= nonce && k0 <= nonce - fileNonce < n
    requires Written(file[..], before, accountId, fileNonce, n, H, k0, nonce - fileNonce, 0)
    modifies file
    ensures Written(file[..], before, accountId, fileNonce, n, H, k0, nonce - fileNonce + 1, 0)
  {
    var plot := new Plot.Plot(accountId, nonce, H);
    var k := nonce - fileNonce;
    var s := 0;
    while s < Plot.SCOOPS_PER_PLOT
      invariant 0 <= s <= Plot.SCOOPS_PER_PLOT
      invariant plot.Valid() && plot.data[..] == Plot.PlotData(accountId, nonce, H)
      invariant Written(file[..], before, accountId, fileNonce, n, H, k0, k, s)
    {
      Plot.GetScoopIsPlotScoop(plot, accountId, nonce, H, s);
      var buff := plot.GetScoop(s).value;
      var offset := ScoopOffset(s, k, n);
      ScoopOffsetInFile(s, k, n);
      ghost var c := file[..];
      ArrayCopy(buff, file, offset);
      assert Wrap64(fileNonce + k) == nonce;
      WriteStep(c, file[..], before, accountId, fileNonce, n, H, k0, k, s);
      s := s + 1;
    }
    NonceDone(file[..], before, accountId, fileNonce, n, H, k0, k);
  }

  /** One plotting thread: the nonces [startNonce, startNonce +
      numberOfNonces) of the file that starts at fileNonce and holds
      allThreadGenerationCount nonces; at the end it clears its running
      flag. The ulong bound wraps, and then the loop does not run. */
  method CalculatePlots(file: array<byte>, fileNonce: u64, allThreadGenerationCount: u32, startNonce: u64,
                        numberOfNonces: u32, accountId: u64, threadNumber: nat, running: array<bool>, H: Hasher)
    requires file.Length == Plot.PLOT_SIZE * allThreadGenerationCount
    requires threadNumber < running.Length
    requires startNonce + numberOfNonces < TWO_64 ==>
      fileNonce <= startNonce && startNonce - fileNonce + numberOfNonces <= allThreadGenerationCount
    modifies file, running
    ensures running[..] == old(running[..])[threadNumber := false]
    ensures startNonce + numberOfNonces >= TWO_64 ==> file[..] == old(file[..])
    ensures startNonce + numberOfNonces < TWO_64 ==>
      Written(file[..], old(file[..]), accountId, fileNonce, allThreadGenerationCount, H,
              startNonce - fileNonce, startNonce - fileNonce + numberOfNonces, 0)
  {
    var lastNonce := Wrap64(startNonce + numberOfNonces);
    ghost var before := file[..];
    ghost var k0 := if startNonce + numberOfNonces < TWO_64 then startNonce - fileNonce else 0;
    var nonce := startNonce;
    if startNonce + numberOfNonces < TWO_64 {
      WrittenNone(before, accountId, fileNonce, allThreadGenerationCount, H, k0);
    }
    while nonce < lastNonce
      invariant startNonce <= nonce
      invariant startNonce + numberOfNonces < TWO_64 ==>
        nonce <= lastNonce &&
        Written(file[..], before, accountId, fileNonce, allThreadGenerationCount, H, k0, nonce - fileNonce, 0)
      invariant startNonce + numberOfNonces >= TWO_64 ==> nonce == startNonce && file[..] == before
      invariant running[..] == old(running[..])
    {
      WritePlot(file, fileNonce, allThreadGenerationCount, nonce, accountId, H, before, k0);
      nonce := nonce + 1;
    }
    running[threadNumber] := false;
  }

  /** The ranges of the first i + 1 threads are those of the first i and
      the range of thread i. */
  lemma {:induction false} RangesPrefixStep(nonce: u64, toCreate: u32, threadCount: nat, i: nat, ranges: seq<ThreadRange>)
    requires i < threadCount && ranges == ThreadRanges(nonce, toCreate, threadCount)[..i]
    ensures ranges + [RangeOf(nonce, i, threadCount, toCreate / threadCount, toCreate % threadCount)] ==
            ThreadRanges(nonce, toCreate, threadCount)[..i + 1]
  {
  }

  /** One turn of the thread-starting loop: thread i is marked running,
      runs its range to the end and clears its flag. */
  method StartThread(file: array<byte>, running: array<bool>, accountId: u64, nonce: u64, toCreate: u32,
                     threadCount: nat, i: nat, startNonce: u64, H: Hasher, ghost zeros: seq<byte>)
    returns (range: ThreadRange)
    requires i < threadCount == running.Length && nonce + toCreate < TWO_64
    requires file.Length == Plot.PLOT_SIZE * toCreate
    requires startNonce == nonce + Covered(i, threadCount, toCreate / threadCount, toCreate % threadCount)
    requires forall j :: 0 <= j < threadCount ==> !running[j]
    requires Written(file[..], zeros, accountId, nonce, toCreate, H, 0,
                     Covered(i, threadCount, toCreate / threadCount, toCreate % threadCount), 0)
    modifies file, running
    ensures range == RangeOf(nonce, i, threadCount, toCreate / threadCount, toCreate % threadCount)
    ensures forall j :: 0 <= j < threadCount ==> !running[j]
    ensures Written(file[..], zeros, accountId, nonce, toCreate, H, 0,
                    Covered(i + 1, threadCount, toCreate / threadCount, toCreate % threadCount), 0)
  {
    var perThread := toCreate / threadCount;
    var remainder := toCreate % threadCount;
    AmountBound(threadCount, toCreate);
    CoveredTotal(threadCount, toCreate);
    CoveredMonotone(i + 1, threadCount, threadCount, perThread, remainder);
    running[i] := true;
    var amountForThread := perThread + (if i != threadCount - 1 then 0 else remainder);
    ghost var c := file[..];
    CalculatePlots(file, nonce, toCreate, startNonce, amountForThread, accountId, i, running, H);
    WrittenChain(zeros, c, file[..], accountId, nonce, toCreate, H, 0, Covered(i, threadCount, perThread, remainder),
                 Covered(i + 1, threadCount, perThread, remainder));
    range := ThreadRange(startNonce, amountForThread);
  }

  /** The thread-starting loop of the main program: thread i plots its
      range from startNonce, which then moves on by the amount it took. */
  method RunThreads(file: array<byte>, running: array<bool>, accountId: u64, nonce: u64, toCreate: u32,
                    threadCount: nat, H: Hasher, ghost zeros: seq<byte>)
    returns (ranges: seq<ThreadRange>)
    requires threadCount == running.Length && threadCount > 0 && nonce + toCreate < TWO_64
    requires file.Length == Plot.PLOT_SIZE * toCreate
    requires forall j :: 0 <= j < threadCount ==> !running[j]
    requires Written(file[..], zeros, accountId, nonce, toCreate, H, 0, 0, 0)
    modifies file, running
    ensures ranges == ThreadRanges(nonce, toCreate, threadCount)
    ensures forall j :: 0 <= j < threadCount ==> !running[j]
    ensures Written(file[..], zeros, accountId, nonce, toCreate, H, 0, toCreate, 0)
  {
    var startNonce: u64 := nonce;
    var perThread := toCreate / threadCount;
    var remainder := toCreate % threadCount;
    AmountBound(threadCount, toCreate);
    CoveredTotal(threadCount, toCreate);
    ranges := [];
    var i := 0;
    while i < threadCount
      invariant 0 <= i <= threadCount
      invariant startNonce == nonce + Covered(i, threadCount, perThread, remainder)
      invariant ranges == ThreadRanges(nonce, toCreate, threadCount)[..i]
      invariant forall j :: 0 <= j < threadCount ==> !running[j]
      invariant Written(file[..], zeros, accountId, nonce, toCreate, H, 0, Covered(i, threadCount, perThread, remainder), 0)
    {
      CoveredMonotone(i, threadCount, threadCount, perThread, remainder);
      var range := StartThread(file, running, accountId, nonce, toCreate, threadCount, i, startNonce, H, zeros);
      RangesPrefixStep(nonce, toCreate, threadCount, i, ranges);
      CoveredMonotone(i + 1, threadCount, threadCount, perThread, remainder);
      ranges := ranges + [range];
      startNonce := startNonce + range.count;
      i := i + 1;
    }
    assert ranges == ThreadRanges(nonce, toCreate, threadCount);
  }

  /** The plotter's main program with the threads run one after another:
      the file name, a zero-filled file of PLOT_SIZE bytes per nonce, the
      range handed to each thread, and the running flags once every thread
      has finished. */
  method Generate(accountId: u64, nonce: u64, toCreate: u32, threadCount: nat, H: Hasher)
    returns (name: string, file: array<byte>, ranges: seq<ThreadRange>, running: array<bool>)
    requires threadCount > 0 && nonce + toCreate < TWO_64
    ensures name == FileName(accountId, nonce, toCreate)
    ensures ranges == ThreadRanges(nonce, toCreate, threadCount)
    ensures running.Length == threadCount && forall i :: 0 <= i < threadCount ==> !running[i]
    ensures file[..] == Layout(accountId, nonce, toCreate, H)
  {
    name := FileName(accountId, nonce, toCreate);
    PlotReader.MulNat(Plot.PLOT_SIZE, toCreate);
    file := new byte[Plot.PLOT_SIZE * toCreate](_ => 0);
    ghost var zeros := file[..];
    running := new bool[threadCount](_ => false);
    WrittenNone(zeros, accountId, nonce, toCreate, H, 0);
    ranges := RunThreads(file, running, accountId, nonce, toCreate, threadCount, H, zeros);
    FullyWritten(file[..], zeros, accountId, nonce, toCreate, H);
  }

  /** Lowercase hexadecimal rendering of a byte array, two digits per byte. */
  method ByteArrayToString(ba: array<byte>) returns (hex: string)
    ensures hex == Hex.Encode(ba[..])
  {
    hex := [];
    var i := 0;
    while i < ba.Length
      invariant 0 <= i <= ba.Length
      invariant hex == Hex.Encode(ba[..i])
    {
      assert ba[..i + 1][..i] == ba[..i];
      hex := hex + Hex.ByteToHex(ba[i]);
      i := i + 1;
    }
    assert ba[..ba.Length] == ba[..];
  }
}

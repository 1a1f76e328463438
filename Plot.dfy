/** A plot: the 262144 bytes derived from (accountId, nonce) by a backward
    hash chain over a scratch buffer followed by an XOR with the hash of the
    whole buffer, addressed as 4096 scoops of two 32-byte hashes. */
module Plot {
  import opened Bytes

  const HASH_SIZE: nat := 32
  const HASHES_PER_SCOOP: nat := 2
  const SCOOP_SIZE: nat := HASHES_PER_SCOOP * HASH_SIZE
  const SCOOPS_PER_PLOT: nat := 4096
  const PLOT_SIZE: nat := SCOOPS_PER_PLOT * SCOOP_SIZE
  /** The most bytes any one chain step hashes. */
  const HASH_CAP: nat := 4096
  const SEED_SIZE: nat := 16
  /** Number of 32-byte chain steps: one per hash of the plot. */
  const CHAIN_STEPS: nat := PLOT_SIZE / HASH_SIZE

  lemma {:induction false} Sizes()
    ensures SCOOP_SIZE == 64 && SCOOPS_PER_PLOT == 4096 && PLOT_SIZE == 262144
    ensures CHAIN_STEPS == 8192 && PLOT_SIZE == CHAIN_STEPS * HASH_SIZE
  {
  }

  /** The 16-byte seed: big-endian accountId then big-endian nonce. */
  function Seed(accountId: u64, nonce: u64): (s: seq<byte>)
    ensures |s| == SEED_SIZE
    ensures FromBigEndian(s[..8]) == accountId && FromBigEndian(s[8..]) == nonce
  {
    var s := BigEndian64(accountId) + BigEndian64(nonce);
    assert s[..8] == BigEndian64(accountId) && s[8..] == BigEndian64(nonce);
    BigEndian64RoundTrip(accountId);
    BigEndian64RoundTrip(nonce);
    s
  }

  /** The tail of the scratch buffer after k backward chain steps: each step
      puts, in front of what is already there, the hash of at most HASH_CAP
      bytes that follow it. */
  function ChainSuffix(seed: seq<byte>, k: nat, H: Hasher): (s: seq<byte>)
    ensures |s| == |seed| + HASH_SIZE * k
  {
    if k == 0 then seed
    else
      var prev := ChainSuffix(seed, k - 1, H);
      H(prev[..Min(|prev|, HASH_CAP)]) + prev
  }

  /** The whole scratch buffer `gendata` once the chain is complete. */
  function GenData(accountId: u64, nonce: u64, H: Hasher): (g: seq<byte>)
    ensures |g| == PLOT_SIZE + SEED_SIZE
  {
    ChainSuffix(Seed(accountId, nonce), CHAIN_STEPS, H)
  }

  /** The final hash, taken over all PLOT_SIZE + 16 bytes of the buffer. */
  function FinalHash(accountId: u64, nonce: u64, H: Hasher): Digest
  {
    H(GenData(accountId, nonce, H))
  }

  /** The plot bytes: each byte of the chain XOR-ed with the final hash,
      repeating the hash every 32 bytes. */
  function PlotData(accountId: u64, nonce: u64, H: Hasher): (d: seq<byte>)
    ensures |d| == PLOT_SIZE
  {
    var g := GenData(accountId, nonce, H);
    var f := FinalHash(accountId, nonce, H);
    seq(PLOT_SIZE, k requires 0 <= k < PLOT_SIZE => Xor(g[k], f[k % HASH_SIZE]))
  }

  /** Scoop s of the plot of (accountId, nonce). */
  function PlotScoop(accountId: u64, nonce: u64, s: nat, H: Hasher): (d: seq<byte>)
    requires s < SCOOPS_PER_PLOT
    ensures |d| == SCOOP_SIZE
  {
    PlotData(accountId, nonce, H)[SCOOP_SIZE * s .. SCOOP_SIZE * s + SCOOP_SIZE]
  }

  /** Once written, the tail of the buffer is never changed by later steps:
      after k steps the last j steps' suffix is still in place. */
  lemma {:induction false} ChainSuffixStable(seed: seq<byte>, k: nat, j: nat, H: Hasher)
    requires j <= k
    ensures ChainSuffix(seed, k, H)[HASH_SIZE * (k - j)..] == ChainSuffix(seed, j, H)
  {
    if j < k {
      ChainSuffixStable(seed, k - 1, j, H);
      var prev := ChainSuffix(seed, k - 1, H);
      assert ChainSuffix(seed, k, H)[HASH_SIZE..] == prev;
      assert ChainSuffix(seed, k, H)[HASH_SIZE * (k - j)..] == prev[HASH_SIZE * (k - 1 - j)..];
    }
  }

  /** The seed sits at gendata[PLOT_SIZE .. PLOT_SIZE + 16). */
  lemma {:induction false} GenDataSeed(accountId: u64, nonce: u64, H: Hasher)
    ensures GenData(accountId, nonce, H)[PLOT_SIZE..] == Seed(accountId, nonce)
  {
    ChainSuffixStable(Seed(accountId, nonce), CHAIN_STEPS, 0, H);
  }

  /** For i = PLOT_SIZE down to 32 in steps of 32, gendata[i - 32 .. i) is the
      hash of gendata[i .. i + min(PLOT_SIZE + 16 - i, 4096)). */
  lemma {:induction false} GenDataStep(accountId: u64, nonce: u64, H: Hasher, i: nat)
    requires HASH_SIZE <= i <= PLOT_SIZE && i % HASH_SIZE == 0
    ensures var g := GenData(accountId, nonce, H);
      g[i - HASH_SIZE .. i] == H(g[i .. i + Min(PLOT_SIZE + SEED_SIZE - i, HASH_CAP)])
  {
    var seed := Seed(accountId, nonce);
    var g := GenData(accountId, nonce, H);
    var j := (PLOT_SIZE - i) / HASH_SIZE + 1;
    assert HASH_SIZE * (CHAIN_STEPS - j) == i - HASH_SIZE;
    ChainSuffixStable(seed, CHAIN_STEPS, j, H);
    ChainSuffixStable(seed, CHAIN_STEPS, j - 1, H);
    var prev := ChainSuffix(seed, j - 1, H);
    var m := Min(PLOT_SIZE + SEED_SIZE - i, HASH_CAP);
    assert g[i..] == prev;
    assert |prev| == PLOT_SIZE + SEED_SIZE - i;
    assert g[i .. i + m] == prev[..m];
    assert g[i - HASH_SIZE..] == ChainSuffix(seed, j, H) == H(prev[..m]) + prev;
    assert g[i - HASH_SIZE .. i] == (H(prev[..m]) + prev)[..HASH_SIZE];
  }

  /** The backward chain loop of the Plot constructor: for i = PLOT_SIZE down
      to 32, hash gendata[i .. i + min(PLOT_SIZE + 16 - i, 4096)) into
      gendata[i - 32 .. i). Each step reads only bytes at offsets >= i, which
      are the seed or already final. */
  method RunChain(gendata: array<byte>, seed: seq<byte>, H: Hasher)
    requires gendata.Length == PLOT_SIZE + SEED_SIZE && |seed| == SEED_SIZE
    requires gendata[PLOT_SIZE..] == seed
    modifies gendata
    ensures gendata[..] == ChainSuffix(seed, CHAIN_STEPS, H)
  {
    var i := PLOT_SIZE;
    ghost var k: nat := 0;
    while i > 0
      invariant i == PLOT_SIZE - HASH_SIZE * k && k <= CHAIN_STEPS
      invariant gendata[i..] == ChainSuffix(seed, k, H)
      decreases i
    {
      ChainStep(gendata, seed, H, i, k);
      i := i - HASH_SIZE;
      k := k + 1;
    }
    assert gendata[..] == gendata[0..];
  }

  /** One iteration of the chain loop at offset i. */
  method ChainStep(gendata: array<byte>, seed: seq<byte>, H: Hasher, i: nat, ghost k: nat)
    requires gendata.Length == PLOT_SIZE + SEED_SIZE && |seed| == SEED_SIZE
    requires HASH_SIZE <= i <= PLOT_SIZE && i == PLOT_SIZE - HASH_SIZE * k
    requires gendata[i..] == ChainSuffix(seed, k, H)
    modifies gendata
    ensures gendata[i - HASH_SIZE..] == ChainSuffix(seed, k + 1, H)
  {
    var len := PLOT_SIZE + SEED_SIZE - i;
    if len > HASH_CAP {
      len := HASH_CAP;
    }
    ghost var prev := gendata[i..];
    var buff := gendata[i .. i + len];
    assert buff == prev[..Min(|prev|, HASH_CAP)];
    var computed := H(buff);
    ArrayCopy(computed, gendata, i - HASH_SIZE);
    assert gendata[i - HASH_SIZE..] == computed + prev;
  }

  /** The XOR loop of the Plot constructor: each plot byte is the chain byte at
      the same position combined by exclusive or with the final hash byte at
      that position modulo 32. */
  method XorWithHash(gendata: array<byte>, finalhash: Digest, d: array<byte>)
    requires gendata.Length == PLOT_SIZE + SEED_SIZE && d.Length == PLOT_SIZE
    requires gendata != d
    modifies d
    ensures forall q :: 0 <= q < PLOT_SIZE ==> d[q] == Xor(gendata[q], finalhash[q % HASH_SIZE])
  {
    for j := 0 to PLOT_SIZE
      invariant forall q :: 0 <= q < j ==> d[q] == Xor(gendata[q], finalhash[q % HASH_SIZE])
    {
      d[j] := Xor(gendata[j], finalhash[j % HASH_SIZE]);
    }
  }

  /** The plot of one (accountId, nonce). `data` is filled once by the
      constructor and never written again. */
  class Plot {
    const data: array<byte>

    predicate Valid()
    {
      data.Length == PLOT_SIZE
    }

    /** Builds the scratch buffer with the seed at its tail, runs the backward
        chain loop, hashes the buffer and XORs it into `data`. The result is
        a function of (accountId, nonce) and the hash alone. */
    constructor (accountId: u64, nonce: u64, H: Hasher)
      ensures Valid() && fresh(data)
      ensures data[..] == PlotData(accountId, nonce, H)
    {
      var seed := Seed(accountId, nonce);
      var gendata := new byte[PLOT_SIZE + SEED_SIZE];
      ArrayCopy(seed, gendata, PLOT_SIZE);
      RunChain(gendata, seed, H);
      var finalhash := H(gendata[..]);
      var d := new byte[PLOT_SIZE];
      XorWithHash(gendata, finalhash, d);
      data := d;
    }

    /** GetHash(number): a copy of data[32 * number .. 32 * number + 32). The
        product is C# int arithmetic and wraps; Array.Copy throws
        ArgumentOutOfRangeException on a negative wrapped offset and
        ArgumentException when the range runs past the end. */
    function GetHash(number: i32): (r: Result<seq<byte>>)
      requires Valid()
      reads data
      ensures 0 <= number < 2 * SCOOPS_PER_PLOT ==>
        r == Success(data[HASH_SIZE * number .. HASH_SIZE * number + HASH_SIZE])
      ensures -TWO_31 / HASH_SIZE <= number < TWO_31 / HASH_SIZE ==>
        (r.Success? <==> 0 <= number < 2 * SCOOPS_PER_PLOT) &&
        (number < 0 ==> r == Failure("ArgumentOutOfRangeException"))
      ensures r.Success? ==> |r.value| == HASH_SIZE
    {
      var offset := ToInt32(number * HASH_SIZE);
      if offset < 0 then Failure("ArgumentOutOfRangeException")
      else if offset + HASH_SIZE > PLOT_SIZE then Failure("ArgumentException")
      else Success(data[offset .. offset + HASH_SIZE])
    }

    /** GetScoop(number): a copy of data[64 * number .. 64 * number + 64),
        with the same wrapping int offset and the same Array.Copy checks. */
    function GetScoop(number: i32): (r: Result<seq<byte>>)
      requires Valid()
      reads data
      ensures 0 <= number < SCOOPS_PER_PLOT ==>
        r == Success(data[SCOOP_SIZE * number .. SCOOP_SIZE * number + SCOOP_SIZE])
      ensures -TWO_31 / SCOOP_SIZE <= number < TWO_31 / SCOOP_SIZE ==>
        (r.Success? <==> 0 <= number < SCOOPS_PER_PLOT) &&
        (number < 0 ==> r == Failure("ArgumentOutOfRangeException"))
      ensures r.Success? ==> |r.value| == SCOOP_SIZE
    {
      var offset := ToInt32(number * SCOOP_SIZE);
      if offset < 0 then Failure("ArgumentOutOfRangeException")
      else if offset + SCOOP_SIZE > PLOT_SIZE then Failure("ArgumentException")
      else Success(data[offset .. offset + SCOOP_SIZE])
    }
  }

  /** A scoop is the two hashes at 2n and 2n + 1, in that order. */
  lemma {:induction false} ScoopIsTwoHashes(p: Plot, n: i32)
    requires p.Valid() && 0 <= n < SCOOPS_PER_PLOT
    ensures p.GetHash(2 * n).Success? && p.GetHash(2 * n + 1).Success?
    ensures p.GetScoop(n) == Success(p.GetHash(2 * n).value + p.GetHash(2 * n + 1).value)
  {
    var d := p.data[..];
    assert d[SCOOP_SIZE * n .. SCOOP_SIZE * n + SCOOP_SIZE]
        == d[HASH_SIZE * (2 * n) .. HASH_SIZE * (2 * n) + HASH_SIZE]
         + d[HASH_SIZE * (2 * n + 1) .. HASH_SIZE * (2 * n + 1) + HASH_SIZE];
  }

  /** Scoop n of a plot built for (accountId, nonce) is scoop n of its plot
      data. */
  lemma {:induction false} GetScoopIsPlotScoop(p: Plot, accountId: u64, nonce: u64, H: Hasher, n: nat)
    requires p.Valid() && p.data[..] == PlotData(accountId, nonce, H) && n < SCOOPS_PER_PLOT
    ensures p.GetScoop(n) == Success(PlotScoop(accountId, nonce, n, H))
  {
    assert p.data[SCOOP_SIZE * n .. SCOOP_SIZE * n + SCOOP_SIZE] ==
           p.data[..][SCOOP_SIZE * n .. SCOOP_SIZE * n + SCOOP_SIZE];
  }

  /** The int product wraps: GetScoop(2^26) reads scoop 0 instead of throwing. */
  lemma {:induction false} GetScoopWrapsAround(p: Plot)
    requires p.Valid()
    ensures p.GetScoop(0x400_0000) == p.GetScoop(0)
  {
  }
}

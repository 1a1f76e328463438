/** The plot reader manager: one plot reader per configured directory, the
    scoop number of each round, and the hand-over of found deadlines to the
    deadline submitter. */
module PlotReaderManager {
  import opened Bytes
  import Plot
  import Scoop
  import MiningInfo
  import PlotReader
  import Deadline
  import DeadlineSubmitter

  /** The scoop every reader reads in a round: the low four bits of the
      digest's second-to-last byte above all eight bits of its last byte. */
  function ScoopNumber(gensig: Digest): (s: u32)
    ensures s < Plot.SCOOPS_PER_PLOT
    ensures s == (gensig[30] as int % 16) * 256 + gensig[31] as int
  {
    var high := BitAnd(gensig[30], 0x0F);
    AndFifteen(gensig[30]);
    assert Pow2(8) == 256;
    OrBelowShift(high, gensig[31], 8);
    BitOr(ShiftLeft(high, 8), gensig[31])
  }

  /** A digest that ends in the two bytes of s. */
  function EndingIn(s: nat): (g: Digest)
    requires s < Plot.SCOOPS_PER_PLOT
    ensures g[30] == s / 256 && g[31] == s % 256
  {
    seq(30, _ => 0) + [s / 256, s % 256]
  }

  /** Every scoop of a plot is the scoop of some round: the mapping from
      digests to scoop numbers is onto [0, 4096). */
  lemma {:induction false} ScoopNumberOnto(s: nat)
    requires s < Plot.SCOOPS_PER_PLOT
    ensures ScoopNumber(EndingIn(s)) == s
  {
    var g := EndingIn(s);
    assert g[30] % 16 == s / 256;
  }

  /** The 40 bytes hashed for the scoop number: the first 32 bytes of the
      previous generation signature, then the first 8 of the height bytes.
      Array.Copy from a shorter source throws ArgumentException. */
  function GensigHashable(info: MiningInfo.MiningInfo): (r: Result<seq<byte>>)
    ensures r.Success? <==>
      |info.previousGenerationSignatureBytes| >= 32 && |info.blockHeightBytes| >= 8
    ensures r.Failure? ==> r.error == "ArgumentException"
    ensures r.Success? ==> |r.value| == 40
  {
    if |info.previousGenerationSignatureBytes| < 32 || |info.blockHeightBytes| < 8 then
      Failure("ArgumentException")
    else
      Success(info.previousGenerationSignatureBytes[..32] + info.blockHeightBytes[..8])
  }

  /** For a round built from its JSON fields, the hash input is the 32-byte
      previous generation signature followed by the big-endian height, and
      the height bytes are all used. */
  lemma {:induction false} HashableIsSignatureThenHeight(gs: string, bt: Option<string>, h: Option<string>, d: u64)
    requires MiningInfo.NewMiningInfo(Some(gs), bt, h, d).Success?
    requires |MiningInfo.NewMiningInfo(Some(gs), bt, h, d).value.previousGenerationSignatureBytes| >= 32
    ensures
      var m := MiningInfo.NewMiningInfo(Some(gs), bt, h, d).value;
      GensigHashable(m) == Success(m.previousGenerationSignatureBytes[..32] + BigEndian64(m.blockHeight))
  {
    var m := MiningInfo.NewMiningInfo(Some(gs), bt, h, d).value;
    FromBigEndianInjective(m.blockHeightBytes);
    assert m.blockHeightBytes[..8] == m.blockHeightBytes;
  }

  /** The readers of the constructor: a new, stopped reader per directory, in
      order, each one distinct from the others. */
  method NewReaders(directories: seq<string>) returns (rs: seq<PlotReader.PlotReader>)
    ensures |rs| == |directories|
    ensures forall k :: 0 <= k < |rs| ==>
      fresh(rs[k]) && rs[k].Valid() && rs[k].directory == directories[k] &&
      !rs[k].isAlive && !rs[k].threadSet && rs[k].miningInfo.None?
    ensures forall j, k :: 0 <= j < k < |rs| ==> rs[j] != rs[k]
  {
    rs := [];
    var i: nat := 0;
    while i < |directories|
      invariant i <= |directories| && |rs| == i
      invariant forall k :: 0 <= k < i ==>
        fresh(rs[k]) && rs[k].Valid() && rs[k].directory == directories[k] &&
        !rs[k].isAlive && !rs[k].threadSet && rs[k].miningInfo.None?
      invariant forall j, k :: 0 <= j < k < i ==> rs[j] != rs[k]
    {
      var r := new PlotReader.PlotReader(directories[i]);
      rs := rs + [r];
      i := i + 1;
    }
  }

  /** A reader agrees with its earlier snapshot on everything but its thread
      and its liveness flag. */
  twostate predicate SameRound(r: PlotReader.PlotReader)
    reads r
  {
    r.miningInfo == old(r.miningInfo) && r.scoop == old(r.scoop) &&
    r.scoopsRead == old(r.scoopsRead) && r.bytesRead == old(r.bytesRead) &&
    r.utilisedStorage == old(r.utilisedStorage)
  }

  class PlotReaderManager {
    /** None stands for the null array left when no directory is configured. */
    var readers: Option<seq<PlotReader.PlotReader>>
    const submitter: DeadlineSubmitter.DeadlineSubmitter

    function Readers(): set<PlotReader.PlotReader>
      reads this
    {
      if readers.None? then {} else set k | 0 <= k < |readers.value| :: readers.value[k]
    }

    /** The reader array, when there is one, is non-empty, holds every reader
        once, and every reader is in a consistent state. */
    predicate Valid()
      reads this, Readers(), submitter
    {
      submitter.Valid() &&
      (readers.Some? ==>
        |readers.value| > 0 &&
        (forall j, k :: 0 <= j < k < |readers.value| ==> readers.value[j] != readers.value[k]) &&
        (forall k :: 0 <= k < |readers.value| ==> readers.value[k].Valid()))
    }

    /** `directories` is the configured plot directory list, None when it is
        null. Readers are created only for a non-empty list. */
    constructor(directories: Option<seq<string>>)
      ensures Valid() && fresh(submitter) && submitter.queue == []
      ensures readers.Some? <==> directories.Some? && |directories.value| > 0
      ensures readers.Some? ==>
        |readers.value| == |directories.value| &&
        forall k :: 0 <= k < |readers.value| ==>
          fresh(readers.value[k]) && readers.value[k].directory == directories.value[k] &&
          !readers.value[k].isAlive && !readers.value[k].threadSet
    {
      submitter := new DeadlineSubmitter.DeadlineSubmitter();
      if directories.Some? && |directories.value| > 0 {
        var rs := NewReaders(directories.value);
        readers := Some(rs);
      } else {
        readers := None;
      }
    }

    /** The first foreach of ReadPlots: terminate every reader, in order. */
    method TerminateAll()
      requires Valid() && readers.Some?
      modifies Readers()
      ensures Valid()
      ensures forall k :: 0 <= k < |readers.value| ==>
        !readers.value[k].isAlive && !readers.value[k].threadSet && SameRound(readers.value[k])
    {
      var rs := readers.value;
      var i: nat := 0;
      while i < |rs|
        invariant i <= |rs|
        invariant Valid()
        invariant forall k :: 0 <= k < i ==> !rs[k].isAlive && !rs[k].threadSet
        invariant forall k :: 0 <= k < |rs| ==> SameRound(rs[k])
      {
        assert rs[i] in Readers();
        rs[i].Terminate();
        i := i + 1;
      }
    }

    /** The last foreach of ReadPlots: start every reader on the same round
        and scoop. The readers have all been terminated, so none throws. */
    method StartAll(info: MiningInfo.MiningInfo, scoop: u32)
      requires Valid() && readers.Some?
      requires forall k :: 0 <= k < |readers.value| ==>
        !readers.value[k].isAlive && !readers.value[k].threadSet
      modifies Readers()
      ensures Valid()
      ensures forall k :: 0 <= k < |readers.value| ==>
        var r := readers.value[k];
        r.isAlive && r.threadSet && r.miningInfo == Some(info) && r.scoop == scoop &&
        r.scoopsRead == old(r.scoopsRead) && r.bytesRead == old(r.bytesRead) &&
        r.utilisedStorage == old(r.utilisedStorage)
    {
      var rs := readers.value;
      var i: nat := 0;
      while i < |rs|
        invariant i <= |rs|
        invariant Valid()
        invariant forall k :: 0 <= k < i ==>
          rs[k].isAlive && rs[k].threadSet && rs[k].miningInfo == Some(info) && rs[k].scoop == scoop
        invariant forall k :: i <= k < |rs| ==> !rs[k].isAlive && !rs[k].threadSet
        invariant forall k :: 0 <= k < |rs| ==>
          rs[k].scoopsRead == old(rs[k].scoopsRead) && rs[k].bytesRead == old(rs[k].bytesRead) &&
          rs[k].utilisedStorage == old(rs[k].utilisedStorage)
      {
        assert rs[i] in Readers();
        var thrown := rs[i].StartMining(Some(info), scoop);
        assert thrown.None?;
        i := i + 1;
      }
    }

    /** What ReadPlots does once the readers are stopped: scrap the queued
        deadlines, and for a known round with readers compute the scoop from
        the hash of the 40-byte input and start every reader on it. A round
        whose byte fields are too short throws ArgumentException with every
        reader still stopped. */
    method StartRound(info: Option<MiningInfo.MiningInfo>, H: Hasher) returns (thrown: Option<string>)
      requires Valid()
      requires readers.Some? ==> forall k :: 0 <= k < |readers.value| ==>
        !readers.value[k].isAlive && !readers.value[k].threadSet
      modifies submitter, Readers()
      ensures Valid()
      ensures submitter.queue == [] && submitter.gbStorage == old(submitter.gbStorage)
      ensures info.None? || readers.None? ==> thrown.None? && unchanged(Readers())
      ensures info.Some? && readers.Some? && GensigHashable(info.value).Failure? ==>
        thrown == Some(GensigHashable(info.value).error) && unchanged(Readers())
      ensures info.Some? && readers.Some? && GensigHashable(info.value).Success? ==>
        thrown.None? &&
        forall k :: 0 <= k < |readers.value| ==>
          var r := readers.value[k];
          r.isAlive && r.threadSet && r.miningInfo == info &&
          r.scoop == ScoopNumber(H(GensigHashable(info.value).value)) &&
          r.scoopsRead == old(r.scoopsRead) && r.bytesRead == old(r.bytesRead) &&
          r.utilisedStorage == old(r.utilisedStorage)
    {
      submitter.Reset(info);
      if info.None? {
        return None;
      }
      if readers.None? {
        return None;
      }
      var m := info.value;
      var hashable := new byte[40](_ => 0);
      if |m.previousGenerationSignatureBytes| < 32 {
        return Some("ArgumentException");
      }
      ArrayCopy(m.previousGenerationSignatureBytes[..32], hashable, 0);
      if |m.blockHeightBytes| < 8 {
        return Some("ArgumentException");
      }
      ArrayCopy(m.blockHeightBytes[..8], hashable, 32);
      assert hashable[..] == GensigHashable(m).value;
      var gensig := H(hashable[..]);
      var scoop := ScoopNumber(gensig);
      StartAll(m, scoop);
      thrown := None;
    }

    /** ReadPlots as written: the first foreach runs over the reader array
        before anything else, so without readers it throws
        NullReferenceException and the submitter keeps its queue. Otherwise
        every reader is terminated, the queue is scrapped, and with a known
        round every reader is started on the round's scoop. */
    method ReadPlots(info: Option<MiningInfo.MiningInfo>, H: Hasher) returns (thrown: Option<string>)
      requires Valid()
      modifies submitter, Readers()
      ensures Valid()
      ensures readers.None? ==>
        thrown == Some("NullReferenceException") && unchanged(submitter)
      ensures readers.Some? ==>
        submitter.queue == [] && submitter.gbStorage == old(submitter.gbStorage)
      ensures readers.Some? && (info.None? || GensigHashable(info.value).Failure?) ==>
        thrown == (if info.None? then None else Some(GensigHashable(info.value).error)) &&
        forall k :: 0 <= k < |readers.value| ==>
          !readers.value[k].isAlive && !readers.value[k].threadSet && SameRound(readers.value[k])
      ensures readers.Some? && info.Some? && GensigHashable(info.value).Success? ==>
        thrown.None? &&
        forall k :: 0 <= k < |readers.value| ==>
          var r := readers.value[k];
          r.isAlive && r.threadSet && r.miningInfo == info &&
          r.scoop == ScoopNumber(H(GensigHashable(info.value).value)) &&
          r.scoopsRead == old(r.scoopsRead) && r.bytesRead == old(r.bytesRead) &&
          r.utilisedStorage == old(r.utilisedStorage)
    {
      if readers.None? {
        return Some("NullReferenceException");
      }
      TerminateAll();
      thrown := StartRound(info, H);
    }

    /** ReadPlots with the first foreach skipped when there is no reader
        array, as the later guard intends: the queue is always scrapped and
        a miner without readers just does not mine. */
    method ReadPlotsGuarded(info: Option<MiningInfo.MiningInfo>, H: Hasher) returns (thrown: Option<string>)
      requires Valid()
      modifies submitter, Readers()
      ensures Valid()
      ensures submitter.queue == [] && submitter.gbStorage == old(submitter.gbStorage)
      ensures readers.None? ==> thrown.None?
      ensures readers.Some? && (info.None? || GensigHashable(info.value).Failure?) ==>
        thrown == (if info.None? then None else Some(GensigHashable(info.value).error)) &&
        forall k :: 0 <= k < |readers.value| ==>
          !readers.value[k].isAlive && !readers.value[k].threadSet && SameRound(readers.value[k])
      ensures readers.Some? && info.Some? && GensigHashable(info.value).Success? ==>
        thrown.None? &&
        forall k :: 0 <= k < |readers.value| ==>
          var r := readers.value[k];
          r.isAlive && r.threadSet && r.miningInfo == info &&
          r.scoop == ScoopNumber(H(GensigHashable(info.value).value)) &&
          r.scoopsRead == old(r.scoopsRead) && r.bytesRead == old(r.bytesRead) &&
          r.utilisedStorage == old(r.utilisedStorage)
    {
      if readers.Some? {
        TerminateAll();
      }
      thrown := StartRound(info, H);
    }

    /** The plot checker's DeadlineFound handler: wrap the deadline, given in
        seconds, in a new Deadline due now and queue it. TimeSpan.FromSeconds
        throws OverflowException for more seconds than a TimeSpan holds. */
    method OnDeadlineFound(seconds: u64, scoop: Scoop.Scoop, info: MiningInfo.MiningInfo, now: int)
      returns (thrown: Option<string>)
      requires Valid()
      modifies submitter
      ensures Valid()
      ensures seconds > Deadline.MAX_TIMESPAN_SECONDS ==>
        thrown == Some("OverflowException") && unchanged(submitter)
      ensures seconds <= Deadline.MAX_TIMESPAN_SECONDS ==>
        thrown.None? && submitter.gbStorage == old(submitter.gbStorage) &&
        |submitter.queue| == |old(submitter.queue)| + 1 &&
        submitter.queue[..|old(submitter.queue)|] == old(submitter.queue) &&
        var d := submitter.queue[|old(submitter.queue)|];
        fresh(d) && d.status == Deadline.Found && d.nextSubmissionDate == now &&
        d.deadlineDuration == seconds * Deadline.TICKS_PER_SECOND &&
        d.scoop == scoop && d.miningInfo == info
    {
      if seconds > Deadline.MAX_TIMESPAN_SECONDS {
        return Some("OverflowException");
      }
      var d := new Deadline.Deadline(seconds * Deadline.TICKS_PER_SECOND, scoop, info, now);
      submitter.NewDeadline(d);
      thrown := None;
    }

    /** Dispose every reader (a reader's Dispose is its Terminate) and drop
        the reader array. */
    method Dispose()
      requires Valid()
      modifies this, Readers()
      ensures Valid() && readers.None?
      ensures old(readers).Some? ==> forall k :: 0 <= k < |old(readers).value| ==>
        !old(readers).value[k].isAlive && !old(readers).value[k].threadSet &&
        SameRound(old(readers).value[k])
    {
      if readers.Some? {
        TerminateAll();
        readers := None;
      }
    }
  }
}

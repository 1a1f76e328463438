/** The deadline calculator: a bounded queue of scoops filled by the plot
    readers and drained by worker threads in batches of at most 100, each
    scoop hashed with the round's generation signature into a deadline.
    Threads are left out; the model has one Enqueue round, one worker take
    and one worker pass over a batch as separate sequential steps. */
module DeadlineCalculator {
  import opened Bytes
  import Plot
  import opened Scoop
  import opened MiningInfo

  const BATCH_SIZE: nat := 100
  const GENSIG_SIZE: nat := 32
  /** The worker's hash buffer: 32 bytes of signature, then one scoop. */
  const HASH_BUFFER_SIZE: nat := GENSIG_SIZE + Plot.SCOOP_SIZE
  const MAX_U32: u32 := TWO_32 - 1

  /** DeadlineFoundEventArgs. */
  datatype DeadlineFound = DeadlineFound(deadline: u64, scoop: Scoop, miningInfo: MiningInfo)

  /** The number of scoops one Enqueue round adds: the free capacity, or all
      that are left if they fit. */
  function Admitted(queued: nat, maximum: u32, pending: nat): (n: nat)
    requires queued <= maximum
    ensures n <= pending && queued + n <= maximum
    ensures n == pending || queued + n == maximum
  {
    var free := Wrap32(maximum - queued);
    if free > 0 then (if free < pending then free else pending) else 0
  }

  /** The deadline of a scoop: the first eight bytes of the hash, read in
      host (little-endian) order, divided by the base target, truncating. */
  function DeadlineOf(gensig: seq<byte>, data: seq<byte>, baseTarget: u64, H: Hasher): u64
    requires baseTarget > 0
  {
    ToUInt64(H(gensig + data)) / baseTarget
  }

  /** The worker's state between scoops: the hash buffer, the height whose
      signature it holds, and the events raised so far. */
  datatype Worker = Worker(buffer: seq<byte>, lastHeight: u64, events: seq<DeadlineFound>)

  /** What one scoop of the batch does to the worker. */
  datatype Step = Stop | Next(w: Worker) | Crash(error: string)

  function ScoopStep(w: Worker, alive: bool, info: Option<MiningInfo>, s: Scoop, H: Hasher): (r: Step)
    requires |w.buffer| == HASH_BUFFER_SIZE
    ensures r.Next? ==> |r.w.buffer| == HASH_BUFFER_SIZE
  {
    if !alive || info.None? then Stop
    else
      var m := info.value;
      if s.blockHeight != m.blockHeight then Next(w)
      else if w.lastHeight != m.blockHeight && |m.previousGenerationSignatureBytes| < GENSIG_SIZE then
        Crash("ArgumentException")
      else
        var buf := if w.lastHeight != m.blockHeight
          then m.previousGenerationSignatureBytes[..GENSIG_SIZE] + w.buffer[GENSIG_SIZE..]
          else w.buffer;
        if |s.data| < Plot.SCOOP_SIZE then Crash("ArgumentException")
        else
          var buf' := buf[..GENSIG_SIZE] + s.data[..Plot.SCOOP_SIZE];
          if m.baseTarget == 0 then Crash("DivideByZeroException")
          else
            var d := DeadlineOf(buf[..GENSIG_SIZE], s.data[..Plot.SCOOP_SIZE], m.baseTarget, H);
            assert buf' == buf[..GENSIG_SIZE] + s.data[..Plot.SCOOP_SIZE];
            Next(Worker(buf', m.blockHeight,
                        w.events + (if d < m.deadline then [DeadlineFound(d, s, m)] else [])))
  }

  /** The foreach over a batch, scoop by scoop, until the calculator stops or
      the thread dies on an exception. */
  function Scan(w: Worker, alive: bool, info: Option<MiningInfo>, batch: seq<Scoop>, H: Hasher): (r: Result<Worker>)
    requires |w.buffer| == HASH_BUFFER_SIZE
    ensures r.Success? ==> |r.value.buffer| == HASH_BUFFER_SIZE
    ensures r.Success? ==> |w.events| <= |r.value.events| && r.value.events[..|w.events|] == w.events
    decreases |batch|
  {
    if batch == [] then Success(w)
    else
      match ScoopStep(w, alive, info, batch[0], H)
      case Stop => Success(w)
      case Crash(e) => Failure(e)
      case Next(w') => Scan(w', alive, info, batch[1..], H)
  }

  /** The event one well-formed scoop should raise: its deadline, when it
      is for the round's height and strictly below the round's target. */
  function Raised(m: MiningInfo, s: Scoop, H: Hasher): seq<DeadlineFound>
    requires m.baseTarget > 0 && |m.previousGenerationSignatureBytes| >= GENSIG_SIZE
  {
    var d := DeadlineOf(m.previousGenerationSignatureBytes[..GENSIG_SIZE], s.data, m.baseTarget, H);
    if s.blockHeight == m.blockHeight && d < m.deadline then [DeadlineFound(d, s, m)] else []
  }

  /** The events a batch of well-formed scoops should raise: for each scoop of
      the round's height, in batch order, its deadline when strictly below
      the round's target. */
  function Expected(m: MiningInfo, batch: seq<Scoop>, H: Hasher): seq<DeadlineFound>
    requires m.baseTarget > 0 && |m.previousGenerationSignatureBytes| >= GENSIG_SIZE
    requires forall i :: 0 <= i < |batch| ==> |batch[i].data| == Plot.SCOOP_SIZE
    decreases |batch|
  {
    if batch == [] then [] else Raised(m, batch[0], H) + Expected(m, batch[1..], H)
  }

  /** The buffer holds the round's signature, or the cache is cold for its height. */
  predicate CacheAgrees(w: Worker, m: MiningInfo)
    requires |w.buffer| == HASH_BUFFER_SIZE && |m.previousGenerationSignatureBytes| >= GENSIG_SIZE
  {
    w.lastHeight != m.blockHeight || w.buffer[..GENSIG_SIZE] == m.previousGenerationSignatureBytes[..GENSIG_SIZE]
  }

  /** While the calculator is alive and the round is well formed, one scoop
      moves the worker on, raises what it should and keeps the cache in
      agreement with the round. */
  lemma {:induction false} StepRaisesExpected(w: Worker, m: MiningInfo, s: Scoop, H: Hasher)
    requires |w.buffer| == HASH_BUFFER_SIZE && |s.data| == Plot.SCOOP_SIZE
    requires m.baseTarget > 0 && |m.previousGenerationSignatureBytes| >= GENSIG_SIZE
    requires CacheAgrees(w, m)
    ensures ScoopStep(w, true, Some(m), s, H).Next?
    ensures ScoopStep(w, true, Some(m), s, H).w.events == w.events + Raised(m, s, H)
    ensures CacheAgrees(ScoopStep(w, true, Some(m), s, H).w, m)
  {
    assert s.data[..Plot.SCOOP_SIZE] == s.data;
    if s.blockHeight != m.blockHeight {
      assert w.events + [] == w.events;
    }
  }

  /** While the calculator is alive and the round is well formed, a batch
      raises exactly the expected events: a scoop raises one iff it is for
      the round's height and its deadline ToUInt64(H(gensig ++ data)) /
      BaseTarget is strictly below the round's target. The signature cache
      keyed on the height gives the right signature when it agrees. */
  lemma {:induction false} ScanRaisesExpected(w: Worker, m: MiningInfo, batch: seq<Scoop>, H: Hasher)
    requires |w.buffer| == HASH_BUFFER_SIZE
    requires m.baseTarget > 0 && |m.previousGenerationSignatureBytes| >= GENSIG_SIZE
    requires forall i :: 0 <= i < |batch| ==> |batch[i].data| == Plot.SCOOP_SIZE
    requires CacheAgrees(w, m)
    ensures Scan(w, true, Some(m), batch, H).Success?
    ensures Scan(w, true, Some(m), batch, H).value.events == w.events + Expected(m, batch, H)
    ensures CacheAgrees(Scan(w, true, Some(m), batch, H).value, m)
    decreases |batch|
  {
    if batch == [] {
      assert w.events + [] == w.events;
    } else {
      StepRaisesExpected(w, m, batch[0], H);
      var w' := ScoopStep(w, true, Some(m), batch[0], H).w;
      ScanRaisesExpected(w', m, batch[1..], H);
      assert w.events + Raised(m, batch[0], H) + Expected(m, batch[1..], H)
          == w.events + (Raised(m, batch[0], H) + Expected(m, batch[1..], H));
    }
  }

  /** Every event of a pass is for the round's height, carries the round's
      information and a deadline strictly below its target; stale scoops
      raise nothing. */
  lemma {:induction false} ScanEventsQualify(w: Worker, alive: bool, m: MiningInfo, batch: seq<Scoop>, H: Hasher)
    requires |w.buffer| == HASH_BUFFER_SIZE
    requires Scan(w, alive, Some(m), batch, H).Success?
    ensures var evs := Scan(w, alive, Some(m), batch, H).value.events;
      evs[..|w.events|] == w.events &&
      forall i :: |w.events| <= i < |evs| ==>
        evs[i].scoop in batch && evs[i].scoop.blockHeight == m.blockHeight &&
        evs[i].miningInfo == m && evs[i].deadline < m.deadline
    decreases |batch|
  {
    if batch != [] {
      var st := ScoopStep(w, alive, Some(m), batch[0], H);
      if st.Next? {
        ScanEventsQualify(st.w, alive, m, batch[1..], H);
        var evs := Scan(w, alive, Some(m), batch, H).value.events;
        assert evs[..|st.w.events|] == st.w.events;
        assert forall x :: x in batch[1..] ==> x in batch;
      }
    }
  }

  /** The cache is keyed on the height alone: when a new round at the same
      height brings another signature, the worker still hashes the old one. */
  lemma {:induction false} StaleSignatureAtSameHeight(w: Worker, m: MiningInfo, s: Scoop, H: Hasher)
    requires |w.buffer| == HASH_BUFFER_SIZE && |s.data| == Plot.SCOOP_SIZE
    requires m.baseTarget > 0 && s.blockHeight == m.blockHeight && w.lastHeight == m.blockHeight
    ensures ScoopStep(w, true, Some(m), s, H).Next?
    ensures ScoopStep(w, true, Some(m), s, H).w.buffer == w.buffer[..GENSIG_SIZE] + s.data
  {
    assert s.data[..Plot.SCOOP_SIZE] == s.data;
  }

  class DeadlineCalculator {
    var queue: seq<Scoop>
    var maximumScoops: u32
    var isAlive: bool
    var miningInfo: Option<MiningInfo>

    predicate Valid()
      reads this
    {
      |queue| <= maximumScoops
    }

    constructor (maximumScoops: u32)
      ensures Valid() && queue == [] && this.maximumScoops == maximumScoops
      ensures isAlive && miningInfo == None
    {
      queue := [];
      this.maximumScoops := maximumScoops;
      isAlive := true;
      miningInfo := None;
    }

    /** One round of Enqueue's loop over the pending scoops: with no round
        information it gives up (`done`); otherwise it appends, in order,
        as many as there is room for, and Enqueue is done once none remain. */
    method EnqueueRound(toQueue: seq<Scoop>) returns (rest: seq<Scoop>, done: bool)
      requires Valid()
      modifies this
      ensures Valid()
      ensures maximumScoops == old(maximumScoops) && miningInfo == old(miningInfo) && isAlive == old(isAlive)
      ensures miningInfo.None? ==> done && rest == toQueue && queue == old(queue)
      ensures miningInfo.Some? ==>
        var n := Admitted(|old(queue)|, maximumScoops, |toQueue|);
        queue == old(queue) + toQueue[..n] && rest == toQueue[n..] && (done <==> rest == [])
    {
      if miningInfo.None? {
        return toQueue, true;
      }
      var freeCapacity := Wrap32(maximumScoops - |queue|);
      var numberToAdd := 0;
      if freeCapacity > 0 {
        numberToAdd := if freeCapacity < |toQueue| then freeCapacity else |toQueue|;
        ghost var q0 := queue;
        for i := 0 to numberToAdd
          invariant queue == q0 + toQueue[..i]
          invariant maximumScoops == old(maximumScoops) && miningInfo == old(miningInfo) && isAlive == old(isAlive)
        {
          queue := queue + [toQueue[i]];
          assert toQueue[..i + 1] == toQueue[..i] + [toQueue[i]];
        }
      }
      rest := toQueue[numberToAdd..];
      done := rest == [];
    }

    /** The worker's take: at most 100 scoops from the tail, last first; the
        queue keeps its other entries, unchanged and in order. */
    method TakeBatch() returns (scoops: seq<Scoop>)
      requires Valid()
      modifies this
      ensures Valid()
      ensures maximumScoops == old(maximumScoops) && miningInfo == old(miningInfo) && isAlive == old(isAlive)
      ensures var k := Min(|old(queue)|, BATCH_SIZE);
        |scoops| == k && queue == old(queue)[..|old(queue)| - k] &&
        forall i :: 0 <= i < k ==> scoops[i] == old(queue)[|old(queue)| - 1 - i]
    {
      var q := queue;
      var k := if |q| > BATCH_SIZE then BATCH_SIZE else |q|;
      var taken := new Scoop[k];
      for i := 0 to k
        modifies taken
        invariant forall j :: 0 <= j < i ==> taken[j] == q[|q| - 1 - j]
      {
        taken[i] := q[|q| - i - 1];
      }
      scoops := taken[..];
      queue := q[..|q| - k];
    }

    /** Replaces the round information and empties the queue. */
    method NotifyNewRound(info: Option<MiningInfo>)
      modifies this
      ensures Valid() && queue == [] && miningInfo == info
      ensures maximumScoops == old(maximumScoops) && isAlive == old(isAlive)
    {
      miningInfo := info;
      queue := [];
    }

    /** Stops the workers and frees any pending Enqueue: the capacity becomes
        the largest uint and the round information is dropped, so the next
        round of Enqueue returns. */
    method Dispose()
      requires Valid()
      modifies this
      ensures Valid() && !isAlive && maximumScoops == MAX_U32 && miningInfo.None?
      ensures queue == old(queue)
    {
      isAlive := false;
      maximumScoops := MAX_U32;
      miningInfo := None;
    }
  }

  /** A worker thread's own state: the hash buffer it reuses and the height
      whose signature the buffer holds. */
  class HashWorker {
    const hashBuffer: array<byte>
    var lastBlockHeightPrevGenCopied: u64

    constructor ()
      ensures hashBuffer.Length == HASH_BUFFER_SIZE && fresh(hashBuffer)
      ensures hashBuffer[..] == seq(HASH_BUFFER_SIZE, _ => 0) && lastBlockHeightPrevGenCopied == 0
    {
      hashBuffer := new byte[HASH_BUFFER_SIZE](_ => 0);
      lastBlockHeightPrevGenCopied := 0;
    }

    /** The foreach over a taken batch. The round information and the
        liveness flag are read from the calculator; the result is Scan's. */
    method ProcessBatch(calculator: DeadlineCalculator, scoops: seq<Scoop>, H: Hasher) returns (r: Result<seq<DeadlineFound>>)
      requires hashBuffer.Length == HASH_BUFFER_SIZE
      modifies this, hashBuffer
      ensures var s := Scan(Worker(old(hashBuffer[..]), old(lastBlockHeightPrevGenCopied), []),
                            calculator.isAlive, calculator.miningInfo, scoops, H);
        (r.Success? <==> s.Success?) &&
        (r.Success? ==> r.value == s.value.events && hashBuffer[..] == s.value.buffer &&
                        lastBlockHeightPrevGenCopied == s.value.lastHeight)
    {
      ghost var w0 := Worker(hashBuffer[..], lastBlockHeightPrevGenCopied, []);
      var events: seq<DeadlineFound> := [];
      var i := 0;
      while i < |scoops|
        invariant 0 <= i <= |scoops|
        invariant Scan(w0, calculator.isAlive, calculator.miningInfo, scoops, H) ==
          Scan(Worker(hashBuffer[..], lastBlockHeightPrevGenCopied, events), calculator.isAlive, calculator.miningInfo, scoops[i..], H)
        decreases |scoops| - i
      {
        var scoop := scoops[i];
        ghost var w := Worker(hashBuffer[..], lastBlockHeightPrevGenCopied, events);
        assert scoops[i..][1..] == scoops[i + 1..];
        var miningInfo := calculator.miningInfo;
        if !calculator.isAlive || miningInfo.None? {
          break;
        }
        var m := miningInfo.value;
        if scoop.blockHeight != m.blockHeight {
          i := i + 1;
          continue;
        }
        if lastBlockHeightPrevGenCopied != m.blockHeight {
          if |m.previousGenerationSignatureBytes| < GENSIG_SIZE {
            return Failure("ArgumentException");
          }
          ArrayCopy(m.previousGenerationSignatureBytes[..GENSIG_SIZE], hashBuffer, 0);
          assert hashBuffer[..] == m.previousGenerationSignatureBytes[..GENSIG_SIZE] + w.buffer[GENSIG_SIZE..];
          lastBlockHeightPrevGenCopied := m.blockHeight;
        }
        ghost var buf := hashBuffer[..];
        assert buf == if w.lastHeight != m.blockHeight
          then m.previousGenerationSignatureBytes[..GENSIG_SIZE] + w.buffer[GENSIG_SIZE..]
          else w.buffer;
        if |scoop.data| < Plot.SCOOP_SIZE {
          return Failure("ArgumentException");
        }
        ArrayCopy(scoop.data[..Plot.SCOOP_SIZE], hashBuffer, GENSIG_SIZE);
        assert hashBuffer[..] == buf[..GENSIG_SIZE] + scoop.data[..Plot.SCOOP_SIZE];
        var target := H(hashBuffer[..]);
        var targetResult := ToUInt64(target);
        if m.baseTarget == 0 {
          return Failure("DivideByZeroException");
        }
        var deadline := targetResult / m.baseTarget;
        assert deadline == DeadlineOf(buf[..GENSIG_SIZE], scoop.data[..Plot.SCOOP_SIZE], m.baseTarget, H);
        if deadline < m.deadline {
          events := events + [DeadlineFound(deadline, scoop, m)];
        }
        assert ScoopStep(w, calculator.isAlive, calculator.miningInfo, scoop, H) ==
          Next(Worker(hashBuffer[..], lastBlockHeightPrevGenCopied, events));
        i := i + 1;
      }
      r := Success(events);
    }
  }
}

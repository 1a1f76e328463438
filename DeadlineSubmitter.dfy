/** The deadline submitter: a queue of deadlines and the worker pass that
    prunes finished ones, submits the ones that are due and classifies the
    pool's answer. The HTTP transport is a parameter `respond` giving the
    pool's answer to one deadline's submission; the time is a parameter. */
module DeadlineSubmitter {
  import opened Bytes
  import opened Deadline

  /** What the HTTP round trip amounts to for the state machine: a JSON body
      with a "deadline" key, one with an "errorCode" key, any other body, or
      an exception (transport error, non-success status, unparsable JSON). */
  datatype Response = HasDeadline | HasErrorCode | Other | Throws

  /** The outcome of handling one due deadline in a pass: its new status and
      whether the request reached the transport. */
  datatype Outcome = Outcome(status: Status, posted: bool)

  /** The transition the try block attempts after a successful Submit; an
      exception from the transport leads straight to the catch block. */
  function Classify(r: Response): Option<Transition>
  {
    match r
    case HasDeadline => Some(AcceptT)
    case HasErrorCode => Some(RejectT)
    case Other => Some(FailT)
    case Throws => None
  }

  /** One due deadline, as the loop body handles it under a given transition
      table: Submit, post, classify; any exception in the try block runs
      SubmissionFailed in the catch block, and None means that call threw
      too, out of the worker thread. */
  function HandleWith(next: (Status, Transition) -> Option<Status>, s: Status, r: Response): Option<Outcome>
  {
    var submitted := next(s, SubmitT);
    if submitted.Some? then
      var t := Classify(r);
      var tried := if t.Some? then next(submitted.value, t.value) else None;
      if tried.Some? then Some(Outcome(tried.value, true))
      else
        var caught := next(submitted.value, FailT);
        if caught.Some? then Some(Outcome(caught.value, true)) else None
    else
      var caught := next(s, FailT);
      if caught.Some? then Some(Outcome(caught.value, false)) else None
  }

  /** The pass as written, over Deadline's own transitions. */
  function Handle(s: Status, r: Response): Option<Outcome>
  {
    HandleWith(Next, s, r)
  }

  /** Classification in order: a "deadline" key accepts, an "errorCode" key
      rejects, anything else (including an exception) is a submission
      failure; a Found deadline always reaches the transport. */
  lemma {:induction false} HandleFound(r: Response)
    ensures Handle(Found, r).Some? && Handle(Found, r).value.posted
    ensures Handle(Found, r).value.status ==
      (if r == HasDeadline then Accepted else if r == HasErrorCode then Rejected else SubmissionFailure)
  {
  }

  /** With finished entries pruned, no pass throws out of the catch block. */
  lemma {:induction false} HandleNeverThrowsAfterPruning(s: Status, r: Response)
    requires !Terminal(s)
    ensures Handle(s, r).Some?
  {
  }

  /** The retry path is dead: Submit refuses a deadline in SubmissionFailure,
      so it never reaches the transport again and only gets a new delay. */
  lemma {:induction false} RetryNeverReachesTransport(r: Response)
    ensures Handle(SubmissionFailure, r) == Some(Outcome(SubmissionFailure, false))
  {
  }

  /** Over any number of passes and answers, a deadline in SubmissionFailure
      stays there and is never posted. */
  lemma {:induction false} FailedStaysUnposted(rs: seq<Response>)
    ensures RunPasses(SubmissionFailure, rs) == Some(Outcome(SubmissionFailure, false))
    decreases |rs|
  {
    if |rs| > 1 {
      FailedStaysUnposted(rs[1..]);
    }
  }

  /** The status after several passes that each find the deadline due, with
      `posted` telling whether any of them reached the transport. */
  function RunPasses(s: Status, rs: seq<Response>): Option<Outcome>
    decreases |rs|
  {
    if rs == [] then Some(Outcome(s, false))
    else
      match Handle(s, rs[0])
      case None => None
      case Some(o) =>
        match RunPasses(o.status, rs[1..])
        case None => None
        case Some(o2) => Some(Outcome(o2.status, o.posted || o2.posted))
  }

  /** The evidently intended table, in which a failed submission may be
      submitted again. */
  function CorrectedNext(s: Status, t: Transition): Option<Status>
  {
    if t == SubmitT && s == SubmissionFailure then Some(Submitted) else Next(s, t)
  }

  /** Under the corrected table a deadline in SubmissionFailure is posted
      again and classified like a Found one. */
  lemma {:induction false} CorrectedRetryReachesTransport(r: Response)
    ensures HandleWith(CorrectedNext, SubmissionFailure, r) == HandleWith(CorrectedNext, Found, r)
    ensures HandleWith(CorrectedNext, Found, r) == Handle(Found, r)
    ensures HandleWith(CorrectedNext, SubmissionFailure, r).value.posted
  {
  }

  predicate Distinct(q: seq<Deadline>)
  {
    forall i, j :: 0 <= i < j < |q| ==> q[i] != q[j]
  }

  /** The entries that are neither Accepted nor Rejected, in queue order. */
  function Pruned(q: seq<Deadline>): (r: seq<Deadline>)
    reads q
    ensures forall d :: d in r ==> d in q && !Terminal(d.status)
    ensures forall k :: 0 <= k < |q| && !Terminal(q[k].status) ==> q[k] in r
    ensures Distinct(q) ==> Distinct(r)
    decreases |q|
  {
    if q == [] then []
    else
      var last := q[|q| - 1];
      var init := q[..|q| - 1];
      Pruned(init) + (if Terminal(last.status) then [] else [last])
  }

  /** The entries whose NextSubmissionDate is not after now, in queue order. */
  function Due(q: seq<Deadline>, now: int): (r: seq<Deadline>)
    reads q
    ensures forall d :: d in r ==> d in q && d.nextSubmissionDate <= now
    ensures forall k :: 0 <= k < |q| && q[k].nextSubmissionDate <= now ==> q[k] in r
    ensures Distinct(q) ==> Distinct(r)
    decreases |q|
  {
    if q == [] then []
    else
      var last := q[|q| - 1];
      var init := q[..|q| - 1];
      Due(init, now) + (if last.nextSubmissionDate <= now then [last] else [])
  }

  /** The entries in Found, in order: the ones a pass posts. */
  function Fresh(q: seq<Deadline>): (r: seq<Deadline>)
    reads q
    ensures forall d :: d in r ==> d in q && d.status == Found
    ensures forall k :: 0 <= k < |q| && q[k].status == Found ==> q[k] in r
    decreases |q|
  {
    if q == [] then []
    else
      var last := q[|q| - 1];
      Fresh(q[..|q| - 1]) + (if last.status == Found then [last] else [])
  }

  class DeadlineSubmitter {
    var queue: seq<Deadline>
    var gbStorage: real

    /** Every caller queues a newly constructed Deadline, so no entry appears twice. */
    predicate Valid()
      reads this
    {
      Distinct(queue)
    }

    constructor ()
      ensures Valid() && queue == [] && gbStorage == 0.0
    {
      queue := [];
      gbStorage := 0.0;
    }

    method UpdateUtilisedStorage(gb: real)
      modifies this
      ensures gbStorage == gb && queue == old(queue)
    {
      gbStorage := gb;
    }

    /** Scraps every queued deadline, whatever round information is passed. */
    method Reset<T>(miningInfo: T)
      modifies this
      ensures Valid() && queue == [] && gbStorage == old(gbStorage)
    {
      queue := [];
    }

    /** Appends at the end and leaves the other entries as they were. */
    method NewDeadline(deadline: Deadline)
      requires Valid() && deadline !in queue
      modifies this
      ensures Valid() && queue == old(queue) + [deadline] && gbStorage == old(gbStorage)
    {
      queue := queue + [deadline];
    }

    /** One pass of the worker loop at time `now`. Entries leave the queue
        only when Accepted or Rejected; every due entry is handled once, in
        queue order, as Handle says; the others are left alone; `posted`
        lists the deadlines whose request reached the transport. */
    method Pass(now: int, respond: Deadline -> Response) returns (posted: seq<Deadline>)
      requires Valid()
      modifies this, queue
      ensures Valid() && gbStorage == old(gbStorage)
      ensures queue == old(Pruned(queue))
      ensures posted == old(Fresh(Due(Pruned(queue), now)))
      ensures forall d :: d in queue && old(d.nextSubmissionDate) <= now ==>
        Handle(old(d.status), respond(d)).Some? &&
        d.status == Handle(old(d.status), respond(d)).value.status &&
        d.nextSubmissionDate == (if d.status == SubmissionFailure then now + RETRY_DELAY else old(d.nextSubmissionDate))
      ensures forall d :: d in queue && old(d.nextSubmissionDate) > now ==>
        d.status == old(d.status) && d.nextSubmissionDate == old(d.nextSubmissionDate)
      ensures forall d :: d in old(queue) && Terminal(old(d.status)) ==>
        d.status == old(d.status) && d.nextSubmissionDate == old(d.nextSubmissionDate)
    {
      // Remove the finished deadlines (the entries are distinct, so removing
      // each one found is filtering), then take the due ones.
      var kept := Pruned(queue);
      var deadlines := Due(kept, now);
      forall d | d in kept && d.nextSubmissionDate <= now
        ensures d in deadlines
      {
        var k :| 0 <= k < |kept| && kept[k] == d;
      }
      assert forall i :: 0 <= i < |deadlines| ==> deadlines[i] in queue;
      posted := Process(deadlines, now, respond);
      queue := kept;
    }
  }

  /** The foreach over the due deadlines. */
  method Process(ds: seq<Deadline>, now: int, respond: Deadline -> Response) returns (posted: seq<Deadline>)
    requires Distinct(ds) && forall d :: d in ds ==> !Terminal(d.status)
    modifies ds
    ensures posted == old(Fresh(ds))
    ensures forall d :: d in ds ==>
      Handle(old(d.status), respond(d)).Some? &&
      d.status == Handle(old(d.status), respond(d)).value.status &&
      d.nextSubmissionDate == (if d.status == SubmissionFailure then now + RETRY_DELAY else old(d.nextSubmissionDate))
  {
    posted := [];
    for j := 0 to |ds|
      invariant posted == old(Fresh(ds[..j]))
      invariant forall d :: d in ds[..j] ==>
        Handle(old(d.status), respond(d)).Some? &&
        d.status == Handle(old(d.status), respond(d)).value.status &&
        d.nextSubmissionDate == (if d.status == SubmissionFailure then now + RETRY_DELAY else old(d.nextSubmissionDate))
      invariant forall d :: d in ds && d !in ds[..j] ==>
        d.status == old(d.status) && d.nextSubmissionDate == old(d.nextSubmissionDate)
    {
      var d := ds[j];
      assert d !in ds[..j];
      assert ds[..j + 1] == ds[..j] + [d];
      var sent := HandleOne(d, now, respond(d));
      if sent {
        posted := posted + [d];
      }
    }
    assert ds[..|ds|] == ds;
  }

  /** The loop body for one due deadline. */
  method HandleOne(d: Deadline, now: int, r: Response) returns (sent: bool)
    requires !Terminal(d.status)
    modifies d
    ensures Handle(old(d.status), r).Some?
    ensures sent == Handle(old(d.status), r).value.posted && (sent <==> old(d.status) == Found)
    ensures d.status == Handle(old(d.status), r).value.status
    ensures d.nextSubmissionDate == (if d.status == SubmissionFailure then now + RETRY_DELAY else old(d.nextSubmissionDate))
  {
    var caught := false;
    var submitted := d.Submit();
    sent := submitted;
    if !submitted {
      caught := true;
    } else {
      var ok: bool;
      match r {
        case HasDeadline => ok := d.Accept();
        case HasErrorCode => ok := d.Reject();
        case Other => ok := d.SubmissionFailed(now);
        case Throws => ok := false;
      }
      // A refused transition throws inside the try block, as the transport does.
      caught := !ok;
    }
    if caught {
      var ok := d.SubmissionFailed(now);
      assert ok;
    }
  }
}

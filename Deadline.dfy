/** A deadline found in the plots and its submission state machine. Every
    transition method checks the current status first and throws "Invalid
    state transition" before assigning anything. */
module Deadline {
  import opened Bytes
  import Scoop
  import MiningInfo

  /** DeadlineStatus. */
  datatype Status = Found | Submitted | Accepted | Rejected | SubmissionFailure

  /** The four transition methods of Deadline. */
  datatype Transition = SubmitT | AcceptT | RejectT | FailT

  /** DateTime values are counted in 100 ns ticks; AddSeconds(5) adds this many. */
  const RETRY_DELAY: int := 50_000_000

  const TICKS_PER_SECOND: int := 10_000_000

  /** The largest whole number of seconds a TimeSpan holds: its range is
      2^63 - 1 ticks. TimeSpan.FromSeconds throws OverflowException above it. */
  const MAX_TIMESPAN_SECONDS: int := 922_337_203_685

  /** The status a transition leads to, or None when the method throws. */
  function Next(s: Status, t: Transition): Option<Status>
  {
    match t
    case SubmitT => if s == Found then Some(Submitted) else None
    case AcceptT => if s == Submitted then Some(Accepted) else None
    case RejectT => if s == Submitted then Some(Rejected) else None
    case FailT => if s == Submitted || s == SubmissionFailure then Some(SubmissionFailure) else None
  }

  predicate Terminal(s: Status)
  {
    s == Accepted || s == Rejected
  }

  /** The status after a sequence of transition attempts whose exceptions are
      caught: a refused transition leaves the status as it was. */
  function Run(s: Status, ts: seq<Transition>): Status
    decreases |ts|
  {
    if ts == [] then s
    else
      var n := Next(s, ts[0]);
      Run(if n.Some? then n.value else s, ts[1..])
  }

  /** Accepted and Rejected are terminal: every transition throws from them. */
  lemma {:induction false} TerminalHasNoTransition(s: Status, t: Transition)
    requires Terminal(s)
    ensures Next(s, t).None?
  {
  }

  /** Only Submit moves a deadline forward out of Found, and only from Found. */
  lemma {:induction false} SubmitOnlyFromFound(s: Status, t: Transition)
    requires Next(s, t) == Some(Submitted)
    ensures s == Found && t == SubmitT
  {
  }

  /** Once terminal, a deadline stays where it is whatever is attempted. */
  lemma {:induction false} TerminalIsFinal(s: Status, ts: seq<Transition>)
    requires Terminal(s)
    ensures Run(s, ts) == s
    decreases |ts|
  {
    if ts != [] {
      TerminalHasNoTransition(s, ts[0]);
      TerminalIsFinal(s, ts[1..]);
    }
  }

  /** A deadline in SubmissionFailure can never be submitted again: whatever
      sequence of transitions is attempted, it stays in SubmissionFailure. */
  lemma {:induction false} SubmissionFailureIsAbsorbing(ts: seq<Transition>)
    ensures Run(SubmissionFailure, ts) == SubmissionFailure
    decreases |ts|
  {
    if ts != [] {
      SubmissionFailureIsAbsorbing(ts[1..]);
    }
  }

  /** A deadline reaches Accepted or Rejected only through a Submit attempt
      that succeeded, i.e. one made in Found. */
  lemma {:induction false} TerminalNeedsSubmit(s: Status, ts: seq<Transition>)
    requires !Terminal(s) && s != Submitted && Terminal(Run(s, ts))
    ensures s == Found && SubmitT in ts
    decreases |ts|
  {
    if ts != [] {
      var n := Next(s, ts[0]);
      var s' := if n.Some? then n.value else s;
      if s' == Submitted {
        assert s == Found && ts[0] == SubmitT;
      } else {
        assert !Terminal(s');
        TerminalNeedsSubmit(s', ts[1..]);
        assert s' == Found ==> s == Found;
        assert SubmitT in ts[1..];
      }
    }
  }

  class Deadline {
    var status: Status
    const deadlineDuration: int
    const scoop: Scoop.Scoop
    const miningInfo: MiningInfo.MiningInfo
    var nextSubmissionDate: int

    /** A new deadline is Found and may be submitted at once. */
    constructor (deadline: int, scoop: Scoop.Scoop, miningInfo: MiningInfo.MiningInfo, now: int)
      ensures status == Found && nextSubmissionDate == now
      ensures deadlineDuration == deadline && this.scoop == scoop && this.miningInfo == miningInfo
    {
      status := Found;
      deadlineDuration := deadline;
      this.scoop := scoop;
      this.miningInfo := miningInfo;
      nextSubmissionDate := now;
    }

    method Accept() returns (ok: bool)
      modifies this
      ensures ok <==> Next(old(status), AcceptT).Some?
      ensures status == (if ok then Next(old(status), AcceptT).value else old(status))
      ensures nextSubmissionDate == old(nextSubmissionDate)
    {
      if status != Submitted {
        return false;
      }
      status := Accepted;
      return true;
    }

    method Reject() returns (ok: bool)
      modifies this
      ensures ok <==> Next(old(status), RejectT).Some?
      ensures status == (if ok then Next(old(status), RejectT).value else old(status))
      ensures nextSubmissionDate == old(nextSubmissionDate)
    {
      if status != Submitted {
        return false;
      }
      status := Rejected;
      return true;
    }

    method Submit() returns (ok: bool)
      modifies this
      ensures ok <==> Next(old(status), SubmitT).Some?
      ensures status == (if ok then Next(old(status), SubmitT).value else old(status))
      ensures nextSubmissionDate == old(nextSubmissionDate)
    {
      if status != Found {
        return false;
      }
      status := Submitted;
      return true;
    }

    /** Allowed from Submitted and SubmissionFailure: retry five seconds after now. */
    method SubmissionFailed(now: int) returns (ok: bool)
      modifies this
      ensures ok <==> Next(old(status), FailT).Some?
      ensures status == (if ok then Next(old(status), FailT).value else old(status))
      ensures nextSubmissionDate == (if ok then now + RETRY_DELAY else old(nextSubmissionDate))
    {
      if status != Submitted && status != SubmissionFailure {
        return false;
      }
      nextSubmissionDate := now + RETRY_DELAY;
      status := SubmissionFailure;
      return true;
    }
  }
}

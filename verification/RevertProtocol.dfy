/**
 The calls of a coordinated revert and the lock of the daemon: taken by a `start`,
 given up by a `commit` that is written or by an `abort`.
 */
module RevertProtocol {
  /** What the client hears, and what became of its call: done and answered,
      refused, or done with the answer lost on the way. */
  datatype Reply = Accepted | Refused | Lost

  datatype Call =
    | Direct(reply: Reply)
    | Start(reply: Reply)
    | Commit(apply: seq<int>, reply: Reply)
    | AbortCall(reply: Reply)

  /** Whether the lock is held after a call. */
  predicate Turn(held: bool, call: Call) {
    match call
    case Direct(_) => held
    case Start(reply) => held || reply != Refused
    case Commit(_, reply) => held && reply == Refused
    case AbortCall(reply) => held && reply == Refused
  }

  predicate HeldAfter(held: bool, calls: seq<Call>) {
    if calls == [] then held else Turn(HeldAfter(held, calls[..|calls| - 1]), calls[|calls| - 1])
  }

  lemma HeldAfterMore(held: bool, calls: seq<Call>, call: Call)
    ensures HeldAfter(held, calls + [call]) == Turn(HeldAfter(held, calls), call)
  {
    assert (calls + [call])[..|calls|] == calls;
  }

  lemma {:induction false} HeldAfterBoth(held: bool, calls: seq<Call>, more: seq<Call>)
    ensures HeldAfter(held, calls + more) == HeldAfter(HeldAfter(held, calls), more)
  {
    if more == [] {
      assert calls + more == calls;
    } else {
      var n := |more| - 1;
      HeldAfterBoth(held, calls, more[..n]);
      assert (calls + more)[..|calls + more| - 1] == calls + more[..n];
    }
  }

  /** The calls of one coordinated revert, and whether it is reported as written:
      a start that is not accepted ends it; after one that is, an accepted commit
      or an abort does, and nothing follows an abort. */
  predicate Concludes(run: seq<Call>, apply: seq<int>, written: bool) {
    match |run|
    case 1 => !written && run[0].Start? && run[0].reply != Accepted
    case 2 =>
      && run[0] == Start(Accepted)
      && if written then run[1] == Commit(apply, Accepted) else run[1].AbortCall?
    case 3 =>
      && !written && run[0] == Start(Accepted)
      && run[1].Commit? && run[1].apply == apply && run[1].reply != Accepted && run[2].AbortCall?
    case _ => false
  }

  /** The daemon wrote the revert, heard or not. */
  predicate Wrote(run: seq<Call>) {
    exists i :: 0 <= i < |run| && (run[i].Commit? || run[i].Direct?) && run[i].reply != Refused
  }

  /** The answer of a start was lost, or an abort was refused with the lock still
      held by the revert. */
  predicate Stranded(run: seq<Call>) {
    || (|run| == 1 && run[0] == Start(Lost))
    || (|run| == 2 && run[1] == AbortCall(Refused))
    || (|run| == 3 && run[1].Commit? && run[1].reply == Refused && run[2] == AbortCall(Refused))
  }

  /** A run begun on a free lock leaves it free unless it is stranded, and what it
      reports as written is; what it reports as not written is written exactly
      when the answer of its commit was lost. */
  lemma ConclusionReleases(run: seq<Call>, apply: seq<int>, written: bool)
    requires Concludes(run, apply, written)
    ensures HeldAfter(false, run) <==> Stranded(run)
    ensures written ==> Wrote(run) && !HeldAfter(false, run)
    ensures !written ==> (Wrote(run) <==> |run| == 3 && run[1].reply == Lost)
  {
    HeldAfterMore(false, [], run[0]);
    assert [] + [run[0]] == run[..1];
    if |run| > 1 {
      HeldAfterMore(false, run[..1], run[1]);
      assert run[..1] + [run[1]] == run[..2];
    }
    if |run| > 2 {
      HeldAfterMore(false, run[..2], run[2]);
      assert run[..2] + [run[2]] == run[..3];
    }
    assert run[..|run|] == run;
  }
}

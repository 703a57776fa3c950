/** What the history of reports, leaves, timers and query rounds means for a single member. */
module IgmpMembers {
  import opened IgmpState

  /** What can happen to the querier, between two sleeps. */
  datatype Step = Reported(m: Member) | Left(m: Member) | LeaveTimer(m: Member) | Reset | Expiry

  datatype Standing = Absent | Here(state: PortState)

  /** The standing of `m` after one more step. */
  function Next(s: Standing, step: Step, m: Member): Standing {
    match step
    case Reported(n) => if n == m then Here(PortState(true, s.Here? && s.state.leave)) else s
    case Left(n) => if n == m && s.Here? then Here(s.state.(leave := true)) else s
    case LeaveTimer(n) => if n == m && s.Here? && s.state.leave then Absent else s
    case Reset => if s.Here? then Here(s.state.(replied := false)) else s
    case Expiry => if s.Here? && !s.state.replied then Absent else s
  }

  /** The standing of `m` after all of `log`. */
  function StandingAfter(log: seq<Step>, m: Member): Standing {
    if log == [] then Absent else Next(StandingAfter(log[..|log| - 1], m), log[|log| - 1], m)
  }

  lemma StandingMore(log: seq<Step>, step: Step)
    ensures forall m :: StandingAfter(log + [step], m) == Next(StandingAfter(log, m), step, m)
  {
    assert (log + [step])[..|log|] == log;
  }

  /** `m` sent a report, and there was no reset since. */
  ghost predicate ReportedSinceReset(log: seq<Step>, m: Member) {
    exists i :: 0 <= i < |log| && log[i] == Reported(m) && forall j :: i < j < |log| ==> log[j] != Reset
  }

  /** `m` sent a leave, and has been here ever since. */
  ghost predicate LeftSinceEntered(log: seq<Step>, m: Member) {
    exists i :: 0 <= i < |log| && LeftAt(log, m, i)
  }

  ghost predicate LeftAt(log: seq<Step>, m: Member, i: nat)
    requires i < |log|
  {
    log[i] == Left(m) && forall j :: i <= j <= |log| ==> StandingAfter(log[..j], m).Here?
  }

  lemma ReportedMore(log: seq<Step>, step: Step, m: Member)
    ensures ReportedSinceReset(log + [step], m) <==>
            step == Reported(m) || (step != Reset && ReportedSinceReset(log, m))
  {
    var more := log + [step];
    if step == Reported(m) {
      assert more[|log|] == Reported(m);
    } else if step != Reset && ReportedSinceReset(log, m) {
      var i :| 0 <= i < |log| && log[i] == Reported(m) && forall j :: i < j < |log| ==> log[j] != Reset;
      assert more[i] == Reported(m);
    }
    if ReportedSinceReset(more, m) && step != Reported(m) {
      var i :| 0 <= i < |more| && more[i] == Reported(m) && forall j :: i < j < |more| ==> more[j] != Reset;
      assert more[|log|] == step && log[i] == Reported(m);
      assert forall j :: i < j < |log| ==> more[j] == log[j];
    }
  }

  /** The reply flag of a member says whether it sent a report since the last reset. */
  lemma {:induction false} RepliedMeaning(log: seq<Step>, m: Member)
    ensures StandingAfter(log, m).Here? ==> (StandingAfter(log, m).state.replied <==> ReportedSinceReset(log, m))
  {
    if log != [] {
      var before := log[..|log| - 1];
      RepliedMeaning(before, m);
      ReportedMore(before, log[|log| - 1], m);
      assert log == before + [log[|log| - 1]];
    }
  }

  lemma LeftMore(log: seq<Step>, step: Step, m: Member)
    ensures LeftSinceEntered(log + [step], m) <==>
            && StandingAfter(log + [step], m).Here?
            && (LeftSinceEntered(log, m) || (step == Left(m) && StandingAfter(log, m).Here?))
  {
    var more := log + [step];
    assert more[..|more|] == more && more[..|log|] == log;
    assert forall j :: 0 <= j <= |log| ==> more[..j] == log[..j];
    if StandingAfter(more, m).Here? && LeftSinceEntered(log, m) {
      var i :| 0 <= i < |log| && LeftAt(log, m, i);
      assert LeftAt(more, m, i);
    }
    if StandingAfter(more, m).Here? && step == Left(m) && StandingAfter(log, m).Here? {
      assert LeftAt(more, m, |log|);
    }
    if LeftSinceEntered(more, m) {
      var i :| 0 <= i < |more| && LeftAt(more, m, i);
      assert StandingAfter(more[..|more|], m).Here? && StandingAfter(more[..|log|], m).Here?;
      if i < |log| {
        assert LeftAt(log, m, i) by {
          forall j | i <= j <= |log|
            ensures StandingAfter(log[..j], m).Here?
          {
            assert StandingAfter(more[..j], m).Here?;
          }
        }
      }
    }
  }

  /** The leave flag of a member says whether it sent a leave since it was entered; reports do not clear it. */
  lemma {:induction false} LeaveMeaning(log: seq<Step>, m: Member)
    ensures StandingAfter(log, m).Here? ==> (StandingAfter(log, m).state.leave <==> LeftSinceEntered(log, m))
    ensures LeftSinceEntered(log, m) ==> StandingAfter(log, m).Here?
  {
    if log == [] {
      assert !LeftSinceEntered(log, m);
    } else {
      var before := log[..|log| - 1];
      LeaveMeaning(before, m);
      LeftMore(before, log[|log| - 1], m);
      assert log == before + [log[|log| - 1]];
    }
  }

  /** A leave cannot be taken back: report, leave, report, and when the timer fires the member is gone. */
  lemma ReportDoesNotSave(m: Member)
    ensures var log := [Reported(m), Left(m), Reported(m)];
            StandingAfter(log, m) == Here(PortState(true, true)) && StandingAfter(log + [LeaveTimer(m)], m) == Absent
  {
    StandingMore([], Reported(m));
    StandingMore([Reported(m)], Left(m));
    StandingMore([Reported(m), Left(m)], Reported(m));
    StandingMore([Reported(m), Left(m), Reported(m)], LeaveTimer(m));
    assert [] + [Reported(m)] == [Reported(m)];
    assert [Reported(m)] + [Left(m)] == [Reported(m), Left(m)];
    assert [Reported(m), Left(m)] + [Reported(m)] == [Reported(m), Left(m), Reported(m)];
  }
}

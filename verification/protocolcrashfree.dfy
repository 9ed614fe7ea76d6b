/** Runs in which every started process runs to its end: node IDs then strictly increase. */
module ProtocolCrashFree {
  import opened Wrappers
  import opened Storage
  import opened Protocol
  import opened ProtocolProofs

  ghost predicate GentleNext(s: State, s': State) {
    exists a :: Enabled(s, a) && !a.Die? && !a.PowerLoss? && s' == After(s, a)
  }

  ghost predicate IsGentleRun(run: seq<State>) {
    run != [] && Init(run[0]) && forall i :: 0 <= i < |run| - 1 ==> GentleNext(run[i], run[i + 1])
  }

  /** Between certifying a device and having advanced the next node ID. */
  predicate MidCommission(pc: Pc)
    decreases pc
  {
    match pc
    case Certified(_) => true
    case Recording(_) => true
    case Finishing => true
    case Writing(_, _, _, next) => MidCommission(next)
    case _ => false
  }

  predicate FinishedBefore(log: seq<Entry>, n: int) {
    forall i :: 0 <= i < n && i < |log| ==> log[i].status.Finished?
  }

  /** All commissionings but the one in progress are finished. */
  predicate Tidy(log: seq<Entry>, pc: Pc) {
    FinishedBefore(log, |log| - 1) && (!MidCommission(pc) ==> FinishedBefore(log, |log|))
  }

  lemma {:induction false} WorkKeepsTidy(w: World, c: Choice)
    requires CanWork(w, c) && Tidy(w.log, w.pc)
    ensures Tidy(Work(w, c).log, Work(w, c).pc)
  {
    hide Seen;
    if w.pc.Recording? {
      var next := Work(w, c).pc;
      assert MidCommission(next.next.next);
      assert MidCommission(next.next);
    }
  }

  lemma {:induction false} GentleKeepsTidy(s: State, s': State)
    requires Inv(s) && GentleNext(s, s') && Tidy(s.log, Holder(s).pc)
    ensures Tidy(s'.log, Holder(s').pc)
  {
    hide WorldOk, Work, CanWork, Seen;
    var a :| Enabled(s, a) && !a.Die? && !a.PowerLoss? && s' == After(s, a);
    if a.Step? {
      assert s.lock == Some(a.p) && Holder(s) == World(s.disk, s.log, ProcOf(s, a.p));
      WorkKeepsTidy(Holder(s), a.choice);
      var w' := Work(Holder(s), a.choice);
      assert s'.log == w'.log;
      if Critical(w'.pc) { assert Holder(s').pc == w'.pc; } else { assert !MidCommission(w'.pc); }
    } else if Holder(s').pc != Holder(s).pc {
      assert !MidCommission(Holder(s).pc);
    }
  }

  lemma {:induction false} GentleIsRun(run: seq<State>)
    requires IsGentleRun(run)
    ensures IsRun(run)
  {
    hide Enabled, After, Init;
    forall i | 0 <= i < |run| - 1 ensures Next(run[i], run[i + 1]) {
      assert GentleNext(run[i], run[i + 1]);
    }
  }

  lemma {:induction false} GentleRunTidy(run: seq<State>, i: nat)
    requires IsGentleRun(run) && i < |run|
    ensures Tidy(run[i].log, Holder(run[i]).pc)
  {
    hide GentleNext, Inv, IsRun, Holder, Next;
    if i > 0 {
      GentleRunTidy(run, i - 1);
      GentleIsRun(run);
      RunInv(run, i - 1);
      GentleKeepsTidy(run[i - 1], run[i]);
    }
  }

  /** Without crashes or failing commands, node IDs strictly increase from one commissioning to the
      next, whatever was synced or decommissioned in between and whatever became of the registry. */
  lemma {:induction false} CrashFreeIdsIncrease(run: seq<State>, i: nat, a: nat, b: nat)
    requires IsGentleRun(run) && i < |run| && a < b < |run[i].log|
    ensures run[i].log[a].node < run[i].log[b].node
  {
    hide IsGentleRun, IsRun;
    GentleRunTidy(run, i);
    GentleIsRun(run);
    NodeIdsNeverReused(run, i, a, b);
  }
}

/**
 The refcounted panic-hook guard (`SilencePanicHook` of rust/src/pipeline.rs) as sequentially
 consistent steps of any number of threads.

 `install` is an increment and, for the thread that found the count at zero, three more steps:
 take the current hook, save it, set the silent one. `drop` is a decrement and, for the thread
 that brought the count to zero, two more: take the saved hook under the lock, and set it.
 */
module PanicHook {
  import opened Wrappers

  /** `DefaultHook` is what `take_hook` leaves behind; `Original` is the program's own hook. */
  datatype Hook = Original | DefaultHook | Silent

  type Thread = nat

  datatype Pc =
    | Idle                    // no guard held
    | Taking                  // counted, first: about to take the current hook
    | Saving(prev: Hook)      // about to save it, which needs the lock
    | Silencing               // about to set the silent hook
    | Active                  // guard held
    | Unsaving                // uncounted, last: about to take the saved hook
    | Restoring(prev: Hook)   // holding the lock: about to set it again

  datatype State = State(depth: int, saved: Option<Hook>, hook: Hook, pcs: map<Thread, Pc>)

  function At(s: State, t: Thread): Pc {
    if t in s.pcs then s.pcs[t] else Idle
  }

  function Goto(s: State, t: Thread, pc: Pc): State {
    s.(pcs := s.pcs[t := pc])
  }

  const START := State(0, None, Original, map[])

  ghost predicate Locked(s: State) {
    exists t :: At(s, t).Restoring?
  }

  /** One step of thread `t`. From `Idle` it installs a guard, from `Active` it drops it. */
  function Advance(s: State, t: Thread): State {
    match At(s, t)
    case Idle => Goto(s.(depth := s.depth + 1), t, if s.depth == 0 then Taking else Active)
    case Taking => Goto(s.(hook := DefaultHook), t, Saving(s.hook))
    case Saving(prev) => Goto(s.(saved := Some(prev)), t, Silencing)
    case Silencing => Goto(s.(hook := Silent), t, Active)
    case Active => Goto(s.(depth := s.depth - 1), t, if s.depth == 1 then Unsaving else Idle)
    case Unsaving => if s.saved.None? then Goto(s, t, Idle) else Goto(s.(saved := None), t, Restoring(s.saved.value))
    case Restoring(prev) => Goto(s.(hook := prev), t, Idle)
  }

  /** Saving and unsaving wait for the lock, which a restoring thread holds. */
  ghost predicate Enabled(s: State, t: Thread) {
    (At(s, t).Saving? || At(s, t).Unsaving?) ==> !Locked(s)
  }

  function RunOf(ts: seq<Thread>): State {
    if ts == [] then START else Advance(RunOf(ts[..|ts| - 1]), ts[|ts| - 1])
  }

  ghost predicate Schedule(ts: seq<Thread>) {
    ts == [] || (Schedule(ts[..|ts| - 1]) && Enabled(RunOf(ts[..|ts| - 1]), ts[|ts| - 1]))
  }

  /** No install or drop is under way. */
  ghost predicate Quiescent(s: State) {
    forall t :: At(s, t).Idle? || At(s, t).Active?
  }

  ghost predicate RestorePending(s: State) {
    exists t :: At(s, t).Unsaving? || At(s, t).Restoring?
  }

  /** Thread `t` is about to take a hook that a last drop has yet to put back. */
  ghost predicate TakesEarly(s: State, t: Thread) {
    At(s, t).Taking? && RestorePending(s)
  }

  ghost predicate NoEarlyTake(ts: seq<Thread>) {
    ts == [] || (NoEarlyTake(ts[..|ts| - 1]) && !TakesEarly(RunOf(ts[..|ts| - 1]), ts[|ts| - 1]))
  }

  // ---------------------------------------------------------------------------
  // The count is the number of guards being installed or held
  // ---------------------------------------------------------------------------

  predicate Counts(pc: Pc) {
    pc.Taking? || pc.Saving? || pc.Silencing? || pc.Active?
  }

  predicate Installing(pc: Pc) {
    pc.Taking? || pc.Saving? || pc.Silencing?
  }

  predicate Putting(pc: Pc) {
    pc.Unsaving? || pc.Restoring?
  }

  ghost function Counted(s: State): set<Thread> {
    set t | t in s.pcs && Counts(s.pcs[t])
  }

  /** The count is right, and at most one thread found it at zero and is still installing. */
  ghost predicate Shape(s: State) {
    && s.depth == |Counted(s)|
    && forall t, u :: Installing(At(s, t)) && Installing(At(s, u)) ==> t == u
  }

  lemma CountedAfter(s: State, t: Thread, pc: Pc)
    ensures |Counted(Goto(s, t, pc))| ==
            |Counted(s)| + (if Counts(pc) then 1 else 0) - (if Counts(At(s, t)) then 1 else 0)
  {
    var before, after := Counted(s), Counted(Goto(s, t, pc));
    assert t in before <==> Counts(At(s, t));
    assert t in after <==> Counts(pc);
    assert after - {t} == before - {t};
    assert |before| == |before - {t}| + if t in before then 1 else 0;
    assert |after| == |after - {t}| + if t in after then 1 else 0;
  }

  lemma FewCounted(s: State, t: Thread)
    ensures |Counted(s)| == 0 ==> forall u :: !Counts(At(s, u))
    ensures |Counted(s)| == 1 && Counts(At(s, t)) ==> forall u :: Counts(At(s, u)) ==> u == t
  {
    var all := Counted(s);
    assert forall u :: Counts(At(s, u)) <==> u in all;
    if |all| == 1 && t in all {
      assert |all - {t}| == 0;
      forall u | u in all ensures u == t {
        assert u != t ==> u in all - {t};
      }
    }
  }

  /** Advancing changes one thread's place and the shared variables. */
  lemma OthersStay(s: State, t: Thread)
    ensures forall u | u != t :: At(Advance(s, t), u) == At(s, u)
    ensures |Counted(Advance(s, t))| == |Counted(s)| + (if Counts(At(Advance(s, t), t)) then 1 else 0)
                                                     - (if Counts(At(s, t)) then 1 else 0)
  {
    var pc := At(Advance(s, t), t);
    CountedAfter(s, t, pc);
    assert Counted(Advance(s, t)) == Counted(Goto(s, t, pc));
  }

  lemma ShapeKept(s: State, t: Thread)
    requires Shape(s)
    ensures Shape(Advance(s, t))
  {
    OthersStay(s, t);
    FewCounted(s, t);
    assert forall u :: Installing(At(s, u)) ==> Counts(At(s, u));
  }

  // ---------------------------------------------------------------------------
  // Without an early take the original hook comes back
  // ---------------------------------------------------------------------------

  ghost predicate InstallPending(s: State) {
    exists t :: Installing(At(s, t))
  }

  /** What each place in the code may rely on as long as no hook was taken early. */
  ghost predicate Good(s: State) {
    && Shape(s)
    && (forall t, u :: Putting(At(s, t)) && Putting(At(s, u)) ==> t == u)
    && (forall t | At(s, t).Saving? :: At(s, t).prev == Original && s.saved == None && !RestorePending(s))
    && (forall t | At(s, t).Silencing? :: s.saved == Some(Original) && !RestorePending(s))
    && (forall t | At(s, t).Unsaving? :: s.saved == Some(Original) && s.hook == Silent)
    && (forall t | At(s, t).Restoring? :: At(s, t).prev == Original && s.saved == None && s.hook == Silent)
    && (RestorePending(s) && !InstallPending(s) ==> s.depth == 0)
    && (forall t | At(s, t).Taking? && !RestorePending(s) :: s.hook == Original && s.saved == None)
    && (!RestorePending(s) && !InstallPending(s) ==>
          if s.depth == 0 then s.hook == Original && s.saved == None
          else s.hook == Silent && s.saved == Some(Original))
  }

  lemma InstallKeepsGood(s: State, t: Thread)
    requires Good(s) && Enabled(s, t) && !TakesEarly(s, t)
    requires At(s, t).Idle? || Installing(At(s, t))
    ensures Good(Advance(s, t))
  {
    var s' := Advance(s, t);
    ShapeKept(s, t);
    OthersStay(s, t);
    FewCounted(s, t);
    assert forall u :: Installing(At(s, u)) ==> Counts(At(s, u));
    assert forall u :: Putting(At(s', u)) <==> Putting(At(s, u));
    assert forall u | u != t :: Installing(At(s', u)) <==> Installing(At(s, u));
    if At(s, t).Idle? && s.depth == 0 {
      assert Installing(At(s', t));
    }
  }

  lemma DropKeepsGood(s: State, t: Thread)
    requires Good(s) && Enabled(s, t)
    requires At(s, t).Active? || Putting(At(s, t))
    ensures Good(Advance(s, t))
  {
    var s' := Advance(s, t);
    ShapeKept(s, t);
    OthersStay(s, t);
    FewCounted(s, t);
    assert forall u :: Installing(At(s, u)) ==> Counts(At(s, u));
    assert forall u | u != t :: Putting(At(s', u)) <==> Putting(At(s, u));
    assert forall u :: Installing(At(s', u)) <==> Installing(At(s, u));
  }

  lemma GoodKept(s: State, t: Thread)
    requires Good(s) && Enabled(s, t) && !TakesEarly(s, t)
    ensures Good(Advance(s, t))
  {
    if At(s, t).Idle? || Installing(At(s, t)) {
      InstallKeepsGood(s, t);
    } else {
      DropKeepsGood(s, t);
    }
  }

  // ---------------------------------------------------------------------------
  // After an early take it never does
  // ---------------------------------------------------------------------------

  /** The original hook is nowhere it could be restored from without being overwritten. */
  ghost predicate Lost(s: State) {
    && Shape(s)
    && (forall t | At(s, t).Saving? :: At(s, t).prev == Silent)
    && (forall t | At(s, t).Restoring? ::
          At(s, t).prev == Silent || (At(s, t).prev == Original && exists u :: At(s, u).Saving?))
    && (s.saved == None || s.saved == Some(Silent)
        || (s.saved == Some(Original) && exists u :: At(s, u).Saving?))
    && (s.hook == Silent || exists u :: At(s, u).Saving? || At(s, u).Silencing?)
  }

  lemma EarlyTakeLoses(s: State, t: Thread)
    requires Good(s) && TakesEarly(s, t)
    ensures Lost(Advance(s, t))
  {
    var s' := Advance(s, t);
    ShapeKept(s, t);
    OthersStay(s, t);
    assert At(s', t).Saving?;
    var p :| At(s, p).Unsaving? || At(s, p).Restoring?;
    assert forall u | u != t :: !Installing(At(s, u));
    forall u | At(s', u).Saving? ensures At(s', u).prev == Silent {
      assert u == t;
    }
  }

  lemma LostKept(s: State, t: Thread)
    requires Lost(s) && Enabled(s, t)
    ensures Lost(Advance(s, t))
  {
    var s' := Advance(s, t);
    ShapeKept(s, t);
    OthersStay(s, t);
    if u :| u != t && At(s, u).Saving? {
      assert At(s', u).Saving?;
    }
    if u :| u != t && At(s, u).Silencing? {
      assert At(s', u).Silencing?;
    }
    assert At(s, t).Taking? ==> At(s', t).Saving?;
    assert At(s, t).Saving? ==> At(s', t).Silencing?;
    assert At(s, t).Saving? ==> forall u :: !At(s, u).Restoring?;
  }

  // ---------------------------------------------------------------------------
  // The protocol, over every schedule of any number of threads
  // ---------------------------------------------------------------------------

  lemma {:induction false} GoodOrLost(ts: seq<Thread>)
    requires Schedule(ts)
    ensures NoEarlyTake(ts) ==> Good(RunOf(ts))
    ensures !NoEarlyTake(ts) ==> Lost(RunOf(ts))
  {
    if ts == [] {
      assert Counted(START) == {};
      assert forall t :: At(START, t) == Idle;
    } else {
      var init, t := ts[..|ts| - 1], ts[|ts| - 1];
      GoodOrLost(init);
      if NoEarlyTake(ts) {
        GoodKept(RunOf(init), t);
      } else if NoEarlyTake(init) {
        EarlyTakeLoses(RunOf(init), t);
      } else {
        LostKept(RunOf(init), t);
      }
    }
  }

  /**
   Whenever no install or drop is under way: with guards held the hook is the silent one; with
   none held the original hook is back, and nothing is left saved, exactly when no thread ever took
   the current hook while a last drop still had one to put back. After one such take the process
   stays silenced.
   */
  lemma OriginalRestoredIff(ts: seq<Thread>)
    requires Schedule(ts) && Quiescent(RunOf(ts))
    ensures var s := RunOf(ts);
            && (s.depth > 0 ==> s.hook == Silent)
            && (s.depth == 0 ==> (s.hook == Original <==> NoEarlyTake(ts)))
            && (NoEarlyTake(ts) ==> s.saved == if s.depth == 0 then None else Some(Original))
            && (!NoEarlyTake(ts) ==> s.hook == Silent)
  {
    GoodOrLost(ts);
    var s := RunOf(ts);
    assert !RestorePending(s) && !InstallPending(s);
    assert s.depth >= 0;
  }

  /** No increment falls between a last drop's decrement and its restore. */
  ghost predicate NoInstallDuringRestore(ts: seq<Thread>) {
    if ts == [] then true
    else
      var init, t := ts[..|ts| - 1], ts[|ts| - 1];
      NoInstallDuringRestore(init) && (At(RunOf(init), t).Idle? ==> !RestorePending(RunOf(init)))
  }

  lemma QuietStep(s: State, t: Thread)
    requires Good(s) && (RestorePending(s) ==> !InstallPending(s))
    requires At(s, t).Idle? ==> !RestorePending(s)
    ensures !TakesEarly(s, t)
    ensures RestorePending(Advance(s, t)) ==> !InstallPending(Advance(s, t))
  {
    var s' := Advance(s, t);
    assert At(s, t).Taking? ==> Installing(At(s, t));
    OthersStay(s, t);
    FewCounted(s, t);
    assert forall u | u != t :: Putting(At(s', u)) <==> Putting(At(s, u));
    assert forall u | u != t :: Installing(At(s', u)) <==> Installing(At(s, u));
    assert forall u :: Installing(At(s, u)) ==> Counts(At(s, u));
  }

  /** Keeping increments out of that window is enough; it is not necessary, only the take matters. */
  lemma {:induction false} QuietWindowSuffices(ts: seq<Thread>)
    requires Schedule(ts) && NoInstallDuringRestore(ts)
    ensures NoEarlyTake(ts)
    ensures RestorePending(RunOf(ts)) ==> !InstallPending(RunOf(ts))
  {
    if ts != [] {
      var init := ts[..|ts| - 1];
      QuietWindowSuffices(init);
      GoodOrLost(init);
      QuietStep(RunOf(init), ts[|ts| - 1]);
    }
  }

  lemma OneMore(ts: seq<Thread>, t: Thread)
    ensures RunOf(ts + [t]) == Advance(RunOf(ts), t)
    ensures Schedule(ts + [t]) <==> Schedule(ts) && Enabled(RunOf(ts), t)
    ensures NoEarlyTake(ts + [t]) <==> NoEarlyTake(ts) && !TakesEarly(RunOf(ts), t)
  {
    assert (ts + [t])[..|ts|] == ts;
  }

  lemma Reaches(ts: seq<Thread>, t: Thread, s: State) returns (next: seq<Thread>)
    requires Schedule(ts)
    requires At(RunOf(ts), t).Restoring? || forall u :: !At(RunOf(ts), u).Restoring?
    requires Advance(RunOf(ts), t) == s
    ensures next == ts + [t] && Schedule(next) && RunOf(next) == s && (NoEarlyTake(next) ==> NoEarlyTake(ts))
  {
    OneMore(ts, t);
    next := ts + [t];
  }

  lemma OneInstalls() returns (ts: seq<Thread>)
    ensures Schedule(ts) && |ts| == 4 && RunOf(ts) == State(1, Some(Original), Silent, map[0 := Active])
  {
    ts := Reaches([], 0, State(1, None, Original, map[0 := Taking]));
    ts := Reaches(ts, 0, State(1, None, DefaultHook, map[0 := Saving(Original)]));
    ts := Reaches(ts, 0, State(1, Some(Original), DefaultHook, map[0 := Silencing]));
    ts := Reaches(ts, 0, State(1, Some(Original), Silent, map[0 := Active]));
  }

  /** Thread 1 installs between thread 0's decrement and restore, and takes the silent hook. */
  lemma AnEarlyTakeCanHappen() returns (ts: seq<Thread>)
    ensures Schedule(ts) && !NoEarlyTake(ts) && |ts| == 7
    ensures RunOf(ts) == State(1, Some(Original), DefaultHook, map[0 := Unsaving, 1 := Saving(Silent)])
  {
    ts := OneInstalls();
    ts := Reaches(ts, 0, State(0, Some(Original), Silent, map[0 := Unsaving]));
    ts := Reaches(ts, 1, State(1, Some(Original), Silent, map[0 := Unsaving, 1 := Taking]));
    assert At(RunOf(ts), 0).Unsaving?;
    OneMore(ts, 1);
    ts := ts + [1];
  }

  lemma TheSilentHookIsSaved() returns (ts: seq<Thread>)
    ensures Schedule(ts) && |ts| == 11
    ensures RunOf(ts) == State(1, Some(Silent), Silent, map[0 := Idle, 1 := Active])
  {
    ts := AnEarlyTakeCanHappen();
    ts := Reaches(ts, 0, State(1, None, DefaultHook, map[0 := Restoring(Original), 1 := Saving(Silent)]));
    ts := Reaches(ts, 0, State(1, None, Original, map[0 := Idle, 1 := Saving(Silent)]));
    ts := Reaches(ts, 1, State(1, Some(Silent), Original, map[0 := Idle, 1 := Silencing]));
    ts := Reaches(ts, 1, State(1, Some(Silent), Silent, map[0 := Idle, 1 := Active]));
  }

  /** Both threads then finish: no guard is held, nothing is saved, and the hook is the silent one for good. */
  lemma TheOriginalCanBeLost() returns (ts: seq<Thread>)
    ensures Schedule(ts) && Quiescent(RunOf(ts)) && |ts| == 14
    ensures RunOf(ts).depth == 0 && RunOf(ts).saved == None && RunOf(ts).hook == Silent
  {
    ts := TheSilentHookIsSaved();
    ts := Reaches(ts, 1, State(0, Some(Silent), Silent, map[0 := Idle, 1 := Unsaving]));
    ts := Reaches(ts, 1, State(0, None, Silent, map[0 := Idle, 1 := Restoring(Silent)]));
    ts := Reaches(ts, 1, State(0, None, Silent, map[0 := Idle, 1 := Idle]));
  }
}

/**
 * The life of one event posted to several event loops.  The poster, the loops and whoever evicts
 * the event from a queue run concurrently; every step below is one atomic action of one of them.
 */
module EventRefs {

  /** What a loop still has to do with the event. */
  datatype LoopState =
    | Unposted    // the poster has not reached this loop
    | Failing     // the queue refused the event; its reference is not dropped yet
    | Queued
    | Taken       // popped for distribution, drained at stop, or evicted
    | Done

  /** Where freeing stands once the last reference is gone. */
  datatype Stage =
    | Alive
    | Freeing                     // the loop that dropped the last reference runs `freeEvent`
    | Deferring                   // it took a reference to hand the event to the sender's loop
    | Waiting                     // the callback is queued at the sender's loop
    | FreeingAtSender
    | Deallocated

  datatype State = State(
    loops: seq<LoopState>, next: nat, posted: bool, finished: bool, refCount: int, stage: Stage,
    // History
    deallocations: nat, touchedDead: bool, underflow: bool, outrun: bool, early: bool, refused: bool)

  datatype Step =
    | PostOk                      // the loop at `next` queues the event
    | PostRefused                 // or refuses it, and
    | DropReference               // the poster drops that loop's reference
    | FinishPosting               // frees the event itself if no loop took it
    | Take(i: nat)
    | Release(i: nat)             // `decrementRefCount` in `freeEvent`
    | Deallocate
    | Defer                       // `incrementRefCount` before deferring to the sender's loop
    | DeferRefused                // that loop is not running
    | DeferQueued
    | ReleaseAtSender

  function Init(n: nat): State {
    State(seq(n, _ => Unposted), 0, false, false, n, Alive, 0, false, false, false, false, false)
  }

  predicate Enabled(s: State, step: Step) {
    match step
    case PostOk => s.next < |s.loops| && s.loops[s.next] == Unposted
    case PostRefused => s.next < |s.loops| && s.loops[s.next] == Unposted
    case DropReference => s.next < |s.loops| && s.loops[s.next] == Failing
    case FinishPosting => s.next == |s.loops| && !s.finished
    case Take(i) => i < |s.loops| && s.loops[i] == Queued
    case Release(i) => i < |s.loops| && s.loops[i] == Taken
    case Deallocate => s.stage == Freeing || s.stage == FreeingAtSender
    case Defer => s.stage == Freeing
    case DeferRefused => s.stage == Deferring
    case DeferQueued => s.stage == Deferring
    case ReleaseAtSender => s.stage == Waiting
  }

  /** Every step but `FinishPosting` of an event some loop took reads or writes the event. */
  predicate Touches(s: State, step: Step) { step != FinishPosting || !s.posted }

  function Touch(s: State, step: Step): State {
    if Touches(s, step) && s.deallocations > 0 then s.(touchedDead := true) else s
  }

  function Decrement(s: State): State {
    s.(refCount := s.refCount - 1, underflow := s.underflow || s.refCount <= 0)
  }

  /** The last loop has refused the event, and all the loops that took it, of which there are some, are done with it. */
  predicate Outruns(s: State)
    requires s.next < |s.loops|
  {
    s.posted && s.next + 1 == |s.loops| && forall i :: 0 <= i < s.next ==> s.loops[i] == Done
  }

  function Next(s: State, step: Step): State
    requires Enabled(s, step)
  {
    var t := Touch(s, step);
    match step
    case PostOk => t.(loops := s.loops[s.next := Queued], next := s.next + 1, posted := true)
    case PostRefused => t.(loops := s.loops[s.next := Failing], refused := true)
    case DropReference =>
      Decrement(t).(loops := s.loops[s.next := Done], next := s.next + 1,
                    outrun := s.outrun || Outruns(s))
    case FinishPosting =>
      if s.posted then t.(finished := true)
      else t.(finished := true, stage := Deallocated, deallocations := s.deallocations + 1)
    case Take(i) => t.(loops := s.loops[i := Taken])
    case Release(i) =>
      Decrement(t).(loops := s.loops[i := Done], early := s.early || s.next < |s.loops|,
                    stage := if s.refCount == 1 then Freeing else s.stage)
    case Deallocate => t.(stage := Deallocated, deallocations := s.deallocations + 1)
    case Defer => t.(stage := Deferring, refCount := s.refCount + 1)
    case DeferRefused => t.(stage := Deallocated, deallocations := s.deallocations + 1)
    case DeferQueued => t.(stage := Waiting)
    case ReleaseAtSender => Decrement(t).(stage := if s.refCount == 1 then FreeingAtSender else s.stage)
  }

  predicate RunEnabled(s: State, steps: seq<Step>)
    decreases |steps|
  {
    steps == [] || (Enabled(s, steps[0]) && RunEnabled(Next(s, steps[0]), steps[1..]))
  }

  function Run(s: State, steps: seq<Step>): State
    requires RunEnabled(s, steps)
    decreases |steps|
  {
    if steps == [] then s else Run(Next(s, steps[0]), steps[1..])
  }

  // ----------------------------------------------------------------------------------------
  // Counting references

  /** Loops that still own a reference. */
  function Owners(loops: seq<LoopState>): nat {
    if loops == [] then 0
    else Owners(loops[..|loops| - 1]) + (if loops[|loops| - 1] == Done then 0 else 1)
  }

  lemma {:induction false} OwnersUpdate(loops: seq<LoopState>, i: nat, l: LoopState)
    requires i < |loops|
    ensures Owners(loops[i := l])
         == Owners(loops) - (if loops[i] == Done then 0 else 1) + (if l == Done then 0 else 1)
    decreases |loops|
  {
    var n := |loops| - 1;
    var front := loops[..n];
    if i < n {
      OwnersUpdate(front, i, l);
      assert loops[i := l][..n] == front[i := l];
    } else {
      assert loops[i := l][..n] == front;
    }
  }

  lemma {:induction false} OwnersAll(loops: seq<LoopState>)
    ensures (forall i :: 0 <= i < |loops| ==> loops[i] != Done) ==> Owners(loops) == |loops|
    ensures Owners(loops) <= |loops|
    ensures Owners(loops) == 0 <==> forall i :: 0 <= i < |loops| ==> loops[i] == Done
  {
    if loops != [] {
      OwnersAll(loops[..|loops| - 1]);
      assert forall i :: 0 <= i < |loops| - 1 ==> loops[..|loops| - 1][i] == loops[i];
    }
  }

  // ----------------------------------------------------------------------------------------
  // The invariant

  /** The reference count is the number of owners, plus the sender's while the event is with it. */
  ghost predicate Inv(s: State) {
    && s.next <= |s.loops|
    && (forall i :: s.next < i < |s.loops| ==> s.loops[i] == Unposted)
    && (s.next < |s.loops| ==> s.loops[s.next] == Unposted || s.loops[s.next] == Failing)
    && (forall i :: 0 <= i < s.next ==> s.loops[i] != Unposted && s.loops[i] != Failing)
    && (s.finished ==> s.next == |s.loops|)
    && (!s.posted ==> forall i :: 0 <= i < s.next ==> s.loops[i] == Done)
    && 0 <= s.refCount <= |s.loops| + 1
    && (s.stage != Deallocated ==>
          s.refCount == Owners(s.loops) + (if s.stage == Deferring || s.stage == Waiting then 1 else 0))
    && (s.stage != Alive ==> Owners(s.loops) == 0)
    && (s.stage != Alive ==> s.posted || (s.finished && s.stage == Deallocated))
    && s.deallocations == (if s.stage == Deallocated then 1 else 0)
    && !s.touchedDead && !s.underflow
    && (s.outrun ==> s.posted && s.stage == Alive && Owners(s.loops) == 0)
    && (Owners(s.loops) == 0 && s.stage == Alive && !s.outrun ==> !s.posted && !s.finished)
    && (s.outrun ==> s.early && s.refused)
    && (s.next < |s.loops| && s.loops[s.next] == Failing ==> s.refused)
    && (!s.posted ==> !s.early)
    && (!s.early && s.posted ==> s.next == |s.loops| || Held(s))
  }

  /** Some loop that took the event has not released it. */
  ghost predicate Held(s: State)
    requires s.next <= |s.loops|
  {
    exists i :: 0 <= i < s.next && s.loops[i] != Done
  }

  lemma InitInv(n: nat)
    ensures Inv(Init(n)) && !Init(n).refused && !Init(n).early && !Init(n).finished && Init(n).refCount == n
  {
    OwnersAll(Init(n).loops);
  }

  lemma InvStep(s: State, step: Step)
    requires Inv(s) && Enabled(s, step)
    ensures Inv(Next(s, step))
  {
    hide Inv, Enabled, Next;
    match step
    case PostOk => PosterStep(s, step);
    case PostRefused => PosterStep(s, step);
    case DropReference => PosterStep(s, step);
    case FinishPosting => FinishStep(s);
    case Take(i) => LoopStep(s, step, i);
    case Release(i) => LoopStep(s, step, i);
    case _ => FreeStep(s, step);
  }

  lemma HeldAfter(s: State, t: State, i: nat)
    requires s.next <= |s.loops| && s.next <= t.next <= |t.loops| && Held(s) && i < |s.loops| == |t.loops|
    requires t.loops == s.loops[i := t.loops[i]] && (i < s.next ==> t.loops[i] != Done)
    ensures Held(t)
  {
    var k :| 0 <= k < s.next && s.loops[k] != Done;
    assert t.loops[k] != Done;
  }

  lemma PosterStep(s: State, step: Step)
    requires Inv(s) && Enabled(s, step) && step in {PostOk, PostRefused, DropReference}
    ensures Inv(Next(s, step))
  {
    hide Owners, Held;
    var t := Next(s, step);
    OwnersUpdate(s.loops, s.next, t.loops[s.next]);
    OwnersAll(s.loops);
    OwnersAll(t.loops);
    if Held(s) {
      HeldAfter(s, t, s.next);
    }
    HeldOrNot(s, t);
    assert s.loops[s.next] != Done;
    assert s.next + 1 < |s.loops| ==> t.loops[s.next + 1] == Unposted;
    assert forall i :: 0 <= i < s.next ==> t.loops[i] == s.loops[i];
  }

  lemma HeldOrNot(s: State, t: State)
    requires s.next < |s.loops| == |t.loops| && t.next <= |t.loops|
    ensures Outruns(s) ==> !Held(s)
    ensures s.next < t.next && t.loops[s.next] != Done ==> Held(t)
  {}

  lemma FinishStep(s: State)
    requires Inv(s) && Enabled(s, FinishPosting)
    ensures Inv(Next(s, FinishPosting))
  {
    hide Owners, Held;
    OwnersAll(s.loops);
  }

  lemma LoopStep(s: State, step: Step, i: nat)
    requires Inv(s) && Enabled(s, step) && step in {Take(i), Release(i)}
    ensures Inv(Next(s, step))
  {
    hide Owners, Held;
    var t := Next(s, step);
    OwnersUpdate(s.loops, i, t.loops[i]);
    OwnersAll(s.loops);
    OwnersAll(t.loops);
    if Held(s) && step == Take(i) {
      HeldAfter(s, t, i);
    }
  }

  lemma FreeStep(s: State, step: Step)
    requires Inv(s) && Enabled(s, step) && step in {Deallocate, Defer, DeferRefused, DeferQueued, ReleaseAtSender}
    ensures Inv(Next(s, step))
  {
    hide Owners;
    var t := Next(s, step);
    assert Held(s) ==> Held(t);
    OwnersAll(s.loops);
  }

  // ----------------------------------------------------------------------------------------
  // Every run

  lemma {:induction false} InvRun(s: State, steps: seq<Step>)
    requires Inv(s) && RunEnabled(s, steps)
    ensures Inv(Run(s, steps))
    decreases |steps|
  {
    hide Inv, Enabled, Next;
    if steps != [] {
      InvStep(s, steps[0]);
      InvRun(Next(s, steps[0]), steps[1..]);
    }
  }

  /** On no interleaving is the event freed twice, used after it was freed, or its count driven below zero. */
  lemma NeverFreedTwiceNorTouchedAfter(n: nat, steps: seq<Step>)
    requires RunEnabled(Init(n), steps)
    ensures var s := Run(Init(n), steps);
      s.deallocations <= 1 && !s.touchedDead && !s.underflow && 0 <= s.refCount <= n + 1
  {
    InitInv(n);
    InvRun(Init(n), steps);
    SameLoops(Init(n), steps);
  }

  lemma {:induction false} SameLoops(s: State, steps: seq<Step>)
    requires RunEnabled(s, steps)
    ensures |Run(s, steps).loops| == |s.loops|
    decreases |steps|
  {
    if steps != [] {
      SameLoops(Next(s, steps[0]), steps[1..]);
    }
  }

  /** Posting is over and every loop is done with the event. */
  predicate Quiescent(s: State) {
    s.finished && (forall i :: 0 <= i < |s.loops| ==> s.loops[i] == Done)
    && (s.stage == Alive || s.stage == Deallocated)
  }

  /** When everything has drained the event was freed, exactly once, unless the last loop refused it after the loops
    that took it were through with it: then it was never freed. */
  lemma FreedExactlyOnce(n: nat, steps: seq<Step>)
    requires RunEnabled(Init(n), steps) && Quiescent(Run(Init(n), steps))
    ensures var s := Run(Init(n), steps);
      (s.deallocations == 1 <==> !s.outrun) && (s.outrun ==> s.deallocations == 0)
  {
    InitInv(n);
    InvRun(Init(n), steps);
    OwnersAll(Run(Init(n), steps).loops);
  }

  /** So it is freed when no loop releases it before the poster is through, and when every loop takes it. */
  lemma FreedWhenPostedFirst(n: nat, steps: seq<Step>)
    requires RunEnabled(Init(n), steps) && Quiescent(Run(Init(n), steps))
    requires var s := Run(Init(n), steps); !s.early || !s.refused
    ensures Run(Init(n), steps).deallocations == 1
  {
    FreedExactlyOnce(n, steps);
    InitInv(n);
    InvRun(Init(n), steps);
  }

  function LoopWork(l: LoopState): nat {
    match l case Unposted => 3 case Failing => 2 case Queued => 2 case Taken => 1 case Done => 0
  }

  function LoopsWork(loops: seq<LoopState>): nat {
    if loops == [] then 0 else LoopsWork(loops[..|loops| - 1]) + LoopWork(loops[|loops| - 1])
  }

  function StageWork(stage: Stage): nat {
    match stage
    case Alive => 5
    case Freeing => 4
    case Deferring => 3
    case Waiting => 2
    case FreeingAtSender => 1
    case Deallocated => 0
  }

  /** How many more steps there can be. */
  function Work(s: State): nat {
    LoopsWork(s.loops) + StageWork(s.stage) + (if s.finished then 0 else 1)
  }

  lemma {:induction false} LoopsWorkUpdate(loops: seq<LoopState>, i: nat, l: LoopState)
    requires i < |loops|
    ensures LoopsWork(loops[i := l]) == LoopsWork(loops) - LoopWork(loops[i]) + LoopWork(l)
    decreases |loops|
  {
    var n := |loops| - 1;
    if i < n {
      LoopsWorkUpdate(loops[..n], i, l);
      assert loops[i := l][..n] == loops[..n][i := l];
    } else {
      assert loops[i := l][..n] == loops[..n];
    }
  }

  lemma StepWorks(s: State, step: Step)
    requires Inv(s) && Enabled(s, step)
    ensures Work(Next(s, step)) < Work(s)
  {
    hide LoopsWork, Owners, Held;
    var t := Next(s, step);
    match step
    case PostOk => LoopsWorkUpdate(s.loops, s.next, Queued);
    case PostRefused => LoopsWorkUpdate(s.loops, s.next, Failing);
    case DropReference => LoopsWorkUpdate(s.loops, s.next, Done);
    case FinishPosting =>
    case Take(i) => LoopsWorkUpdate(s.loops, i, Taken);
    case Release(i) =>
      LoopsWorkUpdate(s.loops, i, Done);
      OwnersAll(s.loops);
    case _ =>
  }

  /** No run goes on for ever, and one that cannot go on has drained: with `FreedExactlyOnce`, every run that is left to
    finish frees the event or ends as in `Outruns`. */
  lemma {:induction false} RunsDrain(n: nat, steps: seq<Step>)
    requires RunEnabled(Init(n), steps)
    ensures |steps| <= Work(Init(n))
    ensures (forall step :: !Enabled(Run(Init(n), steps), step)) ==> Quiescent(Run(Init(n), steps))
  {
    InitInv(n);
    InvRun(Init(n), steps);
    RunWorks(Init(n), steps);
    StuckIsQuiescent(Run(Init(n), steps));
  }

  lemma {:induction false} RunWorks(s: State, steps: seq<Step>)
    requires Inv(s) && RunEnabled(s, steps)
    ensures |steps| + Work(Run(s, steps)) <= Work(s)
    decreases |steps|
  {
    hide Inv, Enabled, Next, Work;
    if steps != [] {
      InvStep(s, steps[0]);
      StepWorks(s, steps[0]);
      RunWorks(Next(s, steps[0]), steps[1..]);
    }
  }

  lemma StuckIsQuiescent(s: State)
    requires Inv(s)
    ensures (forall step :: !Enabled(s, step)) ==> Quiescent(s)
  {
    hide Owners, Held;
    if forall step :: !Enabled(s, step) {
      assert !Enabled(s, PostOk) && !Enabled(s, DropReference) && !Enabled(s, FinishPosting);
      assert !Enabled(s, Deallocate) && !Enabled(s, DeferQueued) && !Enabled(s, ReleaseAtSender);
      forall i | 0 <= i < |s.loops|
        ensures s.loops[i] == Done
      {
        assert !Enabled(s, Take(i)) && !Enabled(s, Release(i));
      }
    }
  }

  /** The event that is never freed: the first of two loops has handled it by the time the second refuses it. */
  lemma LeakExample()
    ensures var steps := [PostOk, Take(0), Release(0), PostRefused, DropReference, FinishPosting];
      RunEnabled(Init(2), steps)
      && Quiescent(Run(Init(2), steps))
      && Run(Init(2), steps).deallocations == 0
  {
    var s0 := Init(2);
    var s1 := Next(s0, PostOk);
    var s2 := Next(s1, Take(0));
    var s3 := Next(s2, Release(0));
    var s4 := Next(s3, PostRefused);
    var s5 := Next(s4, DropReference);
    var s6 := Next(s5, FinishPosting);
    RunStep(s5, FinishPosting, []);
    RunStep(s4, DropReference, [FinishPosting]);
    RunStep(s3, PostRefused, [DropReference, FinishPosting]);
    RunStep(s2, Release(0), [PostRefused, DropReference, FinishPosting]);
    RunStep(s1, Take(0), [Release(0), PostRefused, DropReference, FinishPosting]);
    RunStep(s0, PostOk, [Take(0), Release(0), PostRefused, DropReference, FinishPosting]);
  }

  lemma RunStep(s: State, step: Step, rest: seq<Step>)
    requires Enabled(s, step) && RunEnabled(Next(s, step), rest)
    ensures RunEnabled(s, [step] + rest)
    ensures Run(s, [step] + rest) == Run(Next(s, step), rest)
  {
    assert ([step] + rest)[1..] == rest;
  }
}

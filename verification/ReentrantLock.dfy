/** The reentrant layer over the local reader/writer lock, for one lock path.

    Each thread keeps, for the path, how many exclusive and shared acquisitions it is
    inside of. Only the outermost acquisition touches the local lock and the file lock;
    the file lock is an arbitrary source of grants and refusals: a timed attempt can run out
    of time, and any attempt can fail.
    Acquisitions nest: a thread releases its latest acquisition first. */
module ReentrantLock {
  import opened LocalLock

  /** Where a thread is with respect to its outermost acquisition. */
  datatype Stage =
    | Outside
    | Acquiring(exclusive: bool, timed: bool)
    | Inside
    | Leaving(writing: bool)

  /** `frames` lists the acquisitions a thread is inside of, outermost first; true is exclusive. */
  datatype State = State(
    local: Lock,
    stages: map<Thread, Stage>,
    frames: map<Thread, seq<bool>>,
    held: map<Thread, (int, int)>)

  const START := State(LocalLock.INITIAL, map[], map[], map[])

  datatype Step =
    | Begin(t: Thread, exclusive: bool, timed: bool, expired: bool)
    | Retry(t: Thread, expired: bool)
    | WaitExpires(t: Thread)
    | FileGranted(t: Thread)
    | FileRefused(t: Thread)
    | Nested(t: Thread, exclusive: bool)
    | Exit(t: Thread)
    | ReleaseLocal(t: Thread)

  function StageOf(s: State, t: Thread): Stage {
    if t in s.stages then s.stages[t] else Outside
  }

  function FramesOf(s: State, t: Thread): seq<bool> {
    if t in s.frames then s.frames[t] else []
  }

  function HeldOf(s: State, t: Thread): (int, int) {
    if t in s.held then s.held[t] else (0, 0)
  }

  /** Whether the current thread holds the lock exclusively, as the table says. */
  predicate ExclusiveHeld(s: State, t: Thread) {
    HeldOf(s, t).0 > 0
  }

  function Section(t: Thread, exclusive: bool, timed: bool, expired: bool): Event {
    if timed then TimedSection(t, expired) else if exclusive then WriteSection(t) else ReadSection(t)
  }

  predicate Granted(p: Phase) {
    p == Reading || p == Writing
  }

  /** The steps a thread can take. A nested acquisition asks nothing of the local lock. */
  predicate CanStep(s: State, e: Step) {
    var p := PhaseOf(s.local.threads, e.t);
    match e
    case Begin(t, exclusive, timed, _) => StageOf(s, t) == Outside && p == Idle && (timed ==> exclusive)
    case Retry(t, _) => StageOf(s, t).Acquiring? && p in {WokenRead, WokenWrite, WokenTimed}
    case WaitExpires(t) => StageOf(s, t).Acquiring? && p == SleepTimed
    case FileGranted(t) => StageOf(s, t).Acquiring? && Granted(p)
    case FileRefused(t) => StageOf(s, t).Acquiring? && Granted(p)
    case Nested(t, _) => StageOf(s, t) == Inside
    case Exit(t) => StageOf(s, t) == Inside && FramesOf(s, t) != []
    case ReleaseLocal(t) => StageOf(s, t).Leaving? && p == if StageOf(s, t).writing then Writing else Reading
  }

  function Settle(s: State, t: Thread, local: Lock, stage: Stage): State {
    s.(local := local, stages := s.stages[t := if PhaseOf(local.threads, t) == Idle then Outside else stage])
  }

  function After(s: State, e: Step): State
    requires CanStep(s, e)
  {
    match e
    case Begin(t, exclusive, timed, expired) =>
      var local := LocalLock.Next(s.local, Section(t, exclusive, timed, expired));
      Settle(s, t, local, Acquiring(exclusive, timed))
    case Retry(t, expired) =>
      var local := LocalLock.Next(s.local, match PhaseOf(s.local.threads, t)
                                           case WokenRead => ReadSection(t)
                                           case WokenWrite => WriteSection(t)
                                           case _ => TimedSection(t, expired));
      Settle(s, t, local, StageOf(s, t))
    case WaitExpires(t) => s.(local := LocalLock.Next(s.local, Timeout(t)))
    case FileGranted(t) =>
      var exclusive := StageOf(s, t).exclusive;
      s.(stages := s.stages[t := Inside], frames := s.frames[t := [exclusive]],
         held := s.held[t := if exclusive then (1, 0) else (0, 1)])
    case FileRefused(t) => s.(stages := s.stages[t := Leaving(StageOf(s, t).exclusive)])
    case Nested(t, exclusive) =>
      var (ex, sh) := HeldOf(s, t);
      if exclusive && ex == 0 then s
      else s.(frames := s.frames[t := FramesOf(s, t) + [exclusive]],
              held := s.held[t := (ex + if exclusive then 1 else 0, sh + if exclusive then 0 else 1)])
    case Exit(t) =>
      var fs := FramesOf(s, t);
      if |fs| == 1 then
        s.(stages := s.stages[t := Leaving(fs[0])], frames := s.frames - {t}, held := s.held - {t})
      else
        var (ex, sh) := HeldOf(s, t);
        var last := fs[|fs| - 1];
        var next := (ex - if last then 1 else 0, sh - if last then 0 else 1);
        s.(frames := s.frames[t := fs[..|fs| - 1]], held := if next == (0, 0) then s.held - {t} else s.held[t := next])
    case ReleaseLocal(t) =>
      var local := LocalLock.Next(s.local, if StageOf(s, t).writing then WriteExit(t) else ReadExit(t));
      s.(local := local, stages := s.stages[t := Outside])
  }

  // ----------------------------------------------------------------- invariant

  function Depth(frames: seq<bool>, exclusive: bool): nat {
    if frames == [] then 0
    else Depth(frames[..|frames| - 1], exclusive) + if frames[|frames| - 1] == exclusive then 1 else 0
  }

  /** A thread's stage agrees with its phase in the local lock and with its table entry. */
  ghost predicate ThreadInvariant(s: State, t: Thread) {
    var p := PhaseOf(s.local.threads, t);
    var fs := FramesOf(s, t);
    match StageOf(s, t)
    case Outside => p == Idle && t !in s.held && fs == []
    case Acquiring(exclusive, timed) =>
      && t !in s.held && fs == [] && (timed ==> exclusive)
      && p in (if timed then {SleepTimed, WokenTimed, Writing}
               else if exclusive then {SleepWrite, WokenWrite, Writing}
               else {SleepRead, WokenRead, Reading})
    case Inside =>
      && fs != [] && t in s.held
      && p == (if fs[0] then Writing else Reading)
      && s.held[t] == (Depth(fs, true), Depth(fs, false))
      && (!fs[0] ==> Depth(fs, true) == 0)
    case Leaving(writing) => t !in s.held && fs == [] && p == (if writing then Writing else Reading)
  }

  ghost predicate StateInvariant(s: State) {
    LocalLock.Invariant(s.local) && forall t :: ThreadInvariant(s, t)
  }

  lemma StartInvariant()
    ensures StateInvariant(START)
  {
    InitialInvariant();
  }

  lemma {:induction false} DepthPositive(fs: seq<bool>)
    requires fs != []
    ensures Depth(fs, fs[0]) >= 1
  {
    if |fs| > 1 {
      DepthPositive(fs[..|fs| - 1]);
    } else {
      assert fs[..0] == [];
    }
  }

  /** A section of one thread leaves every other thread's phase alone or wakes it. */
  lemma OtherPhases(s: Lock, e: Event, u: Thread)
    requires Enabled(s, e) && u != e.t
    ensures PhaseOf(Next(s, e).threads, u) in {PhaseOf(s.threads, u), Woken(PhaseOf(s.threads, u))}
  {
    NotifyPhases(s.threads[e.t := Idle]);
  }

  lemma ActorPhase(s: Lock, e: Event)
    requires Enabled(s, e)
    ensures PhaseOf(Next(s, e).threads, e.t)
            in match e
               case ReadSection(_) => {SleepRead, Reading}
               case WriteSection(_) => {SleepWrite, Writing}
               case TimedSection(_, _) => {SleepTimed, Writing, Idle}
               case Timeout(_) => {WokenTimed}
               case ReadExit(_) => {Idle}
               case WriteExit(_) => {Idle}
  {
    NotifyPhases(s.threads[e.t := Idle]);
  }

  /** The local event of a step, when it has one. */
  function LocalEvents(s: State, e: Step): seq<Event>
    requires CanStep(s, e)
  {
    match e
    case Begin(t, exclusive, timed, expired) => [Section(t, exclusive, timed, expired)]
    case Retry(t, expired) =>
      [match PhaseOf(s.local.threads, t)
       case WokenRead => ReadSection(t)
       case WokenWrite => WriteSection(t)
       case _ => TimedSection(t, expired)]
    case WaitExpires(t) => [Timeout(t)]
    case ReleaseLocal(t) => [if StageOf(s, t).writing then WriteExit(t) else ReadExit(t)]
    case _ => []
  }

  lemma LocalPart(s: State, e: Step)
    requires CanStep(s, e)
    ensures LocalEvents(s, e) == [] ==> After(s, e).local == s.local
    ensures LocalEvents(s, e) != [] ==> var l := LocalEvents(s, e)[0];
              l.t == e.t && Enabled(s.local, l) && After(s, e).local == Next(s.local, l)
  {
  }

  lemma OtherThreadsKeep(s: State, e: Step, u: Thread)
    requires StateInvariant(s) && CanStep(s, e) && u != e.t
    ensures ThreadInvariant(After(s, e), u)
  {
    var s' := After(s, e);
    LocalPart(s, e);
    if LocalEvents(s, e) != [] {
      OtherPhases(s.local, LocalEvents(s, e)[0], u);
    }
    assert ThreadInvariant(s, u);
    assert StageOf(s', u) == StageOf(s, u) && FramesOf(s', u) == FramesOf(s, u);
    assert (u in s'.held <==> u in s.held) && HeldOf(s', u) == HeldOf(s, u);
  }

  lemma ActorEvent(s: State, e: Step)
    requires ThreadInvariant(s, e.t) && CanStep(s, e) && LocalEvents(s, e) != []
    ensures ThreadInvariant(After(s, e), e.t)
  {
    LocalPart(s, e);
    ActorPhase(s.local, LocalEvents(s, e)[0]);
  }

  lemma ActorNests(s: State, e: Step)
    requires ThreadInvariant(s, e.t) && CanStep(s, e) && (e.Nested? || e.Exit?)
    ensures ThreadInvariant(After(s, e), e.t)
  {
    var fs := FramesOf(s, e.t);
    if e.Nested? {
      assert (fs + [e.exclusive])[..|fs|] == fs;
      DepthPositive(fs);
    } else if |fs| > 1 {
      DepthPositive(fs[..|fs| - 1]);
    }
  }

  lemma ActorKeeps(s: State, e: Step)
    requires ThreadInvariant(s, e.t) && CanStep(s, e)
    ensures ThreadInvariant(After(s, e), e.t)
  {
    if LocalEvents(s, e) != [] {
      ActorEvent(s, e);
    } else if e.Nested? || e.Exit? {
      ActorNests(s, e);
    } else if e.FileGranted? {
      assert [StageOf(s, e.t).exclusive][..0] == [];
    }
  }

  lemma AfterKeepsInvariant(s: State, e: Step)
    requires StateInvariant(s) && CanStep(s, e)
    ensures StateInvariant(After(s, e))
  {
    LocalPart(s, e);
    if LocalEvents(s, e) != [] {
      NextKeepsInvariant(s.local, LocalEvents(s, e)[0]);
    }
    forall t ensures ThreadInvariant(After(s, e), t) {
      if t == e.t {
        assert ThreadInvariant(s, e.t);
        ActorKeeps(s, e);
      } else {
        OtherThreadsKeep(s, e, t);
      }
    }
  }

  // --------------------------------------------------------------------- runs

  ghost predicate IsRun(states: seq<State>, steps: seq<Step>) {
    && |states| == |steps| + 1 && states[0] == START
    && forall i :: 0 <= i < |steps| ==> CanStep(states[i], steps[i]) && states[i + 1] == After(states[i], steps[i])
  }

  lemma {:induction false} RunInvariant(states: seq<State>, steps: seq<Step>, i: nat)
    requires IsRun(states, steps) && i < |states|
    ensures StateInvariant(states[i])
  {
    if i == 0 {
      StartInvariant();
    } else {
      RunInvariant(states, steps, i - 1);
      AfterKeepsInvariant(states[i - 1], steps[i - 1]);
    }
  }

  /** The table says exclusive exactly for a thread that is inside as the local writer,
      and then no other thread is inside in either mode. */
  lemma ExclusiveMeansAlone(states: seq<State>, steps: seq<Step>, i: nat, t: Thread, u: Thread)
    requires IsRun(states, steps) && i < |states|
    ensures ExclusiveHeld(states[i], t) <==> StageOf(states[i], t) == Inside && PhaseOf(states[i].local.threads, t) == Writing
    ensures ExclusiveHeld(states[i], t) && u != t ==> StageOf(states[i], u) != Inside && HeldOf(states[i], u) == (0, 0)
  {
    var s := states[i];
    RunInvariant(states, steps, i);
    assert ThreadInvariant(s, t) && ThreadInvariant(s, u);
    if StageOf(s, t) == Inside {
      DepthPositive(FramesOf(s, t));
    }
    HolderCounts(s.local, t);
    HolderCounts(s.local, u);
    var writers := InPhase(s.local.threads, {Writing});
    if PhaseOf(s.local.threads, t) == Writing && u != t {
      assert t in writers && |writers - {t}| == 0;
      assert u !in writers - {t};
    }
  }

  /** What a thread can do in a reachable state: outside it can begin any acquisition; under way
      it can try again once woken, its wait can run out if it is timed, and with the local lock it
      can get in or be refused; inside it can nest and leave; leaving it can release. Only a
      sleeping thread without a time limit has to wait for the others. */
  lemma StepsPossible(states: seq<State>, steps: seq<Step>, i: nat, t: Thread)
    requires IsRun(states, steps) && i < |states|
    ensures var s, p := states[i], PhaseOf(states[i].local.threads, t);
            match StageOf(s, t)
            case Outside => forall exclusive, timed, expired :: CanStep(s, Begin(t, exclusive, timed, expired)) <==> (timed ==> exclusive)
            case Acquiring(_, timed) =>
              && (forall expired :: CanStep(s, Retry(t, expired)) <==> p in {WokenRead, WokenWrite, WokenTimed})
              && (CanStep(s, WaitExpires(t)) <==> p == SleepTimed)
              && (CanStep(s, FileGranted(t)) <==> p in {Reading, Writing}) && (CanStep(s, FileRefused(t)) <==> p in {Reading, Writing})
              && p in {WokenRead, WokenWrite, WokenTimed, SleepTimed, Reading, Writing, SleepRead, SleepWrite}
            case Inside => CanStep(s, Exit(t)) && forall exclusive :: CanStep(s, Nested(t, exclusive))
            case Leaving(_) => CanStep(s, ReleaseLocal(t))
  {
    RunInvariant(states, steps, i);
    assert ThreadInvariant(states[i], t);
  }

  /** The step ends an acquisition of `t` that did not get in: its time is up while somebody is
      inside, or the file lock refuses. */
  ghost predicate GivesUp(s: State, e: Step, t: Thread) {
    match e
    case Retry(u, expired) => u == t && expired && StageOf(s, t).Acquiring? && StageOf(s, t).timed && !Free(s.local)
    case FileRefused(u) => u == t
    case _ => false
  }

  /** An acquisition stays one until it gets in or gives up. */
  lemma AcquiringStays(s: State, e: Step, t: Thread)
    requires StateInvariant(s) && CanStep(s, e) && StageOf(s, t).Acquiring? && StageOf(After(s, e), t) != StageOf(s, t)
    ensures e == FileGranted(t) || GivesUp(s, e, t)
    ensures e == FileGranted(t) ==> StageOf(After(s, e), t) == Inside && Granted(PhaseOf(s.local.threads, t))
    ensures e.FileRefused? ==> StageOf(After(s, e), t).Leaving? && Granted(PhaseOf(s.local.threads, t))
    ensures e.Retry? ==> StageOf(After(s, e), t) == Outside
  {
    assert ThreadInvariant(s, t);
    FlagsMeanThreads(s.local);
  }

  /** A first attempt is over at once exactly if it is timed, its time is up and somebody is
      inside. */
  lemma BeginEndsIff(states: seq<State>, steps: seq<Step>, i: nat)
    requires IsRun(states, steps) && i < |steps| && steps[i].Begin?
    ensures StageOf(states[i + 1], steps[i].t) == Outside <==> steps[i].timed && steps[i].expired && !Free(states[i].local)
  {
    RunInvariant(states, steps, i);
    FlagsMeanThreads(states[i].local);
    NotifyPhases(states[i].local.threads[steps[i].t := Idle]);
  }

  /** An acquisition under way that is over without having got in was ended by an expired
      attempt on a taken lock or by a refusal of the file lock. */
  lemma {:induction false} EndsByGivingUp(states: seq<State>, steps: seq<Step>, i: nat, j: nat, t: Thread)
    requires IsRun(states, steps) && i <= j < |states|
    requires StageOf(states[i], t).Acquiring? && !StageOf(states[j], t).Acquiring?
    requires forall k :: i <= k <= j ==> StageOf(states[k], t) != Inside
    ensures exists k :: i <= k < j && StageOf(states[k], t) == StageOf(states[i], t) && GivesUp(states[k], steps[k], t)
    decreases j - i
  {
    RunInvariant(states, steps, i);
    if StageOf(states[i + 1], t) == StageOf(states[i], t) {
      EndsByGivingUp(states, steps, i + 1, j, t);
    } else {
      AcquiringStays(states[i], steps[i], t);
    }
  }

  /** A nested acquisition goes through at once or changes nothing at all: it is refused
      exactly when it would upgrade, and undone exactly by leaving it. */
  lemma NestedNeverBlocks(states: seq<State>, steps: seq<Step>, i: nat, t: Thread, exclusive: bool)
    requires IsRun(states, steps) && i < |states| && StageOf(states[i], t) == Inside
    ensures CanStep(states[i], Nested(t, exclusive))
    ensures var s := states[i]; var s' := After(s, Nested(t, exclusive));
            && s'.local == s.local
            && (s' == s <==> exclusive && !ExclusiveHeld(s, t))
            && (s' != s ==> CanStep(s', Exit(t)) && After(s', Exit(t)) == s)
  {
    var s := states[i];
    RunInvariant(states, steps, i);
    assert ThreadInvariant(s, t);
    var fs := FramesOf(s, t);
    var s' := After(s, Nested(t, exclusive));
    DepthPositive(fs);
    if exclusive ==> ExclusiveHeld(s, t) {
      assert (fs + [exclusive])[..|fs|] == fs;
      var back := After(s', Exit(t));
      assert back.frames == s.frames;
      assert back.held == s.held;
    }
  }

  /** Leaving the outermost acquisition clears the thread's entry, and its release of the
      local lock leaves nothing of it behind. */
  lemma OutermostExitFrees(states: seq<State>, steps: seq<Step>, i: nat, t: Thread)
    requires IsRun(states, steps) && i < |states|
    requires StageOf(states[i], t) == Inside && |FramesOf(states[i], t)| == 1
    ensures CanStep(states[i], Exit(t))
    ensures var left := After(states[i], Exit(t));
            && t !in left.held && CanStep(left, ReleaseLocal(t))
            && var free := After(left, ReleaseLocal(t));
               StageOf(free, t) == Outside && PhaseOf(free.local.threads, t) == Idle && t !in free.held && FramesOf(free, t) == []
  {
    RunInvariant(states, steps, i);
    assert ThreadInvariant(states[i], t);
    var left := After(states[i], Exit(t));
    AfterKeepsInvariant(states[i], Exit(t));
    AfterKeepsInvariant(left, ReleaseLocal(t));
    assert ThreadInvariant(After(left, ReleaseLocal(t)), t);
  }

  /** How one pass of an outermost acquisition ends. */
  datatype Outcome = Waiting | Entered | Refused

  /** The local lock keeps the thread waiting, or both locks let it in, or the file lock fails
      and the local one is given back. */
  ghost predicate Acquired(s: State, t: Thread, exclusive: bool, r: Outcome, after: State)
    requires CanStep(s, Begin(t, exclusive, false, false))
  {
    var begun := After(s, Begin(t, exclusive, false, false));
    match r
    case Waiting => !Granted(PhaseOf(begun.local.threads, t)) && after == begun
    case Entered => CanStep(begun, FileGranted(t)) && after == After(begun, FileGranted(t))
    case Refused =>
      && CanStep(begun, FileRefused(t)) && CanStep(After(begun, FileRefused(t)), ReleaseLocal(t))
      && after == After(After(begun, FileRefused(t)), ReleaseLocal(t))
  }

  // ---------------------------------------------------------- the lock object

  class KbLock {
    var held: map<Thread, (int, int)>
    const local: LocalRwLock
    ghost var stages: map<Thread, Stage>
    ghost var frames: map<Thread, seq<bool>>

    ghost function Abstract(): State
      reads this, local
    {
      State(local.State(), stages, frames, held)
    }

    constructor ()
      ensures Abstract() == START && fresh(local)
    {
      held, stages, frames := map[], map[], map[];
      local := new LocalRwLock();
    }

    /** The file lock is granted after the local one: the outermost acquisition is in. */
    method Enter(t: Thread, exclusive: bool)
      requires CanStep(Abstract(), FileGranted(t)) && StageOf(Abstract(), t).exclusive == exclusive
      modifies this
      ensures Abstract() == After(old(Abstract()), FileGranted(t))
    {
      held := held[t := if exclusive then (1, 0) else (0, 1)];
      frames := frames[t := [exclusive]];
      stages := stages[t := Inside];
    }

    /** An acquisition inside another one; an upgrade is refused. */
    method EnterNested(t: Thread, exclusive: bool) returns (ok: bool)
      requires CanStep(Abstract(), Nested(t, exclusive))
      modifies this
      ensures Abstract() == After(old(Abstract()), Nested(t, exclusive))
      ensures ok <==> (exclusive ==> old(HeldOf(Abstract(), t).0) != 0)
    {
      var (ex, sh) := if t in held then held[t] else (0, 0);
      ok := !(exclusive && ex == 0);
      if ok {
        frames := frames[t := FramesOf(Abstract(), t) + [exclusive]];
        held := held[t := (ex + if exclusive then 1 else 0, sh + if exclusive then 0 else 1)];
      }
    }

    /** Leaves an acquisition that lies inside another one. */
    method LeaveNested(t: Thread, exclusive: bool)
      requires CanStep(Abstract(), Exit(t)) && ThreadInvariant(Abstract(), t) && |FramesOf(Abstract(), t)| > 1
      requires exclusive == FramesOf(Abstract(), t)[|FramesOf(Abstract(), t)| - 1]
      modifies this
      ensures Abstract() == After(old(Abstract()), Exit(t))
    {
      ghost var fs := FramesOf(Abstract(), t);
      var (ex, sh) := held[t];
      var next := (ex - if exclusive then 1 else 0, sh - if exclusive then 0 else 1);
      frames := frames[t := fs[..|fs| - 1]];
      if next == (0, 0) {
        held := held - {t};
      } else {
        held := held[t := next];
      }
    }

    /** Leaves the outermost acquisition; the local lock is released afterwards. */
    method LeaveOutermost(t: Thread)
      requires CanStep(Abstract(), Exit(t)) && |FramesOf(Abstract(), t)| == 1
      modifies this
      ensures Abstract() == After(old(Abstract()), Exit(t))
    {
      stages := stages[t := Leaving(FramesOf(Abstract(), t)[0])];
      frames := frames - {t};
      held := held - {t};
    }

    /** One outermost acquisition through both layers: the local lock first and, if it lets the
        thread in, the file lock. When that fails the local lock is released again. */
    method Acquire(t: Thread, exclusive: bool, granted: bool) returns (r: Outcome)
      requires CanStep(Abstract(), Begin(t, exclusive, false, false))
      modifies this, local
      ensures Acquired(old(Abstract()), t, exclusive, r, Abstract())
      ensures r != Waiting ==> (r == Entered <==> granted)
    {
      ghost var begun := After(Abstract(), Begin(t, exclusive, false, false));
      var enters;
      if exclusive {
        enters := local.EnterWrite(t, true);
      } else {
        enters := local.EnterRead(t);
      }
      stages := stages[t := Acquiring(exclusive, false)];
      assert Abstract() == begun;
      if !enters {
        r := Waiting;
      } else if granted {
        Enter(t, exclusive);
        r := Entered;
      } else {
        stages := stages[t := Leaving(exclusive)];
        assert Abstract() == After(begun, FileRefused(t));
        if exclusive {
          local.LeaveWrite(t);
        } else {
          local.LeaveRead(t);
        }
        stages := stages[t := Outside];
        r := Refused;
      }
    }

    /** Leaves the outermost acquisition through both layers. */
    method Release(t: Thread, exclusive: bool)
      requires StateInvariant(Abstract()) && StageOf(Abstract(), t) == Inside && FramesOf(Abstract(), t) == [exclusive]
      modifies this, local
      ensures CanStep(old(Abstract()), Exit(t)) && CanStep(After(old(Abstract()), Exit(t)), ReleaseLocal(t))
      ensures Abstract() == After(After(old(Abstract()), Exit(t)), ReleaseLocal(t))
    {
      assert ThreadInvariant(Abstract(), t);
      LeaveOutermost(t);
      if exclusive {
        local.LeaveWrite(t);
      } else {
        local.LeaveRead(t);
      }
      stages := stages[t := Outside];
    }
  }

  /** Entering and leaving the local lock leaves its counters as they were. */
  lemma LocalBack(l: Lock, t: Thread, exclusive: bool)
    requires PhaseOf(l.threads, t) == Idle && Granted(PhaseOf(LocalLock.Next(l, Section(t, exclusive, false, false)).threads, t))
    ensures var in_ := LocalLock.Next(l, Section(t, exclusive, false, false));
            var exit := if exclusive then WriteExit(t) else ReadExit(t);
            && Enabled(in_, exit)
            && var out := LocalLock.Next(in_, exit);
               && out.readers == l.readers && out.writer == l.writer && out.waiting == l.waiting
  {
  }

  /** An acquisition that enters and its release leave the layers as they were, but for the
      wakeups. */
  lemma AcquireReleaseRestores(s: State, t: Thread, exclusive: bool)
    requires StateInvariant(s) && CanStep(s, Begin(t, exclusive, false, false))
    requires CanStep(After(s, Begin(t, exclusive, false, false)), FileGranted(t))
    ensures var inside := After(After(s, Begin(t, exclusive, false, false)), FileGranted(t));
            && CanStep(inside, Exit(t)) && CanStep(After(inside, Exit(t)), ReleaseLocal(t))
            && var free := After(After(inside, Exit(t)), ReleaseLocal(t));
               && free.local.readers == s.local.readers && free.local.writer == s.local.writer && free.local.waiting == s.local.waiting
               && free.held == s.held && forall u :: StageOf(free, u) == StageOf(s, u) && FramesOf(free, u) == FramesOf(s, u)
  {
    assert ThreadInvariant(s, t);
    LocalBack(s.local, t, exclusive);
  }

  /** So does an acquisition that the file lock refuses. */
  lemma RefusalRestores(s: State, t: Thread, exclusive: bool, after: State)
    requires StateInvariant(s) && CanStep(s, Begin(t, exclusive, false, false)) && Acquired(s, t, exclusive, Refused, after)
    ensures after.local.readers == s.local.readers && after.local.writer == s.local.writer && after.local.waiting == s.local.waiting
    ensures after.held == s.held && forall u :: StageOf(after, u) == StageOf(s, u) && FramesOf(after, u) == FramesOf(s, u)
  {
    assert ThreadInvariant(s, t);
    LocalBack(s.local, t, exclusive);
  }
}

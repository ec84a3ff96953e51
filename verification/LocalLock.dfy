/** The in-process reader/writer lock: a condition variable, a reader count, a writer
    flag and a count of waiting writers.

    Threads interleave at the critical sections of the condition's mutex: each event is
    one section, from taking the mutex to releasing it or going to sleep. A thread that
    sleeps leaves the wait set only by a notification or, for a timed writer, a timeout. */
module LocalLock {

  datatype Phase =
    | Idle
    | SleepRead | WokenRead | Reading
    | SleepWrite | WokenWrite
    | SleepTimed | WokenTimed
    | Writing

  type Thread = nat

  datatype Lock = Lock(readers: int, writer: bool, waiting: int, threads: map<Thread, Phase>)

  datatype Event =
    | ReadSection(t: Thread)
    | ReadExit(t: Thread)
    | WriteSection(t: Thread)
    | TimedSection(t: Thread, expired: bool)
    | Timeout(t: Thread)
    | WriteExit(t: Thread)

  const INITIAL := Lock(0, false, 0, map[])

  function PhaseOf(threads: map<Thread, Phase>, t: Thread): Phase {
    if t in threads then threads[t] else Idle
  }

  function Woken(p: Phase): Phase {
    match p
    case SleepRead => WokenRead
    case SleepWrite => WokenWrite
    case SleepTimed => WokenTimed
    case _ => p
  }

  function NotifyAll(threads: map<Thread, Phase>): map<Thread, Phase> {
    map t | t in threads :: Woken(threads[t])
  }

  predicate Enabled(s: Lock, e: Event) {
    match e
    case ReadSection(t) => PhaseOf(s.threads, t) in {Idle, WokenRead}
    case ReadExit(t) => PhaseOf(s.threads, t) == Reading
    case WriteSection(t) => PhaseOf(s.threads, t) in {Idle, WokenWrite}
    case TimedSection(t, _) => PhaseOf(s.threads, t) in {Idle, WokenTimed}
    case Timeout(t) => PhaseOf(s.threads, t) == SleepTimed
    case WriteExit(t) => PhaseOf(s.threads, t) == Writing
  }

  predicate Busy(s: Lock) {
    s.writer || s.readers != 0
  }

  /** The lock after one section. */
  function Next(s: Lock, e: Event): Lock
    requires Enabled(s, e)
  {
    match e
    case ReadSection(t) =>
      if s.writer || s.waiting != 0 then s.(threads := s.threads[t := SleepRead])
      else s.(readers := s.readers + 1, threads := s.threads[t := Reading])
    case ReadExit(t) =>
      var threads := s.threads[t := Idle];
      s.(readers := s.readers - 1, threads := if s.readers == 1 then NotifyAll(threads) else threads)
    case WriteSection(t) =>
      var waiting := s.waiting + if PhaseOf(s.threads, t) == Idle then 1 else 0;
      if Busy(s) then s.(waiting := waiting, threads := s.threads[t := SleepWrite])
      else s.(waiting := waiting - 1, writer := true, threads := s.threads[t := Writing])
    case TimedSection(t, expired) =>
      var waiting := s.waiting + if PhaseOf(s.threads, t) == Idle then 1 else 0;
      if !Busy(s) then s.(waiting := waiting - 1, writer := true, threads := s.threads[t := Writing])
      else if expired then s.(waiting := waiting - 1, threads := NotifyAll(s.threads[t := Idle]))
      else s.(waiting := waiting, threads := s.threads[t := SleepTimed])
    case Timeout(t) => s.(threads := s.threads[t := WokenTimed])
    case WriteExit(t) => s.(writer := false, threads := NotifyAll(s.threads[t := Idle]))
  }

  // ----------------------------------------------------------------- invariant

  const WRITER_WAITING := {SleepWrite, WokenWrite, SleepTimed, WokenTimed}

  function InPhase(threads: map<Thread, Phase>, phases: set<Phase>): set<Thread> {
    set t | t in threads && threads[t] in phases
  }

  /** The counters count threads, holders exclude each other, and every sleeping thread
      still has a reason to sleep. */
  ghost predicate Invariant(s: Lock) {
    && s.readers == |InPhase(s.threads, {Reading})|
    && s.waiting == |InPhase(s.threads, WRITER_WAITING)|
    && |InPhase(s.threads, {Writing})| == (if s.writer then 1 else 0)
    && !(s.writer && s.readers != 0)
    && (forall t :: PhaseOf(s.threads, t) == SleepRead ==> s.writer || s.waiting != 0)
    && (forall t :: PhaseOf(s.threads, t) in {SleepWrite, SleepTimed} ==> Busy(s))
  }

  lemma PhaseCount(threads: map<Thread, Phase>, t: Thread, q: Phase, phases: set<Phase>)
    requires Idle !in phases
    ensures |InPhase(threads[t := q], phases)|
         == |InPhase(threads, phases)| - (if PhaseOf(threads, t) in phases then 1 else 0) + (if q in phases then 1 else 0)
  {
    var before, after := InPhase(threads, phases), InPhase(threads[t := q], phases);
    assert after - {t} == before - {t};
    assert |before| == |before - {t}| + if t in before then 1 else 0;
    assert |after| == |after - {t}| + if t in after then 1 else 0;
  }

  lemma NotifyCount(threads: map<Thread, Phase>, phases: set<Phase>)
    requires forall p: Phase :: Woken(p) in phases <==> p in phases
    ensures InPhase(NotifyAll(threads), phases) == InPhase(threads, phases)
  {
  }

  lemma NotifyPhases(threads: map<Thread, Phase>)
    ensures forall t :: PhaseOf(NotifyAll(threads), t) == Woken(PhaseOf(threads, t))
    ensures InPhase(NotifyAll(threads), {Reading}) == InPhase(threads, {Reading})
    ensures InPhase(NotifyAll(threads), {Writing}) == InPhase(threads, {Writing})
    ensures InPhase(NotifyAll(threads), WRITER_WAITING) == InPhase(threads, WRITER_WAITING)
  {
    NotifyCount(threads, {Reading});
    NotifyCount(threads, {Writing});
    NotifyCount(threads, WRITER_WAITING);
  }

  lemma InitialInvariant()
    ensures Invariant(INITIAL)
  {
    assert forall phases :: InPhase(INITIAL.threads, phases) == {};
  }

  function Actor(e: Event): Thread {
    e.t
  }

  lemma NextThreads(s: Lock, e: Event)
    requires Enabled(s, e)
    ensures var moved := s.threads[Actor(e) := PhaseOf(Next(s, e).threads, Actor(e))];
            Next(s, e).threads == moved || Next(s, e).threads == NotifyAll(moved)
  {
  }

  lemma CountsKeep(s: Lock, e: Event)
    requires Invariant(s) && Enabled(s, e)
    ensures var s' := Next(s, e);
            && s'.readers == |InPhase(s'.threads, {Reading})|
            && s'.waiting == |InPhase(s'.threads, WRITER_WAITING)|
            && |InPhase(s'.threads, {Writing})| == (if s'.writer then 1 else 0)
            && !(s'.writer && s'.readers != 0)
  {
    var s' := Next(s, e);
    var t := Actor(e);
    var q := PhaseOf(s'.threads, t);
    PhaseCount(s.threads, t, q, {Reading});
    PhaseCount(s.threads, t, q, {Writing});
    PhaseCount(s.threads, t, q, WRITER_WAITING);
    NotifyPhases(s.threads[t := q]);
    NextThreads(s, e);
    HolderCounts(s, t);
  }

  /** No section breaks the invariant; in particular none takes away a sleeper's reason
      to sleep without waking it. */
  lemma NextKeepsInvariant(s: Lock, e: Event)
    requires Invariant(s) && Enabled(s, e)
    ensures Invariant(Next(s, e))
  {
    var t := Actor(e);
    var moved := s.threads[t := PhaseOf(Next(s, e).threads, t)];
    CountsKeep(s, e);
    HolderCounts(s, t);
    NotifyPhases(moved);
    NextThreads(s, e);
    assert forall u :: u != t ==> PhaseOf(moved, u) == PhaseOf(s.threads, u);
  }

  lemma HolderCounts(s: Lock, t: Thread)
    requires Invariant(s)
    ensures PhaseOf(s.threads, t) == Reading ==> s.readers >= 1
    ensures PhaseOf(s.threads, t) == Writing ==> s.writer
    ensures PhaseOf(s.threads, t) in WRITER_WAITING ==> s.waiting >= 1
  {
    assert PhaseOf(s.threads, t) == Reading ==> t in InPhase(s.threads, {Reading});
    assert PhaseOf(s.threads, t) == Writing ==> t in InPhase(s.threads, {Writing});
    assert PhaseOf(s.threads, t) in WRITER_WAITING ==> t in InPhase(s.threads, WRITER_WAITING);
  }

  // --------------------------------------------------------------------- runs

  ghost predicate IsRun(states: seq<Lock>, events: seq<Event>) {
    && |states| == |events| + 1 && states[0] == INITIAL
    && forall i :: 0 <= i < |events| ==> Enabled(states[i], events[i]) && states[i + 1] == Next(states[i], events[i])
  }

  lemma {:induction false} RunInvariant(states: seq<Lock>, events: seq<Event>, i: nat)
    requires IsRun(states, events) && i < |states|
    ensures Invariant(states[i])
  {
    if i == 0 {
      InitialInvariant();
    } else {
      RunInvariant(states, events, i - 1);
      NextKeepsInvariant(states[i - 1], events[i - 1]);
    }
  }

  /** A writer is alone: no reader and no second writer is inside with it. */
  lemma WriterAlone(states: seq<Lock>, events: seq<Event>, i: nat, t: Thread, u: Thread)
    requires IsRun(states, events) && i < |states|
    requires t != u && PhaseOf(states[i].threads, t) == Writing
    ensures PhaseOf(states[i].threads, u) !in {Reading, Writing}
  {
    var s := states[i];
    RunInvariant(states, events, i);
    HolderCounts(s, t);
    HolderCounts(s, u);
    var writers := InPhase(s.threads, {Writing});
    assert t in writers && |writers - {t}| == 0;
    assert u !in writers - {t};
  }

  // ------------------------------------------------------------------ progress

  predicate Wants(p: Phase) {
    p in {SleepRead, WokenRead} + WRITER_WAITING
  }

  /** The section with which a woken thread tries again. */
  function RetryOf(p: Phase, t: Thread): Event {
    if p == WokenRead then ReadSection(t) else if p == WokenWrite then WriteSection(t) else TimedSection(t, true)
  }

  /** No wakeup is lost: in every reachable state in which nobody holds the lock and some
      thread wants it, a thread that is awake can take it at once. */
  lemma SomeoneCanEnter(states: seq<Lock>, events: seq<Event>, i: nat, wanting: Thread) returns (t: Thread)
    requires IsRun(states, events) && i < |states|
    requires !Busy(states[i]) && Wants(PhaseOf(states[i].threads, wanting))
    ensures var p := PhaseOf(states[i].threads, t); var e := RetryOf(p, t);
            && p in {WokenRead, WokenWrite, WokenTimed}
            && Enabled(states[i], e) && PhaseOf(Next(states[i], e).threads, t) in {Reading, Writing}
  {
    var s := states[i];
    RunInvariant(states, events, i);
    if s.waiting != 0 {
      assert InPhase(s.threads, WRITER_WAITING) != {};
      t :| t in InPhase(s.threads, WRITER_WAITING);
      assert PhaseOf(s.threads, t) in WRITER_WAITING;
    } else {
      HolderCounts(s, wanting);
      t := wanting;
    }
  }

  /** Writers come first: a thread that starts reading does so while no writer waits. */
  lemma ReadersYieldToWriters(states: seq<Lock>, events: seq<Event>, i: nat, t: Thread, w: Thread)
    requires IsRun(states, events) && i < |events|
    requires PhaseOf(states[i].threads, t) != Reading && PhaseOf(states[i + 1].threads, t) == Reading
    ensures PhaseOf(states[i].threads, w) !in WRITER_WAITING + {Writing}
  {
    var s := states[i];
    RunInvariant(states, events, i);
    HolderCounts(s, w);
    NotifyPhases(s.threads[Actor(events[i]) := Idle]);
  }

  // ------------------------------------------------------- who enters, who waits

  /** No thread is inside, as reader or as writer. */
  ghost predicate Free(s: Lock) {
    forall u :: PhaseOf(s.threads, u) !in {Reading, Writing}
  }

  ghost predicate WriterWaits(s: Lock) {
    exists u :: PhaseOf(s.threads, u) in WRITER_WAITING
  }

  ghost predicate WriterInside(s: Lock) {
    exists u :: PhaseOf(s.threads, u) == Writing
  }

  lemma FlagsMeanThreads(s: Lock)
    requires Invariant(s)
    ensures Busy(s) <==> !Free(s)
    ensures s.writer <==> WriterInside(s)
    ensures s.waiting != 0 <==> WriterWaits(s)
  {
    var readers, writers, waiting := InPhase(s.threads, {Reading}), InPhase(s.threads, {Writing}), InPhase(s.threads, WRITER_WAITING);
    forall u {
      HolderCounts(s, u);
    }
    if s.readers != 0 {
      var u :| u in readers;
      assert PhaseOf(s.threads, u) == Reading;
    }
    if s.writer {
      var u :| u in writers;
      assert PhaseOf(s.threads, u) == Writing;
    }
    if s.waiting != 0 {
      var u :| u in waiting;
      assert PhaseOf(s.threads, u) in WRITER_WAITING;
    }
  }

  /** Who enters and who waits, in every reachable state. A timed writer enters exactly if
      nobody is inside; otherwise it gives up exactly if its time is up, and sleeps as long as
      time remains. An untimed writer enters or sleeps. A reader enters exactly if no writer is
      inside or waits, and sleeps otherwise. */
  lemma SectionDecides(states: seq<Lock>, events: seq<Event>, i: nat)
    requires IsRun(states, events) && i < |events|
    ensures var s, p := states[i], PhaseOf(states[i + 1].threads, Actor(events[i]));
            match events[i]
            case TimedSection(_, expired) =>
              && (p == Writing <==> Free(s)) && (p == Idle <==> !Free(s) && expired) && (p == SleepTimed <==> !Free(s) && !expired)
            case WriteSection(_) => (p == Writing <==> Free(s)) && (p == SleepWrite <==> !Free(s))
            case ReadSection(_) =>
              && (p == Reading <==> !WriterInside(s) && !WriterWaits(s)) && (p == SleepRead <==> WriterInside(s) || WriterWaits(s))
            case Timeout(_) => p == WokenTimed
            case ReadExit(_) => p == Idle
            case WriteExit(_) => p == Idle
  {
    var s := states[i];
    RunInvariant(states, events, i);
    FlagsMeanThreads(s);
    NotifyPhases(s.threads[Actor(events[i]) := Idle]);
  }

  /** Every other thread stays where it is or wakes, and wakes only when the acting thread
      lets go: a writer's exit, the last reader's exit, or a timed writer that gives up. */
  lemma OthersWakeOnly(states: seq<Lock>, events: seq<Event>, i: nat, u: Thread)
    requires IsRun(states, events) && i < |events| && u != Actor(events[i])
    ensures var s, p, q := states[i], PhaseOf(states[i].threads, u), PhaseOf(states[i + 1].threads, u);
            var letsGo := match events[i]
              case WriteExit(_) => true
              case ReadExit(t) => forall v :: v != t ==> PhaseOf(s.threads, v) != Reading
              case TimedSection(_, expired) => expired && !Free(s)
              case _ => false;
            q == if letsGo then Woken(p) else p
  {
    var s, e := states[i], events[i];
    RunInvariant(states, events, i);
    FlagsMeanThreads(s);
    NotifyPhases(s.threads[Actor(e) := Idle]);
    if e.ReadExit? {
      LastReader(s, e.t);
    }
  }

  lemma LastReader(s: Lock, t: Thread)
    requires Invariant(s) && PhaseOf(s.threads, t) == Reading
    ensures s.readers == 1 <==> forall v :: v != t ==> PhaseOf(s.threads, v) != Reading
  {
    var readers := InPhase(s.threads, {Reading});
    assert t in readers && |readers - {t}| == |readers| - 1;
    if v :| v != t && PhaseOf(s.threads, v) == Reading {
      assert v in readers - {t};
    }
    if s.readers != 1 {
      var v :| v in readers - {t};
      assert PhaseOf(s.threads, v) == Reading;
    }
  }

  // ------------------------------------------------------------- the lock object

  class LocalRwLock {
    var readers: int
    var writer: bool
    var writersWaiting: int
    ghost var threads: map<Thread, Phase>

    ghost function State(): Lock
      reads this
    {
      Lock(readers, writer, writersWaiting, threads)
    }

    constructor ()
      ensures State() == INITIAL
    {
      readers, writer, writersWaiting, threads := 0, false, 0, map[];
    }

    /** One pass of the reader's loop: enter, or go (back) to sleep. */
    method EnterRead(t: Thread) returns (entered: bool)
      requires Enabled(State(), ReadSection(t))
      modifies this
      ensures State() == Next(old(State()), ReadSection(t))
      ensures entered <==> PhaseOf(threads, t) == Reading
      ensures entered <==> !old(writer) && old(writersWaiting) == 0
    {
      entered := !(writer || writersWaiting != 0);
      if entered {
        readers := readers + 1;
        threads := threads[t := Reading];
      } else {
        threads := threads[t := SleepRead];
      }
    }

    method LeaveRead(t: Thread)
      requires Enabled(State(), ReadExit(t))
      modifies this
      ensures State() == Next(old(State()), ReadExit(t))
    {
      readers := readers - 1;
      threads := threads[t := Idle];
      if readers == 0 {
        threads := NotifyAll(threads);
      }
    }

    /** One pass of the writer's loop; `first` on arrival, when it announces itself. */
    method EnterWrite(t: Thread, first: bool) returns (entered: bool)
      requires Enabled(State(), WriteSection(t)) && first == (PhaseOf(threads, t) == Idle)
      modifies this
      ensures State() == Next(old(State()), WriteSection(t))
      ensures entered <==> PhaseOf(threads, t) == Writing
      ensures entered <==> !old(Busy(State()))
    {
      if first {
        writersWaiting := writersWaiting + 1;
      }
      entered := !(writer || readers != 0);
      if entered {
        writer := true;
        writersWaiting := writersWaiting - 1;
        threads := threads[t := Writing];
      } else {
        threads := threads[t := SleepWrite];
      }
    }

    /** One pass of the timed writer's loop: a writer that gives up wakes the others,
        because readers may have been waiting for it. */
    method EnterTimed(t: Thread, first: bool, expired: bool) returns (entered: bool, gaveUp: bool)
      requires Enabled(State(), TimedSection(t, expired)) && first == (PhaseOf(threads, t) == Idle)
      modifies this
      ensures State() == Next(old(State()), TimedSection(t, expired))
      ensures entered <==> PhaseOf(threads, t) == Writing
      ensures gaveUp <==> PhaseOf(threads, t) == Idle
      ensures entered <==> !old(Busy(State()))
      ensures gaveUp <==> expired && old(Busy(State()))
    {
      if first {
        writersWaiting := writersWaiting + 1;
      }
      entered, gaveUp := !(writer || readers != 0), false;
      if entered {
        writer := true;
        writersWaiting := writersWaiting - 1;
        threads := threads[t := Writing];
      } else if expired {
        gaveUp := true;
        writersWaiting := writersWaiting - 1;
        threads := NotifyAll(threads[t := Idle]);
      } else {
        threads := threads[t := SleepTimed];
      }
    }

    method LeaveWrite(t: Thread)
      requires Enabled(State(), WriteExit(t))
      modifies this
      ensures State() == Next(old(State()), WriteExit(t))
    {
      writer := false;
      threads := NotifyAll(threads[t := Idle]);
    }
  }
}

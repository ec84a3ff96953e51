/** One background worker per knowledge base, with coalesced start requests.

    Three services run the same protocol with small differences: corpus synthesis,
    graph extraction and page-tree enrichment. Shared tables change only in sections
    under one mutex; between sections any number of workers, requests and transitions
    interleave. What a worker does with its gateway is arbitrary, including failing. */
module WorkerProtocol {
  import opened Values
  import opened Ordering

  type Kb = string
  type Gateway = nat

  datatype Kind = Corpus | Graph | PageTree

  // ------------------------------------------------------------ the shared tables

  datatype Table = Table(
    lease: nat,
    gateways: map<Kb, Gateway>,
    running: set<Kb>,
    reruns: set<Kb>,
    retries: set<Kb>)

  function Request(t: Table, kb: Kb, g: Gateway, retryFailed: bool): Table {
    var u := t.(gateways := t.gateways[kb := g], retries := if retryFailed then t.retries + {kb} else t.retries);
    if kb in t.running then u.(reruns := t.reruns + {kb}) else u.(running := t.running + {kb})
  }

  function Invalidated(kind: Kind, t: Table): Table {
    var u := t.(lease := t.lease + 1);
    if kind.Corpus? then u.(gateways := map[], reruns := {}) else u
  }

  function Retired(kind: Kind, t: Table, kb: Kb): Table {
    t.(gateways := t.gateways - {kb}, reruns := t.reruns - {kb},
       retries := if kind.PageTree? then t.retries - {kb} else t.retries)
  }

  function GatewayOf(t: Table, kb: Kb): Option<Gateway> {
    if kb in t.gateways then Some(t.gateways[kb]) else None
  }

  function ReadMarks(t: Table, kb: Kb): Table {
    t.(reruns := t.reruns - {kb})
  }

  function FlagTaken(t: Table, kb: Kb): Table {
    t.(retries := t.retries - {kb})
  }

  function Released(t: Table, kb: Kb): Table {
    if kb in t.reruns then t else t.(running := t.running - {kb}, gateways := t.gateways - {kb})
  }

  function Finished(kind: Kind, t: Table, kb: Kb): Table {
    t.(reruns := t.reruns - {kb}, running := t.running - {kb}, gateways := t.gateways - {kb},
       retries := if kind.PageTree? && kb !in t.reruns then t.retries - {kb} else t.retries)
  }

  /** The tables as the service object holds them. */
  class WorkerTable {
    const kind: Kind
    var lease: nat
    var gateways: map<Kb, Gateway>
    var running: set<Kb>
    var reruns: set<Kb>
    var retries: set<Kb>

    ghost function Tables(): Table
      reads this
    {
      Table(lease, gateways, running, reruns, retries)
    }

    constructor (kind: Kind)
      ensures this.kind == kind && Tables() == Table(0, map[], {}, {}, {})
    {
      this.kind := kind;
      lease, gateways, running, reruns, retries := 0, map[], {}, {}, {};
    }

    /** An accepted start: records the gateway and either marks a rerun or asks for a thread. */
    method Start(kb: Kb, g: Gateway, retryFailed: bool) returns (spawn: bool, workerLease: nat)
      modifies this
      ensures Tables() == Request(old(Tables()), kb, g, retryFailed)
      ensures spawn <==> kb !in old(running)
      ensures workerLease == lease
    {
      gateways := gateways[kb := g];
      workerLease := lease;
      if retryFailed {
        retries := retries + {kb};
      }
      spawn := kb !in running;
      if spawn {
        running := running + {kb};
      } else {
        reruns := reruns + {kb};
      }
    }

    method Invalidate()
      modifies this
      ensures Tables() == Invalidated(kind, old(Tables()))
    {
      lease := lease + 1;
      if kind.Corpus? {
        gateways, reruns := map[], {};
      }
    }

    method Retire(kb: Kb)
      modifies this
      ensures Tables() == Retired(kind, old(Tables()), kb)
    {
      gateways := gateways - {kb};
      reruns := reruns - {kb};
      if kind.PageTree? {
        retries := retries - {kb};
      }
    }

    /** The worker's locked read. Page-tree workers test the lease again under the lock. */
    method Read(kb: Kb, workerLease: nat, shutdown: bool) returns (g: Option<Gateway>)
      modifies this
      ensures var stop := kind.PageTree? && (shutdown || workerLease != old(lease));
              && Tables() == (if stop then old(Tables()) else ReadMarks(old(Tables()), kb))
              && g == (if stop then None else GatewayOf(old(Tables()), kb))
    {
      if kind.PageTree? && (shutdown || workerLease != lease) {
        return None;
      }
      g := if kb in gateways then Some(gateways[kb]) else None;
      reruns := reruns - {kb};
    }

    /** Takes the retry flag, in a later section of the same pass. */
    method TakeRetry(kb: Kb) returns (retryFailed: bool)
      modifies this
      ensures Tables() == FlagTaken(old(Tables()), kb)
      ensures retryFailed <==> kb in old(retries)
    {
      retryFailed := kb in retries;
      retries := retries - {kb};
    }

    /** Check and release in one section. */
    method Release(kb: Kb) returns (released: bool)
      modifies this
      ensures Tables() == Released(old(Tables()), kb)
      ensures released <==> kb !in old(reruns)
    {
      if kb in reruns {
        return false;
      }
      running := running - {kb};
      gateways := gateways - {kb};
      released := true;
    }

    method Finish(kb: Kb) returns (restart: Option<Gateway>)
      modifies this
      ensures Tables() == Finished(kind, old(Tables()), kb)
      ensures restart == if kb in old(reruns) then GatewayOf(old(Tables()), kb) else None
    {
      restart := if kb in reruns && kb in gateways then Some(gateways[kb]) else None;
      if kind.PageTree? && kb !in reruns {
        retries := retries - {kb};
      }
      reruns := reruns - {kb};
      running := running - {kb};
      gateways := gateways - {kb};
    }
  }

  // ------------------------------------------------------------- the whole system

  /** `Ready` is a page-tree pass that has read its gateway but not yet taken the retry flag. */
  datatype Pc = LoopTop | BeforeRead | Ready(g: Gateway) | Working(g: Gateway) | BeforeRelease | Finishing | Restarting(g: Gateway) | Done

  datatype Worker = Worker(kb: Kb, lease: nat, pc: Pc)

  /** `owed` are the knowledge bases with an accepted start that no worker with the current
      lease has read since, and that was not retired, invalidated, switched away from or shut
      down. It only observes: no step depends on it. */
  datatype System = System(
    kind: Kind,
    table: Table,
    active: Option<Kb>,
    shutdown: bool,
    workers: map<nat, Worker>,
    owed: set<Kb>)

  function Initial(kind: Kind): System {
    System(kind, Table(0, map[], {}, {}, {}), None, false, map[], {})
  }

  /** `verified` is the check a start makes of its gateway, and for page trees of the setting
      that enables them; a restart makes it again. */
  datatype Step =
    | Start(kb: Kb, g: Gateway, verified: bool, retryFailed: bool, id: nat)
    | Invalidate
    | Retire(kb: Kb)
    | Shutdown
    | Switch(to: Option<Kb>)
    | LoopTest(w: nat)
    | Read(w: nat)
    | TakeRetry(w: nat)
    | Work(w: nat, next: Pc)
    | Release(w: nat)
    | Finish(w: nat)
    | Restart(w: nat, verified: bool, id: nat)

  predicate AtPc(s: System, w: nat, pcs: set<Pc>) {
    w in s.workers && s.workers[w].pc in pcs
  }

  predicate CanStep(s: System, e: Step) {
    match e
    case Start(_, _, _, retryFailed, id) => id !in s.workers && (retryFailed ==> s.kind.PageTree?)
    case LoopTest(w) => AtPc(s, w, {LoopTop})
    case Read(w) => AtPc(s, w, {BeforeRead})
    case TakeRetry(w) => w in s.workers && s.workers[w].pc.Ready?
    case Work(w, next) =>
      w in s.workers && ((s.workers[w].pc.Ready? && next in {LoopTop, Finishing}) ||
                         (s.workers[w].pc.Working? && next in ({LoopTop, Finishing} + if s.kind.Corpus? then {} else {BeforeRelease})))
    case Release(w) => AtPc(s, w, {BeforeRelease})
    case Finish(w) => AtPc(s, w, {Finishing})
    case Restart(w, _, id) => w in s.workers && s.workers[w].pc.Restarting? && id !in s.workers
    case _ => true
  }

  function At(s: System, w: nat, pc: Pc): System
    requires w in s.workers
  {
    s.(workers := s.workers[w := s.workers[w].(pc := pc)])
  }

  /** What a start does once its checks have passed. */
  function Accept(s: System, kb: Kb, g: Gateway, retryFailed: bool, id: nat): System {
    s.(table := Request(s.table, kb, g, retryFailed),
       workers := if kb in s.table.running then s.workers else s.workers[id := Worker(kb, s.table.lease, LoopTop)])
  }

  predicate Current(s: System, w: nat)
    requires w in s.workers
  {
    s.workers[w].lease == s.table.lease
  }

  predicate Stopping(s: System, w: nat)
    requires w in s.workers
  {
    s.shutdown || !Current(s, w)
  }

  function Next(s: System, e: Step): System
    requires CanStep(s, e)
  {
    match e
    case Start(kb, g, verified, retryFailed, id) =>
      if !verified || s.active != Some(kb) then s
      else Accept(s, kb, g, retryFailed, id).(owed := if s.shutdown then s.owed else s.owed + {kb})
    case Invalidate => s.(table := Invalidated(s.kind, s.table), owed := {})
    case Retire(kb) => s.(table := Retired(s.kind, s.table, kb), owed := s.owed - {kb})
    case Shutdown => s.(shutdown := true, owed := {})
    case Switch(to) => s.(active := to, owed := set kb | kb in s.owed && Some(kb) == to)
    case LoopTest(w) => At(s, w, if Stopping(s, w) then Finishing else BeforeRead)
    case Read(w) =>
      var kb := s.workers[w].kb;
      if s.kind.PageTree? && Stopping(s, w) then At(s, w, Finishing)
      else
        var pc := match GatewayOf(s.table, kb)
          case Some(g) => if s.kind.PageTree? then Ready(g) else Working(g)
          case None => Finishing;
        At(s, w, pc).(table := ReadMarks(s.table, kb), owed := if Reads(s, e, kb) then s.owed - {kb} else s.owed)
    case TakeRetry(w) => At(s, w, Working(s.workers[w].pc.g)).(table := FlagTaken(s.table, s.workers[w].kb))
    case Work(w, next) => At(s, w, next)
    case Release(w) =>
      var kb := s.workers[w].kb;
      At(s, w, if kb in s.table.reruns then LoopTop else Done).(table := Released(s.table, kb))
    case Finish(w) =>
      var kb := s.workers[w].kb;
      var g := if kb in s.table.reruns then GatewayOf(s.table, kb) else None;
      At(s, w, match g case Some(v) => Restarting(v) case None => Done).(table := Finished(s.kind, s.table, kb))
    case Restart(w, verified, id) =>
      var kb := s.workers[w].kb;
      if s.shutdown || s.active != Some(kb) || !verified then At(s, w, Done)
      else Accept(At(s, w, Done), kb, s.workers[w].pc.g, false, id)
  }

  /** A worker with the current lease reads the request for `kb`. */
  predicate Reads(s: System, e: Step, kb: Kb) {
    e.Read? && e.w in s.workers && s.workers[e.w].kb == kb && !Stopping(s, e.w) && kb in s.table.gateways
  }

  predicate AcceptsStart(s: System, e: Step, kb: Kb) {
    e.Start? && e.kb == kb && e.verified && s.active == Some(kb)
  }

  // ----------------------------------------------------------------- invariant

  predicate Live(s: System, w: nat, kb: Kb) {
    w in s.workers && s.workers[w].kb == kb && !s.workers[w].pc.Restarting? && !s.workers[w].pc.Done?
  }

  predicate Pending(s: System, w: nat, kb: Kb) {
    w in s.workers && s.workers[w].kb == kb && s.workers[w].pc.Restarting?
  }

  predicate RestartPending(s: System, kb: Kb) {
    exists w :: w in s.workers && Pending(s, w, kb)
  }

  ghost predicate OneWorker(s: System) {
    && (forall v, w, kb :: Live(s, v, kb) && Live(s, w, kb) ==> v == w)
    && (forall w, kb :: Live(s, w, kb) ==> kb in s.table.running)
    && (forall kb :: kb in s.table.running ==> exists w :: Live(s, w, kb))
    && s.table.reruns <= s.table.running
    && s.table.gateways.Keys <= s.table.running
  }

  /** The worker will still read the request for `kb`, or start one that will: it has the
      gateway before it, and either a mark that outlives the pass or a read to come that
      counts. A corpus or graph worker between loop test and read clears the mark even when
      its lease is old. */
  predicate WillServe(s: System, w: nat, kb: Kb) {
    && w in s.workers && s.workers[w].kb == kb
    && match s.workers[w].pc
       case Restarting(_) => true
       case Done => false
       case LoopTop => kb in s.table.gateways && (Current(s, w) || kb in s.table.reruns)
       case BeforeRead => kb in s.table.gateways && (Current(s, w) || (s.kind.PageTree? && kb in s.table.reruns))
       case _ => kb in s.table.gateways && kb in s.table.reruns
  }

  predicate Serving(s: System, kb: Kb) {
    exists w :: w in s.workers && WillServe(s, w, kb)
  }

  /** The worker cannot have missed a request: its lease is current, or it is a page-tree worker. */
  predicate Attentive(s: System, w: nat)
    requires w in s.workers
  {
    Current(s, w) || s.kind.PageTree?
  }

  ghost predicate OwedInOrder(s: System) {
    && (forall kb :: kb in s.owed ==> !s.shutdown && s.active == Some(kb))
    && forall w, kb {:trigger WillServe(s, w, kb)} {:trigger Live(s, w, kb)} :: kb in s.owed && Live(s, w, kb) && Attentive(s, w) ==> WillServe(s, w, kb)
  }

  ghost predicate Invariant(s: System) {
    OneWorker(s) && OwedInOrder(s) && forall w :: w in s.workers ==> s.workers[w].lease <= s.table.lease
  }

  lemma AtOneWorker(s: System, w: nat, pc: Pc)
    requires OneWorker(s) && w in s.workers && Live(s, w, s.workers[w].kb)
    requires !pc.Restarting? && !pc.Done?
    ensures OneWorker(At(s, w, pc))
  {
    var s' := At(s, w, pc);
    assert forall v, kb :: Live(s', v, kb) <==> Live(s, v, kb);
  }

  lemma SameLive(s: System, s': System)
    requires OneWorker(s) && s'.table.running == s.table.running
    requires s'.table.gateways.Keys <= s.table.gateways.Keys && s'.table.reruns <= s.table.reruns
    requires forall v, kb {:trigger Live(s, v, kb)} {:trigger Live(s', v, kb)} :: Live(s, v, kb) <==> Live(s', v, kb)
    ensures OneWorker(s')
  {
  }

  lemma AcceptOneWorker(s: System, kb: Kb, g: Gateway, retryFailed: bool, id: nat)
    requires OneWorker(s) && id !in s.workers
    ensures OneWorker(Accept(s, kb, g, retryFailed, id))
  {
    var s' := Accept(s, kb, g, retryFailed, id);
    assert forall v, k :: Live(s, v, k) ==> Live(s', v, k);
    assert kb !in s.table.running ==> Live(s', id, kb);
    assert forall v, k :: Live(s', v, k) ==> Live(s, v, k) || (v == id && k == kb && kb !in s.table.running);
  }

  lemma LeaveOneWorker(s: System, w: nat, s': System)
    requires OneWorker(s) && w in s.workers && Live(s, w, s.workers[w].kb)
    requires w in s'.workers && s'.workers == s.workers[w := s'.workers[w]] && s'.workers[w].kb == s.workers[w].kb
    requires s'.workers[w].pc.Restarting? || s'.workers[w].pc.Done?
    requires s'.table.running == s.table.running - {s.workers[w].kb}
    requires s'.table.gateways.Keys <= s'.table.running && s'.table.reruns <= s'.table.running
    ensures OneWorker(s')
  {
    assert forall v, kb :: Live(s', v, kb) <==> Live(s, v, kb) && v != w;
  }

  lemma NextOneWorker(s: System, e: Step)
    requires OneWorker(s) && CanStep(s, e)
    ensures OneWorker(Next(s, e))
  {
    var s' := Next(s, e);
    match e
    case Start(kb, g, _, retryFailed, id) =>
      AcceptOneWorker(s, kb, g, retryFailed, id);
      SameLive(if s' == s then s else Accept(s, kb, g, retryFailed, id), s');
    case Restart(w, _, id) =>
      var r := At(s, w, Done);
      SameLive(s, r);
      AcceptOneWorker(r, s.workers[w].kb, s.workers[w].pc.g, false, id);
    case LoopTest(w) => AtOneWorker(s, w, s'.workers[w].pc);
    case Read(w) =>
      AtOneWorker(s, w, s'.workers[w].pc);
      SameLive(At(s, w, s'.workers[w].pc), s');
    case TakeRetry(w) =>
      AtOneWorker(s, w, s'.workers[w].pc);
      SameLive(At(s, w, s'.workers[w].pc), s');
    case Work(w, next) => AtOneWorker(s, w, next);
    case Release(w) =>
      if s.workers[w].kb in s.table.reruns {
        AtOneWorker(s, w, LoopTop);
        SameLive(At(s, w, LoopTop), s');
      } else {
        LeaveOneWorker(s, w, s');
      }
    case Finish(w) => LeaveOneWorker(s, w, s');
    case _ => SameLive(s, s');
  }

  /** A worker that had not missed the request still has not. */
  lemma AttentiveServes(s: System, e: Step, w: nat, kb: Kb)
    requires Invariant(s) && CanStep(s, e)
    requires kb in Next(s, e).owed && Live(Next(s, e), w, kb) && Attentive(Next(s, e), w)
    ensures WillServe(Next(s, e), w, kb)
  {
    if w in s.workers && kb in s.owed && !e.Start? && !e.Restart? {
      assert Live(s, w, kb) && WillServe(s, w, kb);
      if e.Read? || e.Release? || e.Finish? {
        assert Live(s, e.w, s.workers[e.w].kb);
      }
    } else if w in s.workers {
      assert Live(s, w, kb);
      assert kb in s.owed ==> WillServe(s, w, kb);
    }
  }

  /** Every step keeps at most one live worker per knowledge base, and every worker that reads
      with a current lease aware of the request. */
  lemma NextKeepsInvariant(s: System, e: Step)
    requires Invariant(s) && CanStep(s, e)
    ensures Invariant(Next(s, e))
  {
    NextOneWorker(s, e);
    forall w, kb | kb in Next(s, e).owed && Live(Next(s, e), w, kb) && Attentive(Next(s, e), w)
      ensures WillServe(Next(s, e), w, kb)
    {
      AttentiveServes(s, e, w, kb);
    }
  }

  // ------------------------------------------------------- when a request is lost

  /** The live worker of `kb` is a corpus or graph worker with an old lease between its loop
      test and its locked read: whatever is marked now, it will clear. */
  predicate DeadEnd(s: System, kb: Kb) {
    !s.kind.PageTree? && exists w :: w in s.workers && Live(s, w, kb) && s.workers[w].pc.BeforeRead? && !Current(s, w)
  }

  predicate OtherRestart(s: System, kb: Kb, w: nat) {
    exists v :: v in s.workers && v != w && Pending(s, v, kb)
  }

  predicate OtherServing(s: System, kb: Kb, w: nat) {
    exists v :: v in s.workers && v != w && WillServe(s, v, kb)
  }

  /** The steps that lose a request for `kb`: recording it in front of a dead end, or a restart
      that fails its own check while nothing else would serve the request. */
  predicate Loses(s: System, e: Step, kb: Kb) {
    match e
    case Start(_, _, _, _, _) => AcceptsStart(s, e, kb) && !s.shutdown && DeadEnd(s, kb) && !RestartPending(s, kb)
    case Restart(w, verified, _) =>
      && w in s.workers && s.workers[w].kb == kb && kb in s.owed
      && if verified then DeadEnd(s, kb) && !OtherRestart(s, kb, w) else !OtherServing(s, kb, w)
    case _ => false
  }

  lemma StartServes(s: System, e: Step, kb: Kb)
    requires Invariant(s) && CanStep(s, e) && AcceptsStart(s, e, kb) && !s.shutdown
    ensures Serving(Next(s, e), kb) <==> !Loses(s, e, kb)
  {
    var s' := Next(s, e);
    if v :| v in s.workers && Pending(s, v, kb) {
      assert WillServe(s', v, kb);
    } else if kb in s.table.running {
      var w :| Live(s, w, kb);
      assert WillServe(s', w, kb) <==> !DeadEnd(s, kb) by {
        assert forall v :: Live(s, v, kb) ==> v == w;
      }
      forall v | v in s'.workers && v != w ensures !WillServe(s', v, kb) {
        assert !Live(s, v, kb) && !Pending(s, v, kb);
      }
    } else {
      assert WillServe(s', e.id, kb);
      assert forall w :: !Live(s, w, kb);
    }
  }

  lemma RestartServes(s: System, e: Step, kb: Kb)
    requires Invariant(s) && CanStep(s, e) && e.Restart? && s.workers[e.w].kb == kb && kb in s.owed
    ensures Serving(Next(s, e), kb) <==> !Loses(s, e, kb)
  {
    var s' := Next(s, e);
    if !e.verified {
      forall v | v in s.workers && v != e.w ensures WillServe(s', v, kb) <==> WillServe(s, v, kb) {}
    } else if v :| v in s.workers && v != e.w && Pending(s, v, kb) {
      assert WillServe(s', v, kb);
    } else if kb in s.table.running {
      var w :| Live(s, w, kb);
      assert WillServe(s', w, kb) <==> !DeadEnd(s, kb) by {
        assert forall v :: Live(s, v, kb) ==> v == w;
      }
      forall v | v in s'.workers && v != w ensures !WillServe(s', v, kb) {
        assert !Live(s, v, kb) && (v == e.w || !Pending(s, v, kb));
      }
    } else {
      assert WillServe(s', e.id, kb);
      assert forall w :: !Live(s, w, kb);
    }
  }

  lemma StepServes(s: System, e: Step, kb: Kb, w: nat)
    requires Invariant(s) && CanStep(s, e) && !AcceptsStart(s, e, kb) && !(e.Restart? && s.workers[e.w].kb == kb)
    requires kb in s.owed && kb in Next(s, e).owed && WillServe(s, w, kb)
    ensures WillServe(Next(s, e), w, kb)
  {
    if e.Read? || e.Release? || e.Finish? {
      var v := e.w;
      assert Live(s, v, s.workers[v].kb);
      if s.workers[v].kb == kb && v != w {
        assert !Live(s, w, kb);
      }
    }
  }

  /** Nobody will serve `kb`: no restart is pending, and its live worker has an old lease and
      neither mark nor read to pass on. */
  ghost predicate Hopeless(s: System, kb: Kb) {
    forall w :: w in s.workers && s.workers[w].kb == kb ==>
                  s.workers[w].pc.Done? || (Live(s, w, kb) && !Current(s, w) && !WillServe(s, w, kb))
  }

  lemma UnservedIsHopeless(s: System, kb: Kb)
    requires Invariant(s) && kb in s.owed && !Serving(s, kb)
    ensures Hopeless(s, kb)
  {
    forall w | w in s.workers && s.workers[w].kb == kb && !s.workers[w].pc.Done?
      ensures Live(s, w, kb) && !Current(s, w) && !WillServe(s, w, kb)
    {
      assert !WillServe(s, w, kb);
    }
  }

  lemma HopelessIsUnserved(s: System, kb: Kb)
    requires Hopeless(s, kb)
    ensures !Serving(s, kb)
  {
  }

  /** Only an accepted start ends a hopeless state, and no step in it reads the request. */
  lemma HopelessStays(s: System, e: Step, kb: Kb)
    requires Invariant(s) && CanStep(s, e) && Hopeless(s, kb) && !AcceptsStart(s, e, kb)
    ensures Hopeless(Next(s, e), kb) && !Reads(s, e, kb)
  {
    var s' := Next(s, e);
    forall w | w in s'.workers && s'.workers[w].kb == kb && !s'.workers[w].pc.Done?
      ensures Live(s', w, kb) && !Current(s', w) && !WillServe(s', w, kb)
    {
      HopelessWorkerStays(s, e, kb, w);
    }
  }

  lemma HopelessWorkerStays(s: System, e: Step, kb: Kb, w: nat)
    requires Invariant(s) && CanStep(s, e) && Hopeless(s, kb) && !AcceptsStart(s, e, kb)
    requires w in Next(s, e).workers && Next(s, e).workers[w].kb == kb && !Next(s, e).workers[w].pc.Done?
    ensures Live(Next(s, e), w, kb) && !Current(Next(s, e), w) && !WillServe(Next(s, e), w, kb)
  {
    assert w in s.workers;
    assert Live(s, w, kb) && !Current(s, w) && !WillServe(s, w, kb);
    if e.Read? || e.Release? || e.Finish? {
      assert Live(s, e.w, s.workers[e.w].kb);
      if e.w == w {
        HopelessPass(s, e, kb);
      } else {
        OtherPass(s, e, kb, w);
      }
    }
  }

  /** The locked sections of another worker, which is of another knowledge base. */
  lemma OtherPass(s: System, e: Step, kb: Kb, w: nat)
    requires OneWorker(s) && CanStep(s, e) && (e.Read? || e.Release? || e.Finish?) && e.w != w
    requires Live(s, w, kb) && !Current(s, w) && !WillServe(s, w, kb) && Live(s, e.w, s.workers[e.w].kb)
    ensures w in Next(s, e).workers && Live(Next(s, e), w, kb) && !Current(Next(s, e), w) && !WillServe(Next(s, e), w, kb)
  {
    assert s.workers[e.w].kb != kb;
  }

  /** The hopeless worker's own locked sections. */
  lemma HopelessPass(s: System, e: Step, kb: Kb)
    requires CanStep(s, e) && (e.Read? || e.Release? || e.Finish?)
    requires Live(s, e.w, kb) && !Current(s, e.w) && !WillServe(s, e.w, kb)
    requires !Next(s, e).workers[e.w].pc.Done?
    ensures Live(Next(s, e), e.w, kb) && !Current(Next(s, e), e.w) && !WillServe(Next(s, e), e.w, kb)
  {
  }

  // --------------------------------------------------------------------- runs

  ghost predicate IsRun(kind: Kind, states: seq<System>, steps: seq<Step>) {
    && |states| == |steps| + 1 && states[0] == Initial(kind)
    && forall i :: 0 <= i < |steps| ==> CanStep(states[i], steps[i]) && states[i + 1] == Next(states[i], steps[i])
  }

  lemma {:induction false} RunInvariant(kind: Kind, states: seq<System>, steps: seq<Step>, i: nat)
    requires IsRun(kind, states, steps) && i < |states|
    ensures Invariant(states[i]) && states[i].kind == kind
  {
    if i > 0 {
      RunInvariant(kind, states, steps, i - 1);
      NextKeepsInvariant(states[i - 1], steps[i - 1]);
    }
  }

  /** In every reachable state a knowledge base has at most one live worker, and exactly
      the running marks say which have one. */
  lemma OneWorkerPerKb(kind: Kind, states: seq<System>, steps: seq<Step>, i: nat, kb: Kb)
    requires IsRun(kind, states, steps) && i < |states|
    ensures forall v, w :: Live(states[i], v, kb) && Live(states[i], w, kb) ==> v == w
    ensures kb in states[i].table.running <==> exists w :: Live(states[i], w, kb)
  {
    RunInvariant(kind, states, steps, i);
  }

  lemma StepLosesExactly(s: System, e: Step, kb: Kb)
    requires Invariant(s) && CanStep(s, e) && kb in Next(s, e).owed
    ensures !Serving(Next(s, e), kb) <==> Loses(s, e, kb) || (!Serving(s, kb) && !AcceptsStart(s, e, kb))
  {
    if AcceptsStart(s, e, kb) {
      StartServes(s, e, kb);
    } else if !Serving(s, kb) {
      UnservedIsHopeless(s, kb);
      HopelessStays(s, e, kb);
      HopelessIsUnserved(Next(s, e), kb);
    } else if e.Restart? && s.workers[e.w].kb == kb {
      RestartServes(s, e, kb);
    } else {
      var w :| w in s.workers && WillServe(s, w, kb);
      StepServes(s, e, kb, w);
    }
  }

  /** A step before `i` lost the request for `kb`, and no start has been accepted since. */
  ghost predicate LostBefore(states: seq<System>, steps: seq<Step>, i: nat, kb: Kb)
    requires |states| == |steps| + 1 && i < |states|
  {
    exists k :: 0 <= k < i && LostAt(states, steps, k, i, kb)
  }

  ghost predicate LostAt(states: seq<System>, steps: seq<Step>, k: nat, i: nat, kb: Kb)
    requires |states| == |steps| + 1 && k < i < |states|
  {
    Loses(states[k], steps[k], kb) && forall m :: k < m < i ==> !AcceptsStart(states[m], steps[m], kb)
  }

  lemma LostBeforeStep(states: seq<System>, steps: seq<Step>, i: nat, kb: Kb)
    requires |states| == |steps| + 1 && i < |steps|
    ensures LostBefore(states, steps, i + 1, kb)
       <==> Loses(states[i], steps[i], kb) || (LostBefore(states, steps, i, kb) && !AcceptsStart(states[i], steps[i], kb))
  {
    if LostBefore(states, steps, i, kb) && !AcceptsStart(states[i], steps[i], kb) {
      var k :| 0 <= k < i && LostAt(states, steps, k, i, kb);
      assert LostAt(states, steps, k, i + 1, kb);
    }
    if Loses(states[i], steps[i], kb) {
      assert LostAt(states, steps, i, i + 1, kb);
    }
    if LostBefore(states, steps, i + 1, kb) && !Loses(states[i], steps[i], kb) {
      var k :| 0 <= k < i + 1 && LostAt(states, steps, k, i + 1, kb);
      assert LostAt(states, steps, k, i, kb);
    }
  }

  /** An accepted start that has not been read, retired, invalidated, switched away from or
      shut down is still going to be read, unless one of the losing steps has lost it. */
  lemma {:induction false} RequestNotDropped(kind: Kind, states: seq<System>, steps: seq<Step>, i: nat, kb: Kb)
    requires IsRun(kind, states, steps) && i < |states| && kb in states[i].owed
    ensures Serving(states[i], kb) <==> !LostBefore(states, steps, i, kb)
    decreases i
  {
    if i > 0 {
      RunInvariant(kind, states, steps, i - 1);
      StepLosesExactly(states[i - 1], steps[i - 1], kb);
      LostBeforeStep(states, steps, i - 1, kb);
      if kb in states[i - 1].owed {
        RequestNotDropped(kind, states, steps, i - 1, kb);
      } else {
        assert AcceptsStart(states[i - 1], steps[i - 1], kb);
      }
    }
  }

  // ------------------------------------------------ lost is never read, and only that

  /** Steps from `s` without an accepted start for `kb`, in which the request is read. */
  ghost predicate LeadsToRead(s: System, more: seq<Step>, kb: Kb)
    decreases |more|
  {
    && more != [] && CanStep(s, more[0]) && !AcceptsStart(s, more[0], kb)
    && (Reads(s, more[0], kb) || LeadsToRead(Next(s, more[0]), more[1..], kb))
  }

  /** Whatever happens, the request is not read before the next accepted start. */
  ghost predicate NeverRead(s: System, kb: Kb) {
    forall more: seq<Step> {:trigger LeadsToRead(s, more, kb)} :: !LeadsToRead(s, more, kb)
  }

  lemma {:induction false} HopelessIsNeverRead(s: System, more: seq<Step>, kb: Kb)
    requires Invariant(s) && Hopeless(s, kb)
    ensures !LeadsToRead(s, more, kb)
    decreases |more|
  {
    if more != [] && CanStep(s, more[0]) && !AcceptsStart(s, more[0], kb) {
      HopelessStays(s, more[0], kb);
      NextKeepsInvariant(s, more[0]);
      HopelessIsNeverRead(Next(s, more[0]), more[1..], kb);
    }
  }

  lemma ThenRead(s: System, e: Step, more: seq<Step>, kb: Kb) returns (all: seq<Step>)
    requires CanStep(s, e) && !AcceptsStart(s, e, kb) && LeadsToRead(Next(s, e), more, kb)
    ensures LeadsToRead(s, all, kb)
  {
    all := [e] + more;
    assert all[1..] == more;
  }

  lemma FreshWorker(workers: map<nat, Worker>) returns (id: nat)
    ensures id !in workers
  {
    id := AboveAll(workers.Keys);
  }

  /** A worker with the current lease before its read reads. */
  lemma CurrentReads(s: System, w: nat, kb: Kb) returns (more: seq<Step>)
    requires w in s.workers && s.workers[w].kb == kb && Current(s, w) && !s.shutdown && kb in s.table.gateways
    requires s.workers[w].pc.LoopTop? || s.workers[w].pc.BeforeRead?
    ensures LeadsToRead(s, more, kb)
  {
    if s.workers[w].pc.BeforeRead? {
      more := [Read(w)];
    } else {
      assert LeadsToRead(Next(s, LoopTest(w)), [Read(w)], kb);
      more := ThenRead(s, LoopTest(w), [Read(w)], kb);
    }
  }

  /** A pending restart that finds no live worker starts one that reads. */
  lemma RestartReads(s: System, w: nat, kb: Kb) returns (more: seq<Step>)
    requires Pending(s, w, kb) && kb !in s.table.running && !s.shutdown && s.active == Some(kb)
    ensures LeadsToRead(s, more, kb)
  {
    var id := FreshWorker(s.workers);
    var e := Restart(w, true, id);
    more := CurrentReads(Next(s, e), id, kb);
    more := ThenRead(s, e, more, kb);
  }

  function Stage(pc: Pc): nat {
    match pc
    case BeforeRelease => 5
    case LoopTop => 4
    case BeforeRead => 3
    case Ready(_) => 2
    case Working(_) => 2
    case Finishing => 1
    case _ => 0
  }

  /** The step that takes a live worker towards its end. */
  function Onward(s: System, w: nat): Step
    requires w in s.workers && Live(s, w, s.workers[w].kb)
  {
    match s.workers[w].pc
    case BeforeRelease => Release(w)
    case LoopTop => LoopTest(w)
    case BeforeRead => Read(w)
    case Finishing => Finish(w)
    case _ => Work(w, Finishing)
  }

  /** A live worker that will serve the request comes to read it or to a restart that does. */
  lemma {:induction false} LiveReads(s: System, w: nat, kb: Kb) returns (more: seq<Step>)
    requires Invariant(s) && Live(s, w, kb) && WillServe(s, w, kb) && !s.shutdown && s.active == Some(kb)
    ensures LeadsToRead(s, more, kb)
    decreases Stage(s.workers[w].pc)
  {
    var pc := s.workers[w].pc;
    if (pc.LoopTop? || pc.BeforeRead?) && Current(s, w) {
      more := CurrentReads(s, w, kb);
    } else {
      var e := Onward(s, w);
      var s' := Next(s, e);
      NextKeepsInvariant(s, e);
      if pc.Finishing? {
        more := RestartReads(s', w, kb);
      } else if pc.BeforeRelease? && Current(s, w) {
        more := CurrentReads(s', w, kb);
      } else {
        more := LiveReads(s', w, kb);
      }
      more := ThenRead(s, e, more, kb);
    }
  }

  /** With a restart pending the live worker, if any, reads on its way out or leaves the
      restart to start one that reads. */
  lemma {:induction false} PendingReads(s: System, w: nat, kb: Kb, v: nat) returns (more: seq<Step>)
    requires Invariant(s) && Pending(s, w, kb) && !s.shutdown && s.active == Some(kb)
    requires kb in s.table.running ==> Live(s, v, kb)
    ensures LeadsToRead(s, more, kb)
    decreases if v in s.workers && kb in s.table.running then Stage(s.workers[v].pc) + 1 else 0
  {
    if kb !in s.table.running {
      more := RestartReads(s, w, kb);
    } else {
      var e := Onward(s, v);
      if Reads(s, e, kb) {
        more := [e];
      } else {
        NextKeepsInvariant(s, e);
        more := PendingReads(Next(s, e), w, kb, v);
        more := ThenRead(s, e, more, kb);
      }
    }
  }

  /** The exact meaning of a lost request: an owed request is never read before the next
      accepted start, whatever happens, if and only if a losing step has lost it. */
  lemma LostIsNeverRead(kind: Kind, states: seq<System>, steps: seq<Step>, i: nat, kb: Kb)
    requires IsRun(kind, states, steps) && i < |states| && kb in states[i].owed
    ensures LostBefore(states, steps, i, kb) <==> NeverRead(states[i], kb)
  {
    var s := states[i];
    RunInvariant(kind, states, steps, i);
    RequestNotDropped(kind, states, steps, i, kb);
    if LostBefore(states, steps, i, kb) {
      UnservedIsHopeless(s, kb);
      forall more ensures !LeadsToRead(s, more, kb) {
        HopelessIsNeverRead(s, more, kb);
      }
    } else {
      var more := ServedIsRead(s, kb);
    }
  }

  lemma ServedIsRead(s: System, kb: Kb) returns (more: seq<Step>)
    requires Invariant(s) && kb in s.owed && Serving(s, kb)
    ensures LeadsToRead(s, more, kb)
  {
    var w :| w in s.workers && WillServe(s, w, kb);
    if Live(s, w, kb) {
      more := LiveReads(s, w, kb);
    } else {
      var v := w;
      if kb in s.table.running {
        v :| v in s.workers && Live(s, v, kb);
      }
      more := PendingReads(s, w, kb, v);
    }
  }

  /** After the locked read of a corpus or graph worker with an old lease, an owed request is
      never read before the next accepted start, if and only if no restart is pending. */
  lemma StaleReadLoses(kind: Kind, states: seq<System>, steps: seq<Step>, i: nat, kb: Kb)
    requires IsRun(kind, states, steps) && i < |steps| && !kind.PageTree?
    requires var e := steps[i]; e.Read? && states[i].workers[e.w].kb == kb && !Current(states[i], e.w)
    requires kb in states[i].owed
    ensures kb in states[i + 1].owed
    ensures NeverRead(states[i + 1], kb) <==> !RestartPending(states[i + 1], kb)
  {
    var s, e, s' := states[i], steps[i], states[i + 1];
    RunInvariant(kind, states, steps, i);
    RunInvariant(kind, states, steps, i + 1);
    if v :| v in s'.workers && Pending(s', v, kb) {
      assert WillServe(s', v, kb);
      var more := ServedIsRead(s', kb);
    } else {
      forall w | w in s'.workers ensures !WillServe(s', w, kb) {
        assert kb !in s'.table.reruns && Live(s', e.w, s'.workers[e.w].kb);
        if w != e.w && s'.workers[w].kb == kb {
          assert !Live(s', w, kb) && !Pending(s', w, kb);
        }
      }
      UnservedIsHopeless(s', kb);
      forall more ensures !LeadsToRead(s', more, kb) {
        HopelessIsNeverRead(s', more, kb);
      }
    }
  }

  // ------------------------------------------------------------ runs that lose a request

  lemma Extend(kind: Kind, states: seq<System>, steps: seq<Step>, e: Step, s: System) returns (states': seq<System>, steps': seq<Step>)
    requires IsRun(kind, states, steps) && CanStep(states[|steps|], e) && Next(states[|steps|], e) == s
    ensures IsRun(kind, states', steps') && steps' == steps + [e] && states' == states + [s] && states'[|steps'|] == s
  {
    states', steps' := states + [s], steps + [e];
  }

  /** A state with the one knowledge base "kb" active and the one worker 0. */
  function Single(kind: Kind, lease: nat, gateways: map<Kb, Gateway>, running: bool, rerun: bool, pc: Pc, owed: bool): System {
    System(kind, Table(lease, gateways, if running then {"kb"} else {}, if rerun then {"kb"} else {}, {}),
           Some("kb"), false, map[0 := Worker("kb", 0, pc)], if owed then {"kb"} else {})
  }

  function Opened(kind: Kind): System {
    Initial(kind).(active := Some("kb"))
  }

  /** The pc of a pass that has just read gateway `g`. */
  function Passing(kind: Kind, g: Gateway): Pc {
    if kind.PageTree? then Ready(g) else Working(g)
  }

  lemma FirstSteps(kind: Kind)
    ensures Next(Initial(kind), Switch(Some("kb"))) == Opened(kind)
    ensures Next(Opened(kind), Start("kb", 1, true, false, 0)) == Single(kind, 0, map["kb" := 1], true, false, LoopTop, true)
    ensures Next(Single(kind, 0, map["kb" := 1], true, false, LoopTop, true), LoopTest(0))
         == Single(kind, 0, map["kb" := 1], true, false, BeforeRead, true)
  {
    assert (set kb | kb in {} && Some(kb) == Some("kb")) == {};
    assert {} + {"kb"} == {"kb"};
  }

  lemma EndSteps(kind: Kind, lease: nat, g: Gateway, rerun: bool, pc: Pc, owed: bool)
    requires pc.Working? || pc.Ready?
    ensures Next(Single(kind, lease, map["kb" := g], true, rerun, pc, owed), Work(0, Finishing))
         == Single(kind, lease, map["kb" := g], true, rerun, Finishing, owed)
    ensures Next(Single(kind, lease, map["kb" := g], true, rerun, Finishing, owed), Finish(0))
         == Single(kind, lease, map[], false, false, if rerun then Restarting(g) else Done, owed)
  {
    assert map["kb" := g] - {"kb"} == map[];
  }

  lemma ReachesRead(kind: Kind) returns (states: seq<System>, steps: seq<Step>)
    ensures IsRun(kind, states, steps) && |steps| == 3
    ensures states[3] == Single(kind, 0, map["kb" := 1], true, false, BeforeRead, true)
  {
    FirstSteps(kind);
    states, steps := [Initial(kind)], [];
    states, steps := Extend(kind, states, steps, Switch(Some("kb")), Opened(kind));
    states, steps := Extend(kind, states, steps, Start("kb", 1, true, false, 0), Single(kind, 0, map["kb" := 1], true, false, LoopTop, true));
    states, steps := Extend(kind, states, steps, LoopTest(0), Single(kind, 0, map["kb" := 1], true, false, BeforeRead, true));
  }

  lemma StaleSteps(kind: Kind, gateways: map<Kb, Gateway>)
    requires !kind.PageTree? && gateways == if kind.Corpus? then map[] else map["kb" := 1]
    ensures Next(Single(kind, 0, map["kb" := 1], true, false, BeforeRead, true), Invalidate)
         == Single(kind, 1, gateways, true, false, BeforeRead, false)
    ensures Next(Single(kind, 1, gateways, true, false, BeforeRead, false), Start("kb", 2, true, false, 1))
         == Single(kind, 1, map["kb" := 2], true, true, BeforeRead, true)
    ensures Next(Single(kind, 1, map["kb" := 2], true, true, BeforeRead, true), Read(0))
         == Single(kind, 1, map["kb" := 2], true, false, Working(2), true)
  {
    assert {} + {"kb"} == {"kb"};
  }

  function StaleGateways(kind: Kind): map<Kb, Gateway> {
    if kind.Corpus? then map[] else map["kb" := 1]
  }

  /** An invalidation between the loop test and the locked read leads to a dead end. */
  lemma ReachesDeadEnd(kind: Kind) returns (states: seq<System>, steps: seq<Step>)
    requires !kind.PageTree?
    ensures IsRun(kind, states, steps) && |steps| == 4
    ensures states[4] == Single(kind, 1, StaleGateways(kind), true, false, BeforeRead, false) && DeadEnd(states[4], "kb")
  {
    StaleSteps(kind, StaleGateways(kind));
    states, steps := ReachesRead(kind);
    var dead := Single(kind, 1, StaleGateways(kind), true, false, BeforeRead, false);
    states, steps := Extend(kind, states, steps, Invalidate, dead);
    assert Live(dead, 0, "kb");
  }

  /** A run that loses a request of corpus synthesis or graph extraction: the start accepted
      after an invalidation is read by nobody but the worker with the old lease. */
  lemma SwallowedRequest(kind: Kind) returns (states: seq<System>, steps: seq<Step>)
    requires !kind.PageTree?
    ensures IsRun(kind, states, steps) && |steps| == 8 && Loses(states[4], steps[4], "kb")
    ensures var s := states[8];
            && s.owed == {"kb"} && s.active == Some("kb") && !s.shutdown
            && s.table.running == {} && forall w :: w in s.workers ==> s.workers[w].pc.Done?
  {
    StaleSteps(kind, StaleGateways(kind));
    EndSteps(kind, 1, 2, false, Working(2), true);
    states, steps := ReachesDeadEnd(kind);
    states, steps := Extend(kind, states, steps, Start("kb", 2, true, false, 1), Single(kind, 1, map["kb" := 2], true, true, BeforeRead, true));
    states, steps := Extend(kind, states, steps, Read(0), Single(kind, 1, map["kb" := 2], true, false, Working(2), true));
    states, steps := Extend(kind, states, steps, Work(0, Finishing), Single(kind, 1, map["kb" := 2], true, false, Finishing, true));
    states, steps := Extend(kind, states, steps, Finish(0), Single(kind, 1, map[], false, false, Done, true));
  }

  lemma RerunSteps(kind: Kind)
    ensures Next(Single(kind, 0, map["kb" := 1], true, false, BeforeRead, true), Read(0))
         == Single(kind, 0, map["kb" := 1], true, false, Passing(kind, 1), false)
    ensures Next(Single(kind, 0, map["kb" := 1], true, false, Passing(kind, 1), false), Start("kb", 1, true, false, 1))
         == Single(kind, 0, map["kb" := 1], true, true, Passing(kind, 1), true)
    ensures Next(Single(kind, 0, map[], false, false, Restarting(1), true), Retire("kb"))
         == Single(kind, 0, map[], false, false, Restarting(1), false)
    ensures Next(Single(kind, 0, map[], false, false, Restarting(1), true), Restart(0, false, 1))
         == Single(kind, 0, map[], false, false, Done, true)
  {
    assert {} + {"kb"} == {"kb"};
  }

  /** A worker that finishes with a rerun marked is about to restart. */
  lemma RestartOnItsWay(kind: Kind) returns (states: seq<System>, steps: seq<Step>)
    ensures IsRun(kind, states, steps)
    ensures |steps| == 7 && states[7] == Single(kind, 0, map[], false, false, Restarting(1), true)
  {
    RerunSteps(kind);
    EndSteps(kind, 0, 1, true, Passing(kind, 1), true);
    states, steps := ReachesRead(kind);
    states, steps := Extend(kind, states, steps, Read(0), Single(kind, 0, map["kb" := 1], true, false, Passing(kind, 1), false));
    states, steps := Extend(kind, states, steps, Start("kb", 1, true, false, 1), Single(kind, 0, map["kb" := 1], true, true, Passing(kind, 1), true));
    states, steps := Extend(kind, states, steps, Work(0, Finishing), Single(kind, 0, map["kb" := 1], true, true, Finishing, true));
    states, steps := Extend(kind, states, steps, Finish(0), Single(kind, 0, map[], false, false, Restarting(1), true));
  }

  /** A run that loses a request of any of the services: the restart that should serve it
      fails its own check. */
  lemma RefusedRestart(kind: Kind) returns (states: seq<System>, steps: seq<Step>)
    ensures IsRun(kind, states, steps) && |steps| == 8 && Loses(states[7], steps[7], "kb")
    ensures var s := states[8];
            && s.owed == {"kb"} && s.active == Some("kb") && !s.shutdown
            && s.table.running == {} && forall w :: w in s.workers ==> s.workers[w].pc.Done?
  {
    RerunSteps(kind);
    states, steps := RestartOnItsWay(kind);
    states, steps := Extend(kind, states, steps, Restart(0, false, 1), Single(kind, 0, map[], false, false, Done, true));
  }

  // ------------------------------------------------------------ gateways

  /** Steps that can follow without an accepted start for `kb`. */
  ghost predicate Quiet(s: System, more: seq<Step>, kb: Kb)
    decreases |more|
  {
    more == [] || (CanStep(s, more[0]) && !AcceptsStart(s, more[0], kb) && Quiet(Next(s, more[0]), more[1..], kb))
  }

  ghost function After(s: System, more: seq<Step>, kb: Kb): System
    requires Quiet(s, more, kb)
    decreases |more|
  {
    if more == [] then s else After(Next(s, more[0]), more[1..], kb)
  }

  lemma NextKeepsOut(s: System, e: Step, kb: Kb)
    requires CanStep(s, e) && !AcceptsStart(s, e, kb)
    requires kb !in s.table.gateways && !RestartPending(s, kb)
    ensures kb !in Next(s, e).table.gateways && !RestartPending(Next(s, e), kb)
  {
    var s' := Next(s, e);
    if e.Restart? {
      assert !Pending(s, e.w, kb);
    }
    forall w | w in s'.workers ensures !Pending(s', w, kb) {
      if w in s.workers {
        assert !Pending(s, w, kb);
      }
    }
  }

  lemma {:induction false} StaysOut(s: System, more: seq<Step>, kb: Kb)
    requires kb !in s.table.gateways && !RestartPending(s, kb) && Quiet(s, more, kb)
    ensures kb !in After(s, more, kb).table.gateways
    decreases |more|
  {
    if more != [] {
      NextKeepsOut(s, more[0], kb);
      StaysOut(Next(s, more[0]), more[1..], kb);
    }
  }

  /** Some continuation without an accepted start brings a gateway back. */
  ghost predicate ComesBack(s: System, kb: Kb) {
    exists more :: Quiet(s, more, kb) && kb in After(s, more, kb).table.gateways
  }

  /** A gateway that is out, retired say, can come back without an accepted start if and only
      if a restart is pending. */
  lemma RetiredReturnsIffPending(s: System, kb: Kb)
    requires kb !in s.table.gateways && !s.shutdown
    ensures ComesBack(s, kb) <==> RestartPending(s, kb)
  {
    if w :| w in s.workers && Pending(s, w, kb) {
      var id := FreshWorker(s.workers);
      var e := Restart(w, true, id);
      var s' := Next(s, Switch(Some(kb)));
      var more := [Switch(Some(kb)), e];
      assert more[1..] == [e] && [e][1..] == [];
      assert Quiet(Next(s', e), [], kb);
      assert Quiet(s', [e], kb) && After(s', [e], kb) == Next(s', e);
      assert Quiet(s, more, kb) && After(s, more, kb) == Next(s', e);
    } else {
      forall more | Quiet(s, more, kb) ensures kb !in After(s, more, kb).table.gateways {
        StaysOut(s, more, kb);
      }
    }
  }

  /** Once a gateway is retired while no restart is on its way, it stays out until
      somebody starts the service for that knowledge base again. */
  lemma {:induction false} RetiredStaysOut(kind: Kind, states: seq<System>, steps: seq<Step>, i: nat, j: nat, kb: Kb)
    requires IsRun(kind, states, steps) && i <= j < |states|
    requires kb !in states[i].table.gateways && !RestartPending(states[i], kb)
    requires forall k :: i <= k < j ==> !AcceptsStart(states[k], steps[k], kb)
    ensures kb !in states[j].table.gateways && !RestartPending(states[j], kb)
    decreases j
  {
    if i < j {
      RetiredStaysOut(kind, states, steps, i, j - 1, kb);
      NextKeepsOut(states[j - 1], steps[j - 1], kb);
    }
  }

  /** A restart already on its way puts the retired gateway back. */
  lemma RetiredGatewayReturns(kind: Kind) returns (states: seq<System>, steps: seq<Step>)
    ensures IsRun(kind, states, steps)
    ensures |steps| == 9 && steps[7] == Retire("kb") && steps[8].Restart?
    ensures "kb" !in states[8].table.gateways && GatewayOf(states[9].table, "kb") == Some(1)
  {
    RerunSteps(kind);
    states, steps := RestartOnItsWay(kind);
    var retired := Single(kind, 0, map[], false, false, Restarting(1), false);
    states, steps := Extend(kind, states, steps, Retire("kb"), retired);
    states, steps := Extend(kind, states, steps, Restart(0, true, 1), Next(retired, Restart(0, true, 1)));
  }

  /** The gateway recorded for `kb`, if any, is `g`. */
  predicate Records(s: System, kb: Kb, g: Gateway) {
    kb in s.table.gateways ==> s.table.gateways[kb] == g
  }

  ghost predicate PendingCarry(s: System, kb: Kb, g: Gateway) {
    forall w :: w in s.workers && Pending(s, w, kb) ==> s.workers[w].pc.g == g
  }

  lemma NextRecords(s: System, e: Step, kb: Kb, g: Gateway)
    requires CanStep(s, e) && !AcceptsStart(s, e, kb) && Records(s, kb, g) && PendingCarry(s, kb, g)
    ensures Records(Next(s, e), kb, g) && PendingCarry(Next(s, e), kb, g)
  {
    var s' := Next(s, e);
    if e.Restart? {
      assert Pending(s, e.w, s.workers[e.w].kb);
    }
    forall w | w in s'.workers && Pending(s', w, kb) ensures s'.workers[w].pc.g == g {
      if w in s.workers && s.workers[w] == s'.workers[w] {
        assert Pending(s, w, kb);
      }
    }
  }

  lemma {:induction false} StaysRecorded(s: System, more: seq<Step>, kb: Kb, g: Gateway)
    requires Quiet(s, more, kb) && Records(s, kb, g) && PendingCarry(s, kb, g)
    ensures Records(After(s, more, kb), kb, g)
    decreases |more|
  {
    if more != [] {
      NextRecords(s, more[0], kb, g);
      StaysRecorded(Next(s, more[0]), more[1..], kb, g);
    }
  }

  ghost predicate AlwaysRecords(s: System, kb: Kb, g: Gateway) {
    forall more {:trigger Quiet(s, more, kb)} :: Quiet(s, more, kb) ==> Records(After(s, more, kb), kb, g)
  }

  /** The recorded gateway stays that of the last accepted start, whatever follows, if and only
      if no restart with another gateway was pending when it was accepted. */
  lemma LastStartsGateway(s: System, e: Step, kb: Kb)
    requires CanStep(s, e) && AcceptsStart(s, e, kb) && !s.shutdown
    ensures AlwaysRecords(Next(s, e), kb, e.g) <==> PendingCarry(s, kb, e.g)
  {
    var s' := Next(s, e);
    assert Records(s', kb, e.g);
    if PendingCarry(s, kb, e.g) {
      forall w | w in s'.workers && Pending(s', w, kb) ensures s'.workers[w].pc.g == e.g {
        assert w in s.workers && Pending(s, w, kb);
      }
      forall more | Quiet(s', more, kb) ensures Records(After(s', more, kb), kb, e.g) {
        StaysRecorded(s', more, kb, e.g);
      }
    } else {
      var w :| w in s.workers && Pending(s, w, kb) && s.workers[w].pc.g != e.g;
      var id := FreshWorker(s'.workers);
      var r := Restart(w, true, id);
      assert [r][1..] == [] && Quiet(Next(s', r), [], kb);
      assert Quiet(s', [r], kb) && After(s', [r], kb) == Next(s', r);
    }
  }

  /** A run in which a pending restart puts its older gateway in place of that of a start
      accepted since. */
  lemma OlderGatewayWins(kind: Kind) returns (states: seq<System>, steps: seq<Step>)
    ensures IsRun(kind, states, steps) && |steps| == 9
    ensures AcceptsStart(states[7], steps[7], "kb") && steps[7].g == 2 && GatewayOf(states[8].table, "kb") == Some(2)
    ensures GatewayOf(states[9].table, "kb") == Some(1)
  {
    states, steps := RestartOnItsWay(kind);
    var started := Next(states[7], Start("kb", 2, true, false, 1));
    states, steps := Extend(kind, states, steps, Start("kb", 2, true, false, 1), started);
    states, steps := Extend(kind, states, steps, Restart(0, true, 2), Next(started, Restart(0, true, 2)));
  }

  // ------------------------------------------------------------ what can happen

  /** What a worker can do next: test, read, take the retry flag, end its pass, release, finish or
      restart, each where it stands. A pass of corpus synthesis never releases by itself. */
  lemma StepsPossible(s: System, w: nat, id: nat)
    requires w in s.workers && id !in s.workers
    ensures match s.workers[w].pc
            case LoopTop => CanStep(s, LoopTest(w))
            case BeforeRead => CanStep(s, Read(w))
            case Ready(_) => CanStep(s, TakeRetry(w)) && CanStep(s, Work(w, LoopTop)) && CanStep(s, Work(w, Finishing)) && !CanStep(s, Work(w, BeforeRelease))
            case Working(_) => CanStep(s, Work(w, LoopTop)) && CanStep(s, Work(w, Finishing)) && (CanStep(s, Work(w, BeforeRelease)) <==> !s.kind.Corpus?)
            case BeforeRelease => CanStep(s, Release(w))
            case Finishing => CanStep(s, Finish(w))
            case Restarting(_) => forall verified :: CanStep(s, Restart(w, verified, id))
            case Done => forall next :: !CanStep(s, Work(w, next))
  {
  }

  /** After a shutdown nobody reads a request any more. */
  lemma {:induction false} NothingReadAfterShutdown(kind: Kind, states: seq<System>, steps: seq<Step>, k: nat, i: nat)
    requires IsRun(kind, states, steps) && k < i < |states| && steps[k] == Shutdown
    ensures states[i].shutdown && states[i].owed == {}
    ensures i < |steps| ==> forall kb :: !Reads(states[i], steps[i], kb)
    decreases i
  {
    if i > k + 1 {
      NothingReadAfterShutdown(kind, states, steps, k, i - 1);
    }
    assert CanStep(states[i - 1], steps[i - 1]) && states[i] == Next(states[i - 1], steps[i - 1]);
    ShutdownStays(states[i - 1], steps[i - 1]);
  }

  lemma ShutdownStays(s: System, e: Step)
    requires CanStep(s, e) && (e == Shutdown || (s.shutdown && s.owed == {}))
    ensures Next(s, e).shutdown && Next(s, e).owed == {}
  {
  }

  // ------------------------------------------------------------ what a transition forgets

  lemma LeaseStep(s: System, e: Step, w: nat)
    requires Invariant(s) && CanStep(s, e) && w in s.workers
    ensures w in Next(s, e).workers && Next(s, e).workers[w].lease == s.workers[w].lease
    ensures Next(s, e).table.lease == s.table.lease + if e.Invalidate? then 1 else 0
  {
  }

  /** A worker that was there at an invalidation never reads again: whatever follows, its lease
      is an old one. */
  lemma {:induction false} InvalidatedNeverReads(kind: Kind, states: seq<System>, steps: seq<Step>, k: nat, i: nat, w: nat)
    requires IsRun(kind, states, steps) && k < i < |states| && steps[k] == Invalidate && w in states[k].workers
    ensures w in states[i].workers && states[i].workers[w].lease < states[i].table.lease
    ensures i < |steps| && steps[i] == Read(w) ==> forall kb :: !Reads(states[i], steps[i], kb)
    decreases i
  {
    RunInvariant(kind, states, steps, i - 1);
    if i > k + 1 {
      InvalidatedNeverReads(kind, states, steps, k, i - 1, w);
    }
    LeaseStep(states[i - 1], steps[i - 1], w);
  }

  /** Invalidating corpus synthesis forgets every gateway and rerun mark, and invalidating the
      other services none; retry flags and running marks stay. */
  lemma InvalidationForgets(s: System)
    ensures var t, u := s.table, Next(s, Invalidate).table;
            && (s.kind.Corpus? ==> u.gateways == map[] && u.reruns == {})
            && (!s.kind.Corpus? ==> u.gateways == t.gateways && u.reruns == t.reruns)
            && u.retries == t.retries && u.running == t.running
  {
  }

  /** Retiring a knowledge base forgets its gateway, its rerun mark and, for page trees, its retry
      flag, and nothing of any other. */
  lemma RetirementForgets(s: System, kb: Kb, other: Kb)
    ensures var t, u := s.table, Next(s, Retire(kb)).table;
            && kb !in u.gateways && kb !in u.reruns && (s.kind.PageTree? ==> kb !in u.retries)
            && u.running == t.running && u.lease == t.lease
            && (other != kb ==> GatewayOf(u, other) == GatewayOf(t, other) && (other in u.reruns <==> other in t.reruns) && (other in u.retries <==> other in t.retries))
  {
  }

  /** A pass that reads works with the gateway recorded at that moment, and takes the rerun mark. */
  lemma PassTakesGateway(s: System, e: Step, kb: Kb)
    requires CanStep(s, e) && Reads(s, e, kb)
    ensures var s' := Next(s, e);
            && (s'.workers[e.w].pc == Ready(s.table.gateways[kb]) || s'.workers[e.w].pc == Working(s.table.gateways[kb]))
            && (s'.workers[e.w].pc.Ready? <==> s.kind.PageTree?) && kb !in s'.table.reruns && s'.table.gateways == s.table.gateways
  {
  }

  // ------------------------------------------------------------ the retry flag

  ghost predicate TakesFlag(s: System, e: Step, kb: Kb) {
    e.TakeRetry? && e.w in s.workers && s.workers[e.w].kb == kb
  }

  lemma FlagStep(s: System, e: Step, kb: Kb)
    requires Invariant(s) && s.kind.PageTree? && CanStep(s, e) && !TakesFlag(s, e, kb)
    requires kb in s.owed && kb in s.table.retries && kb in Next(s, e).owed
    ensures kb in Next(s, e).table.retries
  {
    if e.Finish? && s.workers[e.w].kb == kb {
      assert Live(s, e.w, kb) && WillServe(s, e.w, kb);
    }
  }

  /** The retry flag of an accepted start stays set as long as the request is unread, unless a
      pass takes it first; the pass that reads the request still has the flag to take. */
  lemma {:induction false} FlagReachesRead(kind: Kind, states: seq<System>, steps: seq<Step>, k: nat, i: nat, kb: Kb)
    requires IsRun(kind, states, steps) && kind.PageTree? && k < i < |states|
    requires AcceptsStart(states[k], steps[k], kb) && steps[k].retryFailed
    requires forall m :: k < m <= i ==> kb in states[m].owed
    requires forall m :: k < m < i ==> !TakesFlag(states[m], steps[m], kb)
    ensures kb in states[i].table.retries
    ensures i < |steps| && Reads(states[i], steps[i], kb) ==>
              kb in states[i + 1].table.retries && states[i + 1].workers[steps[i].w].pc.Ready?
    decreases i
  {
    RunInvariant(kind, states, steps, i);
    if i > k + 1 {
      FlagReachesRead(kind, states, steps, k, i - 1, kb);
      RunInvariant(kind, states, steps, i - 1);
      FlagStep(states[i - 1], steps[i - 1], kb);
    }
  }

  ghost predicate SetsFlag(s: System, e: Step, kb: Kb) {
    AcceptsStart(s, e, kb) && e.retryFailed
  }

  /** The retry flag goes when a pass takes it, when the knowledge base is retired, and when its
      worker ends without a rerun; the latter two only for page trees. */
  ghost predicate ClearsFlag(s: System, e: Step, kb: Kb) {
    || TakesFlag(s, e, kb)
    || (s.kind.PageTree? && (e == Retire(kb) || (e.Finish? && e.w in s.workers && s.workers[e.w].kb == kb && kb !in s.table.reruns)))
  }

  ghost predicate FlagSetAt(states: seq<System>, steps: seq<Step>, k: nat, i: nat, kb: Kb)
    requires |states| == |steps| + 1 && k < i < |states|
  {
    SetsFlag(states[k], steps[k], kb) && forall m :: k < m < i ==> !ClearsFlag(states[m], steps[m], kb)
  }

  ghost predicate FlagSetBefore(states: seq<System>, steps: seq<Step>, i: nat, kb: Kb)
    requires |states| == |steps| + 1 && i < |states|
  {
    exists k :: 0 <= k < i && FlagSetAt(states, steps, k, i, kb)
  }

  lemma FlagSetStep(states: seq<System>, steps: seq<Step>, i: nat, kb: Kb)
    requires |states| == |steps| + 1 && i < |steps|
    ensures FlagSetBefore(states, steps, i + 1, kb)
       <==> SetsFlag(states[i], steps[i], kb) || (FlagSetBefore(states, steps, i, kb) && !ClearsFlag(states[i], steps[i], kb))
  {
    if FlagSetBefore(states, steps, i, kb) && !ClearsFlag(states[i], steps[i], kb) {
      var k :| 0 <= k < i && FlagSetAt(states, steps, k, i, kb);
      assert FlagSetAt(states, steps, k, i + 1, kb);
    }
    if SetsFlag(states[i], steps[i], kb) {
      assert FlagSetAt(states, steps, i, i + 1, kb);
    }
    if FlagSetBefore(states, steps, i + 1, kb) && !SetsFlag(states[i], steps[i], kb) {
      var k :| 0 <= k < i + 1 && FlagSetAt(states, steps, k, i + 1, kb);
      assert FlagSetAt(states, steps, k, i, kb);
    }
  }

  /** The retry flag is set exactly if a start that asked for it was accepted and nothing has
      cleared it since. In particular it stays clear after a pass took it, until such a start. */
  lemma {:induction false} FlagHistory(kind: Kind, states: seq<System>, steps: seq<Step>, i: nat, kb: Kb)
    requires IsRun(kind, states, steps) && i < |states|
    ensures kb in states[i].table.retries <==> FlagSetBefore(states, steps, i, kb)
  {
    if i > 0 {
      FlagHistory(kind, states, steps, i - 1, kb);
      FlagSetStep(states, steps, i - 1, kb);
      FlagNext(states[i - 1], steps[i - 1], kb);
    }
  }

  lemma FlagNext(s: System, e: Step, kb: Kb)
    requires CanStep(s, e)
    ensures kb in Next(s, e).table.retries <==> SetsFlag(s, e, kb) || (kb in s.table.retries && !ClearsFlag(s, e, kb))
  {
  }

  /** A pass that took the flag leaves it clear until a start that asks for it is accepted. */
  lemma FlagStaysClear(kind: Kind, states: seq<System>, steps: seq<Step>, k: nat, i: nat, kb: Kb)
    requires IsRun(kind, states, steps) && k < i < |states| && TakesFlag(states[k], steps[k], kb)
    requires forall m :: k < m < i ==> !SetsFlag(states[m], steps[m], kb)
    ensures kb !in states[i].table.retries
  {
    FlagHistory(kind, states, steps, i, kb);
    forall j | 0 <= j < i ensures !FlagSetAt(states, steps, j, i, kb) {
      assert ClearsFlag(states[k], steps[k], kb) && !SetsFlag(states[k], steps[k], kb);
    }
  }
}

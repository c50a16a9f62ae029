/**
 * The busy-count protocol that guards the policy list, as interleaved steps of any number
 * of threads.  One step is one access to shared state: taking or leaving the mutex,
 * changing the count, sleeping, waking, reading the list or changing it.  What a thread writes
 * to the list under the mutex is split where a reader without the mutex can tell: a load into
 * raising the static mark and the rest, growth into freeing the old array and replacing it.
 */
module MacLock {
  import opened MacPolicyList

  type Tid = nat

  /** What a traversal keeps: the handles visited, those whose entry it read from an array that
      was gone, the next index, where the static part ended, and what its unlocked test read of
      the number of policies and of the static mark. */
  datatype Scan = Scan(seen: seq<nat>, lost: set<nat>, i: nat, from: nat, loaded: int, mark: int)

  const START := Scan([], {}, 0, 0, 0, 0)

  /** The entry arrays, numbered: the one the list points to, and the one in memory.  They
      differ while the list grows: the old array is freed before the pointer is replaced. */
  datatype Memory = Memory(base: nat, live: nat)

  /** What a thread does after it has given up the busy count. */
  datatype After = Released | Finished(scan: Scan)

  datatype Pc =
    | Idle
    // the static part of a traversal: the loop test, the array pointer, then the entry
    | StaticTest(scan: Scan)
    | StaticBase(scan: Scan)
    | StaticRead(scan: Scan, base: nat)
    // mac_policy_list_conditional_busy; its first test reads two fields without the mutex
    | PeekLoaded(scan: Scan)
    | PeekMark(scan: Scan)
    | CondLock(scan: Scan)
    | CondTest(scan: Scan)
    | CondUnlock(scan: Scan, got: bool)
    // the dynamic part, and the end of a traversal
    | Walking(scan: Scan)
    | Done(scan: Scan)
    // mac_policy_list_busy
    | BusyLock
    | BusyInc
    | BusyUnlock
    | Holding
    // mac_policy_list_unbusy
    | UnbusyLock(after: After)
    | UnbusyDec(after: After)
    | UnbusyWake(after: After)
    | UnbusyUnlock(after: After)
    // mac_policy_grab_exclusive and mac_policy_release_exclusive
    | GrabLock
    | GrabTest
    | Asleep
    | Exclusive
    | Growing
    | Loading(p: Policy, h: int, was: Table)
    | ReleaseUnlock
    | ReleaseWake
  {
    /** Between the increment and the decrement of the busy count. */
    predicate Busy() {
      (CondUnlock? && got) || BusyUnlock? || Holding? || Walking? || UnbusyLock? || UnbusyDec?
    }

    predicate HoldsMutex() {
      CondTest? || CondUnlock? || BusyInc? || BusyUnlock? || UnbusyDec? || UnbusyWake? || UnbusyUnlock?
      || GrabTest? || Exclusive? || Growing? || Loading? || ReleaseUnlock?
    }

    predicate WantsMutex() {
      CondLock? || BusyLock? || UnbusyLock? || GrabLock?
    }

    /** In a traversal, not counting the end of its busy part. */
    predicate Scanning() {
      StaticTest? || StaticBase? || StaticRead? || PeekLoaded? || PeekMark? || CondLock? || CondTest? || CondUnlock? || Walking? || Done?
    }

    /** In an exclusive section. */
    predicate Alone() {
      Exclusive? || Growing? || Loading? || ReleaseUnlock?
    }
  }

  datatype Mutex = Free | Held(owner: Tid)

  datatype State = State(mutex: Mutex, busy: int, table: Table, mem: Memory, pcs: map<Tid, Pc>)

  /** What a thread does when it has a choice. */
  datatype Choice = StartTraversal | StartBusy | StartWrite | Grow | Unload(h: int) | Load(p: Policy, h: int) | Leave

  predicate Has(t: Table, i: int) {
    0 <= i < |t.es| && t.es[i].Full?
  }

  predicate HasDynamic(t: Table) {
    t.numloaded > t.staticmax
  }

  /** The list after an unload.  Of its writes only the last, of the number of policies, is to a
      field that is read without the mutex, so they are one step. */
  ghost function Changed(t: Table, c: Choice): Table {
    match c
    case Unload(h) => if Unloads(t, h) then t.Removed(h) else t
    case _ => t
  }

  /** A load raises the static mark first, if the policy goes to the static part ... */
  function Begun(t: Table, p: Policy, h: int): Table {
    if t.GoesStatic(p, h) then t.(staticmax := t.staticmax + 1) else t
  }

  /** ... and enters the policy and counts it later.  Those writes are one step: without the
      mutex a reader sees of them the entry, which no traversal is owed yet, and the number of
      policies, which is written last. */
  ghost function Committed(t: Table, p: Policy, h: int): Table {
    if Loads(t, p, h) then t.Placed(p, h) else t
  }

  function WakeAll(pcs: map<Tid, Pc>): map<Tid, Pc> {
    map t | t in pcs :: if pcs[t].Asleep? then GrabLock else pcs[t]
  }

  /** The scan after entry i has been read. */
  function Read(t: Table, sc: Scan): Scan {
    sc.(i := sc.i + 1, seen := if Has(t, sc.i) then sc.seen + [sc.i] else sc.seen)
  }

  /** The scan after an entry has been read from an array that is gone: nothing is found there. */
  function Miss(sc: Scan): Scan {
    sc.(i := sc.i + 1, lost := sc.lost + {sc.i})
  }

  /** The unlocked test: go on only if more policies are loaded than the static part holds. */
  function Peeked(sc: Scan): Pc {
    if sc.loaded <= sc.mark then Done(sc) else CondLock(sc)
  }

  /** What a step does: where the thread goes, the mutex, the count and the list after it, and
      whether the sleepers are woken. */
  datatype Effect = Effect(pc: Pc, mutex: Mutex, busy: int, table: Table, mem: Memory, wakes: bool)

  /** A thread in a traversal, up to where it has walked the list. */
  function ScanEffect(t: Tid, pc: Pc, mutex: Mutex, busy: int, table: Table, mem: Memory, c: Choice): Effect
    requires pc.Scanning()
  {
    match pc
    case StaticTest(sc) =>
      Effect(if sc.i < table.staticmax then StaticBase(sc) else PeekLoaded(sc.(from := sc.i)), mutex, busy, table, mem, false)
    case StaticBase(sc) => Effect(StaticRead(sc, mem.base), mutex, busy, table, mem, false)
    case StaticRead(sc, base) =>
      Effect(StaticTest(if base == mem.live then Read(table, sc) else Miss(sc)), mutex, busy, table, mem, false)
    case PeekLoaded(sc) => Effect(PeekMark(sc.(loaded := table.numloaded)), mutex, busy, table, mem, false)
    case PeekMark(sc) => Effect(Peeked(sc.(mark := table.staticmax)), mutex, busy, table, mem, false)
    case CondLock(sc) => Effect(CondTest(sc), Held(t), busy, table, mem, false)
    case CondTest(sc) =>
      Effect(CondUnlock(sc, HasDynamic(table)), mutex, if HasDynamic(table) then busy + 1 else busy, table, mem, false)
    case CondUnlock(sc, got) => Effect(if got then Walking(sc) else Done(sc), Free, busy, table, mem, false)
    case Walking(sc) =>
      Effect(if sc.i <= table.maxindex then Walking(Read(table, sc)) else UnbusyLock(Finished(sc)), mutex, busy, table, mem, false)
    case Done(sc) => Effect(if c.Leave? then Idle else pc, mutex, busy, table, mem, false)
  }

  /** A thread that is idle, holds or gives up the count, or wants exclusivity. */
  function CountEffect(t: Tid, pc: Pc, mutex: Mutex, busy: int, table: Table, mem: Memory, c: Choice): Effect
    requires !pc.Scanning() && !pc.Alone()
  {
    match pc
    case Idle => Effect(Started(c), mutex, busy, table, mem, false)
    case BusyLock => Effect(BusyInc, Held(t), busy, table, mem, false)
    case BusyInc => Effect(BusyUnlock, mutex, busy + 1, table, mem, false)
    case BusyUnlock => Effect(Holding, Free, busy, table, mem, false)
    case Holding => Effect(if c.Leave? then UnbusyLock(Released) else Holding, mutex, busy, table, mem, false)
    case UnbusyLock(a) => Effect(UnbusyDec(a), Held(t), busy, table, mem, false)
    case UnbusyDec(a) => Effect(if busy - 1 == 0 then UnbusyWake(a) else UnbusyUnlock(a), mutex, busy - 1, table, mem, false)
    case UnbusyWake(a) => Effect(UnbusyUnlock(a), mutex, busy, table, mem, true)
    case UnbusyUnlock(a) => Effect(if a.Finished? then Done(a.scan) else Idle, Free, busy, table, mem, false)
    case GrabLock => Effect(GrabTest, Held(t), busy, table, mem, false)
    case GrabTest => Effect(if busy != 0 then Asleep else Exclusive, if busy != 0 then Free else mutex, busy, table, mem, false)
    case Asleep => Effect(Asleep, mutex, busy, table, mem, false)
    case ReleaseWake => Effect(Idle, mutex, busy, table, mem, true)
  }

  function Started(c: Choice): Pc {
    match c
    case StartTraversal => StaticTest(START)
    case StartBusy => BusyLock
    case StartWrite => GrabLock
    case _ => Idle
  }

  /** A thread in its exclusive section. */
  ghost function WriterEffect(pc: Pc, mutex: Mutex, busy: int, table: Table, mem: Memory, c: Choice): Effect
    requires pc.Alone()
  {
    match pc
    case Exclusive => (
      match c
      case Load(p, h) =>
        if Loads(table, p, h) then Effect(Loading(p, h, table), mutex, busy, Begun(table, p, h), mem, false)
        else Effect(Exclusive, mutex, busy, table, mem, false)
      case Grow =>
        if table.numloaded >= |table.es| then Effect(Growing, mutex, busy, table, mem.(live := mem.live + 1), false)
        else Effect(Exclusive, mutex, busy, table, mem, false)
      case Leave => Effect(ReleaseUnlock, mutex, busy, table, mem, false)
      case _ => Effect(Exclusive, mutex, busy, Changed(table, c), mem, false))
    case Growing => Effect(Exclusive, mutex, busy, table.Grown(), mem.(base := mem.live), false)
    case Loading(p, h, was) => Effect(Exclusive, mutex, busy, Committed(was, p, h), mem, false)
    case ReleaseUnlock => Effect(ReleaseWake, Free, busy, table, mem, false)
  }

  ghost function EffectOf(t: Tid, pc: Pc, mutex: Mutex, busy: int, table: Table, mem: Memory, c: Choice): Effect {
    if pc.WantsMutex() && mutex.Held? then Effect(pc, mutex, busy, table, mem, false)
    else if pc.Alone() then WriterEffect(pc, mutex, busy, table, mem, c)
    else if pc.Scanning() then ScanEffect(t, pc, mutex, busy, table, mem, c)
    else CountEffect(t, pc, mutex, busy, table, mem, c)
  }

  function Apply(s: State, t: Tid, e: Effect): State {
    State(e.mutex, e.busy, e.table, e.mem, (if e.wakes then WakeAll(s.pcs) else s.pcs)[t := e.pc])
  }

  /** One step of thread `t`; it stays where it is when it cannot move that way. */
  ghost function Step(s: State, t: Tid, c: Choice): State
    requires t in s.pcs
  {
    Apply(s, t, EffectOf(t, s.pcs[t], s.mutex, s.busy, s.table, s.mem, c))
  }

  // ---------- the protocol's invariant ----------

  function BusyThreads(pcs: map<Tid, Pc>): set<Tid> {
    set t | t in pcs && pcs[t].Busy()
  }

  /** The handles visited ascend, so none is visited twice, and lie before the next index. */
  predicate Ascending(sc: Scan) {
    && (forall j, k :: 0 <= j < k < |sc.seen| ==> sc.seen[j] < sc.seen[k])
    && forall j :: 0 <= j < |sc.seen| ==> sc.seen[j] < sc.i
  }

  ghost predicate Inv(s: State) {
    && s.busy == |BusyThreads(s.pcs)|
    && (forall t :: t in s.pcs ==> (s.pcs[t].HoldsMutex() <==> s.mutex == Held(t)))
    && (s.mutex.Held? ==> s.mutex.owner in s.pcs)
    && (forall t :: t in s.pcs && (s.pcs[t].Alone() || s.pcs[t].UnbusyWake?) ==> s.busy == 0)
    && (forall t :: t in s.pcs && s.pcs[t].Asleep? ==> s.busy != 0 || WakeupDue(s))
  }

  /** The last reader has decremented the count and is about to wake the sleepers. */
  predicate WakeupDue(s: State) {
    s.mutex.Held? && s.mutex.owner in s.pcs && s.pcs[s.mutex.owner].UnbusyWake?
  }

  /** After start-up: nothing under way, and any list in order. */
  ghost predicate Init(s: State) {
    s.mutex.Free? && s.busy == 0 && (forall t :: t in s.pcs ==> s.pcs[t].Idle?) && s.table.Ok() && s.table.late
    && s.mem.base == s.mem.live
  }

  lemma BusyAfter(pcs: map<Tid, Pc>, t: Tid, pc: Pc)
    requires t in pcs
    ensures BusyThreads(pcs[t := pc]) == if pc.Busy() then BusyThreads(pcs) + {t} else BusyThreads(pcs) - {t}
    ensures |BusyThreads(pcs[t := pc])| == |BusyThreads(pcs)| + (if pc.Busy() then 1 else 0) - (if pcs[t].Busy() then 1 else 0)
  {
    var b := BusyThreads(pcs);
    assert BusyThreads(pcs[t := pc]) == if pc.Busy() then b + {t} else b - {t};
    assert t in b <==> pcs[t].Busy();
  }

  lemma NobodyBusy(s: State, t: Tid)
    requires Inv(s) && t in s.pcs
    ensures s.busy >= 0 && (s.busy == 0 ==> !s.pcs[t].Busy())
  {
    assert t in BusyThreads(s.pcs) <==> s.pcs[t].Busy();
  }

  /** Waking the sleepers only lets them compete for the mutex again. */
  lemma WakeKeepsInv(s: State)
    requires Inv(s)
    ensures Inv(s.(pcs := WakeAll(s.pcs)))
    ensures forall t :: t in WakeAll(s.pcs) ==> !WakeAll(s.pcs)[t].Asleep?
  {
    assert BusyThreads(WakeAll(s.pcs)) == BusyThreads(s.pcs);
  }

  /** Thread `t` at `pc` may make this move. */
  predicate MayMove(t: Tid, pc: Pc, mutex: Mutex, busy: int, e: Effect) {
    && e.busy == busy + (if e.pc.Busy() then 1 else 0) - (if pc.Busy() then 1 else 0)
    && (e.busy != busy ==> mutex == Held(t))
    && (e.pc.HoldsMutex() <==> e.mutex == Held(t))
    && (e.mutex == mutex || ((mutex.Free? || mutex == Held(t)) && (e.mutex.Free? || e.mutex == Held(t))))
    && (e.pc.Alone() || e.pc.UnbusyWake? ==> e.busy == 0)
    && (e.pc.Asleep? ==> e.busy != 0 || pc.Asleep?)
    && (e.busy == 0 && busy != 0 ==> e.pc.UnbusyWake?)
    && (pc.UnbusyWake? ==> e.wakes)
  }

  /** What the invariant says about one thread, without the others. */
  predicate Local(t: Tid, pc: Pc, mutex: Mutex, busy: int) {
    && (pc.HoldsMutex() <==> mutex == Held(t)) && (pc.Alone() || pc.UnbusyWake? ==> busy == 0)
    && busy >= 0 && (busy == 0 ==> !pc.Busy())
  }

  lemma ScanMoves(t: Tid, pc: Pc, mutex: Mutex, busy: int, table: Table, mem: Memory, c: Choice)
    requires Local(t, pc, mutex, busy) && pc.Scanning() && !(pc.WantsMutex() && mutex.Held?)
    ensures MayMove(t, pc, mutex, busy, ScanEffect(t, pc, mutex, busy, table, mem, c))
  {
  }

  lemma CountMoves(t: Tid, pc: Pc, mutex: Mutex, busy: int, table: Table, mem: Memory, c: Choice)
    requires Local(t, pc, mutex, busy) && !pc.Scanning() && !pc.Alone() && !(pc.WantsMutex() && mutex.Held?)
    ensures MayMove(t, pc, mutex, busy, CountEffect(t, pc, mutex, busy, table, mem, c))
  {
  }

  lemma EffectMoves(t: Tid, pc: Pc, mutex: Mutex, busy: int, table: Table, mem: Memory, c: Choice)
    requires Local(t, pc, mutex, busy)
    ensures MayMove(t, pc, mutex, busy, EffectOf(t, pc, mutex, busy, table, mem, c))
  {
    if !(pc.WantsMutex() && mutex.Held?) && !pc.Alone() {
      if pc.Scanning() {
        ScanMoves(t, pc, mutex, busy, table, mem, c);
      } else {
        CountMoves(t, pc, mutex, busy, table, mem, c);
      }
    }
  }

  lemma MoveKeepsWakeup(s: State, t: Tid, e: Effect, u: Tid)
    requires Inv(s) && t in s.pcs && u in s.pcs && s.pcs[u].Asleep? && !e.wakes
    requires MayMove(t, s.pcs[t], s.mutex, s.busy, e)
    ensures u != t || e.pc.Asleep? ==> e.busy != 0 || WakeupDue(Apply(s, t, e))
  {
    assert s.busy != 0 || WakeupDue(s);
    assert s.pcs[t].HoldsMutex() <==> s.mutex == Held(t);
  }

  /** A move without waking keeps the invariant. */
  lemma MoveKeepsInv(s: State, t: Tid, e: Effect)
    requires Inv(s) && t in s.pcs && MayMove(t, s.pcs[t], s.mutex, s.busy, e) && !e.wakes
    ensures Inv(Apply(s, t, e))
  {
    var s' := Apply(s, t, e);
    BusyAfter(s.pcs, t, e.pc);
    forall u | u in s'.pcs
      ensures s'.pcs[u].HoldsMutex() <==> s'.mutex == Held(u)
      ensures s'.pcs[u].Alone() || s'.pcs[u].UnbusyWake? ==> s'.busy == 0
      ensures s'.pcs[u].Asleep? ==> s'.busy != 0 || WakeupDue(s')
    {
      assert s.pcs[u].HoldsMutex() <==> s.mutex == Held(u);
      if s.pcs[u].Asleep? {
        MoveKeepsWakeup(s, t, e, u);
      }
    }
  }

  lemma WakeKeepsMove(s: State, t: Tid, e: Effect)
    requires Inv(s) && t in s.pcs && MayMove(t, s.pcs[t], s.mutex, s.busy, e) && e.wakes
    ensures Inv(Apply(s, t, e))
  {
    var w := s.(pcs := WakeAll(s.pcs));
    WakeKeepsInv(s);
    BusyAfter(w.pcs, t, e.pc);
    var s' := Apply(s, t, e);
    forall u | u in s'.pcs
      ensures s'.pcs[u].HoldsMutex() <==> s'.mutex == Held(u)
      ensures s'.pcs[u].Alone() || s'.pcs[u].UnbusyWake? ==> s'.busy == 0
    {
      assert w.pcs[u].HoldsMutex() <==> w.mutex == Held(u);
    }
  }

  /** Every step of every thread keeps the invariant. */
  lemma StepKeepsInv(s: State, t: Tid, c: Choice)
    requires Inv(s) && t in s.pcs
    ensures Inv(Step(s, t, c))
  {
    NobodyBusy(s, t);
    EffectMoves(t, s.pcs[t], s.mutex, s.busy, s.table, s.mem, c);
    var e := EffectOf(t, s.pcs[t], s.mutex, s.busy, s.table, s.mem, c);
    if e.wakes {
      WakeKeepsMove(s, t, e);
    } else {
      MoveKeepsInv(s, t, e);
    }
  }

  // ---------- the list under the protocol ----------

  /** Where the thread that holds the mutex is. */
  function Owner(s: State): Pc {
    if s.mutex.Held? && s.mutex.owner in s.pcs then s.pcs[s.mutex.owner] else Idle
  }

  /** The list as the last completed change left it. */
  function Settled(s: State): Table {
    if Owner(s).Loading? then Owner(s).was else s.table
  }

  /** A load has raised the static mark and not yet entered its policy. */
  predicate StaticLoadUnderWay(s: State) {
    Owner(s).Loading? && Owner(s).was.GoesStatic(Owner(s).p, Owner(s).h)
  }

  /** A completed list is in order, and a load under way started from one. */
  ghost predicate PlaceOk(pc: Pc, table: Table) {
    if pc.Loading? then pc.was.Ok() && pc.was.late && Loads(pc.was, pc.p, pc.h) && table == Begun(pc.was, pc.p, pc.h)
    else table.Ok() && table.late
  }

  /** The list points to the array in memory, but for a growth under way. */
  predicate MemoryOk(pc: Pc, mem: Memory) {
    mem.live == if pc.Growing? then mem.base + 1 else mem.base
  }

  ghost predicate ListOk(s: State) {
    PlaceOk(Owner(s), s.table) && MemoryOk(Owner(s), s.mem)
  }

  /** The old entry array is freed and the list still points to it. */
  predicate GrowthUnderWay(s: State) {
    Owner(s).Growing?
  }

  lemma ChangedOk(t: Table, c: Choice)
    requires t.Ok()
    ensures Changed(t, c).Ok() && Changed(t, c).late == t.late && Changed(t, c).staticmax == t.staticmax
  {
    match c
    case Unload(h) =>
      if Unloads(t, h) {
        RemovedOk(t, h);
      }
    case _ =>
  }

  lemma CommittedOk(t: Table, p: Policy, h: int)
    requires t.Ok() && Loads(t, p, h)
    ensures Committed(t, p, h).Ok() && Committed(t, p, h).late == t.late
    ensures Committed(t, p, h).staticmax == Begun(t, p, h).staticmax
  {
    PlacedOk(t, p, h);
  }

  predicate ListUntouched(table: Table, mem: Memory, e: Effect) {
    e.table == table && e.mem == mem && !e.pc.Loading? && !e.pc.Growing?
  }

  lemma ScanOutside(t: Tid, pc: Pc, mutex: Mutex, busy: int, table: Table, mem: Memory, c: Choice)
    requires pc.Scanning()
    ensures ListUntouched(table, mem, ScanEffect(t, pc, mutex, busy, table, mem, c))
  {
  }

  lemma CountOutside(t: Tid, pc: Pc, mutex: Mutex, busy: int, table: Table, mem: Memory, c: Choice)
    requires !pc.Scanning() && !pc.Alone()
    ensures ListUntouched(table, mem, CountEffect(t, pc, mutex, busy, table, mem, c))
  {
  }

  /** Outside an exclusive section a thread neither changes the list nor starts a change. */
  lemma OutsideEffect(t: Tid, pc: Pc, mutex: Mutex, busy: int, table: Table, mem: Memory, c: Choice)
    requires !pc.Alone()
    ensures ListUntouched(table, mem, EffectOf(t, pc, mutex, busy, table, mem, c))
  {
    if pc.Scanning() {
      ScanOutside(t, pc, mutex, busy, table, mem, c);
    } else {
      CountOutside(t, pc, mutex, busy, table, mem, c);
    }
  }

  lemma WriterPlace(pc: Pc, mutex: Mutex, busy: int, table: Table, mem: Memory, c: Choice)
    requires pc.Alone() && PlaceOk(pc, table)
    ensures var e := WriterEffect(pc, mutex, busy, table, mem, c); PlaceOk(if pc.ReleaseUnlock? then Idle else e.pc, e.table)
    ensures MemoryOk(pc, mem) ==> var e := WriterEffect(pc, mutex, busy, table, mem, c); MemoryOk(if pc.ReleaseUnlock? then Idle else e.pc, e.mem)
  {
    if pc.Exclusive? {
      ChangedOk(table, c);
    } else if pc.Growing? {
      GrownOk(table);
    } else if pc.Loading? {
      CommittedOk(pc.was, pc.p, pc.h);
    }
  }

  lemma WriterOwner(s: State, t: Tid, c: Choice)
    requires Inv(s) && t in s.pcs && s.pcs[t].Alone()
    ensures Owner(s) == s.pcs[t]
    ensures Owner(Step(s, t, c)) == if s.pcs[t].ReleaseUnlock? then Idle else WriterEffect(s.pcs[t], s.mutex, s.busy, s.table, s.mem, c).pc
  {
    assert s.mutex == Held(t);
  }

  lemma WriterKeepsList(s: State, t: Tid, c: Choice)
    requires Inv(s) && ListOk(s) && t in s.pcs && s.pcs[t].Alone()
    ensures ListOk(Step(s, t, c))
  {
    WriterOwner(s, t, c);
    WriterPlace(s.pcs[t], s.mutex, s.busy, s.table, s.mem, c);
  }

  /** The same change of the list is under way, or none. */
  predicate SameChange(pc: Pc, pc': Pc) {
    if pc.Loading? || pc.Growing? then pc' == pc else !pc'.Loading? && !pc'.Growing?
  }

  /** Outside, a thread takes the mutex only when it is free and leaves the owner alone. */
  lemma OutsideOwner(s: State, t: Tid, e: Effect)
    requires Inv(s) && t in s.pcs && !s.pcs[t].Alone() && MayMove(t, s.pcs[t], s.mutex, s.busy, e)
    requires !e.pc.Loading? && !e.pc.Growing?
    ensures SameChange(Owner(s), Owner(Apply(s, t, e)))
  {
    var s' := Apply(s, t, e);
    assert s.pcs[t].HoldsMutex() <==> s.mutex == Held(t);
    if s.mutex.Held? {
      assert s.pcs[s.mutex.owner].HoldsMutex();
    }
    forall u | u in s'.pcs && u != t ensures SameChange(s.pcs[u], s'.pcs[u]) {
    }
    if !Owner(s).Loading? && !Owner(s).Growing? && s'.mutex.Held? && s'.mutex.owner != t {
      assert s'.mutex == s.mutex;
    }
  }

  lemma SamePlace(pc: Pc, pc': Pc, table: Table, mem: Memory)
    requires PlaceOk(pc, table) && MemoryOk(pc, mem) && SameChange(pc, pc')
    ensures PlaceOk(pc', table) && MemoryOk(pc', mem)
  {
  }

  lemma StepKeepsList(s: State, t: Tid, c: Choice)
    requires Inv(s) && ListOk(s) && t in s.pcs
    ensures ListOk(Step(s, t, c))
  {
    if s.pcs[t].Alone() {
      WriterKeepsList(s, t, c);
    } else {
      NobodyBusy(s, t);
      OutsideEffect(t, s.pcs[t], s.mutex, s.busy, s.table, s.mem, c);
      EffectMoves(t, s.pcs[t], s.mutex, s.busy, s.table, s.mem, c);
      OutsideOwner(s, t, EffectOf(t, s.pcs[t], s.mutex, s.busy, s.table, s.mem, c));
      SamePlace(Owner(s), Owner(Step(s, t, c)), s.table, s.mem);
    }
  }

  // ---------- runs ----------

  ghost predicate Stepped(s: State, s': State, t: Tid, c: Choice) {
    t in s.pcs && s' == Step(s, t, c)
  }

  ghost predicate Follows(s: State, s': State) {
    exists t, c :: Stepped(s, s', t, c)
  }

  ghost predicate FollowsAt(run: seq<State>, i: nat) {
    0 < i < |run| && Follows(run[i - 1], run[i])
  }

  /** A run: an initial state, and each later state a step of some thread from the one before. */
  ghost predicate IsRun(run: seq<State>) {
    && run != [] && Init(run[0])
    && forall i :: 0 < i < |run| ==> FollowsAt(run, i)
  }

  lemma StepAt(run: seq<State>, i: nat) returns (t: Tid, c: Choice)
    requires IsRun(run) && 0 < i < |run|
    ensures Stepped(run[i - 1], run[i], t, c)
  {
    assert FollowsAt(run, i);
    t, c :| Stepped(run[i - 1], run[i], t, c);
  }

  lemma {:induction false} RunKeepsInv(run: seq<State>, i: nat)
    requires IsRun(run) && i < |run|
    ensures Inv(run[i]) && ListOk(run[i])
    decreases i
  {
    if i == 0 {
      assert BusyThreads(run[0].pcs) == {};
    } else {
      RunKeepsInv(run, i - 1);
      var t, c := StepAt(run, i);
      StepKeepsInv(run[i - 1], t, c);
      StepKeepsList(run[i - 1], t, c);
    }
  }

  /** The busy count is the number of threads between their increment and their decrement,
      so it is never negative when a thread has just decremented it. */
  lemma BusyCountsReaders(run: seq<State>, i: nat)
    requires IsRun(run) && i < |run|
    ensures run[i].busy == |BusyThreads(run[i].pcs)| >= 0
  {
    RunKeepsInv(run, i);
  }

  /** A thread in its exclusive section is alone: it owns the mutex, no thread is busy, and
      no other thread is exclusive. */
  lemma ExclusiveIsAlone(run: seq<State>, i: nat, t: Tid, u: Tid)
    requires IsRun(run) && i < |run| && t in run[i].pcs && u in run[i].pcs && run[i].pcs[t].Alone()
    ensures run[i].mutex == Held(t) && run[i].busy == 0 && !run[i].pcs[u].Busy()
    ensures u != t ==> !run[i].pcs[u].HoldsMutex()
  {
    RunKeepsInv(run, i);
    NobodyBusy(run[i], u);
  }

  lemma OnlyExclusiveChanges(s: State, t: Tid, c: Choice)
    requires t in s.pcs
    ensures Step(s, t, c).table != s.table ==> s.pcs[t].Alone()
  {
    if !s.pcs[t].Alone() {
      OutsideEffect(t, s.pcs[t], s.mutex, s.busy, s.table, s.mem, c);
    }
  }

  lemma FrozenStep(s: State, t: Tid, c: Choice, u: Tid)
    requires Inv(s) && t in s.pcs && u in s.pcs && s.pcs[u].Busy()
    ensures Step(s, t, c).table == s.table == Settled(s)
  {
    NobodyBusy(s, u);
    OnlyExclusiveChanges(s, t, c);
  }

  /** The list never changes under a busy thread, and is in order then. */
  lemma BusyFreezesTable(run: seq<State>, i: nat, u: Tid)
    requires IsRun(run) && 0 < i < |run| && u in run[i - 1].pcs && run[i - 1].pcs[u].Busy()
    ensures run[i].table == run[i - 1].table && run[i].table.Ok()
  {
    RunKeepsInv(run, i - 1);
    var t, c := StepAt(run, i);
    FrozenStep(run[i - 1], t, c, u);
  }

  /** No lost wakeup: a writer sleeps only while some thread is busy, or while the last one
      still holds the mutex on its way to wake it. */
  lemma SleepersHaveACause(run: seq<State>, i: nat, t: Tid)
    requires IsRun(run) && i < |run| && t in run[i].pcs && run[i].pcs[t].Asleep?
    ensures run[i].busy > 0 || WakeupDue(run[i])
    ensures run[i].mutex.Free? ==> run[i].busy > 0
  {
    RunKeepsInv(run, i);
  }

  ghost predicate Moves(s: State, t: Tid, c: Choice) {
    t in s.pcs && !s.pcs[t].Idle? && Step(s, t, c) != s
  }

  lemma CanMove(s: State, t: Tid)
    requires t in s.pcs && !s.pcs[t].Idle? && !s.pcs[t].Asleep? && (s.mutex.Free? || s.mutex == Held(t))
    requires s.pcs[t].HoldsMutex() <==> s.mutex == Held(t)
    ensures Moves(s, t, Leave)
  {
    assert Step(s, t, Leave).pcs[t] != s.pcs[t];
  }

  /** No deadlock: unless every thread is idle, some operation under way can go on. */
  lemma NoDeadlock(run: seq<State>, i: nat)
    requires IsRun(run) && i < |run|
    requires exists t :: t in run[i].pcs && !run[i].pcs[t].Idle?
    ensures exists t, c :: Moves(run[i], t, c)
  {
    var s := run[i];
    RunKeepsInv(run, i);
    var t :| t in s.pcs && !s.pcs[t].Idle?;
    if s.mutex.Held? {
      CanMove(s, s.mutex.owner);
    } else if !s.pcs[t].Asleep? {
      CanMove(s, t);
    } else {
      assert |BusyThreads(s.pcs)| > 0;
      var u :| u in BusyThreads(s.pcs);
      CanMove(s, u);
    }
  }
}

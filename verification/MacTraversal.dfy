/**
 * What a traversal of the policy list sees while other threads load and unload policies.
 */
module MacTraversal {
  import opened MacPolicyList
  import opened MacLock

  predicate InTraversal(pc: Pc) {
    pc.Scanning() || ((pc.UnbusyLock? || pc.UnbusyDec? || pc.UnbusyWake? || pc.UnbusyUnlock?) && pc.after.Finished?)
  }

  predicate InStatic(pc: Pc) {
    pc.StaticTest? || pc.StaticBase? || pc.StaticRead?
  }

  function ScanOf(pc: Pc): Scan
    requires InTraversal(pc)
  {
    if pc.Scanning() then pc.scan else pc.after.scan
  }

  /** Thread t begins a traversal at a and is still in it, or done with it, at b. */
  ghost predicate Traversal(run: seq<State>, a: nat, b: nat, t: Tid) {
    && IsRun(run) && a <= b < |run| && t in run[a].pcs && run[a].pcs[t] == StaticTest(START)
    && forall k :: a <= k <= b ==> t in run[k].pcs && InTraversal(run[k].pcs[t])
  }

  /** The policy of entry e is loaded at handle h all the while. */
  ghost predicate Throughout(run: seq<State>, a: nat, b: nat, h: nat, e: Entry) {
    e.Full? && a <= b < |run| && forall k :: a <= k <= b ==> h < |run[k].table.es| && run[k].table.es[h] == e
  }

  // ---------- the static mark ----------

  lemma LoadPassesNothing(table: Table, p: Policy, h': int, h: nat)
    requires table.late && Loads(table, p, h') && Has(table, h)
    ensures h < table.staticmax <==> h < Begun(table, p, h').staticmax
    ensures table.staticmax <= Begun(table, p, h').staticmax
  {
  }

  lemma WriterPassesNothing(pc: Pc, mutex: Mutex, busy: int, table: Table, mem: Memory, c: Choice, h: nat)
    requires pc.Alone() && PlaceOk(pc, table) && Has(table, h)
    ensures var m, m' := table.staticmax, WriterEffect(pc, mutex, busy, table, mem, c).table.staticmax;
      m <= m' && (h < m <==> h < m')
  {
    if pc.Exclusive? {
      ChangedOk(table, c);
      if c.Load? && Loads(table, c.p, c.h) {
        LoadPassesNothing(table, c.p, c.h, h);
      }
    } else if pc.Loading? {
      CommittedOk(pc.was, pc.p, pc.h);
    }
  }

  /** The static mark never falls and never passes a handle that is occupied. */
  lemma MarkPassesNothing(s: State, u: Tid, c: Choice, h: nat)
    requires Inv(s) && ListOk(s) && u in s.pcs && Has(s.table, h)
    ensures var m, m' := s.table.staticmax, Step(s, u, c).table.staticmax; m <= m' && (h < m <==> h < m')
  {
    if s.pcs[u].Alone() {
      assert s.mutex == Held(u);
      WriterPassesNothing(s.pcs[u], s.mutex, s.busy, s.table, s.mem, c, h);
    } else {
      OutsideEffect(u, s.pcs[u], s.mutex, s.busy, s.table, s.mem, c);
    }
  }

  /** A list in order with a policy at or above the mark has more policies than the static part. */
  lemma DynamicCounts(table: Table, h: nat)
    requires table.Ok() && Has(table, h) && h >= table.staticmax
    ensures HasDynamic(table) && h <= table.maxindex
  {
    CountPrefix(table.es, table.staticmax);
  }

  // ---------- one traversal, one policy ----------

  /** Handle h is visited, or lost to an array that was gone, or still to come. */
  predicate Known(sc: Scan, h: nat) {
    && Ascending(sc) && (h < sc.i ==> h in sc.seen || h in sc.lost)
    && (h in sc.lost ==> h < sc.i && h !in sc.seen)
  }

  /** The static part is over: it ended at the mark, and nothing is lost after it. */
  predicate PastStatic(sc: Scan, m: int, h: nat) {
    (h < sc.from <==> h < m) && (h in sc.lost ==> h < sc.from)
  }

  /** What is known of a traversal about a policy that is loaded all the while, when the static
      mark stands at m. */
  predicate Tracks(pc: Pc, m: int, h: nat)
    requires InTraversal(pc)
  {
    var sc := ScanOf(pc);
    && Ascending(sc) && (pc.Done? || Known(sc, h))
    && match pc {
      case StaticTest(_) => sc.i <= m
      case StaticBase(_) => sc.i < m
      case StaticRead(_, _) => sc.i < m
      case PeekLoaded(_) => sc.from == sc.i && PastStatic(sc, m, h)
      case PeekMark(_) => sc.from == sc.i && PastStatic(sc, m, h)
      case CondLock(_) => sc.from == sc.i && PastStatic(sc, m, h) && sc.loaded > sc.mark
      case CondTest(_) => sc.from == sc.i && PastStatic(sc, m, h) && sc.loaded > sc.mark
      case CondUnlock(_, got) => sc.from == sc.i && (h < sc.from || got) && PastStatic(sc, m, h) && sc.loaded > sc.mark
      case Walking(_) => sc.from <= sc.i && PastStatic(sc, m, h) && sc.loaded > sc.mark
      case Done(_) => PastStatic(sc, m, h) && (h in sc.seen <==> if h < sc.from then h !in sc.lost else sc.loaded > sc.mark)
      case _ => PastStatic(sc, m, h) && (h in sc.seen || h in sc.lost) && sc.loaded > sc.mark
    }
  }

  lemma ReadAscends(table: Table, sc: Scan)
    requires Ascending(sc)
    ensures Ascending(Read(table, sc))
  {
    var r := Read(table, sc);
    assert forall j :: 0 <= j < |sc.seen| ==> r.seen[j] == sc.seen[j];
  }

  lemma ReadVisits(table: Table, sc: Scan, h: nat)
    requires Has(table, h) && Known(sc, h)
    ensures Known(Read(table, sc), h)
  {
    ReadAscends(table, sc);
    NotBeyond(sc, h);
    assert h in Read(table, sc).seen <==> h in sc.seen || h == sc.i;
  }

  lemma MissLoses(sc: Scan, h: nat)
    requires Known(sc, h)
    ensures Known(Miss(sc), h)
  {
    NotBeyond(sc, h);
  }

  lemma NotBeyond(sc: Scan, h: nat)
    requires Ascending(sc)
    ensures h in sc.seen ==> h < sc.i
  {
  }

  /** The thread's own step, in the static part ... */
  lemma StaticTracks(t: Tid, pc: Pc, mutex: Mutex, busy: int, table: Table, mem: Memory, c: Choice, h: nat)
    requires InStatic(pc) && Tracks(pc, table.staticmax, h) && Has(table, h)
    ensures var e := ScanEffect(t, pc, mutex, busy, table, mem, c); InTraversal(e.pc) && Tracks(e.pc, table.staticmax, h)
  {
    if pc.StaticRead? {
      ReadVisits(table, pc.scan, h);
      MissLoses(pc.scan, h);
    }
  }

  /** ... in the rest of the traversal ... */
  lemma ScanTracks(t: Tid, pc: Pc, mutex: Mutex, busy: int, table: Table, mem: Memory, c: Choice, h: nat)
    requires pc.Scanning() && !InStatic(pc) && Tracks(pc, table.staticmax, h) && Has(table, h)
    requires pc.CondTest? && h >= table.staticmax ==> HasDynamic(table)
    requires pc.Walking? ==> h <= table.maxindex
    ensures var e := ScanEffect(t, pc, mutex, busy, table, mem, c); InTraversal(e.pc) ==> Tracks(e.pc, table.staticmax, h)
  {
    if pc.Walking? {
      ReadVisits(table, pc.scan, h);
    } else if !pc.Done? {
      NotBeyond(pc.scan, h);
    }
  }

  /** ... and after it. */
  lemma FinishTracks(t: Tid, pc: Pc, mutex: Mutex, busy: int, table: Table, mem: Memory, c: Choice, h: nat)
    requires InTraversal(pc) && !pc.Scanning() && Tracks(pc, table.staticmax, h)
    ensures var e := CountEffect(t, pc, mutex, busy, table, mem, c); InTraversal(e.pc) ==> Tracks(e.pc, table.staticmax, h)
  {
  }

  /** In a state where the thread holds the mutex or the count, the list is in order. */
  lemma ListIsSettled(s: State, t: Tid, h: nat)
    requires Inv(s) && ListOk(s) && t in s.pcs && (s.pcs[t].CondTest? || s.pcs[t].Walking?) && Has(s.table, h)
    ensures h >= s.table.staticmax ==> HasDynamic(s.table)
    ensures h <= s.table.maxindex
  {
    NobodyBusy(s, t);
    assert s.pcs[t].HoldsMutex() <==> s.mutex == Held(t);
    assert !Owner(s).Loading?;
    if h >= s.table.staticmax {
      DynamicCounts(s.table, h);
    }
  }

  lemma OwnTracks(t: Tid, pc: Pc, mutex: Mutex, busy: int, table: Table, mem: Memory, c: Choice, h: nat)
    requires InTraversal(pc) && Tracks(pc, table.staticmax, h) && Has(table, h)
    requires pc.CondTest? && h >= table.staticmax ==> HasDynamic(table)
    requires pc.Walking? ==> h <= table.maxindex
    ensures var e := EffectOf(t, pc, mutex, busy, table, mem, c); InTraversal(e.pc) ==> Tracks(e.pc, table.staticmax, h)
  {
    if InStatic(pc) {
      StaticTracks(t, pc, mutex, busy, table, mem, c, h);
    } else if pc.Scanning() {
      ScanTracks(t, pc, mutex, busy, table, mem, c, h);
    } else {
      FinishTracks(t, pc, mutex, busy, table, mem, c, h);
    }
  }

  lemma OwnStep(s: State, t: Tid, c: Choice, h: nat)
    requires Inv(s) && ListOk(s) && t in s.pcs && InTraversal(s.pcs[t]) && Tracks(s.pcs[t], s.table.staticmax, h)
    requires Has(s.table, h)
    ensures var s' := Step(s, t, c); InTraversal(s'.pcs[t]) ==> Tracks(s'.pcs[t], s'.table.staticmax, h)
  {
    OutsideEffect(t, s.pcs[t], s.mutex, s.busy, s.table, s.mem, c);
    if s.pcs[t].CondTest? || s.pcs[t].Walking? {
      ListIsSettled(s, t, h);
    }
    OwnTracks(t, s.pcs[t], s.mutex, s.busy, s.table, s.mem, c, h);
  }

  lemma OtherPlace(s: State, u: Tid, c: Choice, t: Tid)
    requires t in s.pcs && u in s.pcs && u != t && !s.pcs[t].Asleep?
    ensures t in Step(s, u, c).pcs && Step(s, u, c).pcs[t] == s.pcs[t]
  {
  }

  lemma MarkRises(pc: Pc, m: int, m': int, h: nat)
    requires InTraversal(pc) && Tracks(pc, m, h) && m <= m' && (h < m <==> h < m')
    ensures Tracks(pc, m', h)
  {
  }

  lemma StepTracks(s: State, u: Tid, c: Choice, t: Tid, h: nat)
    requires Inv(s) && ListOk(s) && u in s.pcs && t in s.pcs && Has(s.table, h)
    requires InTraversal(s.pcs[t]) && Tracks(s.pcs[t], s.table.staticmax, h)
    ensures var s' := Step(s, u, c); InTraversal(s'.pcs[t]) ==> Tracks(s'.pcs[t], s'.table.staticmax, h)
    ensures h < s.table.staticmax <==> h < Step(s, u, c).table.staticmax
  {
    MarkPassesNothing(s, u, c, h);
    if u == t {
      OwnStep(s, t, c, h);
    } else {
      OtherPlace(s, u, c, t);
      MarkRises(s.pcs[t], s.table.staticmax, Step(s, u, c).table.staticmax, h);
    }
  }

  lemma RunStepTracks(run: seq<State>, k: nat, t: Tid, h: nat)
    requires IsRun(run) && 0 < k < |run| && t in run[k - 1].pcs && Has(run[k - 1].table, h)
    requires InTraversal(run[k - 1].pcs[t]) && Tracks(run[k - 1].pcs[t], run[k - 1].table.staticmax, h)
    requires t in run[k].pcs && InTraversal(run[k].pcs[t])
    ensures Tracks(run[k].pcs[t], run[k].table.staticmax, h)
    ensures h < run[k - 1].table.staticmax <==> h < run[k].table.staticmax
  {
    RunKeepsInv(run, k - 1);
    var u, c := StepAt(run, k);
    StepTracks(run[k - 1], u, c, t, h);
  }

  lemma {:induction false} RunTracks(run: seq<State>, a: nat, k: nat, t: Tid, h: nat, e: Entry)
    requires Traversal(run, a, k, t) && Throughout(run, a, k, h, e)
    ensures Tracks(run[k].pcs[t], run[k].table.staticmax, h)
    ensures h < run[a].table.staticmax <==> h < run[k].table.staticmax
    decreases k
  {
    if a == k {
      MarkIsNat(run, k);
    } else {
      RunTracks(run, a, k - 1, t, h, e);
      RunStepTracks(run, k, t, h);
    }
  }

  lemma MarkIsNat(run: seq<State>, k: nat)
    requires IsRun(run) && k < |run|
    ensures run[k].table.staticmax >= 0
  {
    RunKeepsInv(run, k);
  }

  // ---------- what a traversal read, and when ----------

  ghost predicate MarkWas(run: seq<State>, k: nat, m: int) {
    k < |run| && run[k].table.staticmax == m
  }

  ghost predicate LoadedWas(run: seq<State>, k: nat, n: int) {
    k < |run| && run[k].table.numloaded == n
  }

  ghost predicate ReadFrom(run: seq<State>, a: nat, b: nat, sc: Scan) {
    exists k :: a <= k <= b && MarkWas(run, k, sc.from)
  }

  ghost predicate ReadLoaded(run: seq<State>, a: nat, b: nat, sc: Scan) {
    exists k, l :: a <= k <= l <= b && MarkWas(run, k, sc.from) && LoadedWas(run, l, sc.loaded)
  }

  /** The static mark when the static loop ended, then the number of policies and the mark that
      the unlocked test read: all were so at some time, in this order. */
  ghost predicate ReadMark(run: seq<State>, a: nat, b: nat, sc: Scan) {
    exists k, l, m :: a <= k <= l <= m <= b
      && MarkWas(run, k, sc.from) && LoadedWas(run, l, sc.loaded) && MarkWas(run, m, sc.mark)
  }

  ghost predicate Recorded(run: seq<State>, a: nat, k: nat, pc: Pc)
    requires InTraversal(pc)
  {
    if InStatic(pc) then true
    else if pc.PeekLoaded? then ReadFrom(run, a, k, ScanOf(pc))
    else if pc.PeekMark? then ReadLoaded(run, a, k, ScanOf(pc))
    else ReadMark(run, a, k, ScanOf(pc))
  }

  lemma RecordedLater(run: seq<State>, a: nat, k: nat, pc: Pc)
    requires InTraversal(pc) && Recorded(run, a, k, pc)
    ensures Recorded(run, a, k + 1, pc)
  {
  }

  /** What a traversal holds after its own step at state k. */
  lemma ScanRecorded(run: seq<State>, a: nat, k: nat, t: Tid, pc: Pc, c: Choice, h: nat)
    requires a <= k < |run| && pc.Scanning() && Recorded(run, a, k, pc) && Tracks(pc, run[k].table.staticmax, h)
    ensures var e := ScanEffect(t, pc, run[k].mutex, run[k].busy, run[k].table, run[k].mem, c);
      InTraversal(e.pc) ==> Recorded(run, a, k, e.pc)
  {
    assert MarkWas(run, k, run[k].table.staticmax) && LoadedWas(run, k, run[k].table.numloaded);
  }

  lemma FinishRecorded(run: seq<State>, a: nat, k: nat, t: Tid, pc: Pc, c: Choice)
    requires a <= k < |run| && InTraversal(pc) && !pc.Scanning() && Recorded(run, a, k, pc)
    ensures var e := CountEffect(t, pc, run[k].mutex, run[k].busy, run[k].table, run[k].mem, c);
      InTraversal(e.pc) ==> Recorded(run, a, k, e.pc)
  {
  }

  lemma OwnRecorded(run: seq<State>, a: nat, k: nat, t: Tid, pc: Pc, c: Choice, h: nat)
    requires a <= k < |run| && InTraversal(pc) && Recorded(run, a, k, pc) && Tracks(pc, run[k].table.staticmax, h)
    ensures var e := EffectOf(t, pc, run[k].mutex, run[k].busy, run[k].table, run[k].mem, c);
      InTraversal(e.pc) ==> Recorded(run, a, k, e.pc)
  {
    if pc.Scanning() {
      ScanRecorded(run, a, k, t, pc, c, h);
    } else {
      FinishRecorded(run, a, k, t, pc, c);
    }
  }

  lemma RunStepRecorded(run: seq<State>, a: nat, k: nat, t: Tid, h: nat)
    requires IsRun(run) && a < k < |run| && t in run[k - 1].pcs && InTraversal(run[k - 1].pcs[t])
    requires Recorded(run, a, k - 1, run[k - 1].pcs[t]) && Tracks(run[k - 1].pcs[t], run[k - 1].table.staticmax, h)
    ensures t in run[k].pcs && (InTraversal(run[k].pcs[t]) ==> Recorded(run, a, k, run[k].pcs[t]))
  {
    var u, c := StepAt(run, k);
    if u == t {
      OwnRecorded(run, a, k - 1, t, run[k - 1].pcs[t], c, h);
      if InTraversal(run[k].pcs[t]) {
        RecordedLater(run, a, k - 1, run[k].pcs[t]);
      }
    } else {
      OtherPlace(run[k - 1], u, c, t);
      RecordedLater(run, a, k - 1, run[k - 1].pcs[t]);
    }
  }

  lemma {:induction false} RunRecorded(run: seq<State>, a: nat, k: nat, t: Tid, h: nat, e: Entry)
    requires Traversal(run, a, k, t) && Throughout(run, a, k, h, e)
    ensures Recorded(run, a, k, run[k].pcs[t])
    decreases k
  {
    if a == k {
    } else {
      RunRecorded(run, a, k - 1, t, h, e);
      RunTracks(run, a, k - 1, t, h, e);
      RunStepRecorded(run, a, k, t, h);
    }
  }

  // ---------- reads from an array that is gone ----------

  /** The thread is about to read the entry of handle h through a pointer to a freed array. */
  predicate Stale(pc: Pc, mem: Memory, h: nat) {
    pc.StaticRead? && pc.scan.i == h && pc.base < mem.live
  }

  ghost predicate StaleAt(run: seq<State>, k: nat, t: Tid, h: nat) {
    k < |run| && t in run[k].pcs && Stale(run[k].pcs[t], run[k].mem, h)
  }

  ghost predicate StaleRead(run: seq<State>, a: nat, b: nat, t: Tid, h: nat) {
    exists k :: a <= k <= b && StaleAt(run, k, t, h)
  }

  /** A traversal's array pointer is never newer than the array in memory. */
  predicate Aged(pc: Pc, mem: Memory) {
    pc.StaticRead? ==> pc.base <= mem.live
  }

  predicate IsLost(pc: Pc, h: nat) {
    InTraversal(pc) && h in ScanOf(pc).lost
  }

  lemma MemoryAges(s: State, u: Tid, c: Choice)
    requires Inv(s) && ListOk(s) && u in s.pcs
    ensures s.mem.base <= s.mem.live <= Step(s, u, c).mem.live
  {
    if !s.pcs[u].Alone() {
      OutsideEffect(u, s.pcs[u], s.mutex, s.busy, s.table, s.mem, c);
    }
  }

  predicate Loses(pc: Pc, pc': Pc, mem: Memory, h: nat) {
    InTraversal(pc') ==> Aged(pc', mem) && (IsLost(pc', h) <==> IsLost(pc, h) || Stale(pc, mem, h))
  }

  lemma ScanLoses(t: Tid, pc: Pc, mutex: Mutex, busy: int, table: Table, mem: Memory, c: Choice, h: nat)
    requires pc.Scanning() && Aged(pc, mem) && mem.base <= mem.live
    ensures Loses(pc, ScanEffect(t, pc, mutex, busy, table, mem, c).pc, mem, h)
  {
  }

  lemma FinishLoses(t: Tid, pc: Pc, mutex: Mutex, busy: int, table: Table, mem: Memory, c: Choice, h: nat)
    requires InTraversal(pc) && !pc.Scanning()
    ensures Loses(pc, CountEffect(t, pc, mutex, busy, table, mem, c).pc, mem, h)
  {
  }

  lemma OwnLoses(t: Tid, pc: Pc, mutex: Mutex, busy: int, table: Table, mem: Memory, c: Choice, h: nat)
    requires InTraversal(pc) && Aged(pc, mem) && mem.base <= mem.live
    ensures Loses(pc, EffectOf(t, pc, mutex, busy, table, mem, c).pc, mem, h)
  {
    if pc.Scanning() {
      ScanLoses(t, pc, mutex, busy, table, mem, c, h);
    } else {
      FinishLoses(t, pc, mutex, busy, table, mem, c, h);
    }
  }

  lemma StepLoses(s: State, u: Tid, c: Choice, t: Tid, h: nat)
    requires Inv(s) && ListOk(s) && u in s.pcs && t in s.pcs && InTraversal(s.pcs[t]) && Aged(s.pcs[t], s.mem)
    ensures var s' := Step(s, u, c); t in s'.pcs && (InTraversal(s'.pcs[t]) ==> Aged(s'.pcs[t], s'.mem))
    ensures var pc, pc' := s.pcs[t], Step(s, u, c).pcs[t]; InTraversal(pc') && IsLost(pc', h) ==> IsLost(pc, h) || Stale(pc, s.mem, h)
    ensures var pc, s' := s.pcs[t], Step(s, u, c); InTraversal(s'.pcs[t]) && (IsLost(pc, h) || Stale(pc, s.mem, h)) ==>
      IsLost(s'.pcs[t], h) || Stale(s'.pcs[t], s'.mem, h)
  {
    MemoryAges(s, u, c);
    if u == t {
      OutsideEffect(t, s.pcs[t], s.mutex, s.busy, s.table, s.mem, c);
      OwnLoses(t, s.pcs[t], s.mutex, s.busy, s.table, s.mem, c, h);
    } else {
      OtherPlace(s, u, c, t);
    }
  }

  lemma RunStepLoses(run: seq<State>, k: nat, t: Tid, h: nat)
    requires IsRun(run) && 0 < k < |run| && t in run[k - 1].pcs && InTraversal(run[k - 1].pcs[t])
    requires Aged(run[k - 1].pcs[t], run[k - 1].mem) && t in run[k].pcs && InTraversal(run[k].pcs[t])
    ensures Aged(run[k].pcs[t], run[k].mem)
    ensures IsLost(run[k].pcs[t], h) ==> IsLost(run[k - 1].pcs[t], h) || StaleAt(run, k - 1, t, h)
    ensures IsLost(run[k - 1].pcs[t], h) || StaleAt(run, k - 1, t, h) ==> IsLost(run[k].pcs[t], h) || StaleAt(run, k, t, h)
  {
    RunKeepsInv(run, k - 1);
    var u, c := StepAt(run, k);
    StepLoses(run[k - 1], u, c, t, h);
  }

  /** A handle is lost, or about to be, exactly when a stale read of it has come up. */
  lemma {:induction false} RunLoses(run: seq<State>, a: nat, k: nat, t: Tid, h: nat)
    requires Traversal(run, a, k, t)
    ensures Aged(run[k].pcs[t], run[k].mem)
    ensures StaleRead(run, a, k, t, h) <==> IsLost(run[k].pcs[t], h) || StaleAt(run, k, t, h)
    decreases k
  {
    if a == k {
      assert !StaleAt(run, k, t, h);
    } else {
      RunLoses(run, a, k - 1, t, h);
      RunStepLoses(run, k, t, h);
      assert StaleAt(run, k, t, h) ==> StaleRead(run, a, k, t, h);
      if StaleRead(run, a, k - 1, t, h) {
        var j :| a <= j <= k - 1 && StaleAt(run, j, t, h);
        assert StaleRead(run, a, k, t, h);
      } else if StaleRead(run, a, k, t, h) {
        var j :| a <= j <= k && StaleAt(run, j, t, h);
        assert j == k;
      }
    }
  }

  // ---------- the main result ----------

  /** A finished traversal has visited a policy that was loaded all the while exactly when
      - below the index where its static loop ended, no stale read of the policy's entry came up;
      - from that index on, the unlocked test read more policies than the static mark;
      and then it has visited it once. */
  lemma VisitedExactlyWhen(run: seq<State>, a: nat, b: nat, t: Tid, h: nat, e: Entry)
    requires Traversal(run, a, b, t) && Throughout(run, a, b, h, e) && run[b].pcs[t].Done?
    ensures var sc := run[b].pcs[t].scan;
      && Ascending(sc) && ReadMark(run, a, b, sc)
      && (h in sc.seen <==> if h < sc.from then !StaleRead(run, a, b, t, h) else sc.loaded > sc.mark)
  {
    RunTracks(run, a, b, t, h, e);
    RunRecorded(run, a, b, t, h, e);
    RunLoses(run, a, b, t, h);
  }

  // ---------- without growth, without a static load ----------

  ghost predicate NoGrowth(run: seq<State>, a: nat, b: nat) {
    a <= b < |run| && forall k :: a <= k <= b ==> !GrowthUnderWay(run[k])
  }

  ghost predicate NoStaticLoad(run: seq<State>, a: nat, b: nat) {
    a <= b < |run| && forall k :: a <= k <= b ==> !StaticLoadUnderWay(run[k])
  }

  predicate Fresh(pc: Pc, mem: Memory) {
    pc.StaticRead? ==> pc.base == mem.live
  }

  lemma WriterMemory(pc: Pc, mutex: Mutex, busy: int, table: Table, mem: Memory, c: Choice)
    requires pc.Alone() && !pc.Growing?
    ensures var e := WriterEffect(pc, mutex, busy, table, mem, c); e.pc.Growing? || e.mem == mem
    ensures !pc.ReleaseUnlock? ==> WriterEffect(pc, mutex, busy, table, mem, c).mutex == mutex
    ensures pc.ReleaseUnlock? ==> WriterEffect(pc, mutex, busy, table, mem, c).mem == mem
  {
  }

  lemma QuietMemory(s: State, u: Tid, c: Choice)
    requires Inv(s) && ListOk(s) && u in s.pcs && !GrowthUnderWay(s) && !GrowthUnderWay(Step(s, u, c))
    ensures Step(s, u, c).mem == s.mem && s.mem.base == s.mem.live
  {
    if s.pcs[u].Alone() {
      assert s.mutex == Held(u);
      WriterMemory(s.pcs[u], s.mutex, s.busy, s.table, s.mem, c);
    } else {
      OutsideEffect(u, s.pcs[u], s.mutex, s.busy, s.table, s.mem, c);
    }
  }

  lemma OwnFresh(t: Tid, pc: Pc, mutex: Mutex, busy: int, table: Table, mem: Memory, c: Choice)
    requires InTraversal(pc) && Fresh(pc, mem) && mem.base == mem.live
    ensures Fresh(EffectOf(t, pc, mutex, busy, table, mem, c).pc, mem)
  {
  }

  lemma RunStepFresh(run: seq<State>, k: nat, t: Tid)
    requires IsRun(run) && 0 < k < |run| && t in run[k - 1].pcs && InTraversal(run[k - 1].pcs[t])
    requires Fresh(run[k - 1].pcs[t], run[k - 1].mem) && !GrowthUnderWay(run[k - 1]) && !GrowthUnderWay(run[k])
    ensures t in run[k].pcs && Fresh(run[k].pcs[t], run[k].mem)
  {
    RunKeepsInv(run, k - 1);
    var u, c := StepAt(run, k);
    QuietMemory(run[k - 1], u, c);
    if u == t {
      OwnFresh(t, run[k - 1].pcs[t], run[k - 1].mutex, run[k - 1].busy, run[k - 1].table, run[k - 1].mem, c);
    } else {
      OtherPlace(run[k - 1], u, c, t);
    }
  }

  /** Without a growth under way no read is stale. */
  lemma {:induction false} RunFresh(run: seq<State>, a: nat, k: nat, t: Tid, h: nat)
    requires Traversal(run, a, k, t) && NoGrowth(run, a, k)
    ensures Fresh(run[k].pcs[t], run[k].mem) && !StaleRead(run, a, k, t, h)
    decreases k
  {
    if a == k {
    } else {
      RunFresh(run, a, k - 1, t, h);
      RunStepFresh(run, k, t);
      if StaleRead(run, a, k, t, h) {
        var j :| a <= j <= k && StaleAt(run, j, t, h);
        assert j < k;
        assert StaleRead(run, a, k - 1, t, h);
      }
    }
  }

  /** With no growth under way static policies are always visited. */
  lemma StaticIsVisited(run: seq<State>, a: nat, b: nat, t: Tid, h: nat, e: Entry)
    requires Traversal(run, a, b, t) && Throughout(run, a, b, h, e) && run[b].pcs[t].Done?
    requires h < run[a].table.staticmax && NoGrowth(run, a, b)
    ensures Ascending(run[b].pcs[t].scan) && h in run[b].pcs[t].scan.seen
  {
    RunTracks(run, a, b, t, h, e);
    RunLoses(run, a, b, t, h);
    RunFresh(run, a, b, t, h);
  }

  /** The unlocked test does not turn away a traversal that has a policy still to visit. */
  predicate Ahead(pc: Pc, m: int, h: nat) {
    && (pc.PeekMark? && h >= pc.scan.from ==> pc.scan.loaded > m)
    && (pc.Done? && h >= pc.scan.from ==> pc.scan.loaded > pc.scan.mark)
  }

  lemma QuietIsInOrder(s: State)
    requires ListOk(s) && !StaticLoadUnderWay(s)
    ensures s.table.Ok()
  {
  }

  lemma QuietMark(s: State, u: Tid, c: Choice)
    requires Inv(s) && ListOk(s) && u in s.pcs && !StaticLoadUnderWay(s) && !StaticLoadUnderWay(Step(s, u, c))
    ensures Step(s, u, c).table.staticmax == s.table.staticmax
  {
    if s.pcs[u].Alone() {
      assert s.mutex == Held(u);
      if s.pcs[u].Exclusive? {
        ChangedOk(s.table, c);
      } else if s.pcs[u].Loading? {
        CommittedOk(s.pcs[u].was, s.pcs[u].p, s.pcs[u].h);
      }
    } else {
      OutsideEffect(u, s.pcs[u], s.mutex, s.busy, s.table, s.mem, c);
    }
  }

  lemma ScanAhead(t: Tid, pc: Pc, mutex: Mutex, busy: int, table: Table, mem: Memory, c: Choice, h: nat)
    requires pc.Scanning() && Tracks(pc, table.staticmax, h) && Ahead(pc, table.staticmax, h)
    requires pc.PeekLoaded? && h >= table.staticmax ==> HasDynamic(table)
    ensures Ahead(ScanEffect(t, pc, mutex, busy, table, mem, c).pc, table.staticmax, h)
  {
  }

  lemma FinishAhead(t: Tid, pc: Pc, mutex: Mutex, busy: int, table: Table, mem: Memory, c: Choice, h: nat)
    requires InTraversal(pc) && !pc.Scanning() && Tracks(pc, table.staticmax, h)
    ensures Ahead(CountEffect(t, pc, mutex, busy, table, mem, c).pc, table.staticmax, h)
  {
  }

  lemma OwnAhead(t: Tid, pc: Pc, mutex: Mutex, busy: int, table: Table, mem: Memory, c: Choice, h: nat)
    requires InTraversal(pc) && Tracks(pc, table.staticmax, h) && Ahead(pc, table.staticmax, h)
    requires pc.PeekLoaded? && h >= table.staticmax ==> HasDynamic(table)
    ensures Ahead(EffectOf(t, pc, mutex, busy, table, mem, c).pc, table.staticmax, h)
  {
    if pc.Scanning() {
      ScanAhead(t, pc, mutex, busy, table, mem, c, h);
    } else {
      FinishAhead(t, pc, mutex, busy, table, mem, c, h);
    }
  }

  lemma StepAhead(s: State, u: Tid, c: Choice, t: Tid, h: nat)
    requires Inv(s) && ListOk(s) && u in s.pcs && t in s.pcs && Has(s.table, h)
    requires InTraversal(s.pcs[t]) && Tracks(s.pcs[t], s.table.staticmax, h) && Ahead(s.pcs[t], s.table.staticmax, h)
    requires !StaticLoadUnderWay(s) && !StaticLoadUnderWay(Step(s, u, c))
    ensures Ahead(Step(s, u, c).pcs[t], Step(s, u, c).table.staticmax, h)
  {
    QuietMark(s, u, c);
    if u == t {
      if s.pcs[t].PeekLoaded? && h >= s.table.staticmax {
        QuietIsInOrder(s);
        DynamicCounts(s.table, h);
      }
      OwnAhead(t, s.pcs[t], s.mutex, s.busy, s.table, s.mem, c, h);
    } else {
      OtherPlace(s, u, c, t);
    }
  }

  lemma RunStepAhead(run: seq<State>, k: nat, t: Tid, h: nat)
    requires IsRun(run) && 0 < k < |run| && t in run[k - 1].pcs && Has(run[k - 1].table, h)
    requires InTraversal(run[k - 1].pcs[t]) && Tracks(run[k - 1].pcs[t], run[k - 1].table.staticmax, h)
    requires Ahead(run[k - 1].pcs[t], run[k - 1].table.staticmax, h) && t in run[k].pcs
    requires !StaticLoadUnderWay(run[k - 1]) && !StaticLoadUnderWay(run[k])
    ensures Ahead(run[k].pcs[t], run[k].table.staticmax, h)
  {
    RunKeepsInv(run, k - 1);
    var u, c := StepAt(run, k);
    StepAhead(run[k - 1], u, c, t, h);
  }

  lemma {:induction false} RunAhead(run: seq<State>, a: nat, k: nat, t: Tid, h: nat, e: Entry)
    requires Traversal(run, a, k, t) && Throughout(run, a, k, h, e) && NoStaticLoad(run, a, k)
    ensures Ahead(run[k].pcs[t], run[k].table.staticmax, h)
    decreases k
  {
    if a == k {
    } else {
      RunAhead(run, a, k - 1, t, h, e);
      RunTracks(run, a, k - 1, t, h, e);
      RunStepAhead(run, k, t, h);
    }
  }

  /** A traversal during which neither a growth nor a static load is under way visits every
      policy that is loaded all the while, once. */
  lemma QuietVisitsAll(run: seq<State>, a: nat, b: nat, t: Tid, h: nat, e: Entry)
    requires Traversal(run, a, b, t) && Throughout(run, a, b, h, e) && run[b].pcs[t].Done?
    requires NoGrowth(run, a, b) && NoStaticLoad(run, a, b)
    ensures Ascending(run[b].pcs[t].scan) && h in run[b].pcs[t].scan.seen
  {
    RunTracks(run, a, b, t, h, e);
    RunLoses(run, a, b, t, h);
    RunFresh(run, a, b, t, h);
    RunAhead(run, a, b, t, h, e);
  }

  // ---------- the policy right after the static part ----------

  /** While the handle at the mark is occupied no static load can be under way. */
  lemma OccupiedMark(s: State, h: nat)
    requires ListOk(s) && Has(s.table, h) && h == Settled(s).staticmax
    ensures !StaticLoadUnderWay(s)
  {
  }

  lemma WriterKeepsMark(pc: Pc, mutex: Mutex, busy: int, table: Table, mem: Memory, c: Choice)
    requires pc.Alone() && PlaceOk(pc, table) && !(pc.Loading? && pc.was.GoesStatic(pc.p, pc.h))
    ensures var e := WriterEffect(pc, mutex, busy, table, mem, c);
      (if e.pc.Loading? then e.pc.was else e.table).staticmax == table.staticmax
  {
    if pc.Exclusive? {
      ChangedOk(table, c);
    } else if pc.Loading? {
      CommittedOk(pc.was, pc.p, pc.h);
    }
  }

  lemma WriterSettled(s: State, u: Tid, c: Choice)
    requires Inv(s) && u in s.pcs && s.pcs[u].Alone()
    ensures var e := WriterEffect(s.pcs[u], s.mutex, s.busy, s.table, s.mem, c);
      Settled(Step(s, u, c)) == if e.pc.Loading? then e.pc.was else e.table
  {
    assert s.mutex == Held(u);
  }

  lemma OutsideSettled(s: State, u: Tid, c: Choice)
    requires Inv(s) && u in s.pcs && !s.pcs[u].Alone()
    ensures Settled(Step(s, u, c)) == Settled(s)
  {
    NobodyBusy(s, u);
    OutsideEffect(u, s.pcs[u], s.mutex, s.busy, s.table, s.mem, c);
    EffectMoves(u, s.pcs[u], s.mutex, s.busy, s.table, s.mem, c);
    OutsideOwner(s, u, EffectOf(u, s.pcs[u], s.mutex, s.busy, s.table, s.mem, c));
  }

  lemma OccupiedMarkStays(s: State, u: Tid, c: Choice, h: nat)
    requires Inv(s) && ListOk(s) && u in s.pcs && Has(s.table, h) && h == Settled(s).staticmax
    ensures h == Settled(Step(s, u, c)).staticmax
  {
    OccupiedMark(s, h);
    if s.pcs[u].Alone() {
      assert s.mutex == Held(u);
      WriterKeepsMark(s.pcs[u], s.mutex, s.busy, s.table, s.mem, c);
      WriterSettled(s, u, c);
    } else {
      OutsideSettled(s, u, c);
    }
  }

  lemma RunStepAtMark(run: seq<State>, k: nat, h: nat)
    requires IsRun(run) && k < |run| && Has(run[k].table, h) && h == Settled(run[k]).staticmax
    ensures !StaticLoadUnderWay(run[k])
    ensures k + 1 < |run| ==> h == Settled(run[k + 1]).staticmax
  {
    RunKeepsInv(run, k);
    OccupiedMark(run[k], h);
    if k + 1 < |run| {
      var u, c := StepAt(run, k + 1);
      OccupiedMarkStays(run[k], u, c, h);
    }
  }

  lemma {:induction false} OccupiedMarkHolds(run: seq<State>, a: nat, k: nat, h: nat, e: Entry)
    requires IsRun(run) && Throughout(run, a, k, h, e) && h == Settled(run[a]).staticmax
    ensures NoStaticLoad(run, a, k) && h == Settled(run[k]).staticmax
    decreases k
  {
    assert Has(run[k].table, h);
    if a == k {
    } else {
      OccupiedMarkHolds(run, a, k - 1, h, e);
      assert Has(run[k - 1].table, h);
      RunStepAtMark(run, k - 1, h);
    }
    RunStepAtMark(run, k, h);
  }

  lemma SettledMarkIsBelow(run: seq<State>, k: nat)
    requires IsRun(run) && k < |run|
    ensures Settled(run[k]).staticmax <= run[k].table.staticmax
  {
    RunKeepsInv(run, k);
  }

  /** With no growth under way, policies in the static part and right after it are visited by
      every traversal that they are loaded for. */
  lemma NearMarkIsVisited(run: seq<State>, a: nat, b: nat, t: Tid, h: nat, e: Entry)
    requires Traversal(run, a, b, t) && Throughout(run, a, b, h, e) && run[b].pcs[t].Done?
    requires h <= Settled(run[a]).staticmax && NoGrowth(run, a, b)
    ensures Ascending(run[b].pcs[t].scan) && h in run[b].pcs[t].scan.seen
  {
    if h == Settled(run[a]).staticmax {
      OccupiedMarkHolds(run, a, b, h, e);
      QuietVisitsAll(run, a, b, t, h, e);
    } else {
      SettledMarkIsBelow(run, a);
      StaticIsVisited(run, a, b, t, h, e);
    }
  }

  // ---------- static policies stay ----------

  lemma WriterKeepsStatic(pc: Pc, mutex: Mutex, busy: int, table: Table, mem: Memory, c: Choice, h: nat)
    requires pc.Alone() && PlaceOk(pc, table) && Has(table, h) && h < table.staticmax
    ensures var table' := WriterEffect(pc, mutex, busy, table, mem, c).table; Has(table', h) && table'.es[h] == table.es[h]
  {
  }

  lemma RunStepKeepsStatic(run: seq<State>, k: nat, h: nat)
    requires IsRun(run) && 0 < k < |run| && Has(run[k - 1].table, h) && h < run[k - 1].table.staticmax
    ensures Has(run[k].table, h) && run[k].table.es[h] == run[k - 1].table.es[h] && h < run[k].table.staticmax
  {
    RunKeepsInv(run, k - 1);
    var s := run[k - 1];
    var u, c := StepAt(run, k);
    MarkPassesNothing(s, u, c, h);
    if s.pcs[u].Alone() {
      assert s.mutex == Held(u);
      WriterKeepsStatic(s.pcs[u], s.mutex, s.busy, s.table, s.mem, c, h);
    } else {
      OutsideEffect(u, s.pcs[u], s.mutex, s.busy, s.table, s.mem, c);
    }
  }

  /** A policy below the static mark is loaded at its handle for ever, so it may be called without
      the busy count. */
  lemma {:induction false} StaticStays(run: seq<State>, j: nat, k: nat, h: nat)
    requires IsRun(run) && j <= k < |run| && Has(run[j].table, h) && h < run[j].table.staticmax
    ensures Has(run[k].table, h) && run[k].table.es[h] == run[j].table.es[h] && h < run[k].table.staticmax
    decreases k
  {
    if j == k {
    } else {
      StaticStays(run, j, k - 1, h);
      RunStepKeepsStatic(run, k, h);
    }
  }
}

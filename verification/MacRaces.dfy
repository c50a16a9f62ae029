/**
 * Runs in which a traversal misses a policy that is loaded from its start to its end: during a
 * late load of a static policy, and during growth of the list.
 */
module MacRaces {
  import opened MacPolicyList
  import opened MacLock
  import opened MacTraversal

  // ---------- making runs longer ----------

  lemma Extend(run: seq<State>, t: Tid, c: Choice)
    requires IsRun(run) && t in run[|run| - 1].pcs
    ensures IsRun(run + [Step(run[|run| - 1], t, c)])
  {
    var s := Step(run[|run| - 1], t, c);
    var run' := run + [s];
    assert Stepped(run'[|run'| - 2], run'[|run'| - 1], t, c);
    forall i | 0 < i < |run'| ensures FollowsAt(run', i) {
      assert i < |run| ==> FollowsAt(run, i);
    }
  }

  /** Thread 0 has been in a traversal since a, and the policy of entry e loaded at h. */
  ghost predicate Going(run: seq<State>, a: nat, h: nat, e: Entry) {
    a < |run| && Traversal(run, a, |run| - 1, 0) && Throughout(run, a, |run| - 1, h, e)
  }

  /** It is over, and the policy was missed. */
  ghost predicate Missed(run: seq<State>, a: nat, h: nat, e: Entry) {
    Going(run, a, h, e) && run[|run| - 1].pcs[0].Done? && h !in run[|run| - 1].pcs[0].scan.seen
  }

  lemma ExtendOwn(run: seq<State>, a: nat, h: nat, e: Entry, c: Choice)
    requires Going(run, a, h, e) && InTraversal(Step(run[|run| - 1], 0, c).pcs[0])
    ensures Going(run + [Step(run[|run| - 1], 0, c)], a, h, e)
  {
    var s := run[|run| - 1];
    Extend(run, 0, c);
    OutsideEffect(0, s.pcs[0], s.mutex, s.busy, s.table, s.mem, c);
  }

  lemma ExtendOther(run: seq<State>, a: nat, h: nat, e: Entry, u: Tid, c: Choice)
    requires Going(run, a, h, e) && u in run[|run| - 1].pcs && u != 0
    requires var es := Step(run[|run| - 1], u, c).table.es; h < |es| && es[h] == e
    ensures Going(run + [Step(run[|run| - 1], u, c)], a, h, e)
  {
    Extend(run, u, c);
    OtherPlace(run[|run| - 1], u, c, 0);
  }

  /** Only thread 0 has moved. */
  predicate OnlyMoved(s: State, s': State) {
    0 in s'.pcs && s' == s.(pcs := s.pcs[0 := s'.pcs[0]])
  }

  lemma StaticTurn(s: State)
    requires 0 in s.pcs && s.pcs[0].StaticTest?
    ensures var s1 := Step(s, 0, Leave); OnlyMoved(s, s1) && if s.pcs[0].scan.i < s.table.staticmax
      then s1.pcs[0] == StaticBase(s.pcs[0].scan) else s1.pcs[0] == PeekLoaded(s.pcs[0].scan.(from := s.pcs[0].scan.i))
  {
  }

  lemma BaseTurn(s: State)
    requires 0 in s.pcs && s.pcs[0].StaticBase?
    ensures OnlyMoved(s, Step(s, 0, Leave)) && Step(s, 0, Leave).pcs[0] == StaticRead(s.pcs[0].scan, s.mem.base)
  {
  }

  lemma ReadTurn(s: State)
    requires 0 in s.pcs && s.pcs[0].StaticRead?
    ensures OnlyMoved(s, Step(s, 0, Leave)) && Step(s, 0, Leave).pcs[0].StaticTest?
    ensures var sc := Step(s, 0, Leave).pcs[0].scan;
      sc == if s.pcs[0].base == s.mem.live then Read(s.table, s.pcs[0].scan) else Miss(s.pcs[0].scan)
  {
  }

  predicate AllLost(sc: Scan, upto: int) {
    forall x: nat :: x < upto ==> x in sc.lost
  }

  /** Thread 0 goes through the static part while the others stand still.  If the array is gone
      it loses every entry. */
  lemma {:induction false} StaticLoop(run: seq<State>, a: nat, h: nat, e: Entry) returns (run': seq<State>)
    requires Going(run, a, h, e) && run[|run| - 1].pcs[0].StaticTest?
    ensures Going(run', a, h, e) && run'[|run'| - 1].pcs[0].PeekLoaded? && run'[0] == run[0]
    ensures OnlyMoved(run[|run| - 1], run'[|run'| - 1])
    ensures var s, sc := run[|run| - 1], run'[|run'| - 1].pcs[0].scan;
      s.mem.base != s.mem.live && AllLost(s.pcs[0].scan, s.pcs[0].scan.i) ==> AllLost(sc, s.table.staticmax)
    decreases run[|run| - 1].table.staticmax - run[|run| - 1].pcs[0].scan.i
  {
    var s := run[|run| - 1];
    StaticTurn(s);
    ExtendOwn(run, a, h, e, Leave);
    var s1 := Step(s, 0, Leave);
    run' := run + [s1];
    if s.pcs[0].scan.i >= s.table.staticmax {
    } else {
      BaseTurn(s1);
      ExtendOwn(run', a, h, e, Leave);
      var s2 := Step(s1, 0, Leave);
      run' := run' + [s2];
      ReadTurn(s2);
      ExtendOwn(run', a, h, e, Leave);
      run' := run' + [Step(s2, 0, Leave)];
      run' := StaticLoop(run', a, h, e);
    }
  }

  // ---------- a static load ----------

  /** The unlocked test reads as many policies as the mark: the traversal ends there. */
  lemma PeekTurnsAway(run: seq<State>, a: nat, h: nat, e: Entry) returns (run': seq<State>)
    requires Going(run, a, h, e) && run[|run| - 1].pcs[0].PeekLoaded?
    requires run[|run| - 1].table.numloaded <= run[|run| - 1].table.staticmax <= h
    ensures Missed(run', a, h, e) && run'[0] == run[0]
  {
    var s := run[|run| - 1];
    var s' := Step(s, 0, Leave);
    ExtendOwn(run, a, h, e, Leave);
    run' := run + [s'];
    ExtendOwn(run', a, h, e, Leave);
    run' := run' + [Step(s', 0, Leave)];
    RunTracks(run', a, |run'| - 1, 0, h, e);
  }

  function Two(pc0: Pc, pc1: Pc, mutex: Mutex, table: Table, mem: Memory): State {
    State(mutex, 0, table, mem, map[0 := pc0, 1 := pc1])
  }

  const SAME := Memory(0, 0)

  /** Thread 1 takes exclusivity. */
  lemma GrabRun(table: Table) returns (run: seq<State>)
    requires table.Ok() && table.late
    ensures IsRun(run) && run[0].table == table && run[|run| - 1] == Two(Idle, Exclusive, Held(1), table, SAME)
  {
    run := [Two(Idle, Idle, Free, table, SAME)];
    assert IsRun(run);
    Extend(run, 1, StartWrite);
    run := run + [Step(run[|run| - 1], 1, StartWrite)];
    assert run[|run| - 1] == Two(Idle, GrabLock, Free, table, SAME);
    Extend(run, 1, Leave);
    run := run + [Step(run[|run| - 1], 1, Leave)];
    assert run[|run| - 1] == Two(Idle, GrabTest, Held(1), table, SAME);
    Extend(run, 1, Leave);
    run := run + [Step(run[|run| - 1], 1, Leave)];
  }

  /** Thread 0 begins a traversal. */
  lemma StartRun(run: seq<State>, pc1: Pc, table: Table, mem: Memory, h: nat) returns (run': seq<State>)
    requires IsRun(run) && run[|run| - 1] == Two(Idle, pc1, Held(1), table, mem) && Has(table, h)
    ensures run' != [] && run'[0] == run[0] && Going(run', |run'| - 1, h, table.es[h])
    ensures run'[|run'| - 1] == Two(StaticTest(START), pc1, Held(1), table, mem)
  {
    Extend(run, 0, StartTraversal);
    run' := run + [Step(run[|run| - 1], 0, StartTraversal)];
    assert run'[|run'| - 1] == Two(StaticTest(START), pc1, Held(1), table, mem);
  }

  /** With one dynamic policy, not right after the static part, a static load that has raised
      the mark makes a traversal miss it. */
  lemma StaticLoadHidesPolicy(table: Table, p: Policy, h: nat) returns (run: seq<State>, a: nat)
    requires table.Ok() && table.late && Has(table, h) && !p.unloadOk && Loads(table, p, table.staticmax)
    requires table.numloaded == table.staticmax + 1 && h > table.staticmax
    ensures Missed(run, a, h, table.es[h]) && run[0].table == table
  {
    var m := table.staticmax;
    run := GrabRun(table);
    Extend(run, 1, Load(p, m));
    run := run + [Step(run[|run| - 1], 1, Load(p, m))];
    assert run[|run| - 1] == Two(Idle, Loading(p, m, table), Held(1), Begun(table, p, m), SAME);
    run := StartRun(run, Loading(p, m, table), Begun(table, p, m), SAME, h);
    a := |run| - 1;
    run := StaticLoop(run, a, h, table.es[h]);
    run := PeekTurnsAway(run, a, h, table.es[h]);
  }

  // Such a list is reached: two policies that may be unloaded come late, and the first goes.

  function LateTable(): Table {
    EmptyTable().(late := true)
  }

  function OneLoaded(x: Policy): Table
    requires !x.wantsSlot
  {
    LateTable().Placed(x, 0)
  }

  function TwoLoaded(x: Policy, y: Policy): Table
    requires !x.wantsSlot && !y.wantsSlot
  {
    OneLoaded(x).Placed(y, 1)
  }

  function GapLeft(x: Policy, y: Policy): Table
    requires !x.wantsSlot && !y.wantsSlot
  {
    TwoLoaded(x, y).Removed(0)
  }

  lemma OneLoadedOk(x: Policy)
    requires !x.wantsSlot && x.unloadOk
    ensures Next(EmptyTable(), LateTable()) && Next(LateTable(), OneLoaded(x)) && OneLoaded(x).Ok()
  {
    EmptyOk();
    FirstLoad(LateTable(), x);
    PlacedOk(LateTable(), x, 0);
  }

  lemma TwoLoadedOk(x: Policy, y: Policy)
    requires !x.wantsSlot && !y.wantsSlot && x.unloadOk && y.unloadOk && x.name != y.name
    ensures Next(OneLoaded(x), TwoLoaded(x, y)) && TwoLoaded(x, y).Ok()
  {
    OneLoadedOk(x);
    assert Loads(OneLoaded(x), y, 1);
    PlacedOk(OneLoaded(x), y, 1);
  }

  lemma GapLeftOk(x: Policy, y: Policy)
    requires !x.wantsSlot && !y.wantsSlot && x.unloadOk && y.unloadOk && x.name != y.name
    ensures Next(TwoLoaded(x, y), GapLeft(x, y)) && GapLeft(x, y).Ok()
  {
    TwoLoadedOk(x, y);
    assert Unloads(TwoLoaded(x, y), 0);
    RemovedOk(TwoLoaded(x, y), 0);
  }

  lemma GapTakesStatic(x: Policy, y: Policy, p: Policy)
    requires !x.wantsSlot && !y.wantsSlot && !p.wantsSlot && x.unloadOk && y.unloadOk && y.name != p.name
    ensures var t := GapLeft(x, y); t.late && t.staticmax == 0 && t.numloaded == 1 && Has(t, 1) && Loads(t, p, 0)
  {
    var t := GapLeft(x, y);
    assert t.es[0].Empty? && forall i :: 2 <= i < |t.es| ==> t.es[i].Empty?;
  }

  lemma HiddenPolicyIsReached(x: Policy, y: Policy, p: Policy) returns (run: seq<State>, a: nat)
    requires !x.wantsSlot && !y.wantsSlot && !p.wantsSlot
    requires x.name != y.name && y.name != p.name && x.unloadOk && y.unloadOk && !p.unloadOk
    ensures Next(EmptyTable(), LateTable()) && Next(LateTable(), OneLoaded(x))
    ensures Next(OneLoaded(x), TwoLoaded(x, y)) && Next(TwoLoaded(x, y), GapLeft(x, y))
    ensures |GapLeft(x, y).es| > 1 && Missed(run, a, 1, GapLeft(x, y).es[1]) && run[0].table == GapLeft(x, y)
  {
    OneLoadedOk(x);
    TwoLoadedOk(x, y);
    GapLeftOk(x, y);
    GapTakesStatic(x, y, p);
    run, a := StaticLoadHidesPolicy(GapLeft(x, y), p, 1);
  }

  // ---------- growth ----------

  /** Nobody else holds the mutex, and a traversal is past its static part. */
  predicate Alone0(s: State) {
    0 in s.pcs && InTraversal(s.pcs[0]) && !InStatic(s.pcs[0]) && (s.mutex.Held? ==> s.pcs[0].HoldsMutex())
  }

  function Rank(pc: Pc): nat {
    match pc
    case PeekLoaded(_) => 9
    case PeekMark(_) => 8
    case CondLock(_) => 7
    case CondTest(_) => 6
    case CondUnlock(_, _) => 5
    case Walking(_) => 4
    case UnbusyLock(_) => 3
    case UnbusyDec(_) => 2
    case UnbusyWake(_) => 1
    case _ => 0
  }

  function ToGo(s: State): int
    requires Alone0(s)
  {
    if s.pcs[0].Walking? then s.table.maxindex - ScanOf(s.pcs[0]).i + 1 else if s.pcs[0].UnbusyUnlock? then 1 else 0
  }

  lemma FinishTurn(s: State)
    requires Alone0(s) && !s.pcs[0].Done?
    ensures var s' := Step(s, 0, Leave); Alone0(s') && ScanOf(s'.pcs[0]).lost == ScanOf(s.pcs[0]).lost
    ensures var s' := Step(s, 0, Leave); Rank(s'.pcs[0]) < Rank(s.pcs[0]) || (Rank(s'.pcs[0]) == Rank(s.pcs[0]) && 0 <= ToGo(s') < ToGo(s))
  {
  }

  /** A traversal past its static part ends when the others let it. */
  lemma {:induction false} FinishRun(run: seq<State>, a: nat, h: nat, e: Entry) returns (run': seq<State>)
    requires Going(run, a, h, e) && Alone0(run[|run| - 1])
    ensures Going(run', a, h, e) && run'[|run'| - 1].pcs[0].Done? && run'[0] == run[0]
    ensures run'[|run'| - 1].pcs[0].scan.lost == ScanOf(run[|run| - 1].pcs[0]).lost
    decreases Rank(run[|run| - 1].pcs[0]), ToGo(run[|run| - 1])
  {
    var s := run[|run| - 1];
    if s.pcs[0].Done? {
      run' := run;
    } else {
      FinishTurn(s);
      ExtendOwn(run, a, h, e, Leave);
      run' := FinishRun(run + [Step(s, 0, Leave)], a, h, e);
    }
  }

  /** Thread 1 completes the growth and gives up exclusivity. */
  lemma GrowthEnds(run: seq<State>, a: nat, h: nat, e: Entry, pc0: Pc, table: Table) returns (run': seq<State>)
    requires Going(run, a, h, e) && run[|run| - 1] == Two(pc0, Growing, Held(1), table, Memory(0, 1)) && pc0.PeekLoaded?
    ensures Going(run', a, h, e) && run'[0] == run[0] && run'[|run'| - 1] == Two(pc0, ReleaseWake, Free, table.Grown(), Memory(1, 1))
  {
    var grown := table.Grown();
    assert Step(run[|run| - 1], 1, Leave) == Two(pc0, Exclusive, Held(1), grown, Memory(1, 1));
    ExtendOther(run, a, h, e, 1, Leave);
    run' := run + [Two(pc0, Exclusive, Held(1), grown, Memory(1, 1))];
    assert Step(run'[|run'| - 1], 1, Leave) == Two(pc0, ReleaseUnlock, Held(1), grown, Memory(1, 1));
    ExtendOther(run', a, h, e, 1, Leave);
    run' := run' + [Two(pc0, ReleaseUnlock, Held(1), grown, Memory(1, 1))];
    assert Step(run'[|run'| - 1], 1, Leave) == Two(pc0, ReleaseWake, Free, grown, Memory(1, 1));
    ExtendOther(run', a, h, e, 1, Leave);
    run' := run' + [Two(pc0, ReleaseWake, Free, grown, Memory(1, 1))];
  }

  /** Thread 1 has freed the array of a full list. */
  lemma GrowthBegins(table: Table) returns (run: seq<State>)
    requires table.Ok() && table.late && table.numloaded >= |table.es|
    ensures IsRun(run) && run[0].table == table && run[|run| - 1] == Two(Idle, Growing, Held(1), table, Memory(0, 1))
  {
    run := GrabRun(table);
    Extend(run, 1, Grow);
    run := run + [Step(run[|run| - 1], 1, Grow)];
    assert run[|run| - 1] == Two(Idle, Growing, Held(1), table, Memory(0, 1));
  }

  lemma LostIsMissed(run: seq<State>, a: nat, h: nat, e: Entry)
    requires Going(run, a, h, e) && run[|run| - 1].pcs[0].Done? && h in run[|run| - 1].pcs[0].scan.lost
    ensures Missed(run, a, h, e)
  {
    RunTracks(run, a, |run| - 1, 0, h, e);
  }

  /** When a full list grows, every static policy can be missed by a traversal. */
  lemma GrowthHidesPolicy(table: Table, h: nat) returns (run: seq<State>, a: nat)
    requires table.Ok() && table.late && Has(table, h) && h < table.staticmax && table.numloaded >= |table.es|
    ensures Missed(run, a, h, table.es[h]) && run[0].table == table
  {
    var e := table.es[h];
    run := GrowthBegins(table);
    run := StartRun(run, Growing, table, Memory(0, 1), h);
    a := |run| - 1;
    run := StaticLoop(run, a, h, e);
    var pc0 := run[|run| - 1].pcs[0];
    assert run[|run| - 1] == Two(pc0, Growing, Held(1), table, Memory(0, 1)) && h in pc0.scan.lost;
    run := GrowthEnds(run, a, h, e, pc0, table);
    run := FinishRun(run, a, h, e);
    LostIsMissed(run, a, h, e);
  }

  // Such a list is reached: eight policies come during start-up.

  predicate Distinct(ps: seq<Policy>) {
    && (forall i :: 0 <= i < |ps| ==> !ps[i].wantsSlot)
    && forall i, j :: 0 <= i < j < |ps| ==> ps[i].name != ps[j].name
  }

  /** The list after these policies have come during start-up. */
  function Filled(ps: seq<Policy>): (t: Table)
    requires |ps| <= CHUNK && Distinct(ps)
    ensures |t.es| == CHUNK
  {
    if ps == [] then EmptyTable() else Filled(ps[..|ps| - 1]).Placed(ps[|ps| - 1], |ps| - 1)
  }

  lemma {:induction false} FilledEntries(ps: seq<Policy>, i: nat)
    requires |ps| <= CHUNK && Distinct(ps) && i < CHUNK
    ensures var e := Filled(ps).es[i]; if i < |ps| then e.Full? && e.policy.name == ps[i].name else e.Empty?
    ensures Filled(ps).numloaded == Filled(ps).staticmax == |ps| && !Filled(ps).late
  {
    if ps == [] {
    } else {
      FilledEntries(ps[..|ps| - 1], i);
    }
  }

  lemma FilledLoads(ps: seq<Policy>)
    requires 0 < |ps| <= CHUNK && Distinct(ps)
    ensures Loads(Filled(ps[..|ps| - 1]), ps[|ps| - 1], |ps| - 1)
  {
    var n := |ps| - 1;
    var t := Filled(ps[..n]);
    forall i | 0 <= i < CHUNK
      ensures if i < n then t.es[i].Full? && t.es[i].policy.name == ps[i].name else t.es[i].Empty?
    {
      FilledEntries(ps[..n], i);
    }
  }

  lemma {:induction false} FilledOk(ps: seq<Policy>)
    requires |ps| <= CHUNK && Distinct(ps)
    ensures Filled(ps).Ok() && (ps != [] ==> Next(Filled(ps[..|ps| - 1]), Filled(ps)))
  {
    if ps == [] {
      EmptyOk();
    } else {
      FilledOk(ps[..|ps| - 1]);
      FilledLoads(ps);
      PlacedOk(Filled(ps[..|ps| - 1]), ps[|ps| - 1], |ps| - 1);
    }
  }

  /** Every prefix of the policies is one more load of a run from the empty table, and start-up
      ends after the last. */
  lemma {:induction false} FullListIsReached(ps: seq<Policy>)
    requires |ps| == CHUNK && Distinct(ps)
    ensures Filled([]) == EmptyTable() && Next(Filled(ps), Filled(ps).(late := true))
    ensures forall n :: 0 < n <= CHUNK ==> Next(Filled(ps[..n - 1]), Filled(ps[..n]))
  {
    forall n | 0 < n <= CHUNK ensures Next(Filled(ps[..n - 1]), Filled(ps[..n])) {
      FilledOk(ps[..n]);
      assert ps[..n][..n - 1] == ps[..n - 1];
    }
  }

  /** Growth then hides any of them. */
  lemma FullListHidesPolicy(ps: seq<Policy>, h: nat) returns (run: seq<State>, a: nat)
    requires |ps| == CHUNK && Distinct(ps) && h < CHUNK
    ensures Missed(run, a, h, Filled(ps).es[h]) && run[0].table == Filled(ps).(late := true)
  {
    FilledOk(ps);
    FilledEntries(ps, h);
    run, a := GrowthHidesPolicy(Filled(ps).(late := true), h);
  }
}

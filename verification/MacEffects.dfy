/**
 * What the steps of the busy-count protocol do to the list, entry by entry and flag by flag,
 * and what they add up to over a run: the policies in the list are those it started with and
 * those loaded since, without those unloaded.
 */
module MacEffects {
  import opened MacPolicyList
  import opened MacLock

  // ---------- single steps ----------

  lemma WriterStep(s: State, t: Tid, c: Choice)
    requires t in s.pcs && s.pcs[t].Alone()
    ensures var e := WriterEffect(s.pcs[t], s.mutex, s.busy, s.table, s.mem, c); var s' := Step(s, t, c);
      t in s'.pcs && s'.pcs[t] == e.pc && s'.table == e.table && s'.mem == e.mem && s'.mutex == e.mutex && s'.busy == e.busy
  {
  }

  /** A writer may start to load a policy with a new name at the lowest free handle, if there is
      a slot when it wants one; all that has changed then is the static mark. */
  lemma LoadStarts(s: State, t: Tid, p: Policy, h: int)
    requires t in s.pcs && s.pcs[t].Exclusive? && |s.table.free| == 7
    requires 0 <= h < |s.table.es| && s.table.es[h].Empty? && forall i :: 0 <= i < h ==> s.table.es[i].Full?
    requires forall i :: 0 <= i < |s.table.es| && s.table.es[i].Full? ==> s.table.es[i].policy.name != p.name
    requires p.wantsSlot ==> exists r :: 0 <= r < 7 && s.table.free[r]
    ensures var s' := Step(s, t, Load(p, h));
      && t in s'.pcs && s'.pcs[t] == Loading(p, h, s.table)
      && s'.table == s.table.(staticmax := s.table.staticmax
                                + if !s.table.late || (!p.unloadOk && h == s.table.staticmax) then 1 else 0)
  {
    assert Loads(s.table, p, h);
    WriterStep(s, t, Load(p, h));
  }

  /** It may not load a policy whose name is loaded, ... */
  lemma LoadRefused(s: State, t: Tid, p: Policy, h: int, i: int)
    requires t in s.pcs && s.pcs[t].Exclusive?
    requires 0 <= i < |s.table.es| && s.table.es[i].Full? && s.table.es[i].policy.name == p.name
    ensures Step(s, t, Load(p, h)) == s
  {
    assert s.table.HasName(p.name);
    assert s.pcs[t := s.pcs[t]] == s.pcs;
  }

  /** When the load is done the entry is the policy's, with its own name and flags, the others are
      what they were when it began, and there is one policy more. */
  lemma LoadTakesEffect(s: State, t: Tid, c: Choice)
    requires Inv(s) && ListOk(s) && t in s.pcs && s.pcs[t].Loading?
    ensures var s' := Step(s, t, c); var p, h, was := s.pcs[t].p, s.pcs[t].h, s.pcs[t].was;
      && t in s'.pcs && s'.pcs[t] == Exclusive
      && |s'.table.es| == |was.es| && 0 <= h < |was.es| && was.es[h].Empty? && s'.table.es[h].Full?
      && (forall i :: 0 <= i < |was.es| && i != h ==> s'.table.es[i] == was.es[i])
      && s'.table.numloaded == was.numloaded + 1
    ensures var q, p := Step(s, t, c).table.es[s.pcs[t].h].policy, s.pcs[t].p;
      q.name == p.name && q.notLate == p.notLate && q.unloadOk == p.unloadOk && q.wantsSlot == p.wantsSlot
  {
    var p, h, was := s.pcs[t].p, s.pcs[t].h, s.pcs[t].was;
    WriterOwner(s, t, c);
    LoadMeans(was, p, h);
    WriterStep(s, t, c);
  }

  /** The code allows an unload; the list stays in order under the last two conditions. */
  predicate MayUnload(t: Table, h: int) {
    && 0 <= h < |t.es| <= 0xFFFF_FFFF && t.es[h].Full? && t.es[h].policy.unloadOk
    && h >= t.staticmax && !(h == 0 && t.maxindex == 0)
  }

  lemma MayUnloadMeans(t: Table, h: int)
    requires t.Ok()
    ensures MayUnload(t, h) <==> Unloads(t, h)
  {
  }

  /** After an unload the entry is empty, the others are what they were, and there is one less. */
  lemma UnloadTakesEffect(s: State, t: Tid, h: int)
    requires Inv(s) && ListOk(s) && t in s.pcs && s.pcs[t].Exclusive? && MayUnload(s.table, h)
    ensures var s' := Step(s, t, Unload(h));
      && t in s'.pcs && s'.pcs[t] == Exclusive
      && |s'.table.es| == |s.table.es| && s'.table.es[h].Empty?
      && (forall i :: 0 <= i < |s.table.es| && i != h ==> s'.table.es[i] == s.table.es[i])
      && s'.table.numloaded == s.table.numloaded - 1
  {
    WriterOwner(s, t, Unload(h));
    MayUnloadMeans(s.table, h);
    UnloadMeans(s.table, h);
    WriterStep(s, t, Unload(h));
  }

  /** A policy that does not allow it is not unloaded. */
  lemma UnloadRefused(s: State, t: Tid, h: int)
    requires t in s.pcs && s.pcs[t].Exclusive? && 0 <= h < |s.table.es| && s.table.es[h].Full? && !s.table.es[h].policy.unloadOk
    ensures Step(s, t, Unload(h)) == s
  {
    assert s.pcs[t := s.pcs[t]] == s.pcs;
  }

  /** A full list grows in two steps: the array it points to is gone, then it points to one with
      eight empty entries more. */
  lemma GrowthTakesEffect(s: State, t: Tid, c: Choice)
    requires Inv(s) && ListOk(s) && t in s.pcs && s.pcs[t].Exclusive? && s.table.numloaded >= |s.table.es|
    ensures var s1 := Step(s, t, Grow);
      t in s1.pcs && s1.pcs[t] == Growing && s1.table == s.table && s1.mem == Memory(s.mem.base, s.mem.base + 1)
    ensures var s2 := Step(Step(s, t, Grow), t, c);
      && t in s2.pcs && s2.pcs[t] == Exclusive && s2.mem == Memory(s.mem.base + 1, s.mem.base + 1)
      && |s2.table.es| == |s.table.es| + 8 && s2.table.numloaded == s.table.numloaded
      && (forall i :: 0 <= i < |s.table.es| ==> s2.table.es[i] == s.table.es[i])
      && (forall i :: |s.table.es| <= i < |s2.table.es| ==> s2.table.es[i].Empty?)
  {
    WriterOwner(s, t, Grow);
    WriterStep(s, t, Grow);
    WriterStep(Step(s, t, Grow), t, c);
  }

  /** The last reader to leave, and every writer that leaves, wakes whoever sleeps. */
  lemma WakersWake(s: State, t: Tid, c: Choice, u: Tid)
    requires t in s.pcs && u in s.pcs && (s.pcs[t].UnbusyWake? || s.pcs[t].ReleaseWake?)
    ensures var s' := Step(s, t, c); u in s'.pcs && !s'.pcs[u].Asleep? && (s.pcs[u].Asleep? ==> s'.pcs[u] == GrabLock)
  {
  }

  lemma OneStep(s: State, t: Tid, c: Choice)
    requires t in s.pcs
    ensures var e := EffectOf(t, s.pcs[t], s.mutex, s.busy, s.table, s.mem, c); var s' := Step(s, t, c);
      t in s'.pcs && s'.pcs[t] == e.pc && s'.busy == e.busy && s'.mutex == e.mutex && s'.table == e.table
  {
  }

  /** How the count moves: a reader adds one and takes one away, a traversal adds one exactly when
      more policies are loaded than the static part holds, and the reader that leaves a count of
      zero goes on to wake the sleepers. */
  lemma CountSteps(s: State, t: Tid, c: Choice)
    requires t in s.pcs
    ensures var s' := Step(s, t, c); t in s'.pcs
    ensures var s' := Step(s, t, c); s.pcs[t].BusyInc? ==> s'.busy == s.busy + 1 && s'.pcs[t] == BusyUnlock
    ensures var s' := Step(s, t, c); s.pcs[t].UnbusyDec? ==>
      s'.busy == s.busy - 1 && s'.pcs[t] == if s.busy == 1 then UnbusyWake(s.pcs[t].after) else UnbusyUnlock(s.pcs[t].after)
    ensures var s' := Step(s, t, c); s.pcs[t].CondTest? ==>
      if s.table.numloaded > s.table.staticmax then s'.busy == s.busy + 1 && s'.pcs[t] == CondUnlock(s.pcs[t].scan, true)
      else s'.busy == s.busy && s'.pcs[t] == CondUnlock(s.pcs[t].scan, false)
  {
    OneStep(s, t, c);
  }

  /** A writer that has the mutex goes on exactly when nobody is counted, and else lets go of it
      and sleeps. */
  lemma WriterWaits(s: State, t: Tid, c: Choice)
    requires t in s.pcs && s.pcs[t].GrabTest?
    ensures var s' := Step(s, t, c);
      t in s'.pcs && if s.busy == 0 then s'.pcs[t] == Exclusive && s'.mutex == s.mutex else s'.pcs[t] == Asleep && s'.mutex == Free
  {
    OneStep(s, t, c);
  }

  /** Four steps of one thread, undisturbed by others. */
  ghost function FourSteps(s: State, t: Tid, c: Choice): State
    requires t in s.pcs
  {
    Step(Step(Step(Step(s, t, c), t, Leave), t, Leave), t, Leave)
  }

  lemma QuietStep(s: State, t: Tid, c: Choice)
    requires t in s.pcs && !s.pcs[t].UnbusyWake? && !s.pcs[t].ReleaseWake?
    ensures var e := EffectOf(t, s.pcs[t], s.mutex, s.busy, s.table, s.mem, c);
      !e.wakes && Step(s, t, c) == State(e.mutex, e.busy, e.table, e.mem, s.pcs[t := e.pc])
  {
  }

  lemma PcStep(s: State, t: Tid, c: Choice, pc: Pc, mutex: Mutex, busy: int)
    requires t in s.pcs && !s.pcs[t].UnbusyWake? && !s.pcs[t].ReleaseWake?
    requires EffectOf(t, s.pcs[t], s.mutex, s.busy, s.table, s.mem, c) == Effect(pc, mutex, busy, s.table, s.mem, false)
    ensures Step(s, t, c) == State(mutex, busy, s.table, s.mem, s.pcs[t := pc])
  {
    QuietStep(s, t, c);
  }

  lemma SamePcs(pcs: map<Tid, Pc>, t: Tid, a: Pc, b: Pc)
    ensures pcs[t := a][t := b] == pcs[t := b]
  {
  }

  /** Undisturbed, a reader is counted and holds the list with the mutex free again ... */
  lemma ReaderEnters(s: State, t: Tid)
    requires t in s.pcs && s.pcs[t].Idle? && s.mutex.Free?
    ensures FourSteps(s, t, StartBusy) == State(Free, s.busy + 1, s.table, s.mem, s.pcs[t := Holding])
  {
    PcStep(s, t, StartBusy, BusyLock, Free, s.busy);
    var s1 := Step(s, t, StartBusy);
    PcStep(s1, t, Leave, BusyInc, Held(t), s.busy);
    SamePcs(s.pcs, t, BusyLock, BusyInc);
    var s2 := Step(s1, t, Leave);
    PcStep(s2, t, Leave, BusyUnlock, Held(t), s.busy + 1);
    SamePcs(s.pcs, t, BusyInc, BusyUnlock);
    PcStep(Step(s2, t, Leave), t, Leave, Holding, Free, s.busy + 1);
    SamePcs(s.pcs, t, BusyUnlock, Holding);
  }

  /** ... and a writer has exclusivity when nobody is counted. */
  lemma WriterEnters(s: State, t: Tid)
    requires t in s.pcs && s.pcs[t].Idle? && s.mutex.Free? && s.busy == 0
    ensures Step(Step(Step(s, t, StartWrite), t, Leave), t, Leave) == State(Held(t), 0, s.table, s.mem, s.pcs[t := Exclusive])
  {
    PcStep(s, t, StartWrite, GrabLock, Free, 0);
    var s1 := Step(s, t, StartWrite);
    PcStep(s1, t, Leave, GrabTest, Held(t), 0);
    SamePcs(s.pcs, t, GrabLock, GrabTest);
    PcStep(Step(s1, t, Leave), t, Leave, Exclusive, Held(t), 0);
    SamePcs(s.pcs, t, GrabTest, Exclusive);
  }

  // ---------- runs ----------

  /** Where a writer changes the list no thread holds the list busy or walks its dynamic part, and
      no other changes it. */
  lemma ReadersExcludeWriters(run: seq<State>, i: nat, t: Tid, u: Tid)
    requires IsRun(run) && i < |run| && t in run[i].pcs && u in run[i].pcs
    requires run[i].pcs[t].Exclusive? || run[i].pcs[t].Growing? || run[i].pcs[t].Loading?
    ensures !run[i].pcs[u].Holding? && !run[i].pcs[u].Walking?
    ensures u != t ==> !run[i].pcs[u].Exclusive? && !run[i].pcs[u].Growing? && !run[i].pcs[u].Loading?
  {
    ExclusiveIsAlone(run, i, t, u);
  }

  /** While a thread does either, no step changes the list. */
  lemma ReadersFreezeList(run: seq<State>, i: nat, u: Tid)
    requires IsRun(run) && 0 < i < |run| && u in run[i - 1].pcs && (run[i - 1].pcs[u].Holding? || run[i - 1].pcs[u].Walking?)
    ensures run[i].table == run[i - 1].table
  {
    BusyFreezesTable(run, i, u);
  }

  /** What identifies a policy: what it was registered with. */
  datatype Identity = Identity(name: string, notLate: bool, unloadOk: bool, wantsSlot: bool)

  function IdentityOf(p: Policy): Identity {
    Identity(p.name, p.notLate, p.unloadOk, p.wantsSlot)
  }

  /** The loaded policies, by handle. */
  function Policies(t: Table): map<int, Identity> {
    map h | 0 <= h < |t.es| && t.es[h].Full? :: IdentityOf(t.es[h].policy)
  }

  datatype Event = Quiet | Came(h: int, who: Identity) | Went(h: int)

  /** A load comes to its end when its thread steps; an unload is one step. */
  function EventOf(s: State, t: Tid, c: Choice): Event
    requires t in s.pcs
  {
    if s.pcs[t].Loading? then Came(s.pcs[t].h, IdentityOf(s.pcs[t].p))
    else if s.pcs[t].Exclusive? && c.Unload? && MayUnload(s.table, c.h) then Went(c.h)
    else Quiet
  }

  function After(m: map<int, Identity>, e: Event): map<int, Identity> {
    match e
    case Quiet => m
    case Came(h, who) => m[h := who]
    case Went(h) => m - {h}
  }

  lemma SameEntriesSamePolicies(t: Table, t': Table)
    requires |t.es| <= |t'.es| && (forall i :: 0 <= i < |t.es| ==> t'.es[i] == t.es[i])
    requires forall i :: |t.es| <= i < |t'.es| ==> t'.es[i].Empty?
    ensures Policies(t') == Policies(t)
  {
  }

  lemma LoadEvent(s: State, t: Tid, c: Choice)
    requires Inv(s) && ListOk(s) && t in s.pcs && s.pcs[t].Loading?
    ensures EventOf(s, t, c).Came? && EventOf(s, t, c).h !in Policies(Settled(s))
    ensures Policies(Settled(Step(s, t, c))) == After(Policies(Settled(s)), EventOf(s, t, c))
    ensures Settled(Step(s, t, c)).numloaded == Settled(s).numloaded + 1
  {
    WriterOwner(s, t, c);
    LoadTakesEffect(s, t, c);
    WriterStep(s, t, c);
  }

  lemma UnloadEvent(s: State, t: Tid, h: int)
    requires Inv(s) && ListOk(s) && t in s.pcs && s.pcs[t].Exclusive? && MayUnload(s.table, h)
    ensures EventOf(s, t, Unload(h)) == Went(h) && h in Policies(Settled(s))
    ensures Policies(Settled(Step(s, t, Unload(h)))) == After(Policies(Settled(s)), Went(h))
    ensures Settled(Step(s, t, Unload(h))).numloaded == Settled(s).numloaded - 1
  {
    WriterOwner(s, t, Unload(h));
    UnloadTakesEffect(s, t, h);
    WriterStep(s, t, Unload(h));
  }

  lemma QuietWriter(s: State, t: Tid, c: Choice)
    requires Inv(s) && ListOk(s) && t in s.pcs && s.pcs[t].Alone() && EventOf(s, t, c).Quiet?
    ensures Policies(Settled(Step(s, t, c))) == Policies(Settled(s)) && Settled(Step(s, t, c)).numloaded == Settled(s).numloaded
  {
    WriterOwner(s, t, c);
    WriterStep(s, t, c);
    if s.pcs[t].Growing? {
      GrowthMeans(s.table);
      SameEntriesSamePolicies(s.table, s.table.Grown());
    } else if s.pcs[t].Exclusive? && c.Unload? {
      MayUnloadMeans(s.table, c.h);
    }
  }

  lemma QuietOutside(s: State, t: Tid, c: Choice)
    requires Inv(s) && ListOk(s) && t in s.pcs && !s.pcs[t].Alone()
    ensures EventOf(s, t, c).Quiet? && Settled(Step(s, t, c)) == Settled(s)
  {
    NobodyBusy(s, t);
    OutsideEffect(t, s.pcs[t], s.mutex, s.busy, s.table, s.mem, c);
    EffectMoves(t, s.pcs[t], s.mutex, s.busy, s.table, s.mem, c);
    OutsideOwner(s, t, EffectOf(t, s.pcs[t], s.mutex, s.busy, s.table, s.mem, c));
  }

  function Change(e: Event): int {
    if e.Came? then 1 else if e.Went? then -1 else 0
  }

  /** A step changes the completed list's policies exactly as its event says: a handle that comes
      was free, a handle that goes was not. */
  lemma StepEvent(s: State, t: Tid, c: Choice)
    requires Inv(s) && ListOk(s) && t in s.pcs
    ensures Policies(Settled(Step(s, t, c))) == After(Policies(Settled(s)), EventOf(s, t, c))
    ensures Settled(Step(s, t, c)).numloaded == Settled(s).numloaded + Change(EventOf(s, t, c))
    ensures match EventOf(s, t, c)
            case Quiet => true
            case Came(h, _) => h !in Policies(Settled(s))
            case Went(h) => h in Policies(Settled(s))
  {
    if !s.pcs[t].Alone() {
      QuietOutside(s, t, c);
    } else if s.pcs[t].Loading? {
      LoadEvent(s, t, c);
    } else if EventOf(s, t, c).Went? {
      UnloadEvent(s, t, c.h);
    } else {
      QuietWriter(s, t, c);
    }
  }

  datatype Move = Move(t: Tid, c: Choice)

  /** Who moved, and how, at each step of the run. */
  ghost predicate Explains(run: seq<State>, log: seq<Move>) {
    |run| == |log| + 1 && forall i :: 0 <= i < |log| ==> MovesAt(run, log, i)
  }

  ghost predicate MovesAt(run: seq<State>, log: seq<Move>, i: nat) {
    i < |log| && i + 1 < |run| && Stepped(run[i], run[i + 1], log[i].t, log[i].c)
  }

  /** Every run has such a log. */
  lemma {:induction false} LogUpTo(run: seq<State>, n: nat) returns (log: seq<Move>)
    requires IsRun(run) && n < |run|
    ensures Explains(run[..n + 1], log)
  {
    if n == 0 {
      log := [];
    } else {
      var before := LogUpTo(run, n - 1);
      var t, c := StepAt(run, n);
      log := before + [Move(t, c)];
      var upTo := run[..n + 1];
      forall i | 0 <= i < |log|
        ensures MovesAt(upTo, log, i)
      {
        if i < |before| {
          assert MovesAt(run[..n], before, i);
        }
      }
    }
  }

  /** The policies after the first `n` steps, from those at the start and the events alone. */
  ghost function Replayed(run: seq<State>, log: seq<Move>, n: nat): map<int, Identity>
    requires Explains(run, log) && n <= |log|
  {
    if n == 0 then Policies(run[0].table) else After(Replayed(run, log, n - 1), EventAt(run, log, n - 1))
  }

  ghost function EventAt(run: seq<State>, log: seq<Move>, n: nat): Event
    requires Explains(run, log) && n < |log|
  {
    assert MovesAt(run, log, n);
    EventOf(run[n], log[n].t, log[n].c)
  }

  /** Loads completed minus unloads. */
  ghost function Balance(run: seq<State>, log: seq<Move>, n: nat): int
    requires Explains(run, log) && n <= |log|
  {
    if n == 0 then 0 else Balance(run, log, n - 1) + Change(EventAt(run, log, n - 1))
  }

  lemma EventHappens(run: seq<State>, log: seq<Move>, n: nat)
    requires IsRun(run) && Explains(run, log) && n < |log|
    ensures Policies(Settled(run[n + 1])) == After(Policies(Settled(run[n])), EventAt(run, log, n))
    ensures Settled(run[n + 1]).numloaded == Settled(run[n]).numloaded + Change(EventAt(run, log, n))
    ensures EventAt(run, log, n).Came? ==> EventAt(run, log, n).h !in Policies(Settled(run[n]))
  {
    RunKeepsInv(run, n);
    assert MovesAt(run, log, n);
    StepEvent(run[n], log[n].t, log[n].c);
  }

  lemma StartIsSettled(s: State)
    requires Init(s)
    ensures Settled(s) == s.table
  {
  }

  /** At every point of every run the policies in the list are the initial ones with the completed
      loads added and the unloads taken out, and their number is the initial one plus loads minus
      unloads. */
  lemma {:induction false} RunPolicies(run: seq<State>, log: seq<Move>, n: nat)
    requires IsRun(run) && Explains(run, log) && n <= |log|
    ensures Policies(Settled(run[n])) == Replayed(run, log, n)
    ensures Settled(run[n]).numloaded == run[0].table.numloaded + Balance(run, log, n)
    decreases n
  {
    if n == 0 {
      StartIsSettled(run[0]);
    } else {
      RunPolicies(run, log, n - 1);
      EventHappens(run, log, n - 1);
    }
  }

  lemma PolicyAt(t: Table, h: int)
    ensures h in Policies(t) <==> 0 <= h < |t.es| && t.es[h].Full?
    ensures h in Policies(t) ==> Policies(t)[h] == IdentityOf(t.es[h].policy)
  {
  }

  lemma OthersStay(m: map<int, Identity>, e: Event, h: int)
    requires h in m && e != Went(h) && (e.Came? ==> e.h !in m)
    ensures h in After(m, e) && After(m, e)[h] == m[h]
  {
  }

  /** A policy that came is there, under its handle and with its own name and flags, until an
      unload of that handle. */
  lemma {:induction false} StaysUntilUnloaded(run: seq<State>, log: seq<Move>, m: nat, n: nat)
    requires IsRun(run) && Explains(run, log) && m < n <= |log| && EventAt(run, log, m).Came?
    requires forall k :: m < k < n ==> EventAt(run, log, k) != Went(EventAt(run, log, m).h)
    ensures var e := EventAt(run, log, m);
      var t := Settled(run[n]); 0 <= e.h < |t.es| && t.es[e.h].Full? && IdentityOf(t.es[e.h].policy) == e.who
    decreases n
  {
    var e := EventAt(run, log, m);
    EventHappens(run, log, n - 1);
    if n > m + 1 {
      StaysUntilUnloaded(run, log, m, n - 1);
      PolicyAt(Settled(run[n - 1]), e.h);
      OthersStay(Policies(Settled(run[n - 1])), EventAt(run, log, n - 1), e.h);
    }
    PolicyAt(Settled(run[n]), e.h);
  }
}

/**
 * The table of loaded policies: registration, removal and traversal.
 */
module MacPolicyList {
  import opened MacErrors

  const CHUNK := 8
  const MAX_SLOTS := 7
  const UINT_MAX := 0xFFFF_FFFF

  /** A policy's configuration record.  `slot` is the label slot the framework assigned. */
  datatype Policy = Policy(name: string, notLate: bool, unloadOk: bool, wantsSlot: bool, slot: int, registered: bool)

  datatype Entry = Empty | Full(policy: Policy)

  // ---------- counting ----------

  function Count(es: seq<Entry>): nat {
    if es == [] then 0 else Count(es[..|es| - 1]) + if es[|es| - 1].Full? then 1 else 0
  }

  lemma {:induction false} CountUpdate(es: seq<Entry>, i: int, e: Entry)
    requires 0 <= i < |es|
    ensures Count(es[i := e]) == Count(es) + (if e.Full? then 1 else 0) - (if es[i].Full? then 1 else 0)
  {
    var n := |es| - 1;
    if i < n {
      CountUpdate(es[..n], i, e);
      assert es[i := e][..n] == es[..n][i := e];
    } else {
      assert es[i := e][..n] == es[..n];
    }
  }

  lemma {:induction false} CountAppendEmpty(es: seq<Entry>, n: nat)
    ensures Count(es + seq(n, _ => Empty)) == Count(es)
  {
    var fs := es + seq(n, _ => Empty);
    if n > 0 {
      CountAppendEmpty(es, n - 1);
      assert fs[..|fs| - 1] == es + seq(n - 1, _ => Empty);
    } else {
      assert fs == es;
    }
  }

  /** A full prefix of length `k` counts `k`; a table with nothing beyond it counts exactly `k`. */
  lemma {:induction false} CountPrefix(es: seq<Entry>, k: int)
    requires 0 <= k <= |es| && forall i :: 0 <= i < k ==> es[i].Full?
    ensures k <= Count(es) <= |es|
    ensures Count(es) == k <==> forall i :: k <= i < |es| ==> es[i].Empty?
  {
    if es == [] {
    } else {
      var n := |es| - 1;
      CountPrefix(es[..n], if k <= n then k else n);
      if forall i :: k <= i < |es| ==> es[i].Empty? {
        assert forall i :: k <= i < n ==> es[..n][i].Empty?;
      } else if k <= n && Count(es) == k {
        assert forall i :: k <= i < n ==> es[..n][i] == es[i];
      }
    }
  }

  /** Pigeonhole: a table that is not full has a free entry after any full prefix. */
  lemma {:induction false} FreeEntryExists(es: seq<Entry>, k: int)
    requires 0 <= k <= |es| && Count(es) < |es| && forall i :: 0 <= i < k ==> es[i].Full?
    ensures exists i :: k <= i < |es| && es[i].Empty?
  {
    if forall i :: k <= i < |es| ==> es[i].Full? {
      CountPrefix(es, |es|);
    }
  }

  // ---------- slots ----------

  /** Index of the lowest free slot, or -1. */
  function FirstFree(free: seq<bool>): (s: int)
    ensures s == -1 <==> forall i :: 0 <= i < |free| ==> !free[i]
    ensures s != -1 ==> 0 <= s < |free| && free[s] && forall i :: 0 <= i < s ==> !free[i]
  {
    FirstFreeFrom(free, 0)
  }

  function FirstFreeFrom(free: seq<bool>, k: nat): (s: int)
    requires k <= |free| && forall i :: 0 <= i < k ==> !free[i]
    ensures s == -1 <==> forall i :: 0 <= i < |free| ==> !free[i]
    ensures s != -1 ==> 0 <= s < |free| && free[s] && forall i :: 0 <= i < s ==> !free[i]
    decreases |free| - k
  {
    if k == |free| then -1 else if free[k] then k else FirstFreeFrom(free, k + 1)
  }

  predicate Holds(e: Entry, s: int) {
    e.Full? && e.policy.wantsSlot && e.policy.slot == s
  }

  ghost predicate NamesDistinct(es: seq<Entry>) {
    forall i, j :: 0 <= i < j < |es| && es[i].Full? && es[j].Full? ==> es[i].policy.name != es[j].policy.name
  }

  /** Free slots and slots held by a policy partition the slot set. */
  ghost predicate SlotsPartitioned(es: seq<Entry>, free: seq<bool>) {
    && |free| == MAX_SLOTS
    && (forall i :: 0 <= i < |es| && es[i].Full? && es[i].policy.wantsSlot ==> 0 <= es[i].policy.slot < MAX_SLOTS)
    && (forall s :: 0 <= s < MAX_SLOTS ==> (free[s] <==> forall i :: 0 <= i < |es| ==> !Holds(es[i], s)))
    && (forall i, j, s :: 0 <= i < j < |es| && Holds(es[i], s) ==> !Holds(es[j], s))
  }

  // ---------- the table as a value ----------

  datatype Table = Table(es: seq<Entry>, free: seq<bool>, numloaded: int, maxindex: int, staticmax: int, freehint: int, late: bool) {

    /** The entries below `freehint` and below `staticmax` are full, no full entry lies above
        `maxindex`, `numloaded` counts them, names are distinct and slots are partitioned. */
    ghost predicate Ok() {
      && 0 <= freehint <= |es| && FullBelow(freehint)
      && 0 <= staticmax <= |es| && FullBelow(staticmax)
      && 0 <= maxindex < |es| && (forall i :: 0 <= i < |es| && es[i].Full? ==> i <= maxindex)
      && numloaded == Count(es)
      && NamesDistinct(es)
      && SlotsPartitioned(es, free)
      && (forall i :: 0 <= i < |es| && es[i].Full? ==> es[i].policy.registered)
      && (!late ==> staticmax == numloaded == freehint)
    }

    ghost predicate FullBelow(k: int)
      requires k <= |es|
    {
      forall i :: 0 <= i < k ==> es[i].Full?
    }

    ghost predicate HasName(name: string) {
      exists i :: 0 <= i < |es| && es[i].Full? && es[i].policy.name == name
    }

    /** The lowest handle with no policy. */
    ghost predicate IsFirstFree(h: int) {
      0 <= h < |es| && es[h].Empty? && FullBelow(h)
    }

    /** The policy goes to the static part: before the end of start-up, or next to it and for good. */
    predicate GoesStatic(p: Policy, h: int) {
      !late || (!p.unloadOk && h == staticmax)
    }

    /** The policy as it is stored: registered, with the lowest free slot if it wants one. */
    function Stored(p: Policy): Policy {
      p.(registered := true, slot := if p.wantsSlot then FirstFree(free) else p.slot)
    }

    function SlotsAfter(p: Policy): seq<bool>
      requires p.wantsSlot ==> FirstFree(free) != -1
    {
      if p.wantsSlot then free[FirstFree(free) := false] else free
    }

    /** The table after policy `p` has been given handle `h`. */
    function Placed(p: Policy, h: int): Table
      requires 0 <= h < |es| && (p.wantsSlot ==> FirstFree(free) != -1)
    {
      Table(es[h := Full(Stored(p))], SlotsAfter(p), numloaded + 1,
            if h > maxindex then h else maxindex,
            if GoesStatic(p, h) then staticmax + 1 else staticmax, h + 1, late)
    }

    /** The table after the policy at `h` has been taken out, in unsigned arithmetic. */
    function Removed(h: int): Table
      requires 0 <= h < |es| && es[h].Full? && (es[h].policy.wantsSlot ==> 0 <= es[h].policy.slot < |free|)
    {
      var p := es[h].policy;
      Table(es[h := Empty], if p.wantsSlot then free[p.slot := true] else free, numloaded - 1,
            if h == maxindex then (if maxindex == 0 then UINT_MAX else maxindex - 1) else maxindex,
            staticmax, if staticmax <= h < freehint then h else freehint, late)
    }

    /** The table with another chunk of free entries. */
    function Grown(): Table {
      this.(es := es + seq(CHUNK, _ => Empty))
    }
  }

  function EmptyTable(): Table {
    Table(seq(CHUNK, _ => Empty), seq(MAX_SLOTS, _ => true), 0, 0, 0, 0, false)
  }

  lemma AllEmptyOk(t: Table)
    requires |t.es| >= 1 && forall i :: 0 <= i < |t.es| ==> t.es[i].Empty?
    requires |t.free| == MAX_SLOTS && forall s :: 0 <= s < MAX_SLOTS ==> t.free[s]
    requires t.numloaded == 0 && t.maxindex == 0 && t.staticmax == 0 && t.freehint == 0
    ensures t.Ok()
  {
    CountPrefix(t.es, 0);
  }

  lemma EmptyOk()
    ensures EmptyTable().Ok()
  {
    var t := EmptyTable();
    AllEmptyOk(t);
  }

  lemma GrownOk(t: Table)
    requires t.Ok()
    ensures t.Grown().Ok() && Count(t.Grown().es) < |t.Grown().es|
  {
    CountAppendEmpty(t.es, CHUNK);
    CountPrefix(t.es, 0);
    GrownSlots(t.es, t.Grown().es, t.free);
  }

  lemma GrownSlots(es: seq<Entry>, es': seq<Entry>, free: seq<bool>)
    requires |es| <= |es'| && (forall i :: 0 <= i < |es| ==> es'[i] == es[i]) && (forall i :: |es| <= i < |es'| ==> es'[i].Empty?)
    requires NamesDistinct(es) && SlotsPartitioned(es, free)
    ensures NamesDistinct(es') && SlotsPartitioned(es', free)
  {
    forall s | 0 <= s < MAX_SLOTS ensures free[s] <==> forall i :: 0 <= i < |es'| ==> !Holds(es'[i], s) {
      if !free[s] {
        var i :| 0 <= i < |es| && Holds(es[i], s);
        assert Holds(es'[i], s);
      }
    }
  }

  lemma RoomyNames(t: Table, name: string)
    ensures t.Grown().HasName(name) <==> t.HasName(name)
  {
    var es := t.Grown().es;
    assert forall i :: 0 <= i < |t.es| ==> es[i] == t.es[i];
    if t.HasName(name) {
      var i :| 0 <= i < |t.es| && t.es[i].Full? && t.es[i].policy.name == name;
      assert es[i].Full? && es[i].policy.name == name;
    }
  }

  lemma PlacedSlots(t: Table, p: Policy, h: int)
    requires t.Ok() && t.IsFirstFree(h) && (p.wantsSlot ==> FirstFree(t.free) != -1)
    ensures SlotsPartitioned(t.Placed(p, h).es, t.SlotsAfter(p))
  {
    var es, q := t.Placed(p, h).es, t.Stored(p);
    forall s | 0 <= s < MAX_SLOTS ensures t.SlotsAfter(p)[s] <==> forall i :: 0 <= i < |es| ==> !Holds(es[i], s) {
      if t.SlotsAfter(p)[s] {
        assert forall i :: 0 <= i < |es| && i != h ==> es[i] == t.es[i];
      } else if t.free[s] {
        assert Holds(es[h], s);
      } else {
        var i :| 0 <= i < |t.es| && Holds(t.es[i], s);
        assert Holds(es[i], s);
      }
    }
  }

  /** Registration keeps the table in order.  Before the end of start-up the first free
      handle is the static mark, so a static policy always extends the full static part. */
  lemma PlacedOk(t: Table, p: Policy, h: int)
    requires t.Ok() && t.IsFirstFree(h) && !t.HasName(p.name) && (p.wantsSlot ==> FirstFree(t.free) != -1)
    ensures t.Placed(p, h).Ok()
  {
    CountUpdate(t.es, h, Full(t.Stored(p)));
    PlacedSlots(t, p, h);
    if !t.late {
      CountPrefix(t.es, t.staticmax);
      assert h >= t.staticmax && t.es[t.staticmax].Empty?;
    }
  }

  lemma RemovedSlots(t: Table, h: int)
    requires t.Ok() && 0 <= h < |t.es| && t.es[h].Full?
    ensures SlotsPartitioned(t.Removed(h).es, t.Removed(h).free)
  {
    var t' := t.Removed(h);
    var p := t.es[h].policy;
    forall s | 0 <= s < MAX_SLOTS ensures t'.free[s] <==> forall i :: 0 <= i < |t'.es| ==> !Holds(t'.es[i], s) {
      if Holds(t.es[h], s) {
        assert forall i :: 0 <= i < |t.es| && i != h ==> !Holds(t.es[i], s);
      } else if t'.free[s] {
        assert forall i :: 0 <= i < |t.es| ==> !Holds(t.es[i], s);
      } else {
        var i :| 0 <= i < |t.es| && Holds(t.es[i], s);
        assert Holds(t'.es[i], s);
      }
    }
  }

  /** Removal keeps the table in order exactly when the handle is above the static part and
      is not handle 0; the code checks neither. */
  lemma RemovedOk(t: Table, h: int)
    requires t.Ok() && 0 <= h < |t.es| <= UINT_MAX && t.es[h].Full?
    ensures t.Removed(h).Ok() <==> h >= t.staticmax && !(h == 0 && t.maxindex == 0)
  {
    var t' := t.Removed(h);
    CountUpdate(t.es, h, Empty);
    RemovedSlots(t, h);
    assert t'.es[h].Empty?;
    if !t.late {
      CountPrefix(t.es, t.staticmax);
    }
    if h < t.staticmax {
      assert !t'.FullBelow(t'.staticmax);
    }
  }

  /** What a load does, field by field: the entry at `h` becomes full with the policy's own name
      and flags and the lowest free slot if it wants one, and nothing else but the counters changes. */
  lemma LoadMeans(t: Table, p: Policy, h: int)
    requires t.Ok() && t.IsFirstFree(h) && (p.wantsSlot ==> FirstFree(t.free) != -1)
    ensures var t' := t.Placed(p, h); var e := t'.es[h];
      && |t'.es| == |t.es| && |t'.free| == 7 && t.es[h].Empty? && e.Full? && e.policy.registered
      && e.policy.name == p.name && e.policy.notLate == p.notLate && e.policy.unloadOk == p.unloadOk
      && e.policy.wantsSlot == p.wantsSlot
      && (forall i :: 0 <= i < |t.es| && i != h ==> t'.es[i] == t.es[i])
      && (if p.wantsSlot then
            && 0 <= e.policy.slot < 7 && t.free[e.policy.slot] && (forall s :: 0 <= s < e.policy.slot ==> !t.free[s])
            && !t'.free[e.policy.slot] && (forall s :: 0 <= s < 7 && s != e.policy.slot ==> t'.free[s] == t.free[s])
          else
            e.policy.slot == p.slot && t'.free == t.free)
    ensures var t' := t.Placed(p, h);
      && t'.numloaded == t.numloaded + 1 && t'.freehint == h + 1 && t'.late == t.late
      && t'.maxindex == (if h > t.maxindex then h else t.maxindex)
      && t'.staticmax == t.staticmax + (if !t.late || (!p.unloadOk && h == t.staticmax) then 1 else 0)
  {
  }

  /** What an unload does: the entry at `h` becomes empty, the slot its policy held is free again,
      and nothing else but the counters changes. */
  lemma UnloadMeans(t: Table, h: int)
    requires t.Ok() && 0 <= h < |t.es| && t.es[h].Full?
    ensures var t' := t.Removed(h); var p := t.es[h].policy;
      && |t'.es| == |t.es| && |t'.free| == 7 && t'.es[h].Empty?
      && (forall i :: 0 <= i < |t.es| && i != h ==> t'.es[i] == t.es[i])
      && (if p.wantsSlot then
            0 <= p.slot < 7 && !t.free[p.slot] && t'.free[p.slot]
            && (forall s :: 0 <= s < 7 && s != p.slot ==> t'.free[s] == t.free[s])
          else t'.free == t.free)
    ensures var t' := t.Removed(h);
      && t'.numloaded == t.numloaded - 1 && t'.late == t.late && t'.staticmax == t.staticmax
      && t'.freehint == (if t.staticmax <= h < t.freehint then h else t.freehint)
      && t'.maxindex == (if h != t.maxindex then t.maxindex else if h == 0 then 0xFFFF_FFFF else h - 1)
  {
    var p := t.es[h].policy;
    if p.wantsSlot {
      assert Holds(t.es[h], p.slot);
    }
  }

  /** What growth does: eight empty entries more. */
  lemma GrowthMeans(t: Table)
    ensures var t' := t.Grown();
      && |t'.es| == |t.es| + 8
      && (forall i :: 0 <= i < |t.es| ==> t'.es[i] == t.es[i]) && (forall i :: |t.es| <= i < |t'.es| ==> t'.es[i].Empty?)
      && t'.free == t.free && t'.numloaded == t.numloaded && t'.maxindex == t.maxindex && t'.staticmax == t.staticmax
      && t'.freehint == t.freehint && t'.late == t.late
  {
  }

  /** A load undone: the entries, the count and the slots are as before it. */
  lemma UnloadUndoesLoad(t: Table, p: Policy, h: int)
    requires t.Ok() && Loads(t, p, h)
    ensures var t' := t.Placed(p, h).Removed(h);
      t'.es == t.es && t'.free == t.free && t'.numloaded == t.numloaded && t'.late == t.late
  {
    PlacedOk(t, p, h);
    LoadMeans(t, p, h);
    UnloadMeans(t.Placed(p, h), h);
  }

  /** The table a registration starts from: with another chunk when it was full. */
  function WithRoom(t: Table): Table {
    if t.numloaded >= |t.es| then t.Grown() else t
  }

  ghost function LoadError(t: Table, p: Policy): int {
    if t.late && p.notLate then EPERM
    else if t.HasName(p.name) then EEXIST
    else if p.wantsSlot && FirstFree(t.free) == -1 then ENOMEM
    else 0
  }

  lemma LoadErrorMeans(t: Table, p: Policy)
    requires |t.free| == 7
    ensures LoadError(t, p)
         == if t.late && p.notLate then 1
            else if exists i :: 0 <= i < |t.es| && t.es[i].Full? && t.es[i].policy.name == p.name then 17
            else if p.wantsSlot && (forall s :: 0 <= s < 7 ==> !t.free[s]) then 12
            else 0
  {
  }

  lemma RefusedLoad(t: Table, t': Table, error: int)
    requires error == 1 ==> t' == t
    requires error != 1 ==> t' == WithRoom(t)
    ensures |t'.es| == if t.numloaded >= |t.es| && error != 1 then |t.es| + 8 else |t.es|
    ensures forall i :: 0 <= i < |t'.es| ==> t'.es[i] == if i < |t.es| then t.es[i] else Empty
    ensures t'.free == t.free && t'.numloaded == t.numloaded && t'.maxindex == t.maxindex && t'.staticmax == t.staticmax
    ensures t'.freehint == t.freehint && t'.late == t.late
  {
  }

  /** The handle is the lowest free one, next to the old table when that was full. */
  lemma LowestHandle(t: Table, h: int)
    requires t.Ok() && WithRoom(t).IsFirstFree(h)
    ensures h <= |t.es| && forall i :: 0 <= i < h ==> t.es[i].Full?
    ensures h < |t.es| ==> t.es[h].Empty?
  {
    var r := WithRoom(t);
    if t.numloaded >= |t.es| {
      assert r.es[|t.es|].Empty?;
    }
    assert forall i :: 0 <= i < |t.es| ==> r.es[i] == t.es[i];
  }

  lemma EnteredPolicy(t: Table, p: Policy, h: int)
    requires 0 <= h < |WithRoom(t).es| && (p.wantsSlot ==> FirstFree(t.free) != -1)
    ensures var t' := WithRoom(t).Placed(p, h); var e := t'.es[h];
      && |t'.es| == (if t.numloaded >= |t.es| then |t.es| + 8 else |t.es|)
      && e.Full? && e.policy.registered && e.policy.name == p.name && e.policy.notLate == p.notLate
      && e.policy.unloadOk == p.unloadOk && e.policy.wantsSlot == p.wantsSlot
      && (forall i :: 0 <= i < |t'.es| && i != h ==> t'.es[i] == if i < |t.es| then t.es[i] else Empty)
  {
  }

  lemma TakenSlot(t: Table, p: Policy, h: int)
    requires 0 <= h < |WithRoom(t).es| && |t.free| == 7 && (p.wantsSlot ==> FirstFree(t.free) != -1)
    ensures var t' := WithRoom(t).Placed(p, h); var s := t'.es[h].policy.slot;
      && |t'.free| == 7
      && (p.wantsSlot ==> 0 <= s < 7 && t.free[s] && (forall r :: 0 <= r < s ==> !t.free[r]))
      && (p.wantsSlot ==> !t'.free[s] && (forall r :: 0 <= r < 7 && r != s ==> t'.free[r] == t.free[r]))
      && (!p.wantsSlot ==> s == p.slot && t'.free == t.free)
  {
  }

  lemma CountersAfterLoad(t: Table, p: Policy, h: int)
    requires 0 <= h < |WithRoom(t).es| && (p.wantsSlot ==> FirstFree(t.free) != -1)
    ensures var t' := WithRoom(t).Placed(p, h);
      && t'.numloaded == t.numloaded + 1 && t'.freehint == h + 1 && t'.late == t.late
      && t'.maxindex == (if h > t.maxindex then h else t.maxindex)
      && t'.staticmax == t.staticmax + (if !t.late || (!p.unloadOk && h == t.staticmax) then 1 else 0)
  {
  }

  // ---------- traversal ----------

  /** The handles of the loaded policies, ascending. */
  function Handles(es: seq<Entry>): seq<int> {
    if es == [] then [] else Handles(es[..|es| - 1]) + if es[|es| - 1].Full? then [|es| - 1] else []
  }

  /** What the policies that implement a check answer, in handle order. */
  function Answers(es: seq<Entry>, implements: Policy -> bool, answer: Policy -> int): seq<int> {
    if es == [] then []
    else
      var e, before := es[|es| - 1], Answers(es[..|es| - 1], implements, answer);
      if e.Full? && implements(e.policy) then before + [answer(e.policy)] else before
  }

  lemma {:induction false} HandlesMember(es: seq<Entry>, h: int)
    ensures h in Handles(es) <==> 0 <= h < |es| && es[h].Full?
  {
    if es == [] {
    } else {
      HandlesMember(es[..|es| - 1], h);
    }
  }

  lemma {:induction false} HandlesAscend(es: seq<Entry>, j: int, k: int)
    requires 0 <= j < k < |Handles(es)|
    ensures Handles(es)[j] < Handles(es)[k]
  {
    var n := |es| - 1;
    var hs := Handles(es[..n]);
    if k < |hs| {
      HandlesAscend(es[..n], j, k);
    } else {
      assert hs[j] in hs;
      HandlesMember(es[..n], hs[j]);
    }
  }

  lemma {:induction false} HandlesExact(es: seq<Entry>)
    ensures forall h :: h in Handles(es) <==> 0 <= h < |es| && es[h].Full?
    ensures forall j, k :: 0 <= j < k < |Handles(es)| ==> Handles(es)[j] < Handles(es)[k]
  {
    forall h ensures h in Handles(es) <==> 0 <= h < |es| && es[h].Full? {
      HandlesMember(es, h);
    }
    forall j, k | 0 <= j < k < |Handles(es)| ensures Handles(es)[j] < Handles(es)[k] {
      HandlesAscend(es, j, k);
    }
  }

  lemma HandlesStep(es: seq<Entry>, i: int)
    requires 0 <= i < |es|
    ensures Handles(es[..i + 1]) == Handles(es[..i]) + if es[i].Full? then [i] else []
  {
    assert es[..i + 1][..i] == es[..i];
  }

  lemma {:induction false} NothingAbove(es: seq<Entry>, k: int, implements: Policy -> bool, answer: Policy -> int)
    requires 0 <= k <= |es| && forall i :: k <= i < |es| ==> es[i].Empty?
    ensures Handles(es[..k]) == Handles(es) && Answers(es[..k], implements, answer) == Answers(es, implements, answer)
  {
    if k < |es| {
      var n := |es| - 1;
      NothingAbove(es[..n], k, implements, answer);
      assert es[..n][..k] == es[..k];
    } else {
      assert es[..k] == es;
    }
  }

  /** Policy `i` implements the check and answers `a`. */
  predicate Says(es: seq<Entry>, i: int, implements: Policy -> bool, answer: Policy -> int, a: int) {
    0 <= i < |es| && es[i].Full? && implements(es[i].policy) && answer(es[i].policy) == a
  }

  /** The answers are exactly those of the implementing policies. */
  lemma {:induction false} AnswersExact(es: seq<Entry>, implements: Policy -> bool, answer: Policy -> int, a: int)
    ensures a in Answers(es, implements, answer) <==> exists i :: Says(es, i, implements, answer, a)
  {
    if es == [] {
    } else {
      var n := |es| - 1;
      AnswersExact(es[..n], implements, answer, a);
      if i :| Says(es[..n], i, implements, answer, a) {
        assert Says(es, i, implements, answer, a);
      }
      if i :| Says(es, i, implements, answer, a) && i < n {
        assert Says(es[..n], i, implements, answer, a);
      }
      assert a in Answers(es, implements, answer) <==> a in Answers(es[..n], implements, answer) || Says(es, n, implements, answer, a);
    }
  }

  /** What one entry contributes to the answers. */
  function AnswerOf(e: Entry, implements: Policy -> bool, answer: Policy -> int): seq<int> {
    if e.Full? && implements(e.policy) then [answer(e.policy)] else []
  }

  lemma {:induction false} AnswersJoin(a: seq<Entry>, b: seq<Entry>, implements: Policy -> bool, answer: Policy -> int)
    ensures Answers(a + b, implements, answer) == Answers(a, implements, answer) + Answers(b, implements, answer)
    decreases |b|
  {
    if b == [] {
      assert a + b == a;
    } else {
      var n := |b| - 1;
      AnswersJoin(a, b[..n], implements, answer);
      assert (a + b)[..|a| + n] == a + b[..n];
    }
  }

  lemma {:induction false} AnswersWithout(a: seq<Entry>, e: Entry, b: seq<Entry>, implements: Policy -> bool, answer: Policy -> int)
    ensures multiset(Answers(a + [e] + b, implements, answer))
         == multiset(Answers(a + b, implements, answer)) + multiset(AnswerOf(e, implements, answer))
  {
    AnswersJoin(a + [e], b, implements, answer);
    AnswersJoin(a, [e], implements, answer);
    AnswersJoin(a, b, implements, answer);
    assert Answers([e], implements, answer) == AnswerOf(e, implements, answer);
  }

  lemma SplitAt(es: seq<Entry>, e: Entry) returns (a: seq<Entry>, b: seq<Entry>)
    requires e in multiset(es)
    ensures es == a + [e] + b && multiset(es) == multiset(a + b) + multiset{e}
  {
    var j :| 0 <= j < |es| && es[j] == e;
    a, b := es[..j], es[j + 1..];
    assert es == a + [e] + b;
  }

  lemma SameRest(x: multiset<Entry>, y: multiset<Entry>, e: Entry)
    requires x + multiset{e} == y + multiset{e}
    ensures x == y
  {
    assert x == (x + multiset{e}) - multiset{e} && y == (y + multiset{e}) - multiset{e};
  }

  lemma {:induction false} AnswersPermute(es: seq<Entry>, es': seq<Entry>, implements: Policy -> bool, answer: Policy -> int)
    requires multiset(es) == multiset(es')
    ensures multiset(Answers(es, implements, answer)) == multiset(Answers(es', implements, answer))
    decreases |es|
  {
    if es == [] {
      assert |multiset(es')| == 0;
    } else {
      var e, rest := es[0], es[1..];
      assert es == [] + [e] + rest && [] + rest == rest;
      assert multiset(es) == multiset(rest) + multiset{e};
      var a, b := SplitAt(es', e);
      SameRest(multiset(rest), multiset(a + b), e);
      AnswersPermute(rest, a + b, implements, answer);
      AnswersWithout([], e, rest, implements, answer);
      AnswersWithout(a, e, b, implements, answer);
    }
  }

  /** Two tables with the same policies, in whatever order, give the same combined answer unless
      that is an unnamed error. */
  lemma {:induction false} TableOrderIsIgnored(es: seq<Entry>, es': seq<Entry>, implements: Policy -> bool, answer: Policy -> int)
    requires multiset(es) == multiset(es') && Rank(Combined(Answers(es, implements, answer))) != 1
    ensures Combined(Answers(es', implements, answer)) == Combined(Answers(es, implements, answer))
  {
    AnswersPermute(es, es', implements, answer);
    NamedErrorsIgnoreOrder(Answers(es, implements, answer), Answers(es', implements, answer));
  }

  class PolicyList {
    var numloaded: int
    var max: int
    var maxindex: int
    var staticmax: int
    var chunks: int
    var freehint: int
    var entries: array<Entry>
    var slotFree: seq<bool>
    var late: bool

    ghost function View(): Table
      reads this, entries
    {
      Table(entries[..], slotFree, numloaded, maxindex, staticmax, freehint, late)
    }

    ghost predicate Sized()
      reads this
    {
      chunks >= 1 && max == CHUNK * chunks && entries.Length == max
    }

    ghost predicate Valid()
      reads this, entries
    {
      Sized() && View().Ok()
    }

    constructor ()
      ensures Valid() && fresh(entries) && !late
      ensures View() == EmptyTable()
      ensures max == 8 && numloaded == 0 && maxindex == 0 && staticmax == 0 && freehint == 0 && |slotFree| == 7
      ensures (forall i :: 0 <= i < 8 ==> entries[i].Empty?) && (forall s :: 0 <= s < 7 ==> slotFree[s])
    {
      numloaded, max, maxindex, staticmax, chunks, freehint := 0, CHUNK, 0, 0, 1, 0;
      entries := new Entry[CHUNK](_ => Empty);
      slotFree := seq(MAX_SLOTS, _ => true);
      late := false;
      new;
      EmptyOk();
      assert View() == EmptyTable();
    }

    /** End of start-up: from here on the list is changed under the lock. */
    method EndStartup()
      requires Valid()
      modifies this`late
      ensures Valid() && View() == old(View()).(late := true)
    {
      late := true;
    }

    method Grow()
      requires Valid()
      modifies this
      ensures Valid() && fresh(entries) && View() == old(View()).Grown() && numloaded < max
      ensures max == old(max) + 8 && forall i :: 0 <= i < old(max) ==> entries[..][i] == old(entries[..])[i]
      ensures forall i :: old(max) <= i < max ==> entries[..][i].Empty?
    {
      GrownOk(View());
      GrowthMeans(View());
      var bigger := new Entry[CHUNK * (chunks + 1)](_ => Empty);
      forall i | 0 <= i < CHUNK * chunks {
        bigger[i] := entries[i];
      }
      assert bigger[..] == entries[..] + seq(CHUNK, _ => Empty);
      entries := bigger;
      max := max + CHUNK;
      chunks := chunks + 1;
      assert View() == old(View()).Grown();
    }

    method FindName(name: string) returns (found: bool)
      requires Valid()
      ensures found <==> View().HasName(name)
    {
      found := false;
      var i := 0;
      while i <= maxindex
        invariant 0 <= i <= maxindex + 1
        invariant forall j :: 0 <= j < i && entries[j].Full? ==> entries[j].policy.name != name
      {
        if entries[i].Full? && entries[i].policy.name == name {
          return true;
        }
        i := i + 1;
      }
    }

    /** The search for a handle starts at the hint and always succeeds. */
    method FindHandle() returns (handle: int)
      requires Valid() && numloaded < max
      ensures View().IsFirstFree(handle)
    {
      FreeEntryExists(entries[..], freehint);
      handle := freehint;
      while handle < max && entries[handle].Full?
        invariant freehint <= handle <= max
        invariant forall j :: 0 <= j < handle ==> entries[j].Full?
      {
        handle := handle + 1;
      }
    }

    /** Stores the policy at `handle` and updates marks and counters. */
    method Place(p: Policy, handle: int)
      requires Sized() && 0 <= handle < max && (p.wantsSlot ==> FirstFree(slotFree) != -1)
      modifies this, entries
      ensures Sized() && entries == old(entries) && View() == old(View()).Placed(p, handle)
      ensures entries[handle].Full? && entries[handle].policy.name == p.name && entries[handle].policy.unloadOk == p.unloadOk
      ensures entries[handle].policy.notLate == p.notLate && entries[handle].policy.wantsSlot == p.wantsSlot
      ensures forall i :: 0 <= i < max && i != handle ==> entries[i] == old(entries[i])
      ensures numloaded == old(numloaded) + 1 && freehint == handle + 1 && max == old(max) && late == old(late)
    {
      var q := p.(registered := true);
      if p.wantsSlot {
        var slot := FirstFree(slotFree);
        slotFree := slotFree[slot := false];
        q := q.(slot := slot);
      }
      freehint := handle + 1;
      if !late || (!p.unloadOk && handle == staticmax) {
        staticmax := staticmax + 1;
      }
      entries[handle] := Full(q);
      if handle > maxindex {
        maxindex := handle;
      }
      numloaded := numloaded + 1;
    }

    ghost function Roomy(): Table
      reads this, entries
    {
      WithRoom(View())
    }

    /** Grows the list when it is full. */
    method MakeRoom()
      requires Valid()
      modifies this
      ensures Valid() && (entries == old(entries) || fresh(entries)) && View() == old(Roomy()) && numloaded < max
      ensures max == if old(numloaded) >= old(max) then old(max) + CHUNK else old(max)
    {
      if numloaded >= max {
        Grow();
      }
    }

    /** A load in terms of the table as a value ... */
    method Load(p: Policy) returns (error: int, handle: int)
      requires Valid()
      modifies this, entries
      ensures Valid() && (entries == old(entries) || fresh(entries))
      ensures late == old(late) && max == if old(numloaded) >= old(max) && error != EPERM then old(max) + CHUNK else old(max)
      ensures error == LoadError(old(View()), p)
      ensures error == EPERM ==> View() == old(View())
      ensures error == EEXIST || error == ENOMEM ==> View() == old(Roomy())
      ensures error == 0 ==> old(Roomy()).IsFirstFree(handle) && View() == old(Roomy()).Placed(p, handle)
    {
      error, handle := 0, 0;
      if late && p.notLate {
        return EPERM, 0;
      }
      RoomyNames(View(), p.name);
      MakeRoom();
      var found := FindName(p.name);
      if found {
        return EEXIST, 0;
      }
      if p.wantsSlot && FirstFree(slotFree) == -1 {
        return ENOMEM, 0;
      }
      handle := FindHandle();
      PlacedOk(View(), p, handle);
      Place(p, handle);
    }

    /** ... and of the entries. */
    method LoadEntry(p: Policy) returns (error: int, handle: int)
      requires Valid()
      modifies this, entries
      ensures Valid() && (entries == old(entries) || fresh(entries)) && late == old(late)
      ensures max == if old(numloaded) >= old(max) && error != EPERM then old(max) + CHUNK else old(max)
      ensures error == LoadError(old(View()), p)
      ensures error != 0 ==> View() == if error == EPERM then old(View()) else old(Roomy())
      ensures error == 0 ==> 0 <= handle < max && old(Roomy()).IsFirstFree(handle) && View() == old(Roomy()).Placed(p, handle)
      ensures error != 0 ==>
                forall i :: 0 <= i < max ==> entries[..][i] == if i < |old(entries[..])| then old(entries[..])[i] else Empty
      ensures error == 0 ==> entries[..][handle].Full? && entries[..][handle].policy.registered
      ensures error == 0 ==> var q := entries[..][handle].policy;
                q.name == p.name && q.notLate == p.notLate && q.unloadOk == p.unloadOk && q.wantsSlot == p.wantsSlot
      ensures error == 0 ==> forall i :: 0 <= i < max && i != handle ==>
                entries[..][i] == if i < |old(entries[..])| then old(entries[..])[i] else Empty
    {
      ghost var t := View();
      error, handle := Load(p);
      if error != 0 {
        RefusedLoad(t, View(), error);
      } else {
        EnteredPolicy(t, p, handle);
      }
    }

    /**
     * Loads a policy at the lowest free handle.  It fails, and changes nothing but perhaps the
     * room, for a policy that must not come late (1), a name already loaded (17), or no free
     * slot (12).  When it succeeds the entry at the handle is the policy, with the lowest free
     * slot if it wants one, and no other entry and no other slot changes.
     */
    method Register(p: Policy) returns (error: int, handle: int)
      requires Valid()
      modifies this, entries
      ensures Valid() && (entries == old(entries) || fresh(entries)) && late == old(late)
      ensures error == if old(late) && p.notLate then 1
                       else if exists i :: 0 <= i < |old(entries[..])| && old(entries[..])[i].Full? && old(entries[..])[i].policy.name == p.name then 17
                       else if p.wantsSlot && (forall s :: 0 <= s < 7 ==> !old(slotFree)[s]) then 12
                       else 0
      ensures max == if old(numloaded) >= old(max) && error != 1 then old(max) + 8 else old(max)
      ensures error != 0 ==>
                forall i :: 0 <= i < max ==> entries[..][i] == if i < |old(entries[..])| then old(entries[..])[i] else Empty
      ensures error != 0 ==> slotFree == old(slotFree) && numloaded == old(numloaded) && maxindex == old(maxindex)
      ensures error != 0 ==> staticmax == old(staticmax) && freehint == old(freehint)
      ensures error == 0 ==> 0 <= handle < max && handle <= old(max) && (handle < old(max) ==> old(entries[..])[handle].Empty?)
      ensures error == 0 ==> forall i :: 0 <= i < handle ==> old(entries[..])[i].Full?
      ensures error == 0 ==> entries[..][handle].Full? && entries[..][handle].policy.registered
      ensures error == 0 ==> var q := entries[..][handle].policy;
                q.name == p.name && q.notLate == p.notLate && q.unloadOk == p.unloadOk && q.wantsSlot == p.wantsSlot
      ensures error == 0 ==> forall i :: 0 <= i < max && i != handle ==>
                entries[..][i] == if i < |old(entries[..])| then old(entries[..])[i] else Empty
      ensures error == 0 && p.wantsSlot ==> var s := entries[..][handle].policy.slot;
                0 <= s < 7 && old(slotFree)[s] && (forall r :: 0 <= r < s ==> !old(slotFree)[r])
                && |slotFree| == 7 && !slotFree[s] && (forall r :: 0 <= r < 7 && r != s ==> slotFree[r] == old(slotFree)[r])
      ensures error == 0 && !p.wantsSlot ==> entries[..][handle].policy.slot == p.slot && slotFree == old(slotFree)
      ensures error == 0 ==> numloaded == old(numloaded) + 1 && freehint == handle + 1
      ensures error == 0 ==> maxindex == if handle > old(maxindex) then handle else old(maxindex)
      ensures error == 0 ==>
                staticmax == old(staticmax) + if !old(late) || (!p.unloadOk && handle == old(staticmax)) then 1 else 0
    {
      ghost var t := View();
      error, handle := LoadEntry(p);
      LoadErrorMeans(t, p);
      if error != 0 {
        RefusedLoad(t, View(), error);
      } else {
        LowestHandle(t, handle);
        TakenSlot(t, p, handle);
        CountersAfterLoad(t, p, handle);
      }
    }

    /** Empties the entry at `handle` and updates marks and counters. */
    method TakeOut(handle: int)
      requires Sized() && 0 <= handle < max && entries[handle].Full?
      requires entries[handle].policy.wantsSlot ==> 0 <= entries[handle].policy.slot < |slotFree|
      modifies this, entries
      ensures Sized() && entries == old(entries) && View() == old(View()).Removed(handle)
      ensures entries[handle].Empty? && numloaded == old(numloaded) - 1 && max == old(max)
    {
      var p := entries[handle].policy;
      entries[handle] := Empty;
      if handle < freehint && handle >= staticmax {
        freehint := handle;
      }
      if handle == maxindex {
        maxindex := if maxindex == 0 then UINT_MAX else maxindex - 1;
      }
      numloaded := numloaded - 1;
      if p.wantsSlot {
        slotFree := slotFree[p.slot := true];
      }
    }

    /** Takes out the policy at `handle` if it may be unloaded. */
    method Unregister(handle: int) returns (error: int)
      requires Valid() && max <= UINT_MAX && 0 <= handle < max && entries[handle].Full?
      modifies this, entries
      ensures Sized() && entries == old(entries)
      ensures error == if old(entries[handle].policy.unloadOk) then 0 else 16
      ensures error != 0 ==> View() == old(View())
      ensures error == 0 ==> entries[handle].Empty? && (forall i :: 0 <= i < max && i != handle ==> entries[i] == old(entries[..])[i])
      ensures error == 0 ==> numloaded == old(numloaded) - 1 && max == old(max) && staticmax == old(staticmax) && late == old(late)
      ensures error == 0 ==> freehint == if old(staticmax) <= handle < old(freehint) then handle else old(freehint)
      ensures error == 0 ==> maxindex == if handle != old(maxindex) then old(maxindex) else if handle == 0 then 0xFFFF_FFFF else handle - 1
      ensures error == 0 && old(entries[handle].policy.wantsSlot) ==> var s := old(entries[handle].policy.slot);
                0 <= s < 7 && |slotFree| == 7 && slotFree[s] && !old(slotFree)[s]
                && (forall r :: 0 <= r < 7 && r != s ==> slotFree[r] == old(slotFree)[r])
      ensures error == 0 && !old(entries[handle].policy.wantsSlot) ==> slotFree == old(slotFree)
      ensures error == 0 ==> View() == old(View()).Removed(handle)
      ensures Valid() <==> error != 0 || (handle >= staticmax && !(handle == 0 && old(maxindex) == 0))
    {
      if !entries[handle].policy.registered {
        assert false;
      }
      if !entries[handle].policy.unloadOk {
        return EBUSY;
      }
      RemovedOk(View(), handle);
      UnloadMeans(View(), handle);
      TakeOut(handle);
      error := 0;
    }

    /** Visits every loaded policy once, in handle order: the static part, and the rest only
        when more policies are loaded than the static part holds. */
    method Iterate() returns (visited: seq<int>)
      requires Valid()
      ensures visited == Handles(entries[..])
    {
      visited := [];
      var i := 0;
      while i < staticmax
        invariant 0 <= i <= staticmax && visited == Handles(entries[..][..i])
      {
        HandlesStep(entries[..], i);
        if entries[i].Full? {
          visited := visited + [i];
        }
        i := i + 1;
      }
      if numloaded > staticmax {
        while i <= maxindex
          invariant 0 <= i && (i <= maxindex + 1 || i == staticmax) && i <= max && visited == Handles(entries[..][..i])
        {
          HandlesStep(entries[..], i);
          if entries[i].Full? {
            visited := visited + [i];
          }
          i := i + 1;
        }
      } else {
        CountPrefix(entries[..], staticmax);
      }
      NothingAbove(entries[..], i, _ => true, _ => 0);
    }

    /** Asks every loaded policy that implements a check, and combines the answers. */
    method Check(implements: Policy -> bool, answer: Policy -> int) returns (error: int)
      requires Valid()
      ensures error == Combined(Answers(entries[..], implements, answer))
      ensures error == 0 <==> forall i :: 0 <= i < max && entries[i].Full? && implements(entries[i].policy) ==> answer(entries[i].policy) == 0
    {
      error := 0;
      var i := 0;
      while i < staticmax
        invariant 0 <= i <= staticmax && error == Combined(Answers(entries[..i], implements, answer))
      {
        error := CheckOne(i, error, implements, answer);
        i := i + 1;
      }
      if numloaded > staticmax {
        while i <= maxindex
          invariant 0 <= i && (i <= maxindex + 1 || i == staticmax) && i <= max
          invariant error == Combined(Answers(entries[..i], implements, answer))
        {
          error := CheckOne(i, error, implements, answer);
          i := i + 1;
        }
      } else {
        CountPrefix(entries[..], staticmax);
      }
      NothingAbove(entries[..], i, implements, answer);
      assert entries[..][..i] == entries[..i];
      CheckZero(entries[..], implements, answer);
    }

    method CheckOne(i: int, error: int, implements: Policy -> bool, answer: Policy -> int) returns (error': int)
      requires Sized() && 0 <= i < max && error == Combined(Answers(entries[..i], implements, answer))
      ensures error' == Combined(Answers(entries[..i + 1], implements, answer))
    {
      error' := error;
      assert entries[..i + 1][..i] == entries[..i];
      if entries[i].Full? {
        var mpc := entries[i].policy;
        if implements(mpc) {
          ghost var before := Answers(entries[..i], implements, answer);
          assert (before + [answer(mpc)])[..|before|] == before;
          error' := ErrorSelect(answer(mpc), error);
        }
      }
    }

    /** Grants when any implementing policy answers 0, and denies otherwise. */
    method Grant(implements: Policy -> bool, answer: Policy -> int) returns (error: int)
      requires Valid()
      ensures error == if exists i :: Says(entries[..], i, implements, answer, 0) then 0 else EPERM
    {
      var visited := Iterate();
      HandlesExact(entries[..]);
      error := EPERM;
      var k := 0;
      while k < |visited|
        invariant 0 <= k <= |visited|
        invariant error == if exists j :: 0 <= j < k && Says(entries[..], visited[j], implements, answer, 0) then 0 else EPERM
      {
        assert visited[k] in visited;
        var mpc := entries[visited[k]].policy;
        if implements(mpc) && answer(mpc) == 0 {
          assert Says(entries[..], visited[k], implements, answer, 0);
          error := 0;
        }
        k := k + 1;
      }
      if i :| Says(entries[..], i, implements, answer, 0) {
        assert i in visited;
        var j :| 0 <= j < |visited| && visited[j] == i;
        assert Says(entries[..], visited[j], implements, answer, 0);
      }
    }
  }

  /** A load followed by the unload of the handle it gave: 16 exactly when the policy does not
      allow it, and otherwise the entries, the count and the slots are as before. */
  method LoadAndUnload(list: PolicyList, p: Policy) returns (error: int, error': int)
    requires list.Valid() && list.max + 8 <= 0xFFFF_FFFF
    modifies list, list.entries
    ensures error == 0 ==> error' == if p.unloadOk then 0 else 16
    ensures error == 0 && p.unloadOk ==>
              && list.numloaded == old(list.numloaded) && list.slotFree == old(list.slotFree)
              && list.max == list.entries.Length >= old(list.max)
              && forall i :: 0 <= i < list.max ==>
                   list.entries[..][i] == if i < |old(list.entries[..])| then old(list.entries[..])[i] else Empty
  {
    error' := 0;
    var handle;
    error, handle := list.Register(p);
    if error == 0 {
      error' := list.Unregister(handle);
    }
  }

  lemma {:induction false} CheckZero(es: seq<Entry>, implements: Policy -> bool, answer: Policy -> int)
    ensures Combined(Answers(es, implements, answer)) == 0
       <==> forall i :: 0 <= i < |es| && es[i].Full? && implements(es[i].policy) ==> answer(es[i].policy) == 0
  {
    var all := Answers(es, implements, answer);
    CombinedIsMaximal(all);
    if Combined(all) == 0 {
      forall i | 0 <= i < |es| && es[i].Full? && implements(es[i].policy) ensures answer(es[i].policy) == 0 {
        var a := answer(es[i].policy);
        assert Says(es, i, implements, answer, a);
        AnswersExact(es, implements, answer, a);
      }
    } else {
      var k :| 0 <= k < |all| && all[k] != 0;
      AnswersExact(es, implements, answer, all[k]);
      var i :| Says(es, i, implements, answer, all[k]);
    }
  }

  // ---------- runs ----------

  /** One successful operation on the table: growth, a load, an unload of a dynamic handle
      other than a lone handle 0, or the end of start-up. */
  ghost predicate Next(t: Table, t': Table) {
    || t' == t.Grown()
    || t' == t.(late := true)
    || (exists p, h :: Loads(t, p, h) && t' == t.Placed(p, h))
    || (exists h :: Unloads(t, h) && t' == t.Removed(h))
  }

  ghost predicate Loads(t: Table, p: Policy, h: int) {
    t.IsFirstFree(h) && !t.HasName(p.name) && (p.wantsSlot ==> FirstFree(t.free) != -1)
  }

  ghost predicate Unloads(t: Table, h: int) {
    && 0 <= h < |t.es| <= UINT_MAX && t.es[h].Full? && t.es[h].policy.unloadOk
    && (t.es[h].policy.wantsSlot ==> 0 <= t.es[h].policy.slot < |t.free|)
    && h >= t.staticmax && !(h == 0 && t.maxindex == 0)
  }

  /** Every table reached from the empty one is in order, and when it is not full a load
      finds a handle. */
  lemma {:induction false} RunOk(run: seq<Table>, i: nat)
    requires i < |run| && run[0] == EmptyTable()
    requires forall k :: 0 < k < |run| ==> Next(run[k - 1], run[k])
    ensures run[i].Ok()
    ensures run[i].numloaded < |run[i].es| ==> exists h :: run[i].freehint <= h && run[i].IsFirstFree(h)
    decreases i
  {
    if i == 0 {
      EmptyOk();
    } else {
      RunOk(run, i - 1);
      NextKeepsOk(run[i - 1], run[i]);
    }
    if run[i].numloaded < |run[i].es| {
      FirstFreeExists(run[i], run[i].freehint);
    }
  }

  lemma NextKeepsOk(t: Table, t': Table)
    requires t.Ok() && Next(t, t')
    ensures t'.Ok()
  {
    if t' == t.Grown() {
      GrownOk(t);
    } else if p, h :| Loads(t, p, h) && t' == t.Placed(p, h) {
      PlacedOk(t, p, h);
    } else if h :| Unloads(t, h) && t' == t.Removed(h) {
      RemovedOk(t, h);
    }
  }

  lemma FirstLoad(t: Table, p: Policy)
    requires t.es == EmptyTable().es && t.free == EmptyTable().free
    ensures Loads(t, p, 0)
  {
    assert t.free[0] && t.es[0].Empty?;
  }

  /** The first policy to come late may be unloaded, and then `maxindex` wraps around. */
  lemma LoneHandleBreaks(p: Policy)
    requires p.unloadOk
    ensures var t := EmptyTable().(late := true); Loads(t, p, 0) && Next(EmptyTable(), t) && Next(t, t.Placed(p, 0))
    ensures !EmptyTable().(late := true).Placed(p, 0).Removed(0).Ok()
  {
    var t := EmptyTable().(late := true);
    EmptyOk();
    FirstLoad(t, p);
    assert t.es == EmptyTable().es;
    PlacedOk(t, p, 0);
    RemovedOk(t.Placed(p, 0), 0);
  }

  /** So may one that came during start-up, and then the static part has a hole. */
  lemma StaticUnloadBreaks(p: Policy)
    requires p.unloadOk
    ensures Loads(EmptyTable(), p, 0) && Next(EmptyTable(), EmptyTable().Placed(p, 0))
    ensures !EmptyTable().Placed(p, 0).Removed(0).Ok()
  {
    EmptyOk();
    FirstLoad(EmptyTable(), p);
    PlacedOk(EmptyTable(), p, 0);
    RemovedOk(EmptyTable().Placed(p, 0), 0);
  }

  lemma {:induction false} FirstFreeExists(t: Table, k: int)
    requires t.Ok() && t.numloaded < |t.es| && 0 <= k <= |t.es| && t.FullBelow(k)
    ensures exists h :: k <= h && t.IsFirstFree(h)
    decreases |t.es| - k
  {
    FreeEntryExists(t.es, k);
    if t.es[k].Full? {
      FirstFreeExists(t, k + 1);
    } else {
      assert t.IsFirstFree(k);
    }
  }
}

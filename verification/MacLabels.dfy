/**
 * The two lists of label namespaces and their listeners.
 */
module MacLabels {

  const MAX_NAME := 32

  /** A namespace and the handles of the policies that listen to it, newest first. */
  datatype Element = Element(name: string, listeners: seq<int>)

  datatype Lists = Lists(st: seq<Element>, dyn: seq<Element>)

  /** A leading '?' marks a namespace as optional and is not part of its name. */
  function Key(name: string): string {
    if name != "" && name[0] == '?' then name[1..] else name
  }

  /** What fits in the fixed-size name field. */
  function Cut(name: string): (r: string)
    ensures |r| < MAX_NAME && (|name| < MAX_NAME ==> r == name)
  {
    if |name| < MAX_NAME then name else name[..MAX_NAME - 1]
  }

  // ---------- lookups ----------

  predicate HasKey(es: seq<Element>, key: string) {
    exists i :: 0 <= i < |es| && Key(es[i].name) == key
  }

  /** The first element with the given key, or the length of the list. */
  function Find(es: seq<Element>, key: string): (i: nat)
    ensures i <= |es| && (i < |es| ==> Key(es[i].name) == key)
    ensures forall j :: 0 <= j < i ==> Key(es[j].name) != key
    ensures i < |es| <==> HasKey(es, key)
  {
    if es == [] then 0
    else if Key(es[0].name) == key then 0
    else
      var i := Find(es[1..], key);
      assert forall j :: 0 < j < |es| ==> es[j] == es[1..][j - 1];
      1 + i
  }

  function AddListener(es: seq<Element>, i: int, h: int): seq<Element>
    requires 0 <= i < |es|
  {
    es[i := Element(es[i].name, [h] + es[i].listeners)]
  }

  // ---------- operations ----------

  function AddName(ls: Lists, h: int, name: string, isStatic: bool): Lists {
    var key := Key(name);
    var i, j := Find(ls.st, key), Find(ls.dyn, key);
    if i < |ls.st| then ls.(st := AddListener(ls.st, i, h))
    else if j < |ls.dyn| then ls.(dyn := AddListener(ls.dyn, j, h))
    else if isStatic then ls.(st := [Element(Cut(name), [h])] + ls.st)
    else ls.(dyn := [Element(Cut(name), [h])] + ls.dyn)
  }

  function AddNames(ls: Lists, h: int, names: seq<string>, isStatic: bool): Lists {
    if names == [] then ls
    else AddName(AddNames(ls, h, names[..|names| - 1], isStatic), h, names[|names| - 1], isStatic)
  }

  /** Drop the first listener `h` of a listener list. */
  function DropListener(l: seq<int>, h: int): seq<int> {
    if l == [] then [] else if l[0] == h then l[1..] else [l[0]] + DropListener(l[1..], h)
  }

  /** Drop the first listener `h` found, and its element when that was the last listener. */
  function RemoveListener(es: seq<Element>, h: int): seq<Element> {
    if es == [] then []
    else if h in es[0].listeners then
      var left := DropListener(es[0].listeners, h);
      if left == [] then es[1..] else [Element(es[0].name, left)] + es[1..]
    else [es[0]] + RemoveListener(es[1..], h)
  }

  // ---------- the invariant ----------

  ghost predicate Unique(es: seq<Element>) {
    forall i, j :: 0 <= i < j < |es| ==> Key(es[i].name) != Key(es[j].name)
  }

  ghost predicate AllHeard(es: seq<Element>) {
    forall i :: 0 <= i < |es| ==> es[i].listeners != []
  }

  /** No namespace is listed twice, on one list or on both, and every one has a listener. */
  ghost predicate Ok(ls: Lists) {
    && Unique(ls.st) && Unique(ls.dyn) && AllHeard(ls.st) && AllHeard(ls.dyn)
    && forall i, j :: 0 <= i < |ls.st| && 0 <= j < |ls.dyn| ==> Key(ls.st[i].name) != Key(ls.dyn[j].name)
  }

  predicate Listed(ls: Lists, key: string) {
    HasKey(ls.st, key) || HasKey(ls.dyn, key)
  }

  function Names(ls: Lists): seq<string> {
    seq(|ls.st| + |ls.dyn|, i requires 0 <= i < |ls.st| + |ls.dyn| =>
      if i < |ls.st| then ls.st[i].name else ls.dyn[i - |ls.st|].name)
  }

  /** On the names themselves: no two listed names are equal, and none is another with a '?' in
      front, unless that other has one of its own. */
  lemma ListedNamesDiffer(ls: Lists, i: nat, j: nat)
    requires Ok(ls) && i < |Names(ls)| && j < |Names(ls)| && i != j
    ensures var a, b := Names(ls)[i], Names(ls)[j];
      && a != b
      && (a == "?" + b ==> "?" <= b) && (b == "?" + a ==> "?" <= a)
  {
    var a, b := Names(ls)[i], Names(ls)[j];
    assert Key(a) != Key(b);
    assert ("?" + b)[1..] == b && ("?" + a)[1..] == a;
  }

  /** The same namespace, marked as optional or not. */
  predicate SameNamespace(a: string, b: string) {
    a == b || (a == "?" + b && !("?" <= b)) || (b == "?" + a && !("?" <= a))
  }

  lemma SameNamespaceIsKey(a: string, b: string)
    ensures SameNamespace(a, b) ==> Key(a) == Key(b)
    ensures Key(a) == Key(b) && !("?" <= Key(a)) ==> SameNamespace(a, b)
  {
    assert "?" <= a ==> a == "?" + Key(a);
    assert "?" <= b ==> b == "?" + Key(b);
  }

  /** A namespace that is not listed gets an element of its own in front of its list, under the
      first 31 characters of its name, heard by the policy alone. */
  lemma NewNameStored(ls: Lists, h: int, name: string, isStatic: bool)
    requires forall i :: 0 <= i < |ls.st| ==> Key(ls.st[i].name) != Key(name)
    requires forall i :: 0 <= i < |ls.dyn| ==> Key(ls.dyn[i].name) != Key(name)
    ensures var e := Element(if |name| <= 31 then name else name[..31], [h]);
      AddName(ls, h, name, isStatic) == if isStatic then Lists([e] + ls.st, ls.dyn) else Lists(ls.st, [e] + ls.dyn)
  {
  }

  /** One that is listed gets the policy as its newest listener, and nothing else changes. */
  lemma ListedNameHeard(ls: Lists, h: int, name: string, isStatic: bool, i: nat, onStatic: bool)
    requires Ok(ls) && i < |if onStatic then ls.st else ls.dyn|
    requires SameNamespace((if onStatic then ls.st else ls.dyn)[i].name, name)
    ensures var es := if onStatic then ls.st else ls.dyn;
      var es' := es[i := Element(es[i].name, [h] + es[i].listeners)];
      AddName(ls, h, name, isStatic) == if onStatic then Lists(es', ls.dyn) else Lists(ls.st, es')
  {
    var es := if onStatic then ls.st else ls.dyn;
    SameNamespaceIsKey(es[i].name, name);
    assert HasKey(es, Key(name));
    assert Find(es, Key(name)) == i;
    if !onStatic {
      assert !HasKey(ls.st, Key(name));
    }
  }

  /** A list with a new element in front. */
  lemma ConsUnique(e: Element, es: seq<Element>)
    requires Unique(es) && AllHeard(es) && e.listeners != []
    ensures Unique([e] + es) <==> !HasKey(es, Key(e.name))
    ensures AllHeard([e] + es)
  {
    var es' := [e] + es;
    assert forall i :: 0 < i < |es'| ==> es'[i] == es[i - 1];
    if HasKey(es, Key(e.name)) {
      var i :| 0 <= i < |es| && Key(es[i].name) == Key(e.name);
      assert Key(es'[0].name) == Key(es'[i + 1].name);
    }
  }

  lemma ConsHasKey(e: Element, es: seq<Element>, key: string)
    ensures HasKey([e] + es, key) <==> key == Key(e.name) || HasKey(es, key)
  {
    var es' := [e] + es;
    assert es'[0] == e && forall i :: 0 < i < |es'| ==> es'[i] == es[i - 1];
    if HasKey(es, key) {
      var i :| 0 <= i < |es| && Key(es[i].name) == key;
      assert Key(es'[i + 1].name) == key;
    }
  }

  /** A list with the same names. */
  lemma SameNames(es: seq<Element>, es': seq<Element>)
    requires |es'| == |es| && Unique(es) && AllHeard(es)
    requires forall i :: 0 <= i < |es| ==> es'[i].name == es[i].name && es'[i].listeners != []
    ensures Unique(es') && AllHeard(es')
  {
  }

  lemma SameKeys(es: seq<Element>, es': seq<Element>, key: string)
    requires |es'| == |es| && forall i :: 0 <= i < |es| ==> es'[i].name == es[i].name
    ensures HasKey(es', key) <==> HasKey(es, key)
  {
    if HasKey(es, key) {
      var i :| 0 <= i < |es| && Key(es[i].name) == key;
      assert Key(es'[i].name) == key;
    }
  }

  /** Two lists have no namespace in common. */
  ghost predicate Apart(a: seq<Element>, b: seq<Element>) {
    forall key :: !(HasKey(a, key) && HasKey(b, key))
  }

  lemma OkParts(ls: Lists)
    ensures Ok(ls) <==> Unique(ls.st) && Unique(ls.dyn) && AllHeard(ls.st) && AllHeard(ls.dyn) && Apart(ls.st, ls.dyn)
  {
    if Ok(ls) {
      forall key ensures !(HasKey(ls.st, key) && HasKey(ls.dyn, key)) {
      }
    } else if Apart(ls.st, ls.dyn) {
      forall i, j | 0 <= i < |ls.st| && 0 <= j < |ls.dyn| ensures Key(ls.st[i].name) != Key(ls.dyn[j].name) {
        assert HasKey(ls.st, Key(ls.st[i].name)) && HasKey(ls.dyn, Key(ls.dyn[j].name));
      }
    }
  }

  lemma ConsApart(e: Element, a: seq<Element>, b: seq<Element>)
    requires Apart(a, b)
    ensures Apart([e] + a, b) <==> !HasKey(b, Key(e.name))
    ensures Apart(b, [e] + a) <==> !HasKey(b, Key(e.name))
  {
    forall key ensures HasKey([e] + a, key) <==> key == Key(e.name) || HasKey(a, key) {
      ConsHasKey(e, a, key);
    }
  }

  lemma SameApart(a: seq<Element>, a': seq<Element>, b: seq<Element>)
    requires |a'| == |a| && (forall i :: 0 <= i < |a| ==> a'[i].name == a[i].name)
    ensures Apart(a', b) <==> Apart(a, b)
    ensures Apart(b, a') <==> Apart(b, a)
  {
    forall key ensures HasKey(a', key) <==> HasKey(a, key) {
      SameKeys(a, a', key);
    }
  }

  lemma ListedNameOk(ls: Lists, h: int, name: string, isStatic: bool)
    requires Ok(ls) && Listed(ls, Key(name))
    ensures Ok(AddName(ls, h, name, isStatic))
  {
    var ls' := AddName(ls, h, name, isStatic);
    OkParts(ls);
    OkParts(ls');
    if HasKey(ls.st, Key(name)) {
      SameNames(ls.st, ls'.st);
      SameApart(ls.st, ls'.st, ls.dyn);
    } else {
      SameNames(ls.dyn, ls'.dyn);
      SameApart(ls.dyn, ls'.dyn, ls.st);
    }
  }

  lemma NewNameOk(ls: Lists, h: int, name: string, isStatic: bool)
    requires Ok(ls) && !Listed(ls, Key(name))
    ensures Ok(AddName(ls, h, name, isStatic)) <==> !Listed(ls, Key(Cut(name)))
  {
    var e := Element(Cut(name), [h]);
    OkParts(ls);
    OkParts(AddName(ls, h, name, isStatic));
    if isStatic {
      ConsUnique(e, ls.st);
      ConsApart(e, ls.st, ls.dyn);
    } else {
      ConsUnique(e, ls.dyn);
      ConsApart(e, ls.dyn, ls.st);
    }
  }

  /** Adding a name keeps the lists in order exactly when the name is already listed, or what
      is left of it after cutting to the field size is not. */
  lemma AddNameOk(ls: Lists, h: int, name: string, isStatic: bool)
    requires Ok(ls)
    ensures Ok(AddName(ls, h, name, isStatic)) <==> Listed(ls, Key(name)) || !Listed(ls, Key(Cut(name)))
  {
    if Listed(ls, Key(name)) {
      ListedNameOk(ls, h, name, isStatic);
    } else {
      NewNameOk(ls, h, name, isStatic);
    }
  }

  lemma {:induction false} AddNamesStep(ls: Lists, h: int, names: seq<string>, isStatic: bool, i: int)
    requires 0 <= i < |names|
    ensures AddNames(ls, h, names[..i + 1], isStatic) == AddName(AddNames(ls, h, names[..i], isStatic), h, names[i], isStatic)
  {
    assert names[..i + 1][..i] == names[..i];
  }

  lemma ShortNameOk(ls: Lists, h: int, name: string, isStatic: bool)
    requires Ok(ls) && |name| < MAX_NAME
    ensures Ok(AddName(ls, h, name, isStatic))
  {
    AddNameOk(ls, h, name, isStatic);
  }

  predicate Fit(names: seq<string>) {
    forall i :: 0 <= i < |names| ==> |names[i]| < MAX_NAME
  }

  /** Names that fit are always safe to add. */
  lemma {:induction false} AddNamesOk(ls: Lists, h: int, names: seq<string>, isStatic: bool)
    requires Ok(ls) && Fit(names)
    ensures Ok(AddNames(ls, h, names, isStatic))
  {
    if names == [] {
    } else {
      var n := |names| - 1;
      AddNamesOk(ls, h, names[..n], isStatic);
      ShortNameOk(AddNames(ls, h, names[..n], isStatic), h, names[n], isStatic);
    }
  }

  /** A name that does not fit is listed a second time when it is added again. */
  lemma LongNameListedTwice(name: string, h: int, h': int)
    requires |name| >= MAX_NAME
    ensures var once := AddName(Lists([], []), h, name, false);
      Ok(once) && !Ok(AddName(once, h', name, false))
  {
    var once := AddName(Lists([], []), h, name, false);
    AddNameOk(Lists([], []), h, name, false);
    AddNameOk(once, h', name, false);
    assert |Key(name)| > |Key(Cut(name))|;
    assert once.dyn == [Element(Cut(name), [h])];
    assert Key(once.dyn[0].name) == Key(Cut(name));
  }

  // ---------- removal ----------

  function CountIn(l: seq<int>, h: int): nat {
    multiset(l)[h]
  }

  function Occurrences(es: seq<Element>, h: int): nat {
    if es == [] then 0 else CountIn(es[0].listeners, h) + Occurrences(es[1..], h)
  }

  lemma {:induction false} DropListenerCounts(l: seq<int>, h: int, x: int)
    ensures CountIn(DropListener(l, h), x) == CountIn(l, x) - if x == h && h in l then 1 else 0
  {
    if l == [] {
    } else {
      DropListenerCounts(l[1..], h, x);
      assert l == [l[0]] + l[1..];
    }
  }

  /** Removal takes out one listener of the policy, if there is any, and none of another. */
  lemma {:induction false} RemoveListenerCounts(es: seq<Element>, h: int, x: int)
    ensures Occurrences(RemoveListener(es, h), x) == Occurrences(es, x) - if x == h && Occurrences(es, h) > 0 then 1 else 0
  {
    if es == [] {
    } else {
      var rest := RemoveListener(es[1..], h);
      if h in es[0].listeners {
        DropListenerCounts(es[0].listeners, h, x);
        var left := DropListener(es[0].listeners, h);
        assert left == [] ==> CountIn(left, x) == 0;
        assert ([Element(es[0].name, left)] + es[1..])[1..] == es[1..];
      } else {
        RemoveListenerCounts(es[1..], h, x);
        assert ([es[0]] + rest)[1..] == rest;
        assert CountIn(es[0].listeners, h) == 0;
      }
    }
  }

  /** So the policy stops listening altogether exactly when it listened at most once. */
  lemma {:induction false} RemoveListenerIsComplete(es: seq<Element>, h: int)
    ensures Occurrences(RemoveListener(es, h), h) == 0 <==> Occurrences(es, h) <= 1
  {
    RemoveListenerCounts(es, h, h);
  }

  lemma {:induction false} NotListening(es: seq<Element>, h: int)
    ensures Occurrences(es, h) == 0 <==> forall i :: 0 <= i < |es| ==> h !in es[i].listeners
  {
    if es == [] {
    } else {
      NotListening(es[1..], h);
      assert forall i :: 0 < i < |es| ==> es[i] == es[1..][i - 1];
      assert h in es[0].listeners <==> CountIn(es[0].listeners, h) > 0;
      if Occurrences(es, h) == 0 {
        assert forall i :: 0 <= i < |es| - 1 ==> h !in es[1..][i].listeners;
      }
    }
  }

  lemma {:induction false} RemoveAdded(es: seq<Element>, j: int, h: int)
    requires 0 <= j < |es| && es[j].listeners != [] && forall i :: 0 <= i < |es| ==> h !in es[i].listeners
    ensures RemoveListener(AddListener(es, j, h), h) == es
  {
    var es' := AddListener(es, j, h);
    if j == 0 {
      assert es'[0].listeners[1..] == es[0].listeners;
      assert es'[1..] == es[1..];
    } else {
      RemoveAdded(es[1..], j - 1, h);
      assert es'[1..] == AddListener(es[1..], j - 1, h);
    }
  }

  /** For one name: listeners on the static list are never removed. */
  lemma {:induction false} RemoveUndoesOne(ls: Lists, h: int, name: string)
    requires Ok(ls) && Occurrences(ls.dyn, h) == 0
    ensures var ls' := AddName(ls, h, name, false);
      ls'.(dyn := RemoveListener(ls'.dyn, h)) == ls <==> !HasKey(ls.st, Key(name))
  {
    var ls' := AddName(ls, h, name, false);
    NotListening(ls.dyn, h);
    var i, j := Find(ls.st, Key(name)), Find(ls.dyn, Key(name));
    if i < |ls.st| {
      assert |ls'.st[i].listeners| == |ls.st[i].listeners| + 1;
    } else if j < |ls.dyn| {
      RemoveAdded(ls.dyn, j, h);
    } else {
      assert ls'.dyn[1..] == ls.dyn && ls'.dyn[0].listeners == [h];
    }
  }

  lemma {:induction false} RemoveListenerFrom(es: seq<Element>, h: int)
    requires Unique(es) && AllHeard(es)
    ensures var r := RemoveListener(es, h); Unique(r) && AllHeard(r)
    ensures forall k :: HasKey(RemoveListener(es, h), k) ==> HasKey(es, k)
  {
    var r := RemoveListener(es, h);
    if es == [] {
    } else {
      var rest := es[1..];
      assert Unique(rest) && AllHeard(rest);
      RemoveListenerFrom(rest, h);
      forall k | HasKey(r, k) ensures HasKey(es, k) {
        var i :| 0 <= i < |r| && Key(r[i].name) == k;
        RemoveKeepsKeys(es, h, i);
      }
      if h !in es[0].listeners {
        var tail := RemoveListener(rest, h);
        assert r == [es[0]] + tail;
        forall i | 0 <= i < |tail| ensures Key(tail[i].name) != Key(es[0].name) {
          assert HasKey(tail, Key(tail[i].name));
          var j :| 0 <= j < |rest| && Key(rest[j].name) == Key(tail[i].name);
          assert es[j + 1] == rest[j];
        }
      }
    }
  }

  lemma {:induction false} RemoveKeepsKeys(es: seq<Element>, h: int, i: int)
    requires 0 <= i < |RemoveListener(es, h)|
    ensures HasKey(es, Key(RemoveListener(es, h)[i].name))
  {
    var r := RemoveListener(es, h);
    if h in es[0].listeners {
      var j := if DropListener(es[0].listeners, h) == [] then i + 1 else i;
      assert Key(es[j].name) == Key(r[i].name);
    } else if i > 0 {
      RemoveKeepsKeys(es[1..], h, i - 1);
      var j :| 0 <= j < |es[1..]| && Key(es[1..][j].name) == Key(r[i].name);
      assert es[j + 1] == es[1..][j];
    } else {
      assert Key(es[0].name) == Key(r[0].name);
    }
  }

  lemma {:induction false} RemoveOk(ls: Lists, h: int)
    requires Ok(ls)
    ensures Ok(ls.(dyn := RemoveListener(ls.dyn, h)))
  {
    RemoveListenerFrom(ls.dyn, h);
    var r := RemoveListener(ls.dyn, h);
    forall i, j | 0 <= i < |ls.st| && 0 <= j < |r| ensures Key(ls.st[i].name) != Key(r[j].name) {
      assert HasKey(r, Key(r[j].name));
      var k :| 0 <= k < |ls.dyn| && Key(ls.dyn[k].name) == Key(r[j].name);
    }
  }

  /** A change to the lists: a policy loaded with its names, or one unloaded. */
  datatype Change = Loaded(h: int, names: seq<string>, isStatic: bool) | Unloaded(h: int, labelCount: int)

  function Changed(ls: Lists, c: Change): Lists {
    match c
    case Loaded(h, names, isStatic) => AddNames(ls, h, names, isStatic)
    case Unloaded(h, labelCount) => if labelCount == 0 then ls else ls.(dyn := RemoveListener(ls.dyn, h))
  }

  function ListsAfter(cs: seq<Change>): Lists {
    if cs == [] then Lists([], []) else Changed(ListsAfter(cs[..|cs| - 1]), cs[|cs| - 1])
  }

  /** Over every run with names that fit, no namespace is listed twice and each has a listener. */
  lemma {:induction false} RunKeepsOk(cs: seq<Change>)
    requires forall i :: 0 <= i < |cs| && cs[i].Loaded? ==> Fit(cs[i].names)
    ensures Ok(ListsAfter(cs))
    decreases |cs|
  {
    if cs == [] {
    } else {
      var n := |cs| - 1;
      RunKeepsOk(cs[..n]);
      if cs[n].Loaded? {
        AddNamesOk(ListsAfter(cs[..n]), cs[n].h, cs[n].names, cs[n].isStatic);
      } else {
        RemoveOk(ListsAfter(cs[..n]), cs[n].h);
      }
    }
  }

  // ---------- a policy loaded and unloaded ----------

  /** The lists after a dynamic policy with these names has come and gone. */
  function ComeAndGone(ls: Lists, h: int, names: seq<string>): Lists {
    Changed(Changed(ls, Loaded(h, names, false)), Unloaded(h, |names|))
  }

  /** How many of the names are not on the static list. */
  function OffStatic(st: seq<Element>, names: seq<string>): nat {
    if names == [] then 0
    else OffStatic(st, names[..|names| - 1]) + if HasKey(st, Key(names[|names| - 1])) then 0 else 1
  }

  lemma {:induction false} AddListenerCounts(es: seq<Element>, i: int, h: int)
    requires 0 <= i < |es|
    ensures Occurrences(AddListener(es, i, h), h) == Occurrences(es, h) + 1
  {
    var es' := AddListener(es, i, h);
    if i == 0 {
      assert es'[1..] == es[1..];
    } else {
      AddListenerCounts(es[1..], i - 1, h);
      assert es'[1..] == AddListener(es[1..], i - 1, h);
    }
  }

  lemma AddListenerKeys(es: seq<Element>, i: int, h: int, key: string)
    requires 0 <= i < |es|
    ensures HasKey(AddListener(es, i, h), key) <==> HasKey(es, key)
  {
    var es' := AddListener(es, i, h);
    assert forall j :: 0 <= j < |es| ==> es'[j].name == es[j].name;
    if HasKey(es, key) {
      var j :| 0 <= j < |es| && Key(es[j].name) == key;
      assert Key(es'[j].name) == key;
    }
  }

  lemma {:induction false} AddNameCounts(ls: Lists, h: int, name: string)
    ensures var ls', off := AddName(ls, h, name, false), if HasKey(ls.st, Key(name)) then 0 else 1;
      Occurrences(ls'.dyn, h) == Occurrences(ls.dyn, h) + off && Occurrences(ls'.st, h) == Occurrences(ls.st, h) + 1 - off
  {
    var i, j := Find(ls.st, Key(name)), Find(ls.dyn, Key(name));
    if i < |ls.st| {
      AddListenerCounts(ls.st, i, h);
    } else if j < |ls.dyn| {
      AddListenerCounts(ls.dyn, j, h);
    } else {
      var e := Element(Cut(name), [h]);
      assert ([e] + ls.dyn)[1..] == ls.dyn;
    }
  }

  lemma AddNameStaticKeys(ls: Lists, h: int, name: string, key: string)
    ensures HasKey(AddName(ls, h, name, false).st, key) <==> HasKey(ls.st, key)
  {
    var i := Find(ls.st, Key(name));
    if i < |ls.st| {
      AddListenerKeys(ls.st, i, h, key);
    }
  }

  lemma {:induction false} AddNamesStaticKeys(ls: Lists, h: int, names: seq<string>, key: string)
    ensures HasKey(AddNames(ls, h, names, false).st, key) <==> HasKey(ls.st, key)
  {
    if names == [] {
    } else {
      var n := |names| - 1;
      AddNamesStaticKeys(ls, h, names[..n], key);
      AddNameStaticKeys(AddNames(ls, h, names[..n], false), h, names[n], key);
    }
  }

  /** Every name brings one listener: on the static list if the name is there, else on the dynamic one. */
  lemma {:induction false} AddNamesCounts(ls: Lists, h: int, names: seq<string>)
    ensures var ls', off := AddNames(ls, h, names, false), OffStatic(ls.st, names);
      && Occurrences(ls'.dyn, h) == Occurrences(ls.dyn, h) + off
      && Occurrences(ls'.st, h) == Occurrences(ls.st, h) + |names| - off
  {
    if names == [] {
    } else {
      var n := |names| - 1;
      AddNamesCounts(ls, h, names[..n]);
      AddNameCounts(AddNames(ls, h, names[..n], false), h, names[n]);
      AddNamesStaticKeys(ls, h, names[..n], Key(names[n]));
    }
  }

  /** A policy that came and went has stopped listening on the dynamic list exactly when at
      most one of its names was not on the static list. */
  lemma {:induction false} UnloadIsComplete(ls: Lists, h: int, names: seq<string>)
    requires Occurrences(ls.dyn, h) == 0
    ensures Occurrences(ComeAndGone(ls, h, names).dyn, h) == 0 <==> OffStatic(ls.st, names) <= 1
  {
    AddNamesCounts(ls, h, names);
    RemoveListenerCounts(AddNames(ls, h, names, false).dyn, h, h);
  }

  /** Its unloading undoes its loading exactly when it has no name, or one that was not on the
      static list. */
  lemma {:induction false} UnloadUndoesLoad(ls: Lists, h: int, names: seq<string>)
    requires Ok(ls) && Occurrences(ls.dyn, h) == 0
    ensures ComeAndGone(ls, h, names) == ls <==> names == [] || (|names| == 1 && !HasKey(ls.st, Key(names[0])))
  {
    var ls' := AddNames(ls, h, names, false);
    if |names| == 1 {
      assert AddNames(ls, h, names[..0], false) == ls;
      RemoveUndoesOne(ls, h, names[0]);
    } else if |names| > 1 {
      AddNamesCounts(ls, h, names);
      RemoveListenerCounts(ls'.dyn, h, h);
    }
  }

  /** Two names on empty lists leave a listener behind. */
  lemma {:induction false} TwoNamesLeaveListener(h: int, a: string, b: string)
    ensures Occurrences(ComeAndGone(Lists([], []), h, [a, b]).dyn, h) == 1
  {
    AddNamesCounts(Lists([], []), h, [a, b]);
    assert [a, b][..1] == [a] && [a][..0] == [];
    assert OffStatic([], [a, b]) == OffStatic([], [a]) + 1 == 2;
    RemoveListenerCounts(AddNames(Lists([], []), h, [a, b], false).dyn, h, h);
  }

  // ---------- the lists as the framework changes them ----------

  class LabelLists {
    var st: seq<Element>
    var dyn: seq<Element>

    ghost function View(): Lists
      reads this
    {
      Lists(st, dyn)
    }

    constructor ()
      ensures View() == Lists([], []) && Ok(View())
    {
      st, dyn := [], [];
    }

    static method Search(es: seq<Element>, key: string) returns (i: int)
      ensures i == Find(es, key)
    {
      i := 0;
      while i < |es| && Key(es[i].name) != key
        invariant 0 <= i <= |es| && Find(es, key) == i + Find(es[i..], key)
      {
        assert es[i..][1..] == es[i + 1..];
        i := i + 1;
      }
    }

    /** Adds one name; tells whether a new element was needed. */
    method AddOne(h: int, name: string, isStatic: bool) returns (added: bool)
      modifies this
      ensures View() == AddName(old(View()), h, name, isStatic)
      ensures added <==> !Listed(old(View()), Key(name))
      ensures |st| + |dyn| == old(|st| + |dyn|) + if added then 1 else 0
    {
      added := false;
      var i := Search(st, Key(name));
      var j := Search(dyn, Key(name));
      if i < |st| {
        st := st[i := Element(st[i].name, [h] + st[i].listeners)];
      } else if j < |dyn| {
        dyn := dyn[j := Element(dyn[j].name, [h] + dyn[j].listeners)];
      } else {
        added := true;
        if isStatic {
          st := [Element(Cut(name), [h])] + st;
        } else {
          dyn := [Element(Cut(name), [h])] + dyn;
        }
      }
    }

    /** Adds policy `h` as a listener of every name, with elements and listeners from pools
        filled beforehand: one of each for every name, which is always enough.  What is left of
        the pools comes back: no listener, and the elements of names that were listed already. */
    method AddTo(h: int, names: seq<string>, isStatic: bool) returns (elements: nat, listeners: nat)
      modifies this
      ensures listeners == 0 && |st| + |dyn| == old(|st| + |dyn|) + |names| - elements
      ensures View() == AddNames(old(View()), h, names, isStatic)
      ensures old(Ok(View())) && Fit(names) ==> Ok(View())
    {
      ghost var ls := View();
      elements, listeners := AddAll(h, names, isStatic);
      if Ok(ls) && Fit(names) {
        AddNamesOk(ls, h, names, isStatic);
      }
    }

    method AddAll(h: int, names: seq<string>, isStatic: bool) returns (elements: nat, listeners: nat)
      modifies this
      ensures listeners == 0 && |st| + |dyn| == old(|st| + |dyn|) + |names| - elements
      ensures View() == AddNames(old(View()), h, names, isStatic)
    {
      ghost var ls, size := View(), |st| + |dyn|;
      elements, listeners := |names|, |names|;
      var idx := 0;
      while idx < |names|
        invariant 0 <= idx <= |names| && elements >= |names| - idx && listeners == |names| - idx
        invariant |st| + |dyn| == size + |names| - elements
        invariant View() == AddNames(ls, h, names[..idx], isStatic)
      {
        AddNamesStep(ls, h, names, isStatic, idx);
        var added := AddOne(h, names[idx], isStatic);
        elements := elements - if added then 1 else 0;
        listeners := listeners - 1;
        idx := idx + 1;
      }
      assert names[..idx] == names;
    }

    static method IndexOf(l: seq<int>, h: int) returns (k: int)
      ensures 0 <= k <= |l| && h !in l[..k] && (k < |l| ==> l[k] == h)
    {
      k := 0;
      while k < |l| && l[k] != h
        invariant 0 <= k <= |l| && h !in l[..k]
      {
        k := k + 1;
      }
    }

    /** Drops one listener of policy `h` from the dynamic list, unless the policy has no names. */
    method RemoveFrom(h: int, labelCount: int)
      modifies this
      ensures View() == if labelCount == 0 then old(View()) else old(View()).(dyn := RemoveListener(old(dyn), h))
      ensures old(Ok(View())) ==> Ok(View())
    {
      if labelCount == 0 {
        return;
      }
      if Ok(View()) {
        RemoveOk(View(), h);
      }
      var e := 0;
      while e < |dyn|
        invariant 0 <= e <= |dyn| && dyn == old(dyn) && st == old(st)
        invariant forall i :: 0 <= i < e ==> h !in dyn[i].listeners
      {
        var l := dyn[e].listeners;
        var k := IndexOf(l, h);
        if k < |l| {
          RemoveAt(dyn, e, k, h);
          var left := l[..k] + l[k + 1..];
          dyn := dyn[..e] + (if left == [] then [] else [Element(dyn[e].name, left)]) + dyn[e + 1..];
          return;
        }
        assert l[..k] == l;
        e := e + 1;
      }
      RemoveNone(dyn, h);
    }
  }

  lemma {:induction false} DropAt(l: seq<int>, k: int, h: int)
    requires 0 <= k < |l| && l[k] == h && h !in l[..k]
    ensures DropListener(l, h) == l[..k] + l[k + 1..]
  {
    if k == 0 {
    } else {
      assert l[0] == l[..k][0];
      assert l[1..][..k - 1] == l[..k][1..];
      DropAt(l[1..], k - 1, h);
    }
  }

  lemma {:induction false} RemoveAt(es: seq<Element>, e: int, k: int, h: int)
    requires 0 <= e < |es| && forall i :: 0 <= i < e ==> h !in es[i].listeners
    requires var l := es[e].listeners; 0 <= k < |l| && l[k] == h && h !in l[..k]
    ensures var l := es[e].listeners;
      var left := l[..k] + l[k + 1..];
      RemoveListener(es, h) == es[..e] + (if left == [] then [] else [Element(es[e].name, left)]) + es[e + 1..]
  {
    if e == 0 {
      DropAt(es[0].listeners, k, h);
    } else {
      RemoveAt(es[1..], e - 1, k, h);
      assert es[1..][..e - 1] == es[1..e] && es[1..][e..] == es[e + 1..];
      assert es[..e] == [es[0]] + es[1..e];
    }
  }

  lemma {:induction false} RemoveNone(es: seq<Element>, h: int)
    requires forall i :: 0 <= i < |es| ==> h !in es[i].listeners
    ensures RemoveListener(es, h) == es
  {
    if es == [] {
    } else {
      RemoveNone(es[1..], h);
    }
  }
}

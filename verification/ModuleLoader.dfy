/**
 The harness's module loader: a list that must agree with the kernel's dependency-constrained
 set of loaded modules, and the registry through which a signal cleans up.
 */
module ModuleLoader {

  type Name = string

  /** Which modules a module's symbols come from. */
  type Uses = map<Name, set<Name>>

  function UsedBy(uses: Uses, m: Name): set<Name> {
    if m in uses then uses[m] else {}
  }

  /** Every loaded module has its dependencies loaded. */
  ghost predicate Closed(uses: Uses, loaded: set<Name>) {
    forall m | m in loaded :: UsedBy(uses, m) <= loaded
  }

  /** The kernel's side: `insmod` needs the dependencies, `rmmod` needs nobody to depend. */
  class Kernel {
    const uses: Uses
    var loaded: set<Name>

    constructor (uses: Uses, loaded: set<Name>)
      ensures this.uses == uses && this.loaded == loaded
    {
      this.uses, this.loaded := uses, loaded;
    }

    /** No loaded module depends on `m`. */
    predicate Removable(m: Name)
      reads this
    {
      forall n | n in loaded :: m !in UsedBy(uses, n)
    }

    /** `accepted` stands for every other reason to fail, such as bad parameters. */
    method Insmod(m: Name, accepted: bool) returns (ok: bool)
      modifies this
      ensures ok <==> accepted && m !in old(loaded) && UsedBy(uses, m) <= old(loaded)
      ensures loaded == if ok then old(loaded) + {m} else old(loaded)
    {
      ok := accepted && m !in loaded && UsedBy(uses, m) <= loaded;
      if ok {
        loaded := loaded + {m};
      }
    }

    method Rmmod(m: Name) returns (ok: bool)
      modifies this
      ensures ok <==> m in old(loaded) && old(Removable(m))
      ensures loaded == if ok then old(loaded) - {m} else old(loaded)
    {
      ok := m in loaded && Removable(m);
      if ok {
        loaded := loaded - {m};
      }
    }
  }

  function Names(s: seq<Name>): set<Name> {
    set m | m in s
  }

  ghost predicate Distinct(s: seq<Name>) {
    forall i, j | 0 <= i < j < |s| :: s[i] != s[j]
  }

  /** No listed module uses itself or a later one. */
  ghost predicate Ordered(uses: Uses, s: seq<Name>) {
    forall i, j | 0 <= i <= j < |s| :: s[j] !in UsedBy(uses, s[i])
  }

  /** The list and the kernel agree: what is loaded is what was there before (`base`, closed under
      dependencies) and the listed modules, once each and in dependency order. */
  ghost predicate Agrees(uses: Uses, base: set<Name>, s: seq<Name>, loaded: set<Name>) {
    && Closed(uses, base) && Closed(uses, loaded)
    && Distinct(s) && Ordered(uses, s)
    && base !! Names(s) && loaded == base + Names(s)
  }

  lemma OrderedAfterLoad(uses: Uses, s: seq<Name>, loaded: set<Name>, m: Name)
    requires Closed(uses, loaded) && Distinct(s) && Ordered(uses, s) && Names(s) <= loaded
    requires m !in loaded && UsedBy(uses, m) <= loaded
    ensures Distinct(s + [m]) && Ordered(uses, s + [m]) && Names(s + [m]) == Names(s) + {m}
  {
    var n := s + [m];
    assert forall i | 0 <= i < |s| :: s[i] in Names(s);
    forall i, j | 0 <= i <= j < |n|
      ensures n[j] !in UsedBy(uses, n[i])
    {
      if j < |s| {
        assert s[j] !in UsedBy(uses, s[i]);
      } else if i < |s| {
        assert s[i] in loaded;
      }
    }
  }

  lemma RemovedFromList(s: seq<Name>, i: nat)
    requires Distinct(s) && i < |s|
    ensures Names(s[..i] + s[i + 1..]) == Names(s) - {s[i]}
  {
    var n := s[..i] + s[i + 1..];
    assert forall j | 0 <= j < |n| :: n[j] == if j < i then s[j] else s[j + 1];
    forall m | m in s && m != s[i]
      ensures m in n
    {
      var j :| 0 <= j < |s| && s[j] == m;
      assert n[if j < i then j else j - 1] == m;
    }
  }

  lemma OrderedAfterUnload(uses: Uses, s: seq<Name>, i: nat)
    requires Distinct(s) && Ordered(uses, s) && i < |s|
    ensures var n := s[..i] + s[i + 1..]; Distinct(n) && Ordered(uses, n)
  {
    var n := s[..i] + s[i + 1..];
    assert forall j | 0 <= j < |n| :: n[j] == if j < i then s[j] else s[j + 1];
  }

  lemma AgreesAfterLoad(uses: Uses, base: set<Name>, s: seq<Name>, loaded: set<Name>, m: Name)
    requires Agrees(uses, base, s, loaded) && m !in loaded && UsedBy(uses, m) <= loaded
    ensures Agrees(uses, base, s + [m], loaded + {m})
  {
    OrderedAfterLoad(uses, s, loaded, m);
  }

  lemma AgreesAfterUnload(uses: Uses, base: set<Name>, s: seq<Name>, loaded: set<Name>, k: nat)
    requires Agrees(uses, base, s, loaded) && k < |s|
    requires forall n | n in loaded :: s[k] !in UsedBy(uses, n)
    ensures Agrees(uses, base, s[..k] + s[k + 1..], loaded - {s[k]})
  {
    RemovedFromList(s, k);
    OrderedAfterUnload(uses, s, k);
    assert s[k] in Names(s);
  }

  /** The last listed module can always be removed. */
  lemma LastIsRemovable(uses: Uses, base: set<Name>, s: seq<Name>, loaded: set<Name>)
    requires Agrees(uses, base, s, loaded) && s != []
    ensures s[|s| - 1] in loaded && forall n | n in loaded :: s[|s| - 1] !in UsedBy(uses, n)
  {
    var last := s[|s| - 1];
    assert last in Names(s);
    forall n | n in loaded
      ensures last !in UsedBy(uses, n)
    {
      if n in base {
        assert UsedBy(uses, n) <= base;
      } else {
        var i :| 0 <= i < |s| && s[i] == n;
      }
    }
  }

  // ---- Popping lists, dependencies or not ----

  /** The loaded set after popping a whole list from its end: a module in use stays loaded. */
  function Popped(uses: Uses, loaded: set<Name>, s: seq<Name>): set<Name> {
    if s == [] then loaded
    else
      var m := s[|s| - 1];
      Popped(uses, if InUse(uses, loaded, m) then loaded else loaded - {m}, s[..|s| - 1])
  }

  predicate InUse(uses: Uses, loaded: set<Name>, m: Name) {
    exists n | n in loaded :: m in UsedBy(uses, n)
  }

  /** The loaded set after popping one list after the other. */
  function PoppedAll(uses: Uses, loaded: set<Name>, lists: seq<seq<Name>>): set<Name> {
    if lists == [] then loaded
    else Popped(uses, PoppedAll(uses, loaded, lists[..|lists| - 1]), lists[|lists| - 1])
  }

  /** A list that agrees with the kernel is removed entirely. */
  lemma {:induction false} PoppedAgrees(uses: Uses, base: set<Name>, s: seq<Name>, loaded: set<Name>)
    requires Agrees(uses, base, s, loaded)
    ensures Popped(uses, loaded, s) == base
    decreases |s|
  {
    if s == [] {
      assert Names(s) == {};
    } else {
      var k := |s| - 1;
      LastIsRemovable(uses, base, s, loaded);
      AgreesAfterUnload(uses, base, s, loaded, k);
      assert s[..k] + s[k + 1..] == s[..k];
      PoppedAgrees(uses, base, s[..k], loaded - {s[k]});
    }
  }

  /** What popping a list never removes: modules not on it, and modules used by such a one. */
  lemma {:induction false} PoppedKeeps(uses: Uses, loaded: set<Name>, s: seq<Name>, x: Name, y: Name)
    requires x in loaded
    requires x !in s || (y in loaded && y !in s && x in UsedBy(uses, y))
    ensures x in Popped(uses, loaded, s)
    decreases |s|
  {
    if s != [] {
      var m := s[|s| - 1];
      assert m in s;
      PoppedKeeps(uses, if InUse(uses, loaded, m) then loaded else loaded - {m}, s[..|s| - 1], x, y);
    }
  }

  /** The modules on the lists from position `k` on. */
  function From(lists: seq<seq<Name>>, k: nat): set<Name>
    requires k <= |lists|
    decreases |lists| - k
  {
    if k == |lists| then {} else Names(lists[k]) + From(lists, k + 1)
  }

  ghost predicate ListedFrom(lists: seq<seq<Name>>, k: nat, x: Name) {
    exists i | k <= i < |lists| :: x in lists[i]
  }

  lemma {:induction false} InFrom(lists: seq<seq<Name>>, k: nat, x: Name)
    requires k <= |lists|
    ensures x in From(lists, k) <==> ListedFrom(lists, k, x)
    decreases |lists| - k
  {
    if k < |lists| {
      InFrom(lists, k + 1, x);
      assert ListedFrom(lists, k, x) <==> x in lists[k] || ListedFrom(lists, k + 1, x);
    }
  }

  /** Several loaders at once: the modules of the start (`base`) and the listed ones are loaded,
      each on one list only and each list in dependency order; others may be loaded too. */
  ghost predicate TracksAll(uses: Uses, base: set<Name>, lists: seq<seq<Name>>, loaded: set<Name>) {
    && Closed(uses, base) && Closed(uses, loaded)
    && (forall i | 0 <= i < |lists| :: Distinct(lists[i]) && Ordered(uses, lists[i]) && base !! Names(lists[i]))
    && (forall i, j | 0 <= i < j < |lists| :: Names(lists[i]) !! Names(lists[j]))
    && base + From(lists, 0) <= loaded
  }

  /** Nothing else is loaded. */
  ghost predicate AgreesAll(uses: Uses, base: set<Name>, lists: seq<seq<Name>>, loaded: set<Name>) {
    TracksAll(uses, base, lists, loaded) && loaded == base + From(lists, 0)
  }

  /** No module on a list that is popped later uses one on a list that is popped earlier. */
  ghost predicate NoLaterUser(uses: Uses, lists: seq<seq<Name>>) {
    forall i, j, x, y | 0 <= i < j < |lists| && x in lists[i] && y in lists[j] :: x !in UsedBy(uses, y)
  }

  /** Modules on lists that were not popped, and those they use, are still there. */
  lemma {:induction false} StillLoaded(uses: Uses, loaded: set<Name>, lists: seq<seq<Name>>, x: Name, y: Name)
    requires x in loaded && y in loaded && x in UsedBy(uses, y)
    requires forall i | 0 <= i < |lists| :: y !in lists[i]
    ensures x in PoppedAll(uses, loaded, lists) && y in PoppedAll(uses, loaded, lists)
  {
    if lists != [] {
      var before := lists[..|lists| - 1];
      StillLoaded(uses, loaded, before, x, y);
      var mid := PoppedAll(uses, loaded, before);
      PoppedKeeps(uses, mid, lists[|lists| - 1], x, y);
      PoppedKeeps(uses, mid, lists[|lists| - 1], y, y);
    }
  }

  lemma {:induction false} NeverPopped(uses: Uses, loaded: set<Name>, lists: seq<seq<Name>>, k: nat, x: Name)
    requires k <= |lists| && x in PoppedAll(uses, loaded, lists[..k])
    requires forall i | k <= i < |lists| :: x !in lists[i]
    ensures x in PoppedAll(uses, loaded, lists)
    decreases |lists|
  {
    if k == |lists| {
      assert lists[..k] == lists;
    } else {
      var before := lists[..|lists| - 1];
      assert before[..k] == lists[..k];
      NeverPopped(uses, loaded, before, k, x);
      PoppedKeeps(uses, PoppedAll(uses, loaded, before), lists[|lists| - 1], x, x);
    }
  }

  /** A later user keeps its module loaded for good. */
  lemma LaterUserLeaks(uses: Uses, base: set<Name>, lists: seq<seq<Name>>, loaded: set<Name>,
                       i: nat, j: nat, x: Name, y: Name)
    requires AgreesAll(uses, base, lists, loaded)
    requires i < j < |lists| && x in lists[i] && y in lists[j] && x in UsedBy(uses, y)
    ensures x in PoppedAll(uses, loaded, lists) && x !in base
  {
    InFrom(lists, 0, x);
    InFrom(lists, 0, y);
    assert x in Names(lists[i]) && y in Names(lists[j]);
    var before := lists[..j];
    assert forall k | 0 <= k < |lists| && k != j :: y !in Names(lists[k]);
    assert forall k | 0 <= k < j :: before[k] == lists[k] && y !in before[k];
    StillLoaded(uses, loaded, before, x, y);
    assert forall k | j <= k < |lists| :: x !in Names(lists[k]);
    NeverPopped(uses, loaded, lists, j, x);
  }

  /** Without later users every list goes entirely. */
  lemma {:induction false} NothingLeft(uses: Uses, base: set<Name>, lists: seq<seq<Name>>, loaded: set<Name>, k: nat)
    requires AgreesAll(uses, base, lists, loaded) && NoLaterUser(uses, lists) && k <= |lists|
    ensures PoppedAll(uses, loaded, lists[..k]) == base + From(lists, k)
  {
    hide AgreesAll, NoLaterUser;
    if k == 0 {
      assert loaded == base + From(lists, 0) by { LoadedIsListed(uses, base, lists, loaded); }
    } else {
      NothingLeft(uses, base, lists, loaded, k - 1);
      assert lists[..k][..k - 1] == lists[..k - 1];
      ListAgrees(uses, base, lists, loaded, k - 1);
      PoppedAgrees(uses, base + From(lists, k), lists[k - 1], base + From(lists, k - 1));
    }
  }

  lemma LoadedIsListed(uses: Uses, base: set<Name>, lists: seq<seq<Name>>, loaded: set<Name>)
    requires AgreesAll(uses, base, lists, loaded)
    ensures loaded == base + From(lists, 0)
  {
  }

  /** When its turn comes, a list agrees with what is then loaded. */
  lemma ListAgrees(uses: Uses, base: set<Name>, lists: seq<seq<Name>>, loaded: set<Name>, k: nat)
    requires AgreesAll(uses, base, lists, loaded) && NoLaterUser(uses, lists) && k < |lists|
    ensures Agrees(uses, base + From(lists, k + 1), lists[k], base + From(lists, k))
  {
    hide Closed, Distinct, Ordered, NoLaterUser;
    RemainderClosed(uses, base, lists, loaded, k);
    RemainderClosed(uses, base, lists, loaded, k + 1);
    forall x | x in lists[k]
      ensures x !in base + From(lists, k + 1)
    {
      InFrom(lists, k + 1, x);
      assert x in Names(lists[k]);
      assert forall i | k < i < |lists| :: x !in Names(lists[i]);
    }
  }

  /** What is left after any number of lists has its dependencies. */
  lemma RemainderClosed(uses: Uses, base: set<Name>, lists: seq<seq<Name>>, loaded: set<Name>, k: nat)
    requires AgreesAll(uses, base, lists, loaded) && NoLaterUser(uses, lists) && k <= |lists|
    ensures Closed(uses, base + From(lists, k))
  {
    var rest := base + From(lists, k);
    forall y | y in rest
      ensures UsedBy(uses, y) <= rest
    {
      forall x | x in UsedBy(uses, y)
        ensures x in rest
      {
        Dependency(uses, base, lists, loaded, k, y, x);
      }
    }
  }

  lemma Dependency(uses: Uses, base: set<Name>, lists: seq<seq<Name>>, loaded: set<Name>, k: nat, y: Name, x: Name)
    requires AgreesAll(uses, base, lists, loaded) && NoLaterUser(uses, lists) && k <= |lists|
    requires y in base + From(lists, k) && x in UsedBy(uses, y)
    ensures x in base + From(lists, k)
  {
    hide Distinct, Ordered, From;
    if y !in base {
      InFrom(lists, k, y);
      InFrom(lists, 0, y);
      InFrom(lists, 0, x);
      InFrom(lists, k, x);
      assert y in loaded && UsedBy(uses, y) <= loaded;
      if x !in base {
        var j :| k <= j < |lists| && y in lists[j];
        var i :| 0 <= i < |lists| && x in lists[i];
        assert i >= k;
      }
    }
  }

  /** Popping the lists of several loaders one after the other restores the kernel's module set
      exactly when nothing beyond the lists was loaded and no module on a later list uses one on
      an earlier list. */
  lemma CleanUpRestoresIff(uses: Uses, base: set<Name>, lists: seq<seq<Name>>, loaded: set<Name>)
    requires TracksAll(uses, base, lists, loaded)
    ensures PoppedAll(uses, loaded, lists) == base <==> loaded == base + From(lists, 0) && NoLaterUser(uses, lists)
  {
    if loaded != base + From(lists, 0) {
      var x :| x in loaded && x !in base + From(lists, 0);
      InFrom(lists, 0, x);
      NeverPopped(uses, loaded, lists, 0, x);
    } else if NoLaterUser(uses, lists) {
      NothingLeft(uses, base, lists, loaded, |lists|);
      assert lists[..|lists|] == lists;
    } else {
      var i, j, x, y :| 0 <= i < j < |lists| && x in lists[i] && y in lists[j] && x in UsedBy(uses, y);
      LaterUserLeaks(uses, base, lists, loaded, i, j, x, y);
    }
  }

  // ---- The lists of all loaders, by loader ----

  ghost function Listed<K>(lists: map<K, seq<Name>>): set<Name> {
    set k, m | k in lists && m in lists[k] :: m
  }

  /** Every listed module is loaded, on one list only and each list in dependency order; the
      modules of the start are loaded and on no list. */
  ghost predicate Tracks<K>(uses: Uses, base: set<Name>, lists: map<K, seq<Name>>, loaded: set<Name>) {
    && Closed(uses, base) && Closed(uses, loaded) && base <= loaded
    && (forall k | k in lists :: Distinct(lists[k]) && Ordered(uses, lists[k]))
    && (forall k | k in lists :: base !! Names(lists[k]) && Names(lists[k]) <= loaded)
    && forall k, l | k in lists && l in lists && k != l :: Names(lists[k]) !! Names(lists[l])
  }

  /** Loaded since the start, and on no list: nothing will ever remove these. */
  ghost function Leaked<K>(base: set<Name>, lists: map<K, seq<Name>>, loaded: set<Name>): set<Name> {
    loaded - base - Listed(lists)
  }

  lemma TracksAfterLoad<K>(uses: Uses, base: set<Name>, lists: map<K, seq<Name>>, loaded: set<Name>, k: K, m: Name)
    requires Tracks(uses, base, lists, loaded) && k in lists
    requires m !in loaded && UsedBy(uses, m) <= loaded
    ensures var n := lists[k := lists[k] + [m]];
            Tracks(uses, base, n, loaded + {m}) && Leaked(base, n, loaded + {m}) == Leaked(base, lists, loaded)
  {
    hide Distinct, Ordered;
    OrderedAfterLoad(uses, lists[k], loaded, m);
    var n := lists[k := lists[k] + [m]];
    ListedAfterChange(lists, k, lists[k] + [m]);
    ListedAfterChange(lists, k, lists[k]);
    assert lists[k := lists[k]] == lists;
  }

  lemma ListedAfterChange<K>(lists: map<K, seq<Name>>, k: K, s: seq<Name>)
    ensures Listed(lists[k := s]) == Listed(lists - {k}) + Names(s)
  {
    var n, rest := lists[k := s], lists - {k};
    forall m | m in Listed(n)
      ensures m in Listed(rest) + Names(s)
    {
      var l :| l in n && m in n[l];
      assert l != k ==> l in rest && m in rest[l];
    }
    forall m | m in Listed(rest) + Names(s)
      ensures m in Listed(n)
    {
      if m in s {
        assert k in n && m in n[k];
      } else {
        var l :| l in rest && m in rest[l];
        assert l in n && m in n[l];
      }
    }
  }

  lemma TracksAfterUnload<K>(uses: Uses, base: set<Name>, lists: map<K, seq<Name>>, loaded: set<Name>, k: K, i: nat)
    requires Tracks(uses, base, lists, loaded) && k in lists && i < |lists[k]|
    requires forall n | n in loaded :: lists[k][i] !in UsedBy(uses, n)
    ensures var n, m := lists[k := lists[k][..i] + lists[k][i + 1..]], lists[k][i];
            Tracks(uses, base, n, loaded - {m}) && Leaked(base, n, loaded - {m}) == Leaked(base, lists, loaded)
  {
    hide Distinct, Ordered;
    var s := lists[k];
    var t := s[..i] + s[i + 1..];
    RemovedFromList(s, i);
    OrderedAfterUnload(uses, s, i);
    ListedAfterChange(lists, k, t);
    ListedAfterChange(lists, k, s);
    assert lists[k := s] == lists;
    assert s[i] in Names(s);
    var n := lists[k := t];
    forall l | l in n
      ensures Names(n[l]) <= loaded - {s[i]}
    {
      if l != k {
        assert Names(lists[l]) !! Names(s);
      }
    }
  }

  lemma NoModules(uses: Uses)
    ensures Distinct([]) && Ordered(uses, []) && Names([]) == {}
  {
  }

  lemma TracksAfterNew<K>(uses: Uses, base: set<Name>, lists: map<K, seq<Name>>, loaded: set<Name>, l: K)
    requires Tracks(uses, base, lists, loaded) && l !in lists
    ensures Tracks(uses, base, lists[l := []], loaded)
    ensures Leaked(base, lists[l := []], loaded) == Leaked(base, lists, loaded)
  {
    hide Distinct, Ordered, Closed;
    NoModules(uses);
    ListedAfterChange(lists, l, []);
    assert lists - {l} == lists;
  }

  /** A list that moves to a new loader. */
  lemma TracksAfterMove<K>(uses: Uses, base: set<Name>, lists: map<K, seq<Name>>, loaded: set<Name>, k: K, l: K)
    requires Tracks(uses, base, lists, loaded) && k in lists && l !in lists
    ensures var n := lists[k := []][l := lists[k]];
            Tracks(uses, base, n, loaded) && Leaked(base, n, loaded) == Leaked(base, lists, loaded)
  {
    hide Distinct, Ordered, Closed;
    NoModules(uses);
    ListedAfterMove(lists, k, l);
  }

  lemma ListedAfterMove<K>(lists: map<K, seq<Name>>, k: K, l: K)
    requires k in lists && l !in lists
    ensures Listed(lists[k := []][l := lists[k]]) == Listed(lists)
  {
    var e := lists[k := []];
    ListedAfterChange(lists, k, []);
    ListedAfterChange(lists, k, lists[k]);
    assert lists[k := lists[k]] == lists;
    ListedAfterChange(e, l, lists[k]);
    assert e - {l} == e;
  }

  // ---- What is left when one list is popped ----

  lemma {:induction false} PoppedBetween(uses: Uses, loaded: set<Name>, s: seq<Name>)
    ensures loaded - Names(s) <= Popped(uses, loaded, s) <= loaded
    ensures Closed(uses, loaded) ==> Closed(uses, Popped(uses, loaded, s))
    decreases |s|
  {
    if s != [] {
      var m := s[|s| - 1];
      PoppedBetween(uses, if InUse(uses, loaded, m) then loaded else loaded - {m}, s[..|s| - 1]);
    }
  }

  /** A loaded module outside the list uses one on it. */
  ghost predicate OutsideUser(uses: Uses, loaded: set<Name>, s: seq<Name>) {
    exists x, y | x in s && y in loaded && y !in s :: x in UsedBy(uses, y)
  }

  /** Popping a list removes all of it exactly when no module outside uses one on it. */
  lemma AllPoppedIff(uses: Uses, loaded: set<Name>, s: seq<Name>)
    requires Closed(uses, loaded) && Distinct(s) && Ordered(uses, s) && Names(s) <= loaded
    ensures Popped(uses, loaded, s) == loaded - Names(s) <==> !OutsideUser(uses, loaded, s)
  {
    if OutsideUser(uses, loaded, s) {
      var x, y :| x in s && y in loaded && y !in s && x in UsedBy(uses, y);
      assert x in Names(s);
      PoppedKeeps(uses, loaded, s, x, y);
    } else {
      var rest := loaded - Names(s);
      assert Closed(uses, rest);
      assert Agrees(uses, rest, s, loaded);
      PoppedAgrees(uses, rest, s, loaded);
    }
  }

  /** Popping a whole list keeps the books; it leaks exactly the modules that outsiders use. */
  lemma TracksAfterPop<K>(uses: Uses, base: set<Name>, lists: map<K, seq<Name>>, loaded: set<Name>, k: K)
    requires Tracks(uses, base, lists, loaded) && k in lists
    ensures var n := Popped(uses, loaded, lists[k]);
            && Tracks(uses, base, lists[k := []], n) && Tracks(uses, base, lists - {k}, n)
            && Listed(lists[k := []]) == Listed(lists - {k})
            && (Leaked(base, lists - {k}, n) == Leaked(base, lists, loaded) <==> !OutsideUser(uses, loaded, lists[k]))
  {
    hide Distinct, Ordered, Popped, OutsideUser, Closed;
    var s := lists[k];
    var n := Popped(uses, loaded, s);
    PoppedBetween(uses, loaded, s);
    AllPoppedIff(uses, loaded, s);
    NoModules(uses);
    ListedAfterChange(lists, k, []);
    ListedAfterChange(lists, k, s);
    assert lists[k := s] == lists;
    LeakedByPop(base, Names(s), Listed(lists - {k}), loaded, n) by {
      assert Listed(lists - {k}) !! Names(s);
      assert Names(s) <= loaded;
    }
  }

  lemma LeakedByPop(base: set<Name>, s: set<Name>, others: set<Name>, loaded: set<Name>, n: set<Name>)
    requires loaded - s <= n <= loaded && base !! s && others !! s
    ensures n - base - others == loaded - base - (others + s) <==> n == loaded - s
  {
    if n - base - others == loaded - base - (others + s) {
      assert forall x | x in n && x in s :: x in n - base - others;
      assert n == loaded - s;
    }
  }

  // ---- The order of the clean-up ----

  /** The lists in the order in which a signal pops them; a repeated registration finds an empty
      list. */
  ghost function TurnsOf<K>(active: seq<K>, lists: map<K, seq<Name>>): (turns: seq<seq<Name>>)
    requires forall k | k in active :: k in lists
    ensures |turns| == |active|
  {
    seq(|active|, i requires 0 <= i < |active| => if active[i] in active[..i] then [] else lists[active[i]])
  }

  lemma {:induction false} FirstPosition<K>(s: seq<K>, x: K) returns (i: nat)
    requires x in s
    ensures i < |s| && s[i] == x && x !in s[..i]
  {
    if s[0] == x {
      i := 0;
    } else {
      var j := FirstPosition(s[1..], x);
      i := j + 1;
      assert s[..i] == [s[0]] + s[1..][..j];
    }
  }

  /** If every non-empty list is registered, its turn comes once. */
  lemma TracksTurns<K>(uses: Uses, base: set<Name>, active: seq<K>, lists: map<K, seq<Name>>, loaded: set<Name>)
    requires Tracks(uses, base, lists, loaded)
    requires (forall k | k in active :: k in lists) && forall k | k in lists && lists[k] != [] :: k in active
    ensures TracksAll(uses, base, TurnsOf(active, lists), loaded)
    ensures From(TurnsOf(active, lists), 0) == Listed(lists)
  {
    hide Distinct, Ordered, Closed;
    var turns := TurnsOf(active, lists);
    NoModules(uses);
    forall i, j | 0 <= i < j < |turns|
      ensures Names(turns[i]) !! Names(turns[j])
    {
      assert active[i] in active[..j];
    }
    forall x
      ensures x in From(turns, 0) <==> x in Listed(lists)
    {
      InFrom(turns, 0, x);
      if x in Listed(lists) {
        var k :| k in lists && x in lists[k];
        var i := FirstPosition(active, k);
        assert turns[i] == lists[k];
      }
    }
    forall x | x in From(turns, 0)
      ensures x in loaded
    {
      var k :| k in lists && x in lists[k];
      assert x in Names(lists[k]);
    }
  }

  // ---- The loader ----

  datatype Path = Path(dir: string, stem: string, ext: string)

  datatype Outcome = Done | FileNotFound | InsmodFailed | RmmodFailed

  /** `after` is `s` without its last occurrence of `m`, which is at `k`. */
  ghost predicate RemovedAt(s: seq<Name>, m: Name, k: nat, after: seq<Name>) {
    k < |s| && s[k] == m && m !in s[k + 1..] && after == s[..k] + s[k + 1..]
  }

  class Loader {
    var modules: seq<Name>

    constructor ()
      ensures modules == []
    {
      modules := [];
    }

    predicate IsLoaded(m: Name)
      reads this
    {
      m in modules
    }

    /** `load`; `target` is the file that was found and `pushed` says that it was loaded and its
        module added to the list. The path itself is tried first, then the guest's directory, then
        the local one; a listed module is not loaded again. */
    method Load(kernel: Kernel, files: set<Path>, path: Path, accepted: bool)
      returns (r: Outcome, pushed: bool, target: Path)
      modifies this, kernel
      ensures r.FileNotFound? <==>
                path !in files && path.(dir := "/modules") !in files && path.(dir := "modules") !in files
      ensures path in files ==> target == path
      ensures path !in files && path.(dir := "/modules") in files ==> target == path.(dir := "/modules")
      ensures path !in files && path.(dir := "/modules") !in files && path.(dir := "modules") in files ==>
                target == path.(dir := "modules")
      ensures !r.FileNotFound? && path.stem in old(modules) ==> r.Done? && !pushed
      ensures !r.FileNotFound? && path.stem !in old(modules) ==>
                && (pushed <==> r.Done?) && (!pushed <==> r.InsmodFailed?)
                && (pushed <==> accepted && path.stem !in old(kernel.loaded)
                                && UsedBy(kernel.uses, path.stem) <= old(kernel.loaded))
      ensures r.FileNotFound? ==> !pushed
      ensures modules == if pushed then old(modules) + [path.stem] else old(modules)
      ensures kernel.loaded == if pushed then old(kernel.loaded) + {path.stem} else old(kernel.loaded)
      ensures forall base :: old(Agrees(kernel.uses, base, modules, kernel.loaded))
                ==> Agrees(kernel.uses, base, modules, kernel.loaded)
    {
      pushed := false;
      target := path;
      if target !in files {
        if path.(dir := "/modules") in files {
          target := path.(dir := "/modules");
        } else if path.(dir := "modules") in files {
          target := path.(dir := "modules");
        } else {
          return FileNotFound, false, target;
        }
      }
      if IsLoaded(target.stem) {
        return Done, false, target;
      }
      var ok := kernel.Insmod(target.stem, accepted);
      if !ok {
        return InsmodFailed, false, target;
      }
      modules := modules + [target.stem];
      r, pushed := Done, true;
      forall base | old(Agrees(kernel.uses, base, modules, kernel.loaded))
        ensures Agrees(kernel.uses, base, modules, kernel.loaded)
      {
        AgreesAfterLoad(kernel.uses, base, old(modules), old(kernel.loaded), path.stem);
      }
    }

    /** `unload`: the last entry of that name goes if `rmmod` succeeds. */
    method Unload(kernel: Kernel, m: Name) returns (r: Outcome)
      modifies this, kernel
      ensures m !in old(modules) ==> r.Done?
      ensures m in old(modules) ==> (r.Done? <==> m in old(kernel.loaded) && old(kernel.Removable(m)))
      ensures r.Done? || r.RmmodFailed?
      ensures m !in old(modules) || r.RmmodFailed? ==> modules == old(modules) && kernel.loaded == old(kernel.loaded)
      ensures m in old(modules) && r.Done? ==>
                && kernel.loaded == old(kernel.loaded) - {m}
                && exists k: nat :: RemovedAt(old(modules), m, k, modules)
      ensures forall base :: old(Agrees(kernel.uses, base, modules, kernel.loaded))
                ==> Agrees(kernel.uses, base, modules, kernel.loaded)
    {
      var k := |modules|;
      while k > 0 && modules[k - 1] != m
        invariant 0 <= k <= |modules| && m !in modules[k..]
      {
        k := k - 1;
      }
      if k == 0 {
        assert modules[0..] == modules;
        return Done;
      }
      k := k - 1;
      var ok := kernel.Rmmod(m);
      if !ok {
        return RmmodFailed;
      }
      modules := modules[..k] + modules[k + 1..];
      assert RemovedAt(old(modules), m, k, modules);
      r := Done;
      forall base | old(Agrees(kernel.uses, base, modules, kernel.loaded))
        ensures Agrees(kernel.uses, base, modules, kernel.loaded)
      {
        AgreesAfterUnload(kernel.uses, base, old(modules), old(kernel.loaded), k);
      }
    }

    /** `unload_all`: entries are popped whether or not `rmmod` succeeded; `failed` counts those
        where it did not. A list that agrees with the kernel is removed without a failure. */
    method UnloadAll(kernel: Kernel) returns (failed: nat)
      modifies this, kernel
      ensures modules == [] && kernel.loaded == Popped(kernel.uses, old(kernel.loaded), old(modules))
      ensures forall base :: old(Agrees(kernel.uses, base, modules, kernel.loaded)) ==>
              kernel.loaded == base && failed == 0
    {
      failed := 0;
      while modules != []
        invariant Popped(kernel.uses, kernel.loaded, modules) == Popped(kernel.uses, old(kernel.loaded), old(modules))
        invariant forall base :: old(Agrees(kernel.uses, base, modules, kernel.loaded))
                    ==> Agrees(kernel.uses, base, modules, kernel.loaded) && failed == 0
        decreases |modules|
      {
        var m := modules[|modules| - 1];
        ghost var s, loaded := modules, kernel.loaded;
        forall base | Agrees(kernel.uses, base, s, loaded)
          ensures m in loaded && kernel.Removable(m)
        {
          LastIsRemovable(kernel.uses, base, s, loaded);
        }
        assert kernel.Removable(m) <==> !InUse(kernel.uses, loaded, m);
        assert m !in loaded ==> loaded - {m} == loaded;
        var ok := kernel.Rmmod(m);
        assert kernel.loaded == if InUse(kernel.uses, loaded, m) then loaded else loaded - {m};
        if !ok {
          failed := failed + 1;
        }
        modules := modules[..|modules| - 1];
        forall base | old(Agrees(kernel.uses, base, modules, kernel.loaded))
          ensures Agrees(kernel.uses, base, modules, kernel.loaded)
        {
          AgreesAfterUnload(kernel.uses, base, s, loaded, |s| - 1);
          assert s[..|s| - 1] + s[|s| - 1 + 1..] == modules;
        }
      }
      forall base | old(Agrees(kernel.uses, base, modules, kernel.loaded))
        ensures kernel.loaded == base
      {
        assert Names(modules) == {};
      }
    }
  }

  datatype Op =
    | LoadOp(path: Path, accepted: bool)
    | UnloadOp(name: Name)

  /** Every run of loads and unloads, followed by `unload_all` or the destructor, puts the kernel's
      module set back to where it was, and no `rmmod` of the clean-up fails. */
  method Session(uses: Uses, base: set<Name>, files: set<Path>, ops: seq<Op>) returns (left: set<Name>, failed: nat)
    requires Closed(uses, base)
    ensures left == base && failed == 0
  {
    var kernel := new Kernel(uses, base);
    var loader := new Loader();
    for i := 0 to |ops|
      invariant fresh(kernel) && fresh(loader) && kernel.uses == uses
      invariant Agrees(uses, base, loader.modules, kernel.loaded)
    {
      match ops[i]
      case LoadOp(path, accepted) =>
        var r, pushed, target := loader.Load(kernel, files, path, accepted);
      case UnloadOp(name) =>
        var r := loader.Unload(kernel, name);
    }
    failed := loader.UnloadAll(kernel);
    left := kernel.loaded;
  }

  // ---- The registry ----

  /** The process: its kernel, its loaders and the global list of registered ones. */
  class Process {
    const kernel: Kernel
    /** The modules loaded before the process started. */
    ghost const base: set<Name>
    var active: seq<Loader>
    ghost var live: set<Loader>

    ghost function Lists(): map<Loader, seq<Name>>
      reads `live, live
    {
      map l | l in live :: l.modules
    }

    /** Every loader with a non-empty list is registered, and only live loaders are. */
    ghost predicate Registered()
      reads this, live
    {
      && (forall l | l in live :: l.modules != [] ==> l in active)
      && (forall l | l in active :: l in live)
    }

    ghost predicate Valid()
      reads this, live, kernel
    {
      Registered() && Tracks(kernel.uses, base, Lists(), kernel.loaded)
    }

    /** The modules that no loader will remove any more. */
    ghost function Leaks(): set<Name>
      reads this, live, kernel
    {
      Leaked(base, Lists(), kernel.loaded)
    }

    constructor (kernel: Kernel)
      requires Closed(kernel.uses, kernel.loaded)
      ensures Valid() && this.kernel == kernel && base == kernel.loaded && live == {} && active == [] && Leaks() == {}
    {
      this.kernel, base, active, live := kernel, kernel.loaded, [], {};
    }

    /** A default-constructed loader is not registered. */
    method Construct() returns (l: Loader)
      requires Valid()
      modifies this`live
      ensures Valid() && fresh(l) && live == old(live) + {l} && l.modules == [] && Leaks() == old(Leaks())
    {
      l := new Loader();
      TracksAfterNew(kernel.uses, base, Lists(), kernel.loaded, l);
      live := live + {l};
      assert Lists() == old(Lists())[l := []];
    }

    /** Each successful load registers its loader again. */
    method Load(l: Loader, files: set<Path>, path: Path, accepted: bool) returns (r: Outcome, pushed: bool)
      requires Valid() && l in live
      modifies this`active, l, kernel
      ensures Valid() && active == (if pushed then old(active) + [l] else old(active)) && Leaks() == old(Leaks())
      ensures pushed <==>
                && (path in files || path.(dir := "/modules") in files || path.(dir := "modules") in files)
                && path.stem !in old(l.modules) && accepted && path.stem !in old(kernel.loaded)
                && UsedBy(kernel.uses, path.stem) <= old(kernel.loaded)
      ensures pushed ==> r.Done?
      ensures l.modules == if pushed then old(l.modules) + [path.stem] else old(l.modules)
      ensures kernel.loaded == if pushed then old(kernel.loaded) + {path.stem} else old(kernel.loaded)
    {
      hide Tracks, Leaked, Agrees;
      var target;
      r, pushed, target := l.Load(kernel, files, path, accepted);
      assert Lists() == old(Lists())[l := l.modules];
      if pushed {
        active := active + [l];
        TracksAfterLoad(kernel.uses, base, old(Lists()), old(kernel.loaded), l, path.stem);
      } else {
        assert Lists() == old(Lists());
      }
    }

    method Unload(l: Loader, m: Name) returns (r: Outcome)
      requires Valid() && l in live
      modifies l, kernel
      ensures Valid() && Leaks() == old(Leaks())
      ensures r.Done? <==> m !in old(l.modules) || (m in old(kernel.loaded) && old(kernel.Removable(m)))
      ensures m !in old(l.modules) || r.RmmodFailed? ==>
              l.modules == old(l.modules) && kernel.loaded == old(kernel.loaded)
      ensures m in old(l.modules) && r.Done? ==>
                && kernel.loaded == old(kernel.loaded) - {m}
                && exists k: nat :: RemovedAt(old(l.modules), m, k, l.modules)
    {
      r := l.Unload(kernel, m);
      assert Lists() == old(Lists())[l := l.modules];
      if m in old(l.modules) && r.Done? {
        ghost var k: nat :| RemovedAt(old(l.modules), m, k, l.modules);
        TracksAfterUnload(kernel.uses, base, old(Lists()), old(kernel.loaded), l, k);
      } else {
        assert Lists() == old(Lists());
      }
    }

    /** Move construction takes the list over and registers the new loader; the old one stays
        registered, with an empty list. */
    method MoveConstruct(other: Loader) returns (l: Loader)
      requires Valid() && other in live
      modifies this`active, this`live, other
      ensures Valid() && fresh(l) && live == old(live) + {l} && Leaks() == old(Leaks())
      ensures l.modules == old(other.modules) && other.modules == [] && active == old(active) + [l]
    {
      l := new Loader();
      TracksAfterMove(kernel.uses, base, Lists(), kernel.loaded, other, l);
      l.modules := other.modules;
      other.modules := [];
      active := active + [l];
      live := live + {l};
      assert Lists() == old(Lists())[other := []][l := old(other.modules)];
    }

    /** The destructor: unload everything, then erase every registration. It leaks modules exactly
        when a loaded module that is not on the list uses one that is. */
    method Destroy(l: Loader) returns (failed: nat)
      requires Valid() && l in live
      modifies this`active, this`live, l, kernel
      ensures Valid() && live == old(live) - {l} && l.modules == []
      ensures exists p: seq<nat> :: OthersKept(old(active), l, active, p)
      ensures kernel.loaded == Popped(kernel.uses, old(kernel.loaded), old(l.modules))
      ensures Leaks() == old(Leaks()) <==> !old(OutsideUser(kernel.uses, kernel.loaded, l.modules))
    {
      hide Tracks, Leaked, Popped, OutsideUser, OthersKept;
      failed := l.UnloadAll(kernel);
      ghost var p := EraseKeeps(active, l);
      active := Erase(active, l);
      live := live - {l};
      TracksAfterPop(kernel.uses, base, old(Lists()), old(kernel.loaded), l);
      assert Lists() == old(Lists()) - {l};
    }

    /** The lists in the order in which a signal pops them. */
    ghost function Turns(): seq<seq<Name>>
      requires Registered()
      reads this, live
    {
      TurnsOf(active, Lists())
    }

    /** `cleanup_on_signal`: whatever was registered, and however often, every list ends empty. The
        kernel's module set is as it was at the start exactly when no destructor leaked a module
        and no module of a loader popped later uses one of a loader popped earlier. */
    method CleanupOnSignal()
      requires Valid()
      modifies active, kernel
      ensures Valid() && forall l | l in live :: l.modules == []
      ensures kernel.loaded == PoppedAll(kernel.uses, old(kernel.loaded), old(Turns()))
      ensures kernel.loaded == base <==> old(Leaks()) == {} && NoLaterUser(kernel.uses, old(Turns()))
    {
      hide Tracks, Leaked, NoLaterUser, Popped, PoppedAll, TurnsOf;
      ghost var turns := Turns();
      NoTurnYet(kernel.uses, kernel.loaded, turns);
      for i := 0 to |active|
        invariant Valid()
        invariant forall l | l in live :: l.modules == if l in active[..i] then [] else old(l.modules)
        invariant kernel.loaded == PoppedAll(kernel.uses, old(kernel.loaded), turns[..i])
      {
        TurnAt(active, old(Lists()), i);
        NextTurn(kernel.uses, old(kernel.loaded), turns, i);
        assert active[..i + 1] == active[..i] + [active[i]];
        PopTurn(active[i]);
      }
      assert turns[..|active|] == turns && active[..|active|] == active;
      RestoredIff(kernel.uses, base, active, old(Lists()), old(kernel.loaded));
    }

    /** One loader's turn. */
    method PopTurn(l: Loader)
      requires Valid() && l in live
      modifies l, kernel
      ensures Valid() && l.modules == [] && kernel.loaded == Popped(kernel.uses, old(kernel.loaded), old(l.modules))
    {
      hide Tracks, Leaked, Popped, OutsideUser, Agrees;
      TracksAfterPop(kernel.uses, base, Lists(), kernel.loaded, l);
      var failed := l.UnloadAll(kernel);
      assert Lists() == old(Lists())[l := []];
    }
  }

  lemma TurnAt<K>(active: seq<K>, lists: map<K, seq<Name>>, i: nat)
    requires (forall k | k in active :: k in lists) && i < |active|
    ensures TurnsOf(active, lists)[i] == if active[i] in active[..i] then [] else lists[active[i]]
  {
  }

  lemma NoTurnYet(uses: Uses, loaded: set<Name>, turns: seq<seq<Name>>)
    ensures PoppedAll(uses, loaded, turns[..0]) == loaded
  {
  }

  lemma NextTurn(uses: Uses, loaded: set<Name>, turns: seq<seq<Name>>, i: nat)
    requires i < |turns|
    ensures PoppedAll(uses, loaded, turns[..i + 1]) == Popped(uses, PoppedAll(uses, loaded, turns[..i]), turns[i])
  {
    assert turns[..i + 1][..i] == turns[..i];
  }

  lemma NothingElseLoaded(uses: Uses, base: set<Name>, lists: seq<seq<Name>>, loaded: set<Name>)
    requires TracksAll(uses, base, lists, loaded)
    ensures loaded == base + From(lists, 0) <==> loaded - (base + From(lists, 0)) == {}
  {
    hide Closed, Distinct, Ordered, From, Names;
    var all := base + From(lists, 0);
    assert loaded == all + (loaded - all);
  }

  lemma RestoredIff<K>(uses: Uses, base: set<Name>, active: seq<K>, lists: map<K, seq<Name>>, loaded: set<Name>)
    requires Tracks(uses, base, lists, loaded)
    requires (forall k | k in active :: k in lists) && forall k | k in lists && lists[k] != [] :: k in active
    ensures PoppedAll(uses, loaded, TurnsOf(active, lists)) == base <==>
            Leaked(base, lists, loaded) == {} && NoLaterUser(uses, TurnsOf(active, lists))
  {
    hide Tracks, TurnsOf, From, Listed, TracksAll, NoLaterUser, PoppedAll;
    var turns := TurnsOf(active, lists);
    TracksTurns(uses, base, active, lists, loaded);
    CleanUpRestoresIff(uses, base, turns, loaded);
    NothingElseLoaded(uses, base, turns, loaded);
    assert loaded - base - Listed(lists) == loaded - (base + Listed(lists));
  }

  /** `after` is what `s` holds at the increasing positions `p`, which are all those without `l`. */
  ghost predicate OthersKept(s: seq<Loader>, l: Loader, after: seq<Loader>, p: seq<nat>) {
    && |after| == |p| && (forall i, j | 0 <= i < j < |p| :: p[i] < p[j])
    && (forall i | 0 <= i < |p| :: p[i] < |s| && after[i] == s[p[i]])
    && forall k: nat | k < |s| :: k in p <==> s[k] != l
  }

  lemma {:induction false} EraseKeeps(s: seq<Loader>, l: Loader) returns (p: seq<nat>)
    ensures OthersKept(s, l, Erase(s, l), p)
  {
    if s == [] {
      p := [];
    } else {
      hide OthersKept;
      var n := |s| - 1;
      p := EraseKeeps(s[..n], l);
      KeptStep(s, l, Erase(s[..n], l), p);
      p := if s[n] == l then p else p + [n];
    }
  }

  lemma KeptStep(s: seq<Loader>, l: Loader, before: seq<Loader>, p: seq<nat>)
    requires s != [] && OthersKept(s[..|s| - 1], l, before, p)
    ensures var n := |s| - 1;
            if s[n] == l then OthersKept(s, l, before, p) else OthersKept(s, l, before + [s[n]], p + [n])
  {
    var n := |s| - 1;
    assert forall k | 0 <= k < n :: s[..n][k] == s[k];
    assert forall i | 0 <= i < |p| :: p[i] < n;
  }

  /** `std::erase`. */
  function Erase(s: seq<Loader>, l: Loader): (r: seq<Loader>)
    ensures forall x | x in r :: x in s && x != l
    ensures forall x | x in s && x != l :: x in r
  {
    if s == [] then []
    else
      var n := |s| - 1;
      assert s == s[..n] + [s[n]];
      Erase(s[..n], l) + if s[n] == l then [] else [s[n]]
  }

  lemma UserPoppedLast()
    ensures var uses := map["b" := {"a"}];
            && Popped(uses, {"a", "b"}, ["a"]) == {"a", "b"} && Popped(uses, {"a", "b"}, ["b"]) == {"a"}
            && PoppedAll(uses, {"a", "b"}, [["b"]]) == {"a"} && PoppedAll(uses, {"a", "b"}, [["a"], ["b"]]) == {"a"}
  {
    var uses := map["b" := {"a"}];
    assert UsedBy(uses, "b") == {"a"} && UsedBy(uses, "a") == {};
    assert InUse(uses, {"a", "b"}, "a") by { assert "a" in UsedBy(uses, "b"); }
    assert !InUse(uses, {"a", "b"}, "b");
    assert ["a"][..0] == [] && ["b"][..0] == [];
    assert {"a", "b"} - {"b"} == {"a"};
    assert [["b"]][..0] == [] && [["a"], ["b"]][..1] == [["a"]] && [["a"]][..0] == [];
    assert PoppedAll(uses, {"a", "b"}, [["a"]]) == {"a", "b"};
  }

  lemma OneTurn<K>(k: K, lists: map<K, seq<Name>>)
    requires k in lists
    ensures TurnsOf([k], lists) == [lists[k]]
  {
  }

  lemma TwoTurns<K>(k: K, l: K, lists: map<K, seq<Name>>)
    requires k in lists && l in lists && k != l
    ensures TurnsOf([k, l], lists) == [lists[k], lists[l]]
  {
    assert [k, l][..1] == [k];
  }

  lemma OneOfTwoKept(k: Loader, l: Loader, after: seq<Loader>, p: seq<nat>)
    requires k != l && OthersKept([k, l], k, after, p)
    ensures after == [l]
  {
    var s := [k, l];
    assert s[0] == k && s[1] == l;
    assert 0 !in p && 1 in p;
    assert forall i | 0 <= i < |p| :: p[i] in p && p[i] == 1;
    assert |p| > 0 && p[0] == 1 && p[|p| - 1] == 1 && after[0] == l;
  }

  /** Module b uses module a; each is loaded by a loader of its own, a's first. */
  method TwoLoaders() returns (process: Process, first: Loader, second: Loader)
    ensures fresh(process) && fresh(process.kernel) && fresh(process.live)
    ensures process.Valid() && process.active == [first, second] && first != second
    ensures process.kernel.uses == map["b" := {"a"}] && process.kernel.loaded == {"a", "b"}
    ensures first.modules == ["a"] && second.modules == ["b"]
  {
    hide Tracks, Leaked, Agrees;
    var kernel := new Kernel(map["b" := {"a"}], {});
    process := new Process(kernel);
    first := process.Construct();
    second := process.Construct();
    var a, b := Path("", "a", ".ko"), Path("", "b", ".ko");
    var r, pushed := process.Load(first, {a, b}, a, true);
    r, pushed := process.Load(second, {a, b}, b, true);
  }

  /** Two ways to leave a module behind: the loader of the used module goes first, destroyed while
      the other is loaded, or popped before the other by the signal. */
  method ModuleLeftBehind(destroyed: bool) returns (left: set<Name>)
    ensures left == {"a"}
  {
    hide Tracks, Leaked, NoLaterUser, Popped, PoppedAll, OutsideUser, Agrees, TurnsOf;
    var process, first, second := TwoLoaders();
    UserPoppedLast();
    if destroyed {
      var failed := process.Destroy(first);
      ghost var p: seq<nat> :| OthersKept([first, second], first, process.active, p);
      OneOfTwoKept(first, second, process.active, p);
      OneTurn(second, process.Lists());
    } else {
      TwoTurns(first, second, process.Lists());
    }
    process.CleanupOnSignal();
    left := process.kernel.loaded;
  }
}

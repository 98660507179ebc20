/**
 The module table of kernel/module/module.cpp as a value: what every reachable
 table satisfies, and which modules can be loaded at all.
 */
module ModuleModel {

  const MAX_MODULES := 64

  type Name = string

  datatype State = Registered | Loading | Ready | Failed

  /** A module with its descriptor. `image`: it was loaded from a separate image. */
  datatype Module = Module(
    name: Name,
    deps: seq<Name>,
    state: State,
    dependents: nat,
    users: nat,
    error: int,
    image: bool)

  type Inits = Name -> int

  // ---------------------------------------------------------------- lookup

  /** find: the index of the name, or the length. */
  function Find(ms: seq<Module>, n: Name): (i: nat)
    ensures i <= |ms| && (i < |ms| ==> ms[i].name == n)
    ensures forall k :: 0 <= k < i ==> ms[k].name != n
  {
    if ms == [] then 0 else if ms[0].name == n then 0 else 1 + Find(ms[1..], n)
  }

  predicate Present(ms: seq<Module>, n: Name) {
    Find(ms, n) < |ms|
  }

  function StateOf(ms: seq<Module>, n: Name): State
    requires Present(ms, n)
  {
    ms[Find(ms, n)].state
  }

  ghost predicate Unique(ms: seq<Module>) {
    forall i, j :: 0 <= i < j < |ms| ==> ms[i].name != ms[j].name
  }

  lemma FindsIt(ms: seq<Module>, i: nat)
    requires Unique(ms) && i < |ms|
    ensures Find(ms, ms[i].name) == i
  {
  }

  /** The same descriptors, slot by slot. */
  ghost predicate SameNames(ms: seq<Module>, ms': seq<Module>) {
    |ms| == |ms'| && forall i :: 0 <= i < |ms| ==> ms'[i].name == ms[i].name && ms'[i].deps == ms[i].deps
  }

  lemma SameFind(ms: seq<Module>, ms': seq<Module>, n: Name)
    requires SameNames(ms, ms')
    ensures Find(ms, n) == Find(ms', n)
  {
    var i, j := Find(ms, n), Find(ms', n);
    assert i < |ms| ==> ms'[i].name == n;
    assert j < |ms| ==> ms[j].name == n;
  }

  // ------------------------------------------------------------ references

  function Occurs(deps: seq<Name>, n: Name): nat {
    if deps == [] then 0 else Occurs(deps[..|deps| - 1], n) + if deps[|deps| - 1] == n then 1 else 0
  }

  lemma {:induction false} OccursIn(deps: seq<Name>, n: Name)
    ensures Occurs(deps, n) > 0 <==> n in deps
  {
    if deps != [] {
      OccursIn(deps[..|deps| - 1], n);
      assert n in deps <==> n in deps[..|deps| - 1] || n == deps[|deps| - 1];
    }
  }

  /** The dependency slots of this module that name n, if it is Ready. */
  function Holds(m: Module, n: Name): nat {
    if m.state == Ready then Occurs(m.deps, n) else 0
  }

  /** The pairs of a Ready module and a dependency slot that name n. */
  function References(ms: seq<Module>, n: Name): nat {
    if ms == [] then 0 else References(ms[..|ms| - 1], n) + Holds(ms[|ms| - 1], n)
  }

  lemma {:induction false} ReferencesUpdate(ms: seq<Module>, i: nat, m: Module, n: Name)
    requires i < |ms|
    ensures References(ms[i := m], n) == References(ms, n) - Holds(ms[i], n) + Holds(m, n)
    decreases |ms|
  {
    var last := |ms| - 1;
    if i == last {
      assert ms[i := m][..last] == ms[..last];
    } else {
      ReferencesUpdate(ms[..last], i, m, n);
      assert ms[i := m][..last] == ms[..last][i := m];
    }
  }

  lemma {:induction false} ReferencesAtLeast(ms: seq<Module>, i: nat, n: Name)
    requires i < |ms|
    ensures References(ms, n) >= Holds(ms[i], n)
    decreases |ms|
  {
    if i < |ms| - 1 {
      ReferencesAtLeast(ms[..|ms| - 1], i, n);
    }
  }

  lemma {:induction false} NoReferences(ms: seq<Module>, n: Name)
    requires forall i :: 0 <= i < |ms| && ms[i].state == Ready ==> n !in ms[i].deps
    ensures References(ms, n) == 0
  {
    if ms != [] {
      NoReferences(ms[..|ms| - 1], n);
      OccursIn(ms[|ms| - 1].deps, n);
    }
  }

  // -------------------------------------------------------------- invariant

  /** Every counter is the number of references. */
  ghost predicate Counted(ms: seq<Module>) {
    forall i :: 0 <= i < |ms| ==> ms[i].dependents == References(ms, ms[i].name)
  }

  /** All dependencies of a Ready module are present, Ready and older. */
  ghost predicate Supported(ms: seq<Module>, rank: map<Name, nat>, i: nat)
    requires i < |ms|
  {
    && ms[i].name in rank
    && forall d :: d in ms[i].deps ==>
      Present(ms, d) && StateOf(ms, d) == Ready && d in rank && rank[d] < rank[ms[i].name]
  }

  ghost predicate AllSupported(ms: seq<Module>, rank: map<Name, nat>) {
    forall i :: 0 <= i < |ms| && ms[i].state == Ready ==> Supported(ms, rank, i)
  }

  ghost predicate Errors(ms: seq<Module>) {
    forall i :: 0 <= i < |ms| && ms[i].state == Failed ==> ms[i].error != 0
  }

  ghost predicate Inv(ms: seq<Module>, rank: map<Name, nat>) {
    Unique(ms) && Counted(ms) && AllSupported(ms, rank) && Errors(ms) && |ms| <= MAX_MODULES
  }

  ghost predicate Settled(ms: seq<Module>) {
    forall i :: 0 <= i < |ms| ==> ms[i].state != Loading
  }

  // ------------------------------------------------- what a Ready module is

  /** A walk along dependencies, from name to name. */
  ghost predicate Walk(ms: seq<Module>, names: seq<Name>) {
    forall k :: 0 <= k < |names| - 1 ==> Present(ms, names[k]) && names[k + 1] in ms[Find(ms, names[k])].deps
  }

  /** From a Ready module every walk stays on Ready modules, of lower and lower rank. */
  lemma {:induction false} WalkFromReady(ms: seq<Module>, rank: map<Name, nat>, names: seq<Name>, k: nat)
    requires Inv(ms, rank) && Walk(ms, names) && k < |names| && Present(ms, names[0]) && StateOf(ms, names[0]) == Ready
    ensures Present(ms, names[k]) && StateOf(ms, names[k]) == Ready && names[k] in rank
    ensures forall j :: 0 <= j < k ==> names[j] in rank && rank[names[k]] < rank[names[j]]
  {
    if k == 0 {
      assert Supported(ms, rank, Find(ms, names[0]));
    } else {
      WalkFromReady(ms, rank, names, k - 1);
      var i := Find(ms, names[k - 1]);
      assert Supported(ms, rank, i);
      assert names[k - 1 + 1] in ms[i].deps;
      assert Supported(ms, rank, Find(ms, names[k]));
    }
  }

  /** A Ready module reaches neither a missing name nor a cycle. */
  lemma ReadyReachesNoCycle(ms: seq<Module>, rank: map<Name, nat>, names: seq<Name>, j: nat, k: nat)
    requires Inv(ms, rank) && Walk(ms, names) && j < k < |names| && Present(ms, names[0])
             && StateOf(ms, names[0]) == Ready
    ensures Present(ms, names[k]) && names[j] != names[k]
  {
    WalkFromReady(ms, rank, names, k);
  }

  // --------------------------------------------------- what can be loaded

  /** The ranked modules can be made Ready in the order of their ranks. */
  ghost predicate Supports(ms: seq<Module>, inits: Inits, rank: map<Name, nat>) {
    forall n :: n in rank ==>
      && Present(ms, n)
      && (StateOf(ms, n) == Ready
          || (StateOf(ms, n) == Registered && inits(n) == 0
              && forall d :: d in ms[Find(ms, n)].deps ==> d in rank && rank[d] < rank[n]))
  }

  /** n can be loaded: some order of initialisation ends with it Ready. */
  ghost predicate Loadable(ms: seq<Module>, inits: Inits, n: Name) {
    exists rank: map<Name, nat> :: Supports(ms, inits, rank) && n in rank
  }

  // --------------------------------------------------- counting by state

  function Count(ms: seq<Module>, s: State): (c: nat)
    ensures c <= |ms|
  {
    if ms == [] then 0 else Count(ms[..|ms| - 1], s) + if ms[|ms| - 1].state == s then 1 else 0
  }

  lemma {:induction false} CountUpdate(ms: seq<Module>, i: nat, m: Module, s: State)
    requires i < |ms|
    ensures Count(ms[i := m], s) == Count(ms, s) - (if ms[i].state == s then 1 else 0) + (if m.state == s then 1 else 0)
    decreases |ms|
  {
    var last := |ms| - 1;
    if i == last {
      assert ms[i := m][..last] == ms[..last];
    } else {
      CountUpdate(ms[..last], i, m, s);
      assert ms[i := m][..last] == ms[..last][i := m];
    }
  }

  lemma {:induction false} CountMonotone(ms: seq<Module>, ms': seq<Module>, s: State)
    requires |ms| == |ms'| && forall i :: 0 <= i < |ms| && ms'[i].state == s ==> ms[i].state == s
    ensures Count(ms', s) <= Count(ms, s)
  {
    if ms != [] {
      CountMonotone(ms[..|ms| - 1], ms'[..|ms| - 1], s);
    }
  }

  // ------------------------------------------------------- effect of a load

  /** Registered modules may become Ready, if their init returned zero, or
      Failed; nothing else changes state, and no descriptor changes. */
  ghost predicate Evolves(ms: seq<Module>, ms': seq<Module>, inits: Inits) {
    && SameNames(ms, ms')
    && (forall i :: 0 <= i < |ms| ==> ms'[i].users == ms[i].users && ms'[i].image == ms[i].image)
    && (forall i :: 0 <= i < |ms| && ms[i].state != Registered ==> ms'[i].state == ms[i].state)
    && (forall i :: 0 <= i < |ms| && ms[i].state == Registered ==> ms'[i].state != Loading)
    && (forall i :: 0 <= i < |ms| && ms[i].state == Registered && ms'[i].state == Ready ==> inits(ms[i].name) == 0)
  }

  lemma EvolvesTwice(a: seq<Module>, b: seq<Module>, c: seq<Module>, inits: Inits)
    requires Evolves(a, b, inits) && Evolves(b, c, inits)
    ensures Evolves(a, c, inits)
  {
  }

  lemma EvolvesCounts(ms: seq<Module>, ms': seq<Module>, inits: Inits)
    requires Evolves(ms, ms', inits)
    ensures Count(ms', Loading) == Count(ms, Loading) && Count(ms', Registered) <= Count(ms, Registered)
  {
    CountMonotone(ms, ms', Loading);
    CountMonotone(ms', ms, Loading);
    CountMonotone(ms, ms', Registered);
  }

  ghost predicate NoDup(s: seq<nat>) {
    forall i, j :: 0 <= i < j < |s| ==> s[i] != s[j]
  }

  /** Module k comes after everything it depends on that was not Ready before. */
  ghost predicate InOrder(ms: seq<Module>, ran: seq<nat>, k: nat) {
    k < |ran| && ran[k] < |ms| && forall d :: d in ms[ran[k]].deps ==>
      Present(ms, d) && (StateOf(ms, d) == Ready || Find(ms, d) in ran[..k])
  }

  /** `ran` lists the modules whose init was called, each once and in the order of
      the calls: they were Registered and no longer are; whoever became Ready is
      among them; and each comes after its dependencies. */
  ghost predicate Ran(ms: seq<Module>, ms': seq<Module>, ran: seq<nat>) {
    && |ms| == |ms'| && NoDup(ran)
    && (forall k: nat :: k < |ran| ==> InOrder(ms, ran, k))
    && (forall k :: k in ran ==> k < |ms| && ms[k].state == Registered && ms'[k].state != Registered)
    && (forall k: nat :: k < |ms| && ms[k].state == Registered && ms'[k].state == Ready ==> k in ran)
  }

  lemma RanTwice(a: seq<Module>, b: seq<Module>, c: seq<Module>, inits: Inits, r: seq<nat>, q: seq<nat>)
    requires Evolves(a, b, inits) && Evolves(b, c, inits) && Ran(a, b, r) && Ran(b, c, q)
    ensures Ran(a, c, r + q)
  {
    hide InOrder;
    forall i, j | 0 <= i < j < |r + q|
      ensures (r + q)[i] != (r + q)[j]
    {
      if i < |r| <= j {
        assert r[i] in r;
        assert b[r[i]].state != Registered;
        assert q[j - |r|] in q;
      }
    }
    forall k: nat | k < |r + q|
      ensures InOrder(a, r + q, k)
    {
      if k < |r| {
        OrderBefore(a, r, q, k);
      } else {
        OrderBehind(a, b, inits, r, q, k - |r|);
      }
    }
    assert forall k :: k in r + q <==> k in r || k in q;
  }

  lemma OrderBefore(ms: seq<Module>, r: seq<nat>, q: seq<nat>, k: nat)
    requires InOrder(ms, r, k)
    ensures InOrder(ms, r + q, k)
  {
    assert (r + q)[..k] == r[..k];
  }

  lemma OrderBehind(a: seq<Module>, b: seq<Module>, inits: Inits, r: seq<nat>, q: seq<nat>, k: nat)
    requires Evolves(a, b, inits) && Ran(a, b, r) && InOrder(b, q, k)
    ensures InOrder(a, r + q, |r| + k)
  {
    assert (r + q)[..|r| + k] == r + q[..k];
    forall d | d in a[q[k]].deps
      ensures Present(a, d) && (StateOf(a, d) == Ready || Find(a, d) in r + q[..k])
    {
      SameFind(a, b, d);
    }
  }

  /** A call of an init function, and the table it was made with. */
  datatype InitCall = InitCall(slot: nat, table: seq<Module>)

  /** Everything the module depends on is Ready when its init is called. */
  ghost predicate Prepared(ms: seq<Module>, c: InitCall) {
    && SameNames(ms, c.table) && c.slot < |c.table|
    && c.table[c.slot].state == Loading && DepsReady(c.table, c.table[c.slot].deps)
  }

  /** These were the calls, each prepared. */
  ghost predicate Made(ms: seq<Module>, made: seq<InitCall>, ran: seq<nat>) {
    |made| == |ran| && forall k :: 0 <= k < |made| ==> made[k].slot == ran[k] && Prepared(ms, made[k])
  }

  /** Between the two logs these calls were made, and no others. */
  ghost predicate Called(ms: seq<Module>, calls: seq<InitCall>, calls': seq<InitCall>, ran: seq<nat>) {
    calls <= calls' && Made(ms, calls'[|calls|..], ran)
  }

  lemma CalledTwice(ms: seq<Module>, ms1: seq<Module>, c0: seq<InitCall>, c1: seq<InitCall>, c2: seq<InitCall>,
                    r: seq<nat>, q: seq<nat>)
    requires SameNames(ms, ms1) && Called(ms, c0, c1, r) && Called(ms1, c1, c2, q)
    ensures Called(ms, c0, c2, r + q)
  {
    hide DepsReady;
    var m1, m2 := c1[|c0|..], c2[|c1|..];
    var made := c2[|c0|..];
    assert made == m1 + m2;
    forall k | 0 <= k < |made|
      ensures made[k].slot == (r + q)[k] && Prepared(ms, made[k])
    {
      if k >= |m1| {
        assert Prepared(ms1, m2[k - |m1|]);
      }
    }
  }

  // ------------------------------------------------------ loading will work

  /** During a load the ranked modules are Ready, or can still get there. */
  ghost predicate Fits(ms: seq<Module>, inits: Inits, rank: map<Name, nat>) {
    forall n :: n in rank ==>
      && Present(ms, n) && StateOf(ms, n) != Failed
      && (StateOf(ms, n) != Ready ==>
            inits(n) == 0 && forall d :: d in ms[Find(ms, n)].deps ==> d in rank && rank[d] < rank[n])
  }

  /** Module i is ranked, and below everything ranked that is being loaded. */
  ghost predicate Hope(ms: seq<Module>, inits: Inits, rank: map<Name, nat>, i: nat)
    requires i < |ms|
  {
    && Fits(ms, inits, rank) && ms[i].name in rank
    && forall k :: 0 <= k < |ms| && ms[k].state == Loading && ms[k].name in rank ==> rank[ms[k].name] > rank[ms[i].name]
  }

  // ----------------------------------------------- steps keep the invariant

  /** The same module but for a change between states other than Ready. */
  ghost predicate Restated(m: Module, m': Module) {
    && m' == m.(state := m'.state, error := m'.error)
    && m.state != Ready && m'.state != Ready && (m'.state == Failed ==> m'.error != 0)
  }

  lemma FindUpdate(ms: seq<Module>, i: nat, m: Module, n: Name)
    requires i < |ms| && m.name == ms[i].name
    ensures Find(ms[i := m], n) == Find(ms, n)
  {
    var a, b := Find(ms, n), Find(ms[i := m], n);
    assert a < |ms| ==> ms[i := m][a].name == n;
    assert b < |ms| ==> ms[b].name == n;
  }

  lemma RestateKeepsInv(ms: seq<Module>, rank: map<Name, nat>, i: nat, m: Module)
    requires Inv(ms, rank) && i < |ms| && Restated(ms[i], m)
    ensures Inv(ms[i := m], rank)
  {
    var ms' := ms[i := m];
    forall j | 0 <= j < |ms|
      ensures ms'[j].dependents == References(ms', ms'[j].name)
    {
      ReferencesUpdate(ms, i, m, ms[j].name);
    }
    forall j | 0 <= j < |ms| && ms'[j].state == Ready
      ensures Supported(ms', rank, j)
    {
      assert Supported(ms, rank, j);
      forall d | d in ms[j].deps
        ensures Present(ms', d) && StateOf(ms', d) == Ready
      {
        FindUpdate(ms, i, m, d);
      }
    }
  }

  // -------------------------------------------------- taking references

  /** The counters run ahead of the references by those in `extra`. */
  ghost predicate CountedPlus(ms: seq<Module>, extra: seq<Name>) {
    forall j :: 0 <= j < |ms| ==> ms[j].dependents == References(ms, ms[j].name) + Occurs(extra, ms[j].name)
  }

  /** The counters lag behind the references by those in `less`. */
  ghost predicate CountedMinus(ms: seq<Module>, less: seq<Name>) {
    forall j :: 0 <= j < |ms| ==> ms[j].dependents + Occurs(less, ms[j].name) == References(ms, ms[j].name)
  }

  /** Only counters differ. */
  ghost predicate SameButCounters(ms: seq<Module>, ms': seq<Module>) {
    |ms| == |ms'| && forall j :: 0 <= j < |ms| ==> ms'[j] == ms[j].(dependents := ms'[j].dependents)
  }

  lemma {:induction false} SameReferences(ms: seq<Module>, ms': seq<Module>, n: Name)
    requires SameButCounters(ms, ms')
    ensures References(ms', n) == References(ms, n)
  {
    if ms != [] {
      SameReferences(ms[..|ms| - 1], ms'[..|ms| - 1], n);
    }
  }

  lemma OccursPush(deps: seq<Name>, n: Name, x: Name)
    ensures Occurs(deps + [n], x) == Occurs(deps, x) + if x == n then 1 else 0
  {
    assert (deps + [n])[..|deps|] == deps;
  }

  /** take() on the counter of n. */
  lemma TakeOne(ms: seq<Module>, extra: seq<Name>, n: Name, ms': seq<Module>)
    requires Unique(ms) && CountedPlus(ms, extra) && Present(ms, n)
    requires ms' == ms[Find(ms, n) := ms[Find(ms, n)].(dependents := ms[Find(ms, n)].dependents + 1)]
    ensures CountedPlus(ms', extra + [n]) && SameButCounters(ms, ms')
  {
    forall j | 0 <= j < |ms|
      ensures ms'[j].dependents == References(ms', ms'[j].name) + Occurs(extra + [n], ms'[j].name)
    {
      SameReferences(ms, ms', ms[j].name);
      OccursPush(extra, n, ms[j].name);
      FindsIt(ms, j);
    }
  }

  lemma CountersDoNotMatter(ms: seq<Module>, ms': seq<Module>, rank: map<Name, nat>)
    requires SameButCounters(ms, ms') && Unique(ms) && AllSupported(ms, rank) && Errors(ms)
    ensures Unique(ms') && AllSupported(ms', rank) && Errors(ms')
    ensures forall n :: Find(ms', n) == Find(ms, n)
  {
    forall n
      ensures Find(ms', n) == Find(ms, n)
    {
      SameFind(ms, ms', n);
    }
    forall j | 0 <= j < |ms'| && ms'[j].state == Ready
      ensures Supported(ms', rank, j)
    {
      assert Supported(ms, rank, j);
    }
  }

  ghost predicate Clocked(rank: map<Name, nat>, clock: nat) {
    forall n :: n in rank ==> rank[n] < clock
  }

  ghost predicate DepsReady(ms: seq<Module>, deps: seq<Name>) {
    forall d :: d in deps ==> Present(ms, d) && StateOf(ms, d) == Ready
  }

  /** The references are taken and the state becomes Ready: the invariant is back. */
  lemma BecomesReady(ms: seq<Module>, rank: map<Name, nat>, clock: nat, i: nat, m: Module)
    requires Unique(ms) && AllSupported(ms, rank) && Errors(ms) && |ms| <= MAX_MODULES && Clocked(rank, clock)
    requires i < |ms| && ms[i].state == Loading && CountedPlus(ms, ms[i].deps) && DepsReady(ms, ms[i].deps)
    requires m == ms[i].(state := Ready, error := 0)
    ensures Inv(ms[i := m], rank[m.name := clock]) && Clocked(rank[m.name := clock], clock + 1)
  {
    var ms', rank' := ms[i := m], rank[m.name := clock];
    forall j | 0 <= j < |ms|
      ensures ms'[j].dependents == References(ms', ms'[j].name)
    {
      ReferencesUpdate(ms, i, m, ms[j].name);
    }
    forall j | 0 <= j < |ms| && ms'[j].state == Ready
      ensures Supported(ms', rank', j)
    {
      SupportedAfter(ms, rank, clock, i, m, j);
    }
  }

  lemma SupportedAfter(ms: seq<Module>, rank: map<Name, nat>, clock: nat, i: nat, m: Module, j: nat)
    requires Unique(ms) && AllSupported(ms, rank) && Clocked(rank, clock) && i < |ms| && j < |ms|
    requires ms[i].state == Loading && DepsReady(ms, ms[i].deps) && m == ms[i].(state := Ready, error := 0)
    requires j == i || ms[j].state == Ready
    ensures Supported(ms[i := m], rank[m.name := clock], j)
  {
    FindsIt(ms, i);
    FindsIt(ms, j);
    forall d | d in ms[j].deps
      ensures d in rank && rank[d] < clock && d != m.name
      ensures Present(ms[i := m], d) && StateOf(ms[i := m], d) == Ready
      ensures j != i ==> rank[d] < rank[ms[j].name]
    {
      FindUpdate(ms, i, m, d);
      if j == i {
        assert Supported(ms, rank, Find(ms, d));
      } else {
        assert Supported(ms, rank, j);
      }
    }
  }

  // -------------------------------------------------- dropping references

  lemma {:induction false} OccursPrefix(deps: seq<Name>, k: nat, n: Name)
    requires k <= |deps|
    ensures Occurs(deps[..k], n) <= Occurs(deps, n)
    decreases |deps|
  {
    if k < |deps| {
      OccursPrefix(deps[..|deps| - 1], k, n);
      assert deps[..|deps| - 1][..k] == deps[..k];
    } else {
      assert deps[..k] == deps;
    }
  }

  /** There is a reference left to drop on the k-th dependency of module i. */
  lemma SomethingToDrop(ms: seq<Module>, i: nat, k: nat)
    requires i < |ms| && ms[i].state == Ready && k < |ms[i].deps| && CountedMinus(ms, ms[i].deps[..k])
    requires Present(ms, ms[i].deps[k])
    ensures ms[Find(ms, ms[i].deps[k])].dependents > 0
  {
    var n, deps := ms[i].deps[k], ms[i].deps;
    assert deps[..k + 1] == deps[..k] + [n];
    OccursPush(deps[..k], n, n);
    OccursPrefix(deps, k + 1, n);
    ReferencesAtLeast(ms, i, n);
  }

  /** release() on the counter of n. */
  lemma DropOne(ms: seq<Module>, less: seq<Name>, n: Name, ms': seq<Module>)
    requires Unique(ms) && CountedMinus(ms, less) && Present(ms, n) && ms[Find(ms, n)].dependents > 0
    requires ms' == ms[Find(ms, n) := ms[Find(ms, n)].(dependents := ms[Find(ms, n)].dependents - 1)]
    ensures CountedMinus(ms', less + [n]) && SameButCounters(ms, ms')
  {
    forall j | 0 <= j < |ms|
      ensures ms'[j].dependents + Occurs(less + [n], ms'[j].name) == References(ms', ms'[j].name)
    {
      SameReferences(ms, ms', ms[j].name);
      OccursPush(less, n, ms[j].name);
      FindsIt(ms, j);
    }
  }

  /** Nobody depends on a module whose counter is zero. */
  lemma NobodyDepends(ms: seq<Module>, i: nat, j: nat)
    requires Counted(ms) && i < |ms| && j < |ms| && ms[i].dependents == 0 && ms[j].state == Ready
    ensures ms[i].name !in ms[j].deps
  {
    ReferencesAtLeast(ms, j, ms[i].name);
    OccursIn(ms[j].deps, ms[i].name);
  }

  /** The references are dropped and the state becomes Registered again. */
  lemma NoLongerReady(ms: seq<Module>, rank: map<Name, nat>, i: nat, m: Module)
    requires Unique(ms) && AllSupported(ms, rank) && Errors(ms) && |ms| <= MAX_MODULES && i < |ms|
             && ms[i].state == Ready
    requires CountedMinus(ms, ms[i].deps) && m == ms[i].(state := Registered, image := m.image)
    requires forall j :: 0 <= j < |ms| && ms[j].state == Ready ==> ms[i].name !in ms[j].deps
    ensures Inv(ms[i := m], rank)
  {
    var ms' := ms[i := m];
    forall j | 0 <= j < |ms|
      ensures ms'[j].dependents == References(ms', ms'[j].name)
    {
      ReferencesUpdate(ms, i, m, ms[j].name);
    }
    forall j | 0 <= j < |ms| && ms'[j].state == Ready
      ensures Supported(ms', rank, j)
    {
      assert Supported(ms, rank, j);
      forall d | d in ms[j].deps
        ensures Present(ms', d) && StateOf(ms', d) == Ready
      {
        FindUpdate(ms, i, m, d);
      }
    }
  }

  // ------------------------------------------------------ the table changes

  /** modules[i] = modules[--registered]. */
  function SwapRemove(ms: seq<Module>, i: nat): seq<Module>
    requires i < |ms|
  {
    ms[i := ms[|ms| - 1]][..|ms| - 1]
  }

  lemma SwapReferences(ms: seq<Module>, i: nat, n: Name)
    requires i < |ms| && ms[i].state != Ready
    ensures References(SwapRemove(ms, i), n) == References(ms, n)
  {
    ReferencesUpdate(ms, i, ms[|ms| - 1], n);
  }

  /** Everybody but the one removed is found again, unchanged. */
  lemma SwapFind(ms: seq<Module>, i: nat, k: nat)
    requires Unique(ms) && i < |ms| && k < |ms| && k != i
    ensures var ms' := SwapRemove(ms, i);
            Unique(ms') && Present(ms', ms[k].name) && ms'[Find(ms', ms[k].name)] == ms[k]
  {
    var ms' := SwapRemove(ms, i);
    assert Unique(ms');
    var at := if k < |ms| - 1 then k else i;
    assert ms'[at] == ms[k];
    FindsIt(ms', at);
  }

  lemma SwapKeepsInv(ms: seq<Module>, rank: map<Name, nat>, i: nat)
    requires Inv(ms, rank) && i < |ms| && ms[i].state != Ready
    ensures Inv(SwapRemove(ms, i), rank)
  {
    var ms' := SwapRemove(ms, i);
    assert forall j :: 0 <= j < |ms'| ==> ms'[j] == if j == i then ms[|ms| - 1] else ms[j];
    forall j | 0 <= j < |ms'|
      ensures ms'[j].dependents == References(ms', ms'[j].name)
    {
      SwapReferences(ms, i, ms'[j].name);
    }
    forall j | 0 <= j < |ms'| && ms'[j].state == Ready
      ensures Supported(ms', rank, j)
    {
      SwapSupported(ms, rank, i, if j == i then |ms| - 1 else j, j);
    }
    assert Unique(ms');
  }

  lemma SwapSupported(ms: seq<Module>, rank: map<Name, nat>, i: nat, from: nat, j: nat)
    requires Unique(ms) && AllSupported(ms, rank) && i < |ms| && ms[i].state != Ready && from < |ms|
             && ms[from].state == Ready
    requires j < |ms| - 1 && SwapRemove(ms, i)[j] == ms[from]
    ensures Supported(SwapRemove(ms, i), rank, j)
  {
    assert Supported(ms, rank, from);
    forall d | d in ms[from].deps
      ensures Present(SwapRemove(ms, i), d) && StateOf(SwapRemove(ms, i), d) == Ready
    {
      SwapFind(ms, i, Find(ms, d));
    }
  }

  /** A new module in a slot that keeps its old counter. */
  lemma RegisterKeepsInvIff(ms: seq<Module>, rank: map<Name, nat>, m: Module)
    requires Inv(ms, rank) && |ms| < MAX_MODULES && !Present(ms, m.name) && m.state == Registered
    ensures Inv(ms + [m], rank) <==> m.dependents == 0
  {
    var ms' := ms + [m];
    NobodyNames(ms, rank, m.name);
    forall j | 0 <= j < |ms'|
      ensures References(ms', ms'[j].name) == References(ms, ms'[j].name)
    {
      assert ms'[..|ms|] == ms;
    }
    forall j | 0 <= j < |ms| && ms[j].state == Ready
      ensures Supported(ms', rank, j)
    {
      assert Supported(ms, rank, j);
      forall d | d in ms[j].deps
        ensures Present(ms', d) && StateOf(ms', d) == Ready
      {
        FindAppend(ms, m, d);
      }
    }
    assert ms'[|ms|] == m;
    assert Unique(ms') by {
      forall j | 0 <= j < |ms|
        ensures ms[j].name != m.name
      {
      }
    }
  }

  lemma FindAppend(ms: seq<Module>, m: Module, n: Name)
    requires Present(ms, n)
    ensures Find(ms + [m], n) == Find(ms, n)
  {
    assert (ms + [m])[Find(ms, n)].name == n;
  }

  lemma NobodyNames(ms: seq<Module>, rank: map<Name, nat>, n: Name)
    requires AllSupported(ms, rank) && !Present(ms, n)
    ensures References(ms, n) == 0
  {
    forall i | 0 <= i < |ms| && ms[i].state == Ready
      ensures n !in ms[i].deps
    {
      assert Supported(ms, rank, i);
    }
    NoReferences(ms, n);
  }

  // ------------------------------------------------------------------ users

  function Got(gets: map<Name, nat>, n: Name): nat {
    if n in gets then gets[n] else 0
  }

  /** users counts the module_get calls without their module_put. */
  ghost predicate UsersCounted(ms: seq<Module>, gets: map<Name, nat>) {
    && (forall i :: 0 <= i < |ms| ==> ms[i].users == Got(gets, ms[i].name))
    && (forall n :: Got(gets, n) > 0 ==> Present(ms, n))
  }

  // -------------------------------------------------- loading, from outside

  /** What is Ready after a load shows in which order to get there. */
  lemma ReadyIsLoadable(ms: seq<Module>, ms': seq<Module>, inits: Inits, rank: map<Name, nat>, n: Name)
    requires Evolves(ms, ms', inits) && Inv(ms', rank) && Present(ms', n) && StateOf(ms', n) == Ready
    ensures Loadable(ms, inits, n)
  {
    var order := map x | x in rank && Present(ms', x) && StateOf(ms', x) == Ready :: rank[x];
    forall x | x in order
      ensures Present(ms, x)
      ensures StateOf(ms, x) == Ready
              || (StateOf(ms, x) == Registered && inits(x) == 0
                  && forall d :: d in ms[Find(ms, x)].deps ==> d in order && order[d] < order[x])
    {
      SameFind(ms, ms', x);
      assert Supported(ms', rank, Find(ms', x));
    }
    assert Supported(ms', rank, Find(ms', n));
    assert Supports(ms, inits, order) && n in order;
  }

  // ----------------------------------------------- what a load will return

  ghost predicate DepsLoadable(ms: seq<Module>, inits: Inits, deps: seq<Name>) {
    forall d :: d in deps ==> Loadable(ms, inits, d)
  }

  /** What module_load returns: what was found, or, for a module that has not been
      tried, what its init returns if everything it depends on can be loaded. */
  ghost function LoadResult(ms: seq<Module>, inits: Inits, n: Name): int {
    if !Present(ms, n) then -1
    else
      var m := ms[Find(ms, n)];
      match m.state
      case Ready => 0
      case Failed => m.error
      case Loading => -1
      case Registered => if DepsLoadable(ms, inits, m.deps) then inits(n) else -1
  }

  /** Two orders of initialisation make one. */
  lemma JoinSupports(ms: seq<Module>, inits: Inits, r: map<Name, nat>, q: map<Name, nat>)
    returns (joined: map<Name, nat>)
    requires Supports(ms, inits, r) && Supports(ms, inits, q)
    ensures Supports(ms, inits, joined) && joined.Keys == r.Keys + q.Keys
  {
    hide Find, Bound;
    var bound: nat := Bound(r);
    joined := map n | n in r.Keys + q.Keys :: if n in r then r[n] else q[n] + bound;
    forall n | n in joined
      ensures Present(ms, n)
      ensures StateOf(ms, n) == Ready
              || (StateOf(ms, n) == Registered && inits(n) == 0
                  && forall d :: d in ms[Find(ms, n)].deps ==> d in joined && joined[d] < joined[n])
    {
    }
  }

  ghost function Bound(r: map<Name, nat>): (b: nat)
    ensures forall n :: n in r ==> r[n] < b
    decreases |r|
  {
    if r == map[] then 0
    else
      var n :| n in r;
      var rest := r - {n};
      assert rest.Keys == r.Keys - {n};
      var b := Bound(rest);
      assert forall m :: m in r ==> m == n || (m in rest && rest[m] == r[m]);
      if b > r[n] then b else r[n] + 1
  }

  /** What can be loaded one by one can be loaded together. */
  lemma {:induction false} SupportForAll(ms: seq<Module>, inits: Inits, deps: seq<Name>) returns (r: map<Name, nat>)
    requires DepsLoadable(ms, inits, deps)
    ensures Supports(ms, inits, r) && forall d :: d in deps ==> d in r
    decreases |deps|
  {
    if deps == [] {
      r := map[];
    } else {
      assert deps[0] in deps;
      var q := SupportForAll(ms, inits, deps[1..]);
      var p :| Supports(ms, inits, p) && deps[0] in p;
      r := JoinSupports(ms, inits, p, q);
      forall d | d in deps
        ensures d in r
      {
        assert d in deps[1..] ==> d in q;
        assert r.Keys == p.Keys + q.Keys;
      }
    }
  }

  lemma LoadableIsPresent(ms: seq<Module>, inits: Inits, n: Name)
    requires Loadable(ms, inits, n)
    ensures Present(ms, n)
  {
  }
}

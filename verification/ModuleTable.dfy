/**
 kernel/module/module.cpp over its table: recursive loading, reference counts,
 registration and unloading. `table` is modules[0 .. registered) and `vacated`
 the slots behind it, which keep what they last held. The init functions are a
 parameter; exit functions and log output are not modelled.
 */
module ModuleTable {
  import opened ModuleModel

  /** The outcome of the calls that return an int. */
  const OK := 0
  const REFUSED := -1

  class Modules {
    var table: seq<Module>
    var vacated: seq<Module>
    ghost var rank: map<Name, nat>
    ghost var clock: nat
    ghost var gets: map<Name, nat>   // module_get calls not yet undone
    ghost var calls: seq<InitCall>   // the calls of init functions

    ghost predicate Steady()
      reads this
    {
      Inv(table, rank) && Clocked(rank, clock) && |table| + |vacated| == MAX_MODULES
    }

    /** Between top-level calls. */
    ghost predicate Valid()
      reads this
    {
      Steady() && Settled(table) && UsersCounted(table, gets)
    }

    /** The table before anything is registered: every slot zeroed. */
    constructor ()
      ensures Valid() && table == [] && forall m :: m in vacated ==> m.dependents == 0 && m.users == 0
    {
      table, rank, clock, gets, calls := [], map[], 0, map[], [];
      vacated := seq(MAX_MODULES, _ => Module("", [], Registered, 0, 0, 0, false));
    }

    method FindModule(name: Name) returns (i: nat)
      ensures i == Find(table, name)
    {
      i := 0;
      while i < |table|
        invariant i <= |table| && forall k :: 0 <= k < i ==> table[k].name != name
      {
        if table[i].name == name {
          return;
        }
        i := i + 1;
      }
    }

    /** Every dependency is found, for they are all Ready. */
    method AcquireDependencies(i: nat)
      requires Steady() && i < |table| && DepsReady(table, table[i].deps)
      modifies this`table
      ensures SameButCounters(old(table), table) && CountedPlus(table, table[i].deps)
    {
      hide CountedPlus, SameButCounters, Inv, DepsReady, Unique, Counted, AllSupported, Errors, Clocked;
      var deps := table[i].deps;
      ghost var before := table;
      InvParts(table, rank);
      CountedExactly(table, deps);
      CountersSame(table);
      var k := 0;
      while k < |deps|
        invariant k <= |deps| && SameButCounters(before, table) && CountedPlus(table, deps[..k]) && Unique(table)
        invariant |table| == |before| && table[i].deps == deps
      {
        StillPresent(before, table, deps, k);
        var f := FindModule(deps[k]);
        TakeOne(table, deps[..k], deps[k], table[f := table[f].(dependents := table[f].dependents + 1)]);
        CountersTwice(before, table, table[f := table[f].(dependents := table[f].dependents + 1)]);
        ghost var next := table[f := table[f].(dependents := table[f].dependents + 1)];
        CountersKeepSlot(table, next, i);
        table := table[f := table[f].(dependents := table[f].dependents + 1)];
        assert deps[..k] + [deps[k]] == deps[..k + 1];
        k := k + 1;
      }
      assert deps[..|deps|] == deps;
    }

    /** Takes the references and makes module i Ready. */
    method FinishLoad(i: nat)
      requires Steady() && i < |table| && table[i].state == Loading && DepsReady(table, table[i].deps)
      modifies this`table, this`rank, this`clock
      ensures Steady() && SameButCounters(old(table)[i := old(table)[i].(state := Ready, error := 0)], table)
    {
      hide Inv, DepsReady, CountedPlus;
      ghost var before := table;
      InvParts(table, rank);
      AcquireDependencies(i);
      CountersDoNotMatter(before, table, rank);
      DepsStillReady(before, table, table[i].deps);
      BecomesReady(table, rank, clock, i, table[i].(state := Ready, error := 0));
      rank := rank[table[i].name := clock];
      clock := clock + 1;
      table := table[i := table[i].(state := Ready, error := 0)];
    }

    /** module.info->init(). */
    method CallInit(i: nat, inits: Inits) returns (result: int)
      requires i < |table|
      modifies this`calls
      ensures calls == old(calls) + [InitCall(i, table)] && result == inits(table[i].name)
    {
      calls := calls + [InitCall(i, table)];
      result := inits(table[i].name);
    }

    /** Brings every dependency of a module that is being loaded to Ready, or
        stops at the first one that cannot be. */
    method LoadDependencies(i: nat, depth: nat, inits: Inits, ghost support: map<Name, nat>)
      returns (result: int, ghost ran: seq<nat>)
      requires Steady() && i < |table| && table[i].state == Loading && depth + 1 == Count(table, Loading)
      modifies this`table, this`rank, this`clock, this`calls
      ensures Steady() && Evolves(old(table), table, inits) && Ran(old(table), table, ran)
      ensures Called(old(table), old(calls), calls, ran)
      ensures result == OK ==> DepsReady(table, table[i].deps)
      ensures Nested(old(table), inits, support, i) ==> result == OK && Fits(table, inits, support)
      decreases Count(table, Registered), 1
    {
      hide Inv, Evolves, Ran, Called, Fits, Nested, Count, Unique, Counted, AllSupported, Errors;
      var deps := table[i].deps;
      ghost var before := table;
      var k := 0;
      ran := [];
      InvParts(table, rank);
      NothingYet(table, inits);
      NothingCalled(table, calls);
      NestedFits(table, inits, support, i);
      while k < |deps|
        invariant k <= |deps| && Steady() && Evolves(before, table, inits) && Ran(before, table, ran)
        invariant Called(before, old(calls), calls, ran)
        invariant DepsReady(table, deps[..k])
        invariant Nested(before, inits, support, i) ==> Fits(table, inits, support)
      {
        EvolvesSame(before, table, inits, i);
        EvolvesCounts(before, table, inits);
        var f := FindModule(deps[k]);
        NestedDep(before, table, inits, support, i, k);
        if f == |table| {
          return REFUSED, ran;
        }
        ghost var middle, calls1 := table, calls;
        ghost var more: seq<nat>;
        result, more := LoadLocked(f, depth + 1, inits, support);
        EvolvesTwice(before, middle, table, inits);
        RanTwice(before, middle, table, inits, ran, more);
        EvolvesNames(before, middle, inits);
        CalledTwice(before, middle, old(calls), calls1, calls, ran, more);
        ran := ran + more;
        if result != OK {
          return;
        }
        OneMoreReady(middle, table, inits, deps, k, f);
        k := k + 1;
      }
      assert deps[..|deps|] == deps;
      EvolvesSame(before, table, inits, i);
      result := OK;
    }

    /** The module ends Ready if and only if zero is returned. */
    method LoadLocked(i: nat, depth: nat, inits: Inits, ghost support: map<Name, nat>)
      returns (result: int, ghost ran: seq<nat>)
      requires Steady() && i < |table| && depth == Count(table, Loading)
      modifies this`table, this`rank, this`clock, this`calls
      ensures Steady() && Evolves(old(table), table, inits) && Ran(old(table), table, ran)
      ensures Called(old(table), old(calls), calls, ran)
      ensures result == OK <==> table[i].state == Ready
      ensures table[i].state != Registered
      ensures Hope(old(table), inits, support, i) ==> result == OK && Fits(table, inits, support)
      ensures old(table)[i].state == Failed ==> result == old(table)[i].error
      // What is returned for a module that had not been tried, and what is left.
      ensures old(table)[i].state == Registered ==>
                || (result == inits(table[i].name) && DepsReady(table, table[i].deps))
                || (result == REFUSED && !Promising(old(table), inits, support, i))
      ensures old(table)[i].state == Registered && result != OK ==> table[i].state == Failed && table[i].error == result
      decreases Count(table, Registered), 0
    {
      hide Inv, Evolves, Ran, Called, Fits, Count, Hope, Nested, Restated, Unique, Counted, AllSupported, Errors,
           DepsReady, SameButCounters;
      ran := [];
      ghost var before := table;
      InvParts(table, rank);
      NothingYet(table, inits);
      NothingCalled(table, calls);
      HopeHolds(table, inits, support, i);
      if depth > MAX_MODULES {
        TooDeep(table, rank);
        assert false;
      }
      match table[i].state {
        case Ready => return OK, ran;
        case Loading => return REFUSED, ran;
        case Failed =>
          FailedHasError(table, rank, i);
          return table[i].error, ran;
        case Registered =>
      }
      BeginLoad(table, rank, inits, support, i);
      table := table[i := table[i].(state := Loading)];
      ghost var loading := table;
      result, ran := LoadDependencies(i, depth, inits, support);
      EvolvesSame(loading, table, inits, i);
      CalledSame(before, loading, old(calls), calls, ran);
      if result != OK {
        EndFailed(before, table, rank, inits, ran, i, -1, ran);
        table := table[i := table[i].(state := Failed, error := -1)];
        return REFUSED, ran;
      }
      ghost var inner, calls1 := ran, calls;
      result := CallInit(i, inits);
      ran := ran + [i];
      OneCalled(before, loading, table, inits, old(calls), calls1, inner, i);
      if result != OK {
        EndFailed(before, table, rank, inits, inner, i, result, ran);
        StillReady(table, i, table[i].(state := Failed, error := result));
        table := table[i := table[i].(state := Failed, error := result)];
        return;
      }
      ghost var loaded := table;
      FinishLoad(i);
      EndReady(before, loaded, table, inits, inner, i);
      StillFits(loaded, table, inits, support, i);
      StillReady(loaded, i, loaded[i].(state := Ready, error := 0));
      DepsStillReady(loaded[i := loaded[i].(state := Ready, error := 0)], table, loaded[i].deps);
      CountersKeepSlot(loaded[i := loaded[i].(state := Ready, error := 0)], table, i);
    }

    // ------------------------------------------------------ top-level calls

    /** module_load: succeeds exactly when some order of initialisation ends
        with the module Ready; every init is called at most once, and only when
        everything the module depends on is Ready. */
    method Load(name: Name, inits: Inits) returns (result: int, ghost ran: seq<nat>)
      requires Valid()
      modifies this`table, this`rank, this`clock, this`calls
      ensures Valid() && Evolves(old(table), table, inits) && Ran(old(table), table, ran)
      ensures Called(old(table), old(calls), calls, ran)
      ensures result == LoadResult(old(table), inits, name)
      // If everything it depends on can be loaded, that is Ready afterwards, whatever its own init returns.
      ensures var i := Find(old(table), name);
              i < |table| && old(table)[i].state == Registered ==>
                && (DepsLoadable(old(table), inits, table[i].deps) ==> DepsReady(table, table[i].deps))
                && (result != OK ==> table[i].state == Failed && table[i].error == result)
      ensures result == OK <==> Loadable(old(table), inits, name)
      ensures result == OK <==> Present(table, name) && StateOf(table, name) == Ready
    {
      hide Inv, Evolves, Ran, Called, Loadable, Supports, Fits, Hope, Nested, Promising, Settled, Unique, Counted,
           AllSupported, Errors, Count, UsersCounted, DepsLoadable, DepsReady;
      ghost var before := table;
      NothingYet(table, inits);
      NothingCalled(table, calls);
      InvParts(table, rank);
      var i := FindModule(name);
      if i == |table| {
        ran := [];
        if Loadable(table, inits, name) {
          LoadableIsPresent(table, inits, name);
        }
        return REFUSED, ran;
      }
      ghost var order := BestOrder(table, inits, name, table[i].deps);
      OrderGivesHope(table, inits, order, i);
      NothingLoading(table);
      result, ran := LoadLocked(i, 0, inits, order);
      StaysSettled(before, table, inits);
      UsersStay(before, table, inits, gets);
      EvolvesSame(before, table, inits, i);
      EvolvesFinds(before, table, inits, name);
      SettledAt(before, i);
      if result == OK {
        ReadyIsLoadable(before, table, inits, rank, name);
      }
      if DepsReady(table, table[i].deps) {
        ReadyDepsLoadable(before, table, inits, rank, table[i].deps);
      }
    }

    method ReleaseDependencies(i: nat)
      requires Steady() && i < |table| && table[i].state == Ready
      modifies this`table
      ensures SameButCounters(old(table), table) && CountedMinus(table, table[i].deps) && Unique(table)
    {
      hide CountedMinus, SameButCounters, Inv, DepsReady, Unique, Counted, AllSupported, Errors, Clocked;
      ghost var before := table;
      var deps := table[i].deps;
      DepsOf(table, rank, i);
      InvParts(table, rank);
      CountedExactly(table, deps);
      CountersSame(table);
      var k := 0;
      while k < |deps|
        invariant k <= |deps| && SameButCounters(before, table) && CountedMinus(table, deps[..k]) && Unique(table)
        invariant |table| == |before| && table[i].state == Ready && table[i].deps == deps
      {
        StillPresent(before, table, deps, k);
        var f := FindModule(deps[k]);
        SomethingToDrop(table, i, k);
        // the check that panics
        assert table[f].dependents > 0;
        ghost var next := table[f := table[f].(dependents := table[f].dependents - 1)];
        DropOne(table, deps[..k], deps[k], next);
        CountersTwice(before, table, next);
        table := table[f := table[f].(dependents := table[f].dependents - 1)];
        assert deps[..k] + [deps[k]] == deps[..k + 1];
        k := k + 1;
      }
      assert deps[..|deps|] == deps;
    }

    /** module_unload. A module from an image leaves the table, and the last
        one takes its slot; a copy of it stays in the slot it had. */
    method Unload(name: Name) returns (result: int, ghost dropped: seq<Module>)
      requires Valid()
      modifies this`table, this`vacated
      ensures Valid()
      ensures var i := Find(old(table), name);
              if i < |old(table)| && Droppable(old(table)[i]) then
                && result == OK && Dropped(old(table), i, dropped) && Inv(dropped, rank)
                && table == (if old(table)[i].image then SwapRemove(dropped, i) else dropped)
                && vacated == if old(table)[i].image then [dropped[|dropped| - 1]] + old(vacated) else old(vacated)
              else
                && result == (if i < |old(table)| && old(table)[i].state != Ready then OK else REFUSED)
                && table == old(table) && vacated == old(vacated)
    {
      dropped := table;
      hide Inv, Settled, SameButCounters, Unique, Counted, AllSupported, Errors, UsersCounted;
      var i := FindModule(name);
      if i == |table| {
        return REFUSED, table;
      }
      if table[i].state != Ready {
        return OK, table;
      }
      if table[i].dependents > 0 || table[i].users > 0 {
        return REFUSED, table;
      }
      ghost var before := table;
      var image := table[i].image;
      InvParts(table, rank);
      ReleaseDependencies(i);
      CountersKeepSlot(before, table, i);
      Unloaded(before, table, rank, i);
      UsersUnloaded(before, table, i, gets);
      table := table[i := table[i].(state := Registered, image := false)];
      assert Dropped(before, i, table);
      dropped := table;
      if image {
        SwapKeepsInv(table, rank, i);
        SwapSettled(table, i);
        InvParts(table, rank);
        UsersSwapped(table, i, gets);
        vacated := [table[|table| - 1]] + vacated;
        table := table[i := table[|table| - 1]][..|table| - 1];
      }
      result := OK;
    }

    /** module_register_loaded. The new module takes over the counters its slot
        was left with: the table stays sound exactly when they are zero. */
    method Register(abi: nat, name: Name, deps: seq<Name>, image: bool) returns (result: int)
      requires Valid()
      modifies this`table, this`vacated
      ensures result == OK <==> abi == MODULE_ABI && !Present(old(table), name) && |old(table)| < MAX_MODULES
      ensures result != OK ==> result == REFUSED && table == old(table) && vacated == old(vacated) && Valid()
      ensures result == OK ==>
                && |old(vacated)| > 0 && vacated == old(vacated)[1..]
                && table == old(table) + [Module(name, deps, Registered, old(vacated)[0].dependents,
                                                 old(vacated)[0].users, 0, image)]
                && (Valid() <==> old(vacated)[0].dependents == 0 && old(vacated)[0].users == 0)
    {
      hide Inv, UsersCounted;
      if abi != MODULE_ABI {
        return REFUSED;
      }
      var i := FindModule(name);
      if i < |table| || |table| >= MAX_MODULES {
        return REFUSED;
      }
      var slot := vacated[0].(name := name, deps := deps, state := Registered, error := 0, image := image);
      RegisterKeepsInvIff(table, rank, slot);
      UsersRegistered(table, slot, gets);
      table := table + [slot];
      vacated := vacated[1..];
      result := OK;
    }

    /** module_unload of an image followed by module_register_loaded of another.
        The table stays sound if and only if the module in the last slot was the
        one unloaded, or has neither users nor other Ready modules on top of it. */
    method Replace(name: Name, next: Name, deps: seq<Name>, image: bool)
      returns (result: int, ghost dropped: seq<Module>)
      requires Valid() && Present(table, name) && (next == name || !Present(table, next))
      requires Droppable(table[Find(table, name)]) && table[Find(table, name)].image
      modifies this`table, this`vacated
      ensures result == OK && Dropped(old(table), Find(old(table), name), dropped) && Inv(dropped, rank)
      ensures var left := dropped[|dropped| - 1];
              table == SwapRemove(dropped, Find(old(table), name))
                       + [Module(next, deps, Registered, left.dependents, left.users, 0, image)]
      ensures Valid() <==> LastIsFree(old(table), Find(old(table), name))
    {
      hide Inv, Counted, Dropped, UsersCounted, SwapRemove, LastIsFree;
      ghost var i := Find(table, name);
      InvParts(table, rank);
      result, dropped := Unload(name);
      LastSlot(old(table), dropped, rank, i);
      NotThere(old(table), dropped, i, next);
      result := Register(MODULE_ABI, next, deps, image);
    }

    /** module_get. */
    method Get(name: Name) returns (ok: bool)
      requires Valid()
      modifies this`table, this`gets
      ensures Valid() && (ok <==> Present(old(table), name) && StateOf(old(table), name) == Ready)
      ensures gets == if ok then old(gets)[name := Got(old(gets), name) + 1] else old(gets)
      ensures OnlyUsers(old(table), table)
    {
      hide Inv;
      var i := FindModule(name);
      if i == |table| || table[i].state != Ready {
        return false;
      }
      UsersChange(table, rank, i, table[i].users + 1, gets);
      table := table[i := table[i].(users := table[i].users + 1)];
      gets := gets[name := Got(gets, name) + 1];
      ok := true;
    }

    /** module_put: the panic is exactly for a put without its get. */
    method Put(name: Name) returns (panicked: bool)
      requires Valid()
      modifies this`table, this`gets
      ensures Valid() && (panicked <==> Got(old(gets), name) == 0)
      ensures gets == if panicked then old(gets) else old(gets)[name := Got(old(gets), name) - 1]
      ensures OnlyUsers(old(table), table)
    {
      hide Inv;
      var i := FindModule(name);
      if i == |table| || table[i].users == 0 {
        return true;
      }
      UsersChange(table, rank, i, table[i].users - 1, gets);
      table := table[i := table[i].(users := table[i].users - 1)];
      gets := gets[name := Got(gets, name) - 1];
      panicked := false;
    }
  }

  const MODULE_ABI := 1

  /** Module i is Registered again and the counters have been adjusted. */
  ghost predicate Dropped(ms: seq<Module>, i: nat, ms': seq<Module>) {
    i < |ms| && SameButCounters(ms[i := ms[i].(state := Registered, image := false)], ms')
  }

  predicate Droppable(m: Module) {
    m.state == Ready && m.dependents == 0 && m.users == 0
  }

  /** Once module i is gone, nobody uses the module in the last slot or is on top of it. */
  ghost predicate LastIsFree(ms: seq<Module>, i: nat)
    requires i < |ms|
  {
    var last := ms[|ms| - 1];
    i == |ms| - 1
    || (last.users == 0 && forall j :: 0 <= j < |ms| && j != i && ms[j].state == Ready ==> last.name !in ms[j].deps)
  }

  /** What the slot that falls vacant is left with. */
  lemma LastSlot(ms: seq<Module>, ms': seq<Module>, rank: map<Name, nat>, i: nat)
    requires Inv(ms, rank) && Inv(ms', rank) && i < |ms| && Droppable(ms[i]) && Dropped(ms, i, ms')
    ensures |ms'| == |ms|
    ensures var last := ms'[|ms'| - 1]; (last.dependents == 0 && last.users == 0 <==> LastIsFree(ms, i))
  {
    var last := |ms| - 1;
    var n := ms[last].name;
    assert ms'[last].dependents == References(ms', n);
    if i == last {
      forall j | 0 <= j < |ms'| && ms'[j].state == Ready
        ensures n !in ms'[j].deps
      {
        NobodyDepends(ms, i, j);
      }
      NoReferences(ms', n);
    } else if forall j :: 0 <= j < |ms| && j != i && ms[j].state == Ready ==> n !in ms[j].deps {
      NoReferences(ms', n);
    } else {
      var j :| 0 <= j < |ms| && j != i && ms[j].state == Ready && n in ms[j].deps;
      ReferencesAtLeast(ms', j, n);
      OccursIn(ms'[j].deps, n);
    }
  }

  /** A name that was not there, or was the one removed, is free afterwards. */
  lemma NotThere(ms: seq<Module>, ms': seq<Module>, i: nat, n: Name)
    requires i < |ms| && Unique(ms) && Dropped(ms, i, ms') && (n == ms[i].name || !Present(ms, n))
    ensures |ms'| == |ms| && !Present(SwapRemove(ms', i), n) && |SwapRemove(ms', i)| == |ms| - 1
  {
    var rest := SwapRemove(ms', i);
    forall k | 0 <= k < |rest|
      ensures rest[k].name != n
    {
      var j := if k == i then |ms| - 1 else k;
      assert rest[k] == ms'[j] && ms'[j].name == ms[j].name != n;
    }
  }

  /** Module i is being loaded and everything it needs is ranked below it. */
  ghost predicate Nested(ms: seq<Module>, inits: Inits, support: map<Name, nat>, i: nat)
    requires i < |ms|
  {
    && Fits(ms, inits, support) && ms[i].state == Loading && (forall d :: d in ms[i].deps ==> d in support)
    && forall k, d :: 0 <= k < |ms| && ms[k].state == Loading && ms[k].name in support && d in ms[i].deps ==>
         support[ms[k].name] > support[d]
  }

  /** Everything module i depends on can be loaded, whether or not it can itself. */
  ghost predicate Promising(ms: seq<Module>, inits: Inits, support: map<Name, nat>, i: nat)
    requires i < |ms|
  {
    Nested(ms[i := ms[i].(state := Loading)], inits, support, i)
  }

  /** Nothing changed but counters of users. */
  ghost predicate OnlyUsers(ms: seq<Module>, ms': seq<Module>) {
    |ms'| == |ms| && forall j :: 0 <= j < |ms| ==> ms'[j] == ms[j].(users := ms'[j].users)
  }

  lemma StillPresent(before: seq<Module>, ms: seq<Module>, deps: seq<Name>, k: nat)
    requires SameButCounters(before, ms) && DepsReady(before, deps) && k < |deps|
    ensures Present(ms, deps[k]) && StateOf(ms, deps[k]) == Ready
  {
    assert deps[k] in deps;
    SameFind(before, ms, deps[k]);
  }

  lemma CountersTwice(a: seq<Module>, b: seq<Module>, c: seq<Module>)
    requires SameButCounters(a, b) && SameButCounters(b, c) && Unique(b)
    ensures SameButCounters(a, c) && Unique(c)
  {
  }

  // ---------------------------------------------------------- small steps

  lemma InvParts(ms: seq<Module>, rank: map<Name, nat>)
    requires Inv(ms, rank)
    ensures Unique(ms) && Counted(ms) && AllSupported(ms, rank) && Errors(ms) && |ms| <= MAX_MODULES
  {
  }

  lemma DepsStillReady(before: seq<Module>, ms: seq<Module>, deps: seq<Name>)
    requires SameButCounters(before, ms) && DepsReady(before, deps)
    ensures DepsReady(ms, deps)
  {
    forall d | d in deps
      ensures Present(ms, d) && StateOf(ms, d) == Ready
    {
      SameFind(before, ms, d);
    }
  }

  lemma NothingYet(ms: seq<Module>, inits: Inits)
    ensures Evolves(ms, ms, inits) && Ran(ms, ms, [])
  {
  }

  lemma NothingCalled(ms: seq<Module>, calls: seq<InitCall>)
    ensures Called(ms, calls, calls, [])
  {
  }

  lemma EvolvesNames(ms: seq<Module>, ms': seq<Module>, inits: Inits)
    requires Evolves(ms, ms', inits)
    ensures SameNames(ms, ms')
  {
  }

  lemma CalledSame(ms: seq<Module>, ms1: seq<Module>, calls: seq<InitCall>, calls': seq<InitCall>, ran: seq<nat>)
    requires SameNames(ms, ms1) && Called(ms1, calls, calls', ran)
    ensures Called(ms, calls, calls', ran)
  {
    hide DepsReady;
    var made := calls'[|calls|..];
    forall k | 0 <= k < |made|
      ensures Prepared(ms, made[k])
    {
      assert Prepared(ms1, made[k]);
    }
  }

  lemma OneCalled(before: seq<Module>, loading: seq<Module>, ms: seq<Module>, inits: Inits, c0: seq<InitCall>,
                  c1: seq<InitCall>, inner: seq<nat>, i: nat)
    requires SameNames(before, loading) && Evolves(loading, ms, inits) && Called(before, c0, c1, inner)
    requires i < |ms| && ms[i].state == Loading && DepsReady(ms, ms[i].deps)
    ensures Called(before, c0, c1 + [InitCall(i, ms)], inner + [i])
  {
    hide DepsReady;
    assert (c1 + [InitCall(i, ms)])[|c1|..] == [InitCall(i, ms)];
    assert Prepared(before, InitCall(i, ms));
    CalledTwice(before, before, c0, c1, c1 + [InitCall(i, ms)], inner, [i]);
  }

  lemma StillReady(ms: seq<Module>, i: nat, m: Module)
    requires i < |ms| && m.name == ms[i].name && m.deps == ms[i].deps && ms[i].state == Loading
             && DepsReady(ms, ms[i].deps)
    ensures DepsReady(ms[i := m], m.deps)
  {
    forall d | d in m.deps
      ensures Present(ms[i := m], d) && StateOf(ms[i := m], d) == Ready
    {
      FindUpdate(ms, i, m, d);
    }
  }

  lemma NestedFits(ms: seq<Module>, inits: Inits, support: map<Name, nat>, i: nat)
    requires i < |ms|
    ensures Nested(ms, inits, support, i) ==> Fits(ms, inits, support)
  {
  }

  lemma HopeHolds(ms: seq<Module>, inits: Inits, support: map<Name, nat>, i: nat)
    requires i < |ms| && Unique(ms)
    ensures Hope(ms, inits, support, i) ==> Fits(ms, inits, support) && ms[i].state != Failed && ms[i].state != Loading
  {
    FindsIt(ms, i);
  }

  lemma EvolvesSame(ms: seq<Module>, ms': seq<Module>, inits: Inits, i: nat)
    requires Evolves(ms, ms', inits) && i < |ms|
    ensures |ms'| == |ms| && ms'[i].name == ms[i].name && ms'[i].deps == ms[i].deps
    ensures ms[i].state != Registered ==> ms'[i].state == ms[i].state
  {
  }

  /** The depth is the number of modules being loaded: it never passes the table. */
  lemma TooDeep(ms: seq<Module>, rank: map<Name, nat>)
    requires Inv(ms, rank)
    ensures Count(ms, Loading) <= MAX_MODULES
  {
  }

  lemma FailedHasError(ms: seq<Module>, rank: map<Name, nat>, i: nat)
    requires Inv(ms, rank) && i < |ms| && ms[i].state == Failed
    ensures ms[i].error != 0
  {
  }

  lemma NestedDep(before: seq<Module>, ms: seq<Module>, inits: Inits, support: map<Name, nat>, i: nat, k: nat)
    requires i < |before| && Evolves(before, ms, inits) && k < |before[i].deps| && Unique(before)
    ensures Nested(before, inits, support, i) && Fits(ms, inits, support) ==>
              Find(ms, before[i].deps[k]) < |ms| && Hope(ms, inits, support, Find(ms, before[i].deps[k]))
  {
    var d := before[i].deps[k];
    assert d in before[i].deps;
    FindsIt(before, i);
    SameFind(before, ms, d);
  }

  lemma OneMoreReady(ms: seq<Module>, ms': seq<Module>, inits: Inits, deps: seq<Name>, k: nat, f: nat)
    requires Evolves(ms, ms', inits) && k < |deps| && DepsReady(ms, deps[..k]) && f == Find(ms, deps[k]) < |ms|
             && ms'[f].state == Ready
    ensures DepsReady(ms', deps[..k + 1])
  {
    forall d | d in deps[..k + 1]
      ensures Present(ms', d) && StateOf(ms', d) == Ready
    {
      SameFind(ms, ms', d);
      if d != deps[k] {
        assert d in deps[..k];
      }
    }
  }

  lemma BeginLoad(ms: seq<Module>, rank: map<Name, nat>, inits: Inits, support: map<Name, nat>, i: nat)
    requires Inv(ms, rank) && i < |ms| && ms[i].state == Registered
    ensures var ms' := ms[i := ms[i].(state := Loading)];
            && Inv(ms', rank) && Count(ms', Loading) == Count(ms, Loading) + 1
              && Count(ms', Registered) == Count(ms, Registered) - 1
            && (Hope(ms, inits, support, i) ==> Nested(ms', inits, support, i) && inits(ms[i].name) == 0)
  {
    var m := ms[i].(state := Loading);
    InvParts(ms, rank);
    hide Inv, Hope, Nested, Count, Unique, Counted, AllSupported, Errors;
    RestateKeepsInv(ms, rank, i, m);
    CountUpdate(ms, i, m, Loading);
    CountUpdate(ms, i, m, Registered);
    if Hope(ms, inits, support, i) {
      HopeNests(ms, inits, support, i);
    }
  }

  lemma HopeNests(ms: seq<Module>, inits: Inits, support: map<Name, nat>, i: nat)
    requires Unique(ms) && i < |ms| && ms[i].state == Registered && Hope(ms, inits, support, i)
    ensures Nested(ms[i := ms[i].(state := Loading)], inits, support, i) && inits(ms[i].name) == 0
  {
    var m := ms[i].(state := Loading);
    FindsIt(ms, i);
    hide Unique, Find;
    forall n | n in support
      ensures Find(ms[i := m], n) == Find(ms, n)
    {
      FindUpdate(ms, i, m, n);
    }
  }

  lemma EndFailed(before: seq<Module>, ms: seq<Module>, rank: map<Name, nat>, inits: Inits, inner: seq<nat>, i: nat,
                  error: int, ran: seq<nat>)
    requires i < |before| && before[i].state == Registered && error != 0 && Inv(ms, rank) && i < |ms|
             && (ran == inner || (ran == inner + [i] && DepsReady(ms, ms[i].deps)))
    requires var loading := before[i := before[i].(state := Loading)];
             Evolves(loading, ms, inits) && Ran(loading, ms, inner)
    ensures |ms| == |before|
    ensures var ms' := ms[i := ms[i].(state := Failed, error := error)];
            Inv(ms', rank) && Evolves(before, ms', inits) && Ran(before, ms', ran)
  {
    RestateKeepsInv(ms, rank, i, ms[i].(state := Failed, error := error));
    EndRan(before, ms, ms[i := ms[i].(state := Failed, error := error)], inits, inner, i);
  }

  lemma EndRan(before: seq<Module>, ms: seq<Module>, ms': seq<Module>, inits: Inits, inner: seq<nat>, i: nat)
    requires i < |before| && before[i].state == Registered
    requires var loading := before[i := before[i].(state := Loading)];
             Evolves(loading, ms, inits) && Ran(loading, ms, inner)
    requires |ms'| == |ms| && (forall k :: 0 <= k < |ms| && k != i ==> ms'[k].state == ms[k].state)
             && ms'[i].state != Registered
    ensures DepsReady(ms, ms[i].deps) ==> Ran(before, ms', inner + [i])
    ensures ms'[i].state != Ready ==> Ran(before, ms', inner)
  {
    hide InOrder;
    assert i !in inner;
    assert forall k :: k in inner + [i] <==> k in inner || k == i;
    forall k: nat | k < |inner|
      ensures InOrder(before, inner, k) && InOrder(before, inner + [i], k)
    {
      OrderSame(before, before[i := before[i].(state := Loading)], inner, k);
      OrderBefore(before, inner, [i], k);
    }
    if DepsReady(ms, ms[i].deps) {
      LastInOrder(before, ms, inits, inner, i);
    }
  }

  lemma OrderSame(ms: seq<Module>, ms1: seq<Module>, ran: seq<nat>, k: nat)
    requires SameNames(ms, ms1) && InOrder(ms1, ran, k)
    requires forall j :: 0 <= j < |ms| && ms1[j].state == Ready ==> ms[j].state == Ready
    ensures InOrder(ms, ran, k)
  {
    forall d | d in ms[ran[k]].deps
      ensures Present(ms, d) && (StateOf(ms, d) == Ready || Find(ms, d) in ran[..k])
    {
      SameFind(ms, ms1, d);
    }
  }

  /** The module comes last: what it depends on is Ready by now. */
  lemma LastInOrder(before: seq<Module>, ms: seq<Module>, inits: Inits, inner: seq<nat>, i: nat)
    requires i < |before| && before[i].state == Registered
    requires var loading := before[i := before[i].(state := Loading)];
             Evolves(loading, ms, inits) && Ran(loading, ms, inner)
    requires DepsReady(ms, ms[i].deps)
    ensures InOrder(before, inner + [i], |inner|)
  {
    assert (inner + [i])[..|inner|] == inner;
    forall d | d in before[i].deps
      ensures Present(before, d) && (StateOf(before, d) == Ready || Find(before, d) in inner)
    {
      SameFind(before, ms, d);
    }
  }

  lemma EndReady(before: seq<Module>, ms: seq<Module>, ms': seq<Module>, inits: Inits, inner: seq<nat>, i: nat)
    requires i < |before| && before[i].state == Registered && inits(before[i].name) == 0
    requires var loading := before[i := before[i].(state := Loading)];
             Evolves(loading, ms, inits) && Ran(loading, ms, inner)
    requires |ms| == |before| && SameButCounters(ms[i := ms[i].(state := Ready, error := 0)], ms')
    requires DepsReady(ms, ms[i].deps)
    ensures Evolves(before, ms', inits) && Ran(before, ms', inner + [i]) && ms'[i].state == Ready
  {
    EndRan(before, ms, ms', inits, inner, i);
  }

  lemma StillFits(ms: seq<Module>, ms': seq<Module>, inits: Inits, support: map<Name, nat>, i: nat)
    requires i < |ms| && SameButCounters(ms[i := ms[i].(state := Ready, error := 0)], ms')
    ensures Fits(ms, inits, support) ==> Fits(ms', inits, support)
  {
    forall n | n in support
      ensures Find(ms', n) == Find(ms, n)
    {
      SameFind(ms, ms', n);
    }
  }

  // ------------------------------------------------ for the top-level calls

  /** An order for the module, or failing that for everything it depends on. */
  lemma BestOrder(ms: seq<Module>, inits: Inits, n: Name, deps: seq<Name>) returns (order: map<Name, nat>)
    ensures Supports(ms, inits, order)
    ensures Loadable(ms, inits, n) ==> n in order
    ensures DepsLoadable(ms, inits, deps) && !Loadable(ms, inits, n) ==> forall d :: d in deps ==> d in order
  {
    if Loadable(ms, inits, n) {
      order :| Supports(ms, inits, order) && n in order;
    } else if DepsLoadable(ms, inits, deps) {
      order := SupportForAll(ms, inits, deps);
    } else {
      order := map[];
    }
  }

  lemma OrderGivesHope(ms: seq<Module>, inits: Inits, order: map<Name, nat>, i: nat)
    requires Supports(ms, inits, order) && Settled(ms) && Unique(ms) && i < |ms|
    requires Loadable(ms, inits, ms[i].name) ==> ms[i].name in order
    requires DepsLoadable(ms, inits, ms[i].deps) && !Loadable(ms, inits, ms[i].name) ==>
               forall d :: d in ms[i].deps ==> d in order
    ensures Loadable(ms, inits, ms[i].name) ==> Hope(ms, inits, order, i)
    ensures ms[i].state == Registered && DepsLoadable(ms, inits, ms[i].deps) ==> Promising(ms, inits, order, i)
  {
    hide Loadable, DepsLoadable;
    FindsIt(ms, i);
    if ms[i].state == Registered && DepsLoadable(ms, inits, ms[i].deps) {
      OrderPromises(ms, inits, order, i);
    }
  }

  lemma OrderPromises(ms: seq<Module>, inits: Inits, order: map<Name, nat>, i: nat)
    requires Supports(ms, inits, order) && Settled(ms) && Unique(ms) && i < |ms| && ms[i].state == Registered
    requires ms[i].name in order || forall d :: d in ms[i].deps ==> d in order
    ensures Promising(ms, inits, order, i)
  {
    hide Fits, Unique, Find;
    LoadingFits(ms, inits, order, i);
    FindsIt(ms, i);
  }

  lemma LoadingFits(ms: seq<Module>, inits: Inits, order: map<Name, nat>, i: nat)
    requires Supports(ms, inits, order) && i < |ms| && ms[i].state == Registered
    ensures Fits(ms[i := ms[i].(state := Loading)], inits, order)
  {
    hide Find;
    var m := ms[i].(state := Loading);
    forall n | n in order
      ensures Find(ms[i := m], n) == Find(ms, n)
    {
      FindUpdate(ms, i, m, n);
    }
  }

  lemma SettledAt(ms: seq<Module>, i: nat)
    requires Settled(ms) && i < |ms|
    ensures ms[i].state != Loading
  {
  }

  lemma ReadyDepsLoadable(ms: seq<Module>, ms': seq<Module>, inits: Inits, rank: map<Name, nat>, deps: seq<Name>)
    requires Evolves(ms, ms', inits) && Inv(ms', rank) && DepsReady(ms', deps)
    ensures DepsLoadable(ms, inits, deps)
  {
    hide Inv, Evolves, Loadable;
    forall d | d in deps
      ensures Loadable(ms, inits, d)
    {
      ReadyIsLoadable(ms, ms', inits, rank, d);
    }
  }

  lemma {:induction false} NothingLoading(ms: seq<Module>)
    requires Settled(ms)
    ensures Count(ms, Loading) == 0
  {
    if ms != [] {
      NothingLoading(ms[..|ms| - 1]);
    }
  }

  lemma StaysSettled(ms: seq<Module>, ms': seq<Module>, inits: Inits)
    requires Settled(ms) && Evolves(ms, ms', inits)
    ensures Settled(ms')
  {
  }

  lemma EvolvesFinds(ms: seq<Module>, ms': seq<Module>, inits: Inits, n: Name)
    requires Evolves(ms, ms', inits)
    ensures Find(ms', n) == Find(ms, n)
  {
    SameFind(ms, ms', n);
  }

  lemma DepsOf(ms: seq<Module>, rank: map<Name, nat>, i: nat)
    requires Inv(ms, rank) && i < |ms| && ms[i].state == Ready
    ensures DepsReady(ms, ms[i].deps)
  {
    assert Supported(ms, rank, i);
  }

  lemma CountedExactly(ms: seq<Module>, deps: seq<Name>)
    requires Counted(ms)
    ensures CountedMinus(ms, deps[..0]) && CountedPlus(ms, deps[..0])
  {
  }

  lemma CountersSame(ms: seq<Module>)
    ensures SameButCounters(ms, ms)
  {
  }

  lemma CountersKeepSlot(ms: seq<Module>, ms': seq<Module>, i: nat)
    requires SameButCounters(ms, ms') && i < |ms|
    ensures |ms'| == |ms| && ms'[i] == ms[i].(dependents := ms'[i].dependents)
  {
  }

  lemma Unloaded(before: seq<Module>, ms: seq<Module>, rank: map<Name, nat>, i: nat)
    requires Inv(before, rank) && Settled(before) && i < |before| && before[i].state == Ready
             && before[i].dependents == 0
    requires SameButCounters(before, ms) && CountedMinus(ms, before[i].deps)
    ensures |ms| == |before|
    ensures var ms' := ms[i := ms[i].(state := Registered, image := false)];
            Inv(ms', rank) && Settled(ms') && Dropped(before, i, ms')
  {
    CountersDoNotMatter(before, ms, rank);
    forall j | 0 <= j < |ms| && ms[j].state == Ready
      ensures ms[i].name !in ms[j].deps
    {
      NobodyDepends(before, i, j);
    }
    NoLongerReady(ms, rank, i, ms[i].(state := Registered, image := false));
  }

  lemma SwapSettled(ms: seq<Module>, i: nat)
    requires Settled(ms) && i < |ms|
    ensures Settled(SwapRemove(ms, i))
  {
  }

  lemma UsersStay(ms: seq<Module>, ms': seq<Module>, inits: Inits, gets: map<Name, nat>)
    requires UsersCounted(ms, gets) && Evolves(ms, ms', inits)
    ensures UsersCounted(ms', gets)
  {
    forall n | Got(gets, n) > 0
      ensures Present(ms', n)
    {
      SameFind(ms, ms', n);
    }
  }

  lemma UsersUnloaded(before: seq<Module>, ms: seq<Module>, i: nat, gets: map<Name, nat>)
    requires UsersCounted(before, gets) && SameButCounters(before, ms) && i < |ms|
    ensures UsersCounted(ms[i := ms[i].(state := Registered, image := false)], gets)
  {
    forall n | Got(gets, n) > 0
      ensures Present(ms[i := ms[i].(state := Registered, image := false)], n)
    {
      SameFind(before, ms[i := ms[i].(state := Registered, image := false)], n);
    }
  }

  lemma UsersSwapped(ms: seq<Module>, i: nat, gets: map<Name, nat>)
    requires UsersCounted(ms, gets) && Unique(ms) && i < |ms| && ms[i].users == 0
    ensures UsersCounted(SwapRemove(ms, i), gets)
  {
    forall n | Got(gets, n) > 0
      ensures Present(SwapRemove(ms, i), n)
    {
      SwapFind(ms, i, Find(ms, n));
    }
  }

  lemma UsersRegistered(ms: seq<Module>, m: Module, gets: map<Name, nat>)
    requires UsersCounted(ms, gets) && !Present(ms, m.name)
    ensures UsersCounted(ms + [m], gets) <==> m.users == 0
  {
    forall n | Got(gets, n) > 0
      ensures Present(ms + [m], n)
    {
      FindAppend(ms, m, n);
    }
    assert (ms + [m])[|ms|] == m;
  }

  lemma UsersChange(ms: seq<Module>, rank: map<Name, nat>, i: nat, users: nat, gets: map<Name, nat>)
    requires Inv(ms, rank) && Settled(ms) && UsersCounted(ms, gets) && i < |ms|
    ensures var ms' := ms[i := ms[i].(users := users)];
            Inv(ms', rank) && Settled(ms') && UsersCounted(ms', gets[ms[i].name := users])
  {
    InvParts(ms, rank);
    UsersKeepInv(ms, rank, i, users);
    hide Inv, AllSupported, Counted, Errors;
    var m := ms[i].(users := users);
    var ms', gets' := ms[i := m], gets[ms[i].name := users];
    FindsIt(ms, i);
    forall n | Got(gets', n) > 0
      ensures Present(ms', n)
    {
      FindUpdate(ms, i, m, n);
      assert n != ms[i].name ==> Got(gets, n) == Got(gets', n);
    }
    forall j | 0 <= j < |ms|
      ensures ms'[j].users == Got(gets', ms'[j].name)
    {
      FindsIt(ms, j);
    }
  }

  lemma UsersKeepInv(ms: seq<Module>, rank: map<Name, nat>, i: nat, users: nat)
    requires Inv(ms, rank) && i < |ms|
    ensures Inv(ms[i := ms[i].(users := users)], rank)
  {
    var m := ms[i].(users := users);
    var ms' := ms[i := m];
    forall j | 0 <= j < |ms|
      ensures ms'[j].dependents == References(ms', ms'[j].name)
    {
      ReferencesUpdate(ms, i, m, ms[j].name);
    }
    forall j | 0 <= j < |ms| && ms'[j].state == Ready
      ensures Supported(ms', rank, j)
    {
      assert Supported(ms, rank, j);
      forall d | d in ms[j].deps
        ensures Present(ms', d) && StateOf(ms', d) == Ready
      {
        FindUpdate(ms, i, m, d);
      }
    }
  }

  // ----------------------------------------------- a slot that kept its counter

  /** Module "a" is loaded, then "d", which needs "l". Unloading "a" moves "l"
      into its slot and leaves a copy of it behind, whose counter the next module
      to be registered takes over, though nobody depends on it. */
  method StaleCounterHistory() returns (ms: Modules)
    ensures |ms.table| == 3 && ms.table[2].name == "m" && ms.table[2].dependents > 0
    ensures forall j :: 0 <= j < |ms.table| ==> "m" !in ms.table[j].deps
    ensures !ms.Valid()
  {
    hide Inv, Loadable, Evolves, LastIsFree, Present, Find;
    ms := TrioRegistered((n: Name) => 0);
    ghost var before, ran := ms.table, [];
    LoadsWithNeed(before, n => 0);
    var result;
    result, ran := ms.Load("d", n => 0);
    AfterLoads(before, ms.table, ms.rank, n => 0);
    ghost var loaded, dropped := ms.table, [];
    result, dropped := ms.Replace("a", "m", [], true);
    CounterLeft(loaded, dropped, ms.rank);
  }

  method TrioRegistered(inits: Inits) returns (ms: Modules)
    requires inits("a") == 0
    ensures fresh(ms) && ms.Valid() && Trio(ms.table) && ms.table[1].state == Registered
            && ms.table[2].state == Registered
  {
    hide Inv, Loadable, Evolves, Find;
    ms := LoadedAlone(inits);
    Names(ms.table);
    var result := ms.Register(MODULE_ABI, "d", ["l"], false);
    Names(ms.table);
    result := ms.Register(MODULE_ABI, "l", [], false);
  }

  lemma CounterLeft(ms: seq<Module>, ms': seq<Module>, rank: map<Name, nat>)
    requires Trio(ms) && Inv(ms, rank) && Inv(ms', rank) && Droppable(ms[0]) && Dropped(ms, 0, ms')
             && !LastIsFree(ms, 0)
    ensures |ms'| == 3 && ms'[2].dependents > 0
    ensures |SwapRemove(ms', 0)| == 2 && forall j :: 0 <= j < 2 ==> "m" !in SwapRemove(ms', 0)[j].deps
  {
    LastSlot(ms, ms', rank, 0);
    assert "m"[0] != "l"[0];
    hide Inv;
  }

  method LoadedAlone(inits: Inits) returns (ms: Modules)
    requires inits("a") == 0
    ensures fresh(ms) && ms.Valid() && |ms.table| == 1
    ensures var a := ms.table[0]; a.name == "a" && a.deps == [] && a.state == Ready && a.users == 0 && a.image
    ensures forall m :: m in ms.vacated ==> m.dependents == 0 && m.users == 0
  {
    ms := new Modules();
    var result := ms.Register(MODULE_ABI, "a", [], true);
    LoadsAlone(ms.table, inits);
    ghost var ran;
    result, ran := ms.Load("a", inits);
  }

  lemma LoadsAlone(ms: seq<Module>, inits: Inits)
    requires |ms| == 1 && ms[0].deps == [] && ms[0].state == Registered && inits(ms[0].name) == 0
    ensures Loadable(ms, inits, ms[0].name)
  {
    assert Supports(ms, inits, map[ms[0].name := 0]);
  }

  /** The names of the example are different. */
  lemma Names(ms: seq<Module>)
    requires 1 <= |ms| <= 2 && ms[0].name == "a" && (|ms| == 2 ==> ms[1].name == "d")
    ensures !Present(ms, if |ms| == 1 then "d" else "l")
  {
    assert "a"[0] != "d"[0] && "a"[0] != "l"[0] && "d"[0] != "l"[0];
  }

  ghost predicate Trio(ms: seq<Module>) {
    && |ms| == 3 && ms[0].name == "a" && ms[1].name == "d" && ms[2].name == "l"
    && ms[0].deps == [] && ms[1].deps == ["l"] && ms[2].deps == []
    && ms[0].state == Ready && ms[0].image && ms[0].users == 0 && ms[2].users == 0
  }

  lemma TrioFinds(ms: seq<Module>)
    requires Trio(ms)
    ensures Unique(ms) && Find(ms, "a") == 0 && Find(ms, "d") == 1 && Find(ms, "l") == 2 && !Present(ms, "m")
  {
    assert "a"[0] != "d"[0] && "a"[0] != "l"[0] && "d"[0] != "l"[0] && "m"[0] != "a"[0] && "m"[0] != "d"[0]
           && "m"[0] != "l"[0];
    FindsIt(ms, 0);
    FindsIt(ms, 1);
    FindsIt(ms, 2);
  }

  lemma LoadsWithNeed(ms: seq<Module>, inits: Inits)
    requires Trio(ms) && ms[1].state == Registered && ms[2].state == Registered && inits("d") == 0 && inits("l") == 0
    ensures Loadable(ms, inits, "d")
  {
    TrioFinds(ms);
    assert Supports(ms, inits, map["l" := 0, "d" := 1]);
  }

  lemma AfterLoads(before: seq<Module>, ms: seq<Module>, rank: map<Name, nat>, inits: Inits)
    requires Trio(before) && Evolves(before, ms, inits) && Inv(ms, rank) && Present(ms, "d")
             && StateOf(ms, "d") == Ready
    ensures Trio(ms) && Find(ms, "a") == 0 && Present(ms, "a") && !Present(ms, "m") && Droppable(ms[0])
            && !LastIsFree(ms, 0)
  {
    TrioFinds(ms);
    assert "l"[0] != "a"[0];
    NoReferences(ms, "a");
    assert ms[1].state == Ready && "l" in ms[1].deps;
  }
}

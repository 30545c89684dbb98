/** The kernel module itself: the global hello_list and the module parameter
    hello_count as the fields of one object, and free_hello_list,
    hello_init and hello_exit as methods that update them in place. Each
    method is proved against the function of module HelloSpec that says
    what it does to the whole state. */
module Hello {
  import opened HelloSpec

  class HelloModule {
    /** hello_count: set once when the module is loaded (permissions 0444). */
    const helloCount: uint32
    /** hello_list, head first. */
    var list: seq<Item>
    /** Everything printed so far. */
    var log: seq<Notice>
    /** Identity the next successful kmalloc hands out. */
    var nextId: nat
    /** Identities of every record allocated / freed so far, in order. */
    ghost var allocatedIds: seq<nat>
    ghost var freedIds: seq<nat>

    ghost function State(): ModuleState
      reads this
    {
      ModuleState(list, log, nextId, allocatedIds, freedIds)
    }

    ghost predicate Valid()
      reads this
    {
      Consistent(State())
    }

    /** Module load before hello_init runs: the parameter, or its default
        of 1, and an empty hello_list. */
    constructor (param: Option<uint32>)
      ensures helloCount == ParamOrDefault(param)
      ensures State() == Empty()
      ensures Valid()
    {
      helloCount := if param.Some? then param.value else DefaultCount;
      list := [];
      log := [];
      nextId := 0;
      allocatedIds := [];
      freedIds := [];
    }

    /** free_hello_list: walk the list from head to tail; for each record,
        log its timestamp, unlink it and free it. */
    method FreeHelloList()
      requires Valid()
      modifies this
      ensures State() == AfterFree(old(State()))
      ensures Valid()
    {
      ghost var s0 := State();
      while list != []
        invariant AfterFree(State()) == AfterFree(s0)
        decreases |list|
      {
        FreeStep(State());
        var item := list[0];
        log := log + [Freeing(item.time)];
        list := list[1..];
        freedIds := freedIds + [item.id];
      }
      FreePreservesConsistent(s0);
    }

    /** hello_init. kmalloc in loop iteration i returns NULL exactly when
        failAt == Some(i); ktime_get in iteration i returns clock(i). */
    method HelloInit(failAt: Option<nat>, clock: nat -> ktime) returns (ret: int)
      requires Valid()
      modifies this
      ensures Outcome(State(), ret) == AfterInit(old(State()), helloCount, failAt, clock)
      ensures Valid()
    {
      if helloCount == 0 {
        log := log + [NothingToPrint];
        return 0;
      }
      if helloCount > MaxCount {
        log := log + [TooManyItems];
        return -EINVAL;
      }
      if helloCount >= AdviseFrom {
        log := log + [MayNotBeIdeal(helloCount)];
      }
      ret := AllocateItems(failAt, clock);
    }

    /** The allocation loop of hello_init: allocate, stamp, append and
        announce hello_count records; on the first failed allocation drain
        the list and return -ENOMEM, otherwise print the success notice and
        return 0. */
    method AllocateItems(failAt: Option<nat>, clock: nat -> ktime) returns (ret: int)
      requires Valid()
      modifies this
      ensures Outcome(State(), ret) == AfterLoop(old(State()), helloCount, failAt, clock)
      ensures Valid()
    {
      ghost var s0 := State();
      var i: nat := 0;
      while i < helloCount as nat
        invariant i <= Successes(helloCount as nat, failAt)
        invariant State() == AfterPopulate(s0, i, helloCount, clock)
        invariant Valid()
      {
        if !AllocSucceeds(failAt, i) {
          assert i == Successes(helloCount as nat, failAt);
          FreeHelloList();
          return -ENOMEM;
        }
        PopulateStep(s0, i, helloCount, clock);
        AddItem(i, clock);
        i := i + 1;
      }
      assert i == Successes(helloCount as nat, failAt);
      log := log + [LoadedOk(helloCount)];
      return 0;
    }

    /** One successful iteration of hello_init's loop: the new record,
        stamped with ktime_get, goes to the tail of hello_list and its
        progress notice is printed. */
    method AddItem(i: nat, clock: nat -> ktime)
      requires Valid()
      modifies this
      ensures State() == AfterAlloc(old(State()), i, helloCount, clock)
      ensures Valid()
    {
      AllocPreservesConsistent(State(), i, helloCount, clock);
      var item := Item(nextId, clock(i));
      allocatedIds := allocatedIds + [nextId];
      nextId := nextId + 1;
      list := list + [item];
      log := log + [Progress(i + 1, helloCount)];
    }

    /** hello_exit: announce, drain the list, announce completion. */
    method HelloExit()
      requires Valid()
      modifies this
      ensures State() == AfterExit(old(State()))
      ensures Valid()
    {
      log := log + [Unloading];
      FreeHelloList();
      log := log + [UnloadedOk];
    }
  }

  /** The kernel's use of the module: load it with the given parameter, and
      unload it later only if hello_init returned 0 (a module whose init
      fails is never loaded). Returns hello_init's result, everything the
      module printed, what is left on hello_list at the end, and (as ghost
      values) the identities of the records allocated and freed, in order:
      every record allocated is freed exactly once. */
  method LoadThenUnload(param: Option<uint32>, failAt: Option<nat>, clock: nat -> ktime)
    returns (ret: int, log: seq<Notice>, remaining: seq<Item>,
             ghost allocIds: seq<nat>, ghost freed: seq<nat>)
    ensures ret == AfterInit(Empty(), ParamOrDefault(param), failAt, clock).ret
    ensures log == LoadUnload(ParamOrDefault(param), failAt, clock).log
    ensures remaining == []
    ensures allocIds == LoadUnload(ParamOrDefault(param), failAt, clock).allocatedIds
    ensures freed == LoadUnload(ParamOrDefault(param), failAt, clock).freedIds
    ensures freed == allocIds && NoDuplicates(freed)
    ensures |freed| == Appended(ParamOrDefault(param), failAt)
  {
    var m := new HelloModule(param);
    ret := m.HelloInit(failAt, clock);
    if ret == 0 {
      m.HelloExit();
    }
    log, remaining := m.log, m.list;
    allocIds, freed := m.allocatedIds, m.freedIds;
    LifecycleFreesEachOnce(m.helloCount, failAt, clock);
  }
}

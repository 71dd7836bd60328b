/**
 * The named-timer registry of `src/utils/timer.c`, as built with
 * `ERROR_CHECK`: the registry is the counter `timer_count` and the linked
 * list from `list_head`, kept in creation order. `new_timer` looks a name
 * up and registers it when it is new; `timer_start` and `timer_stop` find
 * a timer by id and flip it between stopped and running, failing (the
 * build's assertions) when the registry is empty, the id is unknown, or
 * the timer is already in the state asked for.
 *
 * The clock (`MPI_Wtime`) is a parameter of start and stop.
 */
module Timers {
  import opened Seqs

  /** `t_timer_data`; `start` is `None` where the source stores `-1.0` for a stopped timer. */
  datatype Timer = Timer(id: int, name: string, total: real, start: Option<real>)

  /** `timer_count` and the list from `list_head`, head first. */
  datatype Registry = Registry(count: int, timers: seq<Timer>)

  /** The registry before any timer is created. */
  function Initial(): Registry
  {
    Registry(0, [])
  }

  /**
   * The registry's invariant: the count is the list's length, the `k`-th
   * timer has id `k + 1`, and no name appears twice.
   */
  predicate Valid(reg: Registry)
  {
    && reg.count == |reg.timers|
    && (forall k :: 0 <= k < |reg.timers| ==> reg.timers[k].id == k + 1)
    && (forall j, k :: 0 <= j < k < |reg.timers| ==> reg.timers[j].name != reg.timers[k].name)
  }

  predicate Running(t: Timer)
  {
    t.start.Some?
  }

  // ---------------------------------------------------------------------------
  // Lookup
  // ---------------------------------------------------------------------------

  /** The position of the first timer named `name`. */
  function FindName(timers: seq<Timer>, name: string): (r: Option<nat>)
    ensures r.Some? ==> r.value < |timers| && timers[r.value].name == name
    ensures r.Some? ==> forall k :: 0 <= k < r.value ==> timers[k].name != name
    ensures r.None? ==> forall k :: 0 <= k < |timers| ==> timers[k].name != name
  {
    if |timers| == 0 then None
    else if timers[0].name == name then Some(0)
    else match FindName(timers[1..], name)
      case None => None
      case Some(k) => Some(k + 1)
  }

  /** The position of the first timer with id `id`, as the start and stop loops find it. */
  function FindId(timers: seq<Timer>, id: int): (r: Option<nat>)
    ensures r.Some? ==> r.value < |timers| && timers[r.value].id == id
    ensures r.Some? ==> forall k :: 0 <= k < r.value ==> timers[k].id != id
    ensures r.None? ==> forall k :: 0 <= k < |timers| ==> timers[k].id != id
  {
    if |timers| == 0 then None
    else if timers[0].id == id then Some(0)
    else match FindId(timers[1..], id)
      case None => None
      case Some(k) => Some(k + 1)
  }

  /** In a valid registry the timer with id `id` is the `id - 1`-th one, and only ids `1..count` exist. */
  lemma FindIdValid(reg: Registry, id: int)
    requires Valid(reg)
    ensures FindId(reg.timers, id) == if 1 <= id <= reg.count then Some(id - 1) else None
  {
    var r := FindId(reg.timers, id);
    assert r.Some? ==> reg.timers[r.value].id == r.value + 1;
    if 1 <= id <= reg.count {
      assert reg.timers[id - 1].id == id;
    }
  }

  // ---------------------------------------------------------------------------
  // new_timer
  // ---------------------------------------------------------------------------

  /** A timer as `new_timer_node` creates it: total 0 and not running. */
  function Fresh(id: int, name: string): (t: Timer)
    ensures !Running(t) && t.total == 0.0
  {
    Timer(id, name, 0.0, None)
  }

  /**
   * `new_timer_node` (lines 52-78): the counter goes up by one and a fresh
   * timer with the new count as id is appended at the tail.
   */
  function NewNode(reg: Registry, name: string): (r: (int, Registry))
    requires Valid(reg)
    requires FindName(reg.timers, name).None?
    ensures r.0 == reg.count + 1 && Valid(r.1)
    ensures r.1.timers == reg.timers + [Fresh(r.0, name)]
  {
    var id := reg.count + 1;
    var timers := reg.timers + [Fresh(id, name)];
    assert forall k :: 0 <= k < |reg.timers| ==> timers[k] == reg.timers[k];
    (id, Registry(id, timers))
  }

  /**
   * `new_timer` (lines 80-113): the id of the timer named `name`, creating
   * it when the name is new. A known name leaves the registry unchanged; a
   * new one gets the next id, `count + 1`.
   */
  function NewTimer(reg: Registry, name: string): (r: (int, Registry))
    requires Valid(reg)
    ensures Valid(r.1) && 1 <= r.0 <= r.1.count && r.1.timers[r.0 - 1].name == name
    ensures FindName(reg.timers, name).Some? ==> r.1 == reg
    ensures FindName(reg.timers, name).None? ==>
              r.0 == reg.count + 1 && r.1.timers == reg.timers + [Fresh(r.0, name)]
  {
    match FindName(reg.timers, name)
      case Some(k) => (reg.timers[k].id, reg)
      case None => NewNode(reg, name)
  }

  /**
   * The list walk of `new_timer`: an empty registry (count 0) gets the
   * first node at once; otherwise the loop compares every node that has a
   * successor, then the last node, and appends after it when no name
   * matched.
   */
  method NewTimerWalk(reg: Registry, name: string) returns (id: int, next: Registry)
    requires Valid(reg)
    ensures (id, next) == NewTimer(reg, name)
  {
    if reg.count == 0 {
      id, next := NewNode(reg, name).0, NewNode(reg, name).1;
      return;
    }
    var i := 0;
    while i < |reg.timers| - 1
      invariant 0 <= i <= |reg.timers| - 1
      invariant forall k :: 0 <= k < i ==> reg.timers[k].name != name
    {
      if name == reg.timers[i].name {
        return reg.timers[i].id, reg;
      }
      i := i + 1;
    }
    if name == reg.timers[i].name {
      return reg.timers[i].id, reg;
    }
    id, next := NewNode(reg, name).0, NewNode(reg, name).1;
  }

  /** Asking for a name twice gives the same id, and the second call changes nothing. */
  lemma NewTimerIdempotent(reg: Registry, name: string)
    requires Valid(reg)
    ensures NewTimer(NewTimer(reg, name).1, name) == NewTimer(reg, name)
  {
    var (id, next) := NewTimer(reg, name);
    var k := FindName(next.timers, name);
    assert next.timers[id - 1].name == name;
    assert k.Some? ==> next.timers[k.value].name == next.timers[id - 1].name;
  }

  /** Registers each name in turn and collects the ids handed out. */
  function RegisterAll(reg: Registry, names: seq<string>): (r: (seq<int>, Registry))
    requires Valid(reg)
    ensures Valid(r.1) && |r.0| == |names|
    decreases |names|
  {
    if |names| == 0 then ([], reg)
    else
      var (id, next) := NewTimer(reg, names[0]);
      var (ids, last) := RegisterAll(next, names[1..]);
      ([id] + ids, last)
  }

  /**
   * Registering distinct names that are not yet registered hands out the
   * ids `count + 1, count + 2, ...` in order, one per name.
   */
  lemma {:induction false} RegisterDistinct(reg: Registry, names: seq<string>)
    requires Valid(reg)
    requires forall j, k :: 0 <= j < k < |names| ==> names[j] != names[k]
    requires forall j, k :: 0 <= j < |names| && 0 <= k < |reg.timers| ==> names[j] != reg.timers[k].name
    ensures forall j :: 0 <= j < |names| ==> RegisterAll(reg, names).0[j] == reg.count + j + 1
    ensures RegisterAll(reg, names).1.count == reg.count + |names|
    decreases |names|
  {
    if |names| > 0 {
      var (id, next) := NewTimer(reg, names[0]);
      assert FindName(reg.timers, names[0]).None?;
      assert id == reg.count + 1 && next.timers == reg.timers + [Fresh(id, names[0])];
      var rest := names[1..];
      forall j, k | 0 <= j < |rest| && 0 <= k < |next.timers|
        ensures rest[j] != next.timers[k].name
      {
        assert rest[j] == names[j + 1];
        if k < |reg.timers| {
          assert next.timers[k] == reg.timers[k];
        }
      }
      RegisterDistinct(next, rest);
      var ids := RegisterAll(next, rest).0;
      forall j | 0 <= j < |names|
        ensures RegisterAll(reg, names).0[j] == reg.count + j + 1
      {
        if j > 0 {
          assert RegisterAll(reg, names).0[j] == ids[j - 1];
        }
      }
    }
  }

  /**
   * From the empty registry, distinct names get the ids `1, 2, ...` in
   * order: the first timer ever created has id 1, and ids run `1..count`.
   */
  lemma InitialIds(names: seq<string>)
    requires forall j, k :: 0 <= j < k < |names| ==> names[j] != names[k]
    ensures forall j :: 0 <= j < |names| ==> RegisterAll(Initial(), names).0[j] == j + 1
    ensures RegisterAll(Initial(), names).1.count == |names|
  {
    RegisterDistinct(Initial(), names);
  }

  // ---------------------------------------------------------------------------
  // timer_start and timer_stop
  // ---------------------------------------------------------------------------

  /**
   * `timer_start` (lines 115-137): fails on an empty registry, an unknown
   * id or a running timer; otherwise records `now` as the timer's start.
   */
  function Start(reg: Registry, id: int, now: real): (r: Result<Registry>)
    ensures Valid(reg) ==> (r.Success? <==> 1 <= id <= reg.count && !Running(reg.timers[id - 1]))
    ensures Valid(reg) && r.Success? ==>
              Valid(r.value) && r.value.count == reg.count
              && r.value.timers == reg.timers[id - 1 := reg.timers[id - 1].(start := Some(now))]
  {
    if |reg.timers| == 0 then Failure("no timer exists")
    else match FindId(reg.timers, id)
      case None => Failure("no timer has this id")
      case Some(k) =>
        if Running(reg.timers[k]) then Failure("the timer is already running")
        else
          var timers := reg.timers[k := reg.timers[k].(start := Some(now))];
          FindIdValidIfValid(reg, id);
          Success(Registry(reg.count, timers))
  }

  /**
   * `timer_stop` (lines 139-161): fails on an empty registry, an unknown
   * id or a stopped timer; otherwise adds the time since the start to the
   * total and marks the timer stopped.
   */
  function Stop(reg: Registry, id: int, now: real): (r: Result<Registry>)
    ensures Valid(reg) ==> (r.Success? <==> 1 <= id <= reg.count && Running(reg.timers[id - 1]))
    ensures Valid(reg) && r.Success? ==>
              var t := reg.timers[id - 1];
              Valid(r.value) && r.value.count == reg.count
              && r.value.timers == reg.timers[id - 1 := t.(total := t.total + (now - t.start.value), start := None)]
  {
    if |reg.timers| == 0 then Failure("no timer exists")
    else match FindId(reg.timers, id)
      case None => Failure("no timer has this id")
      case Some(k) =>
        var t := reg.timers[k];
        if !Running(t) then Failure("the timer is not running")
        else
          var timers := reg.timers[k := t.(total := t.total + (now - t.start.value), start := None)];
          FindIdValidIfValid(reg, id);
          Success(Registry(reg.count, timers))
  }

  /** `FindIdValid` for callers that only know the registry might be valid. */
  lemma FindIdValidIfValid(reg: Registry, id: int)
    ensures Valid(reg) ==> FindId(reg.timers, id) == if 1 <= id <= reg.count then Some(id - 1) else None
  {
    if Valid(reg) {
      FindIdValid(reg, id);
    }
  }

  /**
   * A start at `t0` followed by a stop at `t1` adds `t1 - t0` to that
   * timer's total and leaves it stopped; every other timer is unchanged.
   */
  lemma StartThenStop(reg: Registry, id: int, t0: real, t1: real)
    requires Valid(reg) && 1 <= id <= reg.count && !Running(reg.timers[id - 1])
    ensures Start(reg, id, t0).Success?
    ensures Stop(Start(reg, id, t0).value, id, t1).Success?
    ensures var after := Stop(Start(reg, id, t0).value, id, t1).value;
            var t := reg.timers[id - 1];
            after.count == reg.count
            && after.timers == reg.timers[id - 1 := t.(total := t.total + (t1 - t0))]
  {
    var started := Start(reg, id, t0).value;
    assert started.timers[id - 1].start == Some(t0);
  }

  /** A timer cannot be started twice, nor stopped without being started. */
  lemma StateErrors(reg: Registry, id: int, t0: real, t1: real)
    requires Valid(reg) && 1 <= id <= reg.count && !Running(reg.timers[id - 1])
    ensures Stop(reg, id, t1).Failure?
    ensures Start(Start(reg, id, t0).value, id, t1).Failure?
  {
  }
}

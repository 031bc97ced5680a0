/**
 Reconciling the running stream listeners with the desired ones: compute what to stop and what to
 start, apply it although starts may fail, and try again.  Iteration over the ordered maps is in
 any order.
 */
module ListenerReconcile {
  import opened Wrappers

  datatype StreamProtocol = Tcp | Udp
  datatype Planned = Planned(name: string, bind: string, protocol: StreamProtocol)
  type Listeners = map<string, Planned>
  datatype UpdatePlan = UpdatePlan(start: seq<Planned>, stop: seq<string>)

  // ------------------------------------------------------------------------------------------
  // What an update plan has to contain
  // ------------------------------------------------------------------------------------------

  /** Desired listeners by name; of two with the same name the later wins. */
  ghost function ByName(listeners: seq<Planned>): Listeners {
    if listeners == [] then map[]
    else ByName(listeners[..|listeners| - 1])[listeners[|listeners| - 1].name := listeners[|listeners| - 1]]
  }

  ghost function Desired(plan: Option<seq<Planned>>): Listeners {
    if plan.Some? then ByName(plan.value) else map[]
  }

  predicate Same(a: Planned, b: Planned) { a.bind == b.bind && a.protocol == b.protocol }

  /** A running listener is stopped unless it is alive, still desired unchanged and not forced. */
  ghost predicate MustStop(active: Listeners, desired: Listeners, finished: set<string>, force: bool, n: string) {
    n in active && (force || n in finished || n !in desired || !Same(active[n], desired[n]))
  }

  ghost function Stops(active: Listeners, desired: Listeners, finished: set<string>, force: bool): set<string> {
    set n | n in active && MustStop(active, desired, finished, force, n)
  }

  ghost function Starts(active: Listeners, desired: Listeners, finished: set<string>, force: bool): Listeners {
    map n | n in desired && (n !in active || MustStop(active, desired, finished, force, n)) :: desired[n]
  }

  ghost predicate Named(m: Listeners) { forall n :: n in m ==> m[n].name == n }

  ghost function Elements(s: seq<string>): set<string> {
    if s == [] then {} else Elements(s[..|s| - 1]) + {s[|s| - 1]}
  }

  /** No element comes twice. */
  ghost predicate NoRepeat(s: seq<string>) {
    s == [] || (s[|s| - 1] !in Elements(s[..|s| - 1]) && NoRepeat(s[..|s| - 1]))
  }

  /** No name comes twice. */
  ghost predicate NoRepeatedName(s: seq<Planned>) {
    s == [] || (s[|s| - 1].name !in ByName(s[..|s| - 1]) && NoRepeatedName(s[..|s| - 1]))
  }

  /** The list contains each of these names once. */
  ghost predicate Once(s: seq<string>, names: set<string>) { Elements(s) == names && NoRepeat(s) }

  /** The list contains each of these listeners once. */
  ghost predicate Lists(s: seq<Planned>, m: Listeners) { ByName(s) == m && NoRepeatedName(s) }

  /** Each name is stopped and started at most once, and only as it must be. */
  ghost predicate Implements(u: UpdatePlan, active: Listeners, desired: Listeners, finished: set<string>, force: bool) {
    Once(u.stop, Stops(active, desired, finished, force)) && Lists(u.start, Starts(active, desired, finished, force))
  }

  lemma {:induction false} OncePush(s: seq<string>, names: set<string>, n: string)
    requires Once(s, names) && n !in names
    ensures Once(s + [n], names + {n})
  {
    assert (s + [n])[..|s|] == s;
  }

  lemma {:induction false} ListsPush(s: seq<Planned>, m: Listeners, p: Planned)
    requires Lists(s, m) && p.name !in m
    ensures Lists(s + [p], m[p.name := p])
  {
    assert (s + [p])[..|s|] == s;
  }

  lemma {:induction false} ByNameNamed(listeners: seq<Planned>)
    ensures Named(ByName(listeners))
  {
    if listeners != [] {
      ByNameNamed(listeners[..|listeners| - 1]);
    }
  }

  // ------------------------------------------------------------------------------------------
  // Computing it
  // ------------------------------------------------------------------------------------------

  method CollectByName(plan: Option<seq<Planned>>) returns (m: Listeners)
    ensures m == Desired(plan)
  {
    m := map[];
    if plan.Some? {
      for i := 0 to |plan.value|
        invariant m == ByName(plan.value[..i])
      {
        assert plan.value[..i + 1][..i] == plan.value[..i];
        m := m[plan.value[i].name := plan.value[i]];
      }
      assert plan.value[..|plan.value|] == plan.value;
    }
  }

  /** What the loop has decided to restart among the running listeners already seen. */
  ghost function Restarts(seen: set<string>, active: Listeners, desired: Listeners, finished: set<string>,
                          force: bool): Listeners
  {
    map n | n in desired && n in seen && MustStop(active, desired, finished, force, n) :: desired[n]
  }

  ghost function Stopped(seen: set<string>, active: Listeners, desired: Listeners, finished: set<string>,
                         force: bool): set<string>
  {
    set n | n in seen && MustStop(active, desired, finished, force, n)
  }

  /** One running listener: whether to stop it, and what to start instead. */
  method Decide(listener: Planned, next: Option<Planned>, finished: bool, force: bool) returns (stop: bool)
    ensures stop <==> force || finished || next.None? || !Same(listener, next.value)
  {
    if force && !finished {
      stop := true;
    } else if next.Some? {
      stop := finished || listener.bind != next.value.bind || listener.protocol != next.value.protocol;
    } else {
      stop := true;
    }
  }

  /** Everything is decided for the running listeners not in `todo`. */
  ghost predicate Decided(left: Listeners, start: seq<Planned>, stop: seq<string>, todo: set<string>,
                          active: Listeners, desired: Listeners, finished: set<string>, force: bool)
  {
    && todo <= active.Keys
    && left == desired - (active.Keys - todo)
    && Once(stop, Stopped(active.Keys - todo, active, desired, finished, force))
    && Lists(start, Restarts(active.Keys - todo, active, desired, finished, force))
  }

  lemma {:induction false} DecideOne(left: Listeners, start: seq<Planned>, stop: seq<string>, todo: set<string>,
                                     active: Listeners, desired: Listeners, finished: set<string>, force: bool,
                                     n: string)
    requires Decided(left, start, stop, todo, active, desired, finished, force) && Named(desired) && n in todo
    ensures n in left <==> n in desired
    ensures n in left ==> left[n] == desired[n]
    ensures
      var stop' := if MustStop(active, desired, finished, force, n) then stop + [n] else stop;
      var start' := if MustStop(active, desired, finished, force, n) && n in desired
                    then start + [desired[n]] else start;
      Decided(left - {n}, start', stop', todo - {n}, active, desired, finished, force)
  {
    var seen := active.Keys - todo;
    assert active.Keys - (todo - {n}) == seen + {n};
    assert left - {n} == desired - (seen + {n});
    SeenOneMore(seen, n, active, desired, finished, force);
    if MustStop(active, desired, finished, force, n) {
      OncePush(stop, Stopped(seen, active, desired, finished, force), n);
      if n in desired {
        ListsPush(start, Restarts(seen, active, desired, finished, force), desired[n]);
      }
    }
  }

  lemma {:induction false} AllDecided(left: Listeners, active: Listeners, desired: Listeners, finished: set<string>,
                                      force: bool)
    requires left == desired - active.Keys
    ensures Stopped(active.Keys, active, desired, finished, force) == Stops(active, desired, finished, force)
    ensures Restarts(active.Keys, active, desired, finished, force) + left == Starts(active, desired, finished, force)
  {
  }

  method DecideNext(left: Listeners, start: seq<Planned>, stop: seq<string>, ghost todo: set<string>,
                    active: Listeners, ghost desired: Listeners, finished: set<string>, force: bool, n: string)
    returns (start': seq<Planned>, stop': seq<string>)
    requires Decided(left, start, stop, todo, active, desired, finished, force) && Named(desired) && n in todo
    ensures Decided(left - {n}, start', stop', todo - {n}, active, desired, finished, force)
  {
    DecideOne(left, start, stop, todo, active, desired, finished, force, n);
    start', stop' := start, stop;
    var next := if n in left then Some(left[n]) else None;
    var stops := Decide(active[n], next, n in finished, force);
    if stops {
      stop' := stop + [n];
      if next.Some? {
        start' := start + [next.value];
      }
    }
  }

  method ListenerUpdates(active: Listeners, plan: Option<seq<Planned>>, finished: set<string>, force: bool)
    returns (u: UpdatePlan)
    ensures Implements(u, active, Desired(plan), finished, force)
  {
    ghost var desired := Desired(plan);
    DesiredNamed(plan);
    var left := CollectByName(plan);
    var start: seq<Planned>, stop: seq<string> := [], [];
    var todo := active.Keys;
    assert active.Keys - todo == {};
    while todo != {}
      invariant Decided(left, start, stop, todo, active, desired, finished, force)
      decreases todo
    {
      var n :| n in todo;
      start, stop := DecideNext(left, start, stop, todo, active, desired, finished, force, n);
      left := left - {n};
      todo := todo - {n};
    }
    assert active.Keys - todo == active.Keys;
    AllDecided(left, active, desired, finished, force);
    var rest := AppendValues(start, Restarts(active.Keys, active, desired, finished, force), left);
    u := UpdatePlan(rest, stop);
  }

  lemma {:induction false} DesiredNamed(plan: Option<seq<Planned>>)
    ensures Named(Desired(plan))
  {
    if plan.Some? {
      ByNameNamed(plan.value);
    }
  }

  lemma {:induction false} SeenOneMore(seen: set<string>, n: string, active: Listeners, desired: Listeners,
                                       finished: set<string>, force: bool)
    requires n !in seen
    ensures Stopped(seen + {n}, active, desired, finished, force)
         == Stopped(seen, active, desired, finished, force)
            + (if MustStop(active, desired, finished, force, n) then {n} else {})
    ensures Restarts(seen + {n}, active, desired, finished, force)
         == if n in desired && MustStop(active, desired, finished, force, n)
            then Restarts(seen, active, desired, finished, force)[n := desired[n]]
            else Restarts(seen, active, desired, finished, force)
  {
  }

  lemma {:induction false} AppendOne(all: seq<Planned>, listed: Listeners, m: Listeners, todo: set<string>, n: string)
    requires Named(m) && listed.Keys !! m.Keys && n in todo && todo <= m.Keys
    requires Lists(all, listed + (m - todo))
    ensures Lists(all + [m[n]], listed + (m - (todo - {n})))
  {
    ListsPush(all, listed + (m - todo), m[n]);
    assert (listed + (m - todo))[n := m[n]] == listed + (m - (todo - {n}));
  }

  /** Appends the values of a map to a list of other names. */
  method AppendValues(start: seq<Planned>, ghost listed: Listeners, m: Listeners) returns (all: seq<Planned>)
    requires Named(m) && Lists(start, listed) && listed.Keys !! m.Keys
    ensures Lists(all, listed + m)
  {
    all := start;
    var todo := m.Keys;
    assert listed + (m - m.Keys) == listed;
    while todo != {}
      invariant todo <= m.Keys
      invariant Lists(all, listed + (m - todo))
      decreases todo
    {
      var n :| n in todo;
      AppendOne(all, listed, m, todo, n);
      all := all + [m[n]];
      todo := todo - {n};
    }
    assert m - todo == m;
  }

  // ------------------------------------------------------------------------------------------
  // Applying it
  // ------------------------------------------------------------------------------------------

  /** A running task; `generation` tells a restarted task from the one it replaced. */
  datatype Task = Task(listener: Planned, generation: nat, done: bool)
  type Tasks = map<string, Task>

  datatype ReplaceResult = ReplaceResult(firstFailed: Option<string>, failures: seq<string>, started: seq<string>,
                                         retained: set<string>)

  ghost function ActiveOf(tasks: Tasks): Listeners { map n | n in tasks :: tasks[n].listener }
  ghost function DoneOf(tasks: Tasks): set<string> { set n | n in tasks && tasks[n].done }

  /** Desired listeners minus the starts that fail. */
  ghost function Reached(active: Listeners, desired: Listeners, finished: set<string>, force: bool,
                         failing: set<string>): Listeners
  {
    map n | n in desired && !(n in Starts(active, desired, finished, force) && n in failing) :: desired[n]
  }

  /** The tasks after starting the listeners of `m`, except those that fail. */
  ghost predicate StartedFrom(before: Tasks, m: Listeners, failing: set<string>, spawned: nat, after: Tasks) {
    && after.Keys == before.Keys + (m.Keys - failing)
    && (forall n :: n in before && (n !in m || n in failing) ==> after[n] == before[n])
    && (forall n :: n in after && n in m && n !in failing ==>
          after[n].listener == m[n] && after[n].generation >= spawned && !after[n].done)
  }

  class ListenerSet {
    var tasks: Tasks
    var spawned: nat

    ghost predicate Valid()
      reads this
    {
      forall n :: n in tasks ==> tasks[n].listener.name == n && tasks[n].generation < spawned
    }

    constructor ()
      ensures Valid() && tasks == map[]
    {
      tasks, spawned := map[], 0;
    }

    method ActivePlan() returns (active: Listeners, finished: set<string>)
      ensures active == ActiveOf(tasks) && finished == DoneOf(tasks)
    {
      active := map n | n in tasks :: tasks[n].listener;
      finished := set n | n in tasks && tasks[n].done;
    }

    method NeedsReload(plan: Option<seq<Planned>>, force: bool) returns (needed: bool)
      ensures needed <==> Stops(ActiveOf(tasks), Desired(plan), DoneOf(tasks), force) != {}
                          || Starts(ActiveOf(tasks), Desired(plan), DoneOf(tasks), force) != map[]
    {
      var active, finished := ActivePlan();
      var u := ListenerUpdates(active, plan, finished, force);
      needed := u.start != [] || u.stop != [];
      EmptyLists(u);
    }

    /** Stops the listed tasks. */
    method StopAll(names: seq<string>)
      modifies this`tasks
      ensures tasks == old(tasks) - Elements(names)
    {
      for i := 0 to |names|
        invariant tasks == old(tasks) - Elements(names[..i])
      {
        tasks := tasks - {names[i]};
        assert names[..i + 1][..i] == names[..i];
      }
      assert names[..|names|] == names;
    }

    /** Starts one listener more, after those of `m`. */
    method StartNext(p: Planned, failing: set<string>, started: seq<string>, failures: seq<string>,
                     ghost before: Tasks, ghost m: Listeners, ghost base: nat)
      returns (started': seq<string>, failures': seq<string>)
      requires Valid() && spawned >= base && p.name !in m
      requires StartedFrom(before, m, failing, base, tasks)
      requires Once(started, m.Keys - failing) && Once(failures, m.Keys * failing)
      modifies this
      ensures Valid() && spawned >= base
      ensures StartedFrom(before, m[p.name := p], failing, base, tasks)
      ensures Once(started', m[p.name := p].Keys - failing) && Once(failures', m[p.name := p].Keys * failing)
    {
      started', failures' := started, failures;
      ReportOne(started, failures, m, failing, p);
      StartOne(before, m, failing, base, tasks, p, Task(p, spawned, false));
      if p.name in failing {
        failures' := failures + [p.name];
      } else {
        started' := started + [p.name];
        tasks := tasks[p.name := Task(p, spawned, false)];
        spawned := spawned + 1;
      }
    }

    /** Starts the listed listeners; those in `failing` cannot be started. */
    method StartAll(start: seq<Planned>, failing: set<string>) returns (started: seq<string>, failures: seq<string>)
      requires Valid() && NoRepeatedName(start)
      modifies this
      ensures Valid() && spawned >= old(spawned)
      ensures StartedFrom(old(tasks), ByName(start), failing, old(spawned), tasks)
      ensures Once(started, ByName(start).Keys - failing)
      ensures Once(failures, ByName(start).Keys * failing)
    {
      started, failures := [], [];
      for i := 0 to |start|
        invariant Valid() && spawned >= old(spawned)
        invariant StartedFrom(old(tasks), ByName(start[..i]), failing, old(spawned), tasks)
        invariant Once(started, ByName(start[..i]).Keys - failing)
        invariant Once(failures, ByName(start[..i]).Keys * failing)
      {
        FreshName(start, i);
        assert start[..i + 1][..i] == start[..i];
        started, failures :=
          StartNext(start[i], failing, started, failures, old(tasks), ByName(start[..i]), old(spawned));
      }
      assert start[..|start|] == start;
    }

    /** Whatever fails to start, the running listeners afterwards are exactly the desired ones minus
        the failed starts, and a live unchanged listener is the same task as before unless forced. */
    method Replace(plan: Option<seq<Planned>>, failing: set<string>, force: bool) returns (r: ReplaceResult)
      requires Valid()
      modifies this
      ensures Valid()
      ensures Replaced(old(tasks), old(spawned), Desired(plan), failing, force, tasks, r)
    {
      var active, finished := ActivePlan();
      var u := ListenerUpdates(active, plan, finished, force);
      ghost var desired := Desired(plan);
      DesiredNamed(plan);
      EmptyLists(u);
      if u.start == [] && u.stop == [] {
        NothingToDo(tasks, spawned, desired, failing, force);
        return ReplaceResult(None, [], [], {});
      }
      r := ApplyPlan(u, failing);
      ReplacedWhole(old(tasks), old(spawned), desired, failing, force, tasks, r);
    }

    /** Stops, then starts, then reports. */
    method ApplyPlan(u: UpdatePlan, failing: set<string>) returns (r: ReplaceResult)
      requires Valid() && NoRepeatedName(u.start)
      modifies this
      ensures Valid()
      ensures StartedFrom(old(tasks) - Elements(u.stop), ByName(u.start), failing, old(spawned), tasks)
      ensures Once(r.started, ByName(u.start).Keys - failing) && Once(r.failures, ByName(u.start).Keys * failing)
      ensures r.firstFailed == if r.failures == [] then None else Some(r.failures[0])
      ensures r.retained == tasks.Keys - Elements(r.started)
    {
      StopAll(u.stop);
      var started, failures := StartAll(u.start, failing);
      ElementsIn(started);
      r := ReplaceResult(if failures == [] then None else Some(failures[0]), failures, started,
                         set n | n in tasks && n !in started);
    }
  }

  lemma {:induction false} StartOne(before: Tasks, m: Listeners, failing: set<string>, spawned: nat, after: Tasks,
                                    p: Planned, task: Task)
    requires StartedFrom(before, m, failing, spawned, after)
    requires task.listener == p && task.generation >= spawned && !task.done
    ensures StartedFrom(before, m[p.name := p], failing, spawned,
                        if p.name in failing then after else after[p.name := task])
  {
    var m' := m[p.name := p];
    assert m'.Keys == m.Keys + {p.name};
  }

  lemma {:induction false} ReportOne(started: seq<string>, failures: seq<string>, m: Listeners, failing: set<string>,
                                     p: Planned)
    requires Once(started, m.Keys - failing) && Once(failures, m.Keys * failing) && p.name !in m
    ensures Once(if p.name in failing then started else started + [p.name], m[p.name := p].Keys - failing)
    ensures Once(if p.name in failing then failures + [p.name] else failures, m[p.name := p].Keys * failing)
  {
    var keys := m[p.name := p].Keys;
    assert keys == m.Keys + {p.name};
    if p.name in failing {
      OncePush(failures, m.Keys * failing, p.name);
      assert keys * failing == m.Keys * failing + {p.name} && keys - failing == m.Keys - failing;
    } else {
      OncePush(started, m.Keys - failing, p.name);
      assert keys - failing == m.Keys - failing + {p.name} && keys * failing == m.Keys * failing;
    }
  }

  /** The effect and the report of one replacement. */
  ghost predicate Replaced(before: Tasks, spawned: nat, desired: Listeners, failing: set<string>, force: bool,
                           after: Tasks, r: ReplaceResult)
  {
    var active, finished := ActiveOf(before), DoneOf(before);
    var starts, stops := Starts(active, desired, finished, force), Stops(active, desired, finished, force);
    && ActiveOf(after) == Reached(active, desired, finished, force, failing)
    && (forall n :: n in before && n !in stops ==> n in after && after[n] == before[n])
    && (forall n :: n in after && n in starts ==> after[n].generation >= spawned && !after[n].done)
    && Once(r.started, starts.Keys - failing)
    && Once(r.failures, starts.Keys * failing)
    && (r.firstFailed == if r.failures == [] then None else Some(r.failures[0]))
    // Started and retained make up the active listeners, except that nothing is reported when
    // there was nothing to do.
    && r.retained == (if starts == map[] && stops == {} then {} else after.Keys - (starts.Keys - failing))
  }

  lemma {:induction false} ElementsIn(s: seq<string>)
    ensures forall n :: n in s <==> n in Elements(s)
  {
    if s != [] {
      ElementsIn(s[..|s| - 1]);
      assert s == s[..|s| - 1] + [s[|s| - 1]];
    }
  }

  /** In a list without repeated names every name is new when it is reached. */
  lemma {:induction false} FreshName(start: seq<Planned>, i: nat)
    requires i < |start| && NoRepeatedName(start)
    ensures start[i].name !in ByName(start[..i])
  {
    var n := |start| - 1;
    if i < n {
      assert start[..n][..i] == start[..i];
      FreshName(start[..n], i);
    }
  }

  ghost predicate TasksNamed(tasks: Tasks) { forall n :: n in tasks ==> tasks[n].listener.name == n }

  lemma {:induction false} NothingToDo(tasks: Tasks, spawned: nat, desired: Listeners, failing: set<string>,
                                       force: bool)
    requires TasksNamed(tasks) && Named(desired)
    requires Stops(ActiveOf(tasks), desired, DoneOf(tasks), force) == {}
    requires Starts(ActiveOf(tasks), desired, DoneOf(tasks), force) == map[]
    ensures Replaced(tasks, spawned, desired, failing, force, tasks, ReplaceResult(None, [], [], {}))
  {
    var active, finished := ActiveOf(tasks), DoneOf(tasks);
    forall n | n in active ensures n in desired && active[n] == desired[n] {
      assert n !in Stops(active, desired, finished, force);
    }
    forall n | n in desired ensures n in active {
      assert n !in Starts(active, desired, finished, force);
    }
    assert active == desired == Reached(active, desired, finished, force, failing);
  }

  lemma {:induction false} ReachedAfter(before: Tasks, spawned: nat, desired: Listeners, failing: set<string>,
                                        force: bool, kept: Tasks, after: Tasks)
    requires TasksNamed(before) && Named(desired)
    requires kept == before - Stops(ActiveOf(before), desired, DoneOf(before), force)
    requires StartedFrom(kept, Starts(ActiveOf(before), desired, DoneOf(before), force), failing, spawned, after)
    ensures ActiveOf(after) == Reached(ActiveOf(before), desired, DoneOf(before), force, failing)
    ensures forall n :: n in kept ==> n in after && after[n] == before[n]
    ensures forall n :: n in after && n in Starts(ActiveOf(before), desired, DoneOf(before), force) ==>
              after[n].generation >= spawned && !after[n].done
  {
    var active, finished := ActiveOf(before), DoneOf(before);
    var starts, stops := Starts(active, desired, finished, force), Stops(active, desired, finished, force);
    forall n | n in kept ensures n in desired && n !in starts && before[n].listener == desired[n] {
      assert n in active && n !in stops;
    }
    forall n | n in desired && n !in starts ensures n in kept {
      assert n in active && n !in stops;
    }
  }

  lemma {:induction false} EmptyLists(u: UpdatePlan)
    ensures u.start == [] <==> ByName(u.start) == map[]
    ensures u.stop == [] <==> Elements(u.stop) == {}
  {
    if u.start != [] {
      assert u.start[|u.start| - 1].name in ByName(u.start);
    }
  }

  lemma {:induction false} ReplacedWhole(before: Tasks, spawned: nat, desired: Listeners, failing: set<string>,
                                         force: bool, after: Tasks, r: ReplaceResult)
    requires TasksNamed(before) && Named(desired)
    requires
      var starts := Starts(ActiveOf(before), desired, DoneOf(before), force);
      var stops := Stops(ActiveOf(before), desired, DoneOf(before), force);
      && !(starts == map[] && stops == {})
      && StartedFrom(before - stops, starts, failing, spawned, after)
      && Once(r.started, starts.Keys - failing)
      && Once(r.failures, starts.Keys * failing)
    requires r.firstFailed == if r.failures == [] then None else Some(r.failures[0])
    requires r.retained == after.Keys - Elements(r.started)
    ensures Replaced(before, spawned, desired, failing, force, after, r)
  {
    var stops := Stops(ActiveOf(before), desired, DoneOf(before), force);
    ReachedAfter(before, spawned, desired, failing, force, before - stops, after);
  }

  /** The report covers the active listeners exactly when there was something to do (or nothing
      runs): an empty plan is reported as if no listener were retained. */
  lemma {:induction false} ReportCoversActiveIff(before: Tasks, spawned: nat, desired: Listeners,
                                                 failing: set<string>, force: bool, after: Tasks, r: ReplaceResult)
    requires Replaced(before, spawned, desired, failing, force, after, r)
    ensures Elements(r.started) + r.retained == after.Keys <==>
            (Starts(ActiveOf(before), desired, DoneOf(before), force) != map[]
             || Stops(ActiveOf(before), desired, DoneOf(before), force) != {} || after == map[])
  {
    var starts := Starts(ActiveOf(before), desired, DoneOf(before), force);
    forall n | n in starts.Keys - failing ensures n in after {
      assert n in Reached(ActiveOf(before), desired, DoneOf(before), force, failing);
      assert n in ActiveOf(after);
    }
    assert after.Keys == {} <==> after == map[];
  }

  /** So it does whenever a reload was needed, and only then is a replacement asked for. */
  lemma {:induction false} NeededReloadIsCovered(before: Tasks, spawned: nat, desired: Listeners, failing: set<string>,
                                                 force: bool, after: Tasks, r: ReplaceResult)
    requires Replaced(before, spawned, desired, failing, force, after, r)
    requires Stops(ActiveOf(before), desired, DoneOf(before), force) != {}
             || Starts(ActiveOf(before), desired, DoneOf(before), force) != map[]
    ensures Elements(r.started) + r.retained == after.Keys
  {
    ReportCoversActiveIff(before, spawned, desired, failing, force, after, r);
  }

  /** One listener that runs unchanged: replacing leaves it running and reports nothing. */
  lemma {:induction false} UnchangedIsNotReported(listener: Planned, spawned: nat, after: Tasks, r: ReplaceResult)
    requires Replaced(map[listener.name := Task(listener, 0, false)], spawned, map[listener.name := listener], {},
                      false, after, r)
    ensures after.Keys == {listener.name} && Elements(r.started) + r.retained == {}
  {
    var before, desired := map[listener.name := Task(listener, 0, false)], map[listener.name := listener];
    var active, finished := ActiveOf(before), DoneOf(before);
    assert active == desired && finished == {};
    assert Stops(active, desired, finished, false) == {} && Starts(active, desired, finished, false) == map[];
    assert Reached(active, desired, finished, false, {}) == desired;
    assert after.Keys == ActiveOf(after).Keys;
  }

  // ------------------------------------------------------------------------------------------
  // Converging
  // ------------------------------------------------------------------------------------------

  /** The next unforced plan stops exactly the listeners whose task has finished since, and starts
      those and exactly what failed. */
  lemma {:induction false} NextPlanRetriesFailures(active: Listeners, desired: Listeners, finished: set<string>,
                                                   force: bool, failing: set<string>, since: set<string>)
    ensures
      var reached := Reached(active, desired, finished, force, failing);
      var failed := Starts(active, desired, finished, force).Keys * failing;
      && Stops(reached, desired, since, false) == reached.Keys * since
      && Starts(reached, desired, since, false).Keys == failed + reached.Keys * since
  {
  }

  /** One replacement: the tasks found finished, whether it is forced, and the starts that fail. */
  datatype Round = Round(finished: set<string>, force: bool, failing: set<string>)

  ghost function Rounds(active: Listeners, desired: Listeners, rounds: seq<Round>)
    : Listeners
  {
    if rounds == [] then active
    else
      var last := rounds[|rounds| - 1];
      Reached(Rounds(active, desired, rounds[..|rounds| - 1]), desired, last.finished, last.force, last.failing)
  }

  /** Round `j` finds a reason to start the listener: for the first round the plan against what ran
      before; later a finished task or force. */
  ghost predicate HasToStart(active: Listeners, desired: Listeners, rounds: seq<Round>, j: nat, n: string)
    requires j < |rounds|
  {
    if j == 0 then n in Starts(active, desired, rounds[0].finished, rounds[0].force)
    else rounds[j].force || n in rounds[j].finished
  }

  ghost predicate FailsFrom(rounds: seq<Round>, j: nat, n: string) {
    forall i :: j <= i < |rounds| ==> n in rounds[i].failing
  }

  /** The listener had to be started at some round, and has failed in that round and every one since. */
  ghost predicate LeftOut(active: Listeners, desired: Listeners, rounds: seq<Round>, n: string) {
    exists j :: 0 <= j < |rounds| && HasToStart(active, desired, rounds, j, n) && FailsFrom(rounds, j, n)
  }

  lemma {:induction false} LeftOutStep(active: Listeners, desired: Listeners, rounds: seq<Round>, n: string)
    requires |rounds| > 1
    ensures
      var k := |rounds| - 1;
      LeftOut(active, desired, rounds, n) <==>
        n in rounds[k].failing
        && (LeftOut(active, desired, rounds[..k], n) || rounds[k].force || n in rounds[k].finished)
  {
    var k := |rounds| - 1;
    var before := rounds[..k];
    assert forall i :: 0 <= i < k ==> before[i] == rounds[i];
    if LeftOut(active, desired, rounds, n) {
      var j :| 0 <= j < |rounds| && HasToStart(active, desired, rounds, j, n) && FailsFrom(rounds, j, n);
      assert n in rounds[k].failing;
      if j < k {
        assert HasToStart(active, desired, before, j, n) && FailsFrom(before, j, n);
      }
    }
    if n in rounds[k].failing {
      if rounds[k].force || n in rounds[k].finished {
        assert HasToStart(active, desired, rounds, k, n) && FailsFrom(rounds, k, n);
      } else if LeftOut(active, desired, before, n) {
        var j :| 0 <= j < |before| && HasToStart(active, desired, before, j, n) && FailsFrom(before, j, n);
        assert HasToStart(active, desired, rounds, j, n) && FailsFrom(rounds, j, n);
      }
    }
  }

  lemma {:induction false} FirstRound(active: Listeners, desired: Listeners, rounds: seq<Round>, n: string)
    requires |rounds| == 1
    ensures LeftOut(active, desired, rounds, n) <==>
            n in Starts(active, desired, rounds[0].finished, rounds[0].force) && n in rounds[0].failing
  {
    if n in Starts(active, desired, rounds[0].finished, rounds[0].force) && n in rounds[0].failing {
      assert HasToStart(active, desired, rounds, 0, n) && FailsFrom(rounds, 0, n);
    }
  }

  /** One round more, for one listener. */
  lemma {:induction false} NextRound(before: Listeners, desired: Listeners, round: Round, n: string)
    requires forall m :: m in before ==> m in desired && before[m] == desired[m]
    ensures
      var after := Reached(before, desired, round.finished, round.force, round.failing);
      n in after <==> n in desired && !(n in round.failing && (n !in before || round.force || n in round.finished))
  {
  }

  lemma {:induction false} RunsAfterRounds(active: Listeners, desired: Listeners, rounds: seq<Round>, n: string)
    requires rounds != []
    ensures n in Rounds(active, desired, rounds) <==> n in desired && !LeftOut(active, desired, rounds, n)
  {
    var k := |rounds| - 1;
    if k == 0 {
      FirstRound(active, desired, rounds, n);
      assert Rounds(active, desired, rounds[..0]) == active;
    } else {
      RunsAfterRounds(active, desired, rounds[..k], n);
      LeftOutStep(active, desired, rounds, n);
      NextRound(Rounds(active, desired, rounds[..k]), desired, rounds[k], n);
    }
  }

  /** After any number of rounds, with tasks that finish in between and starts that fail, exactly the
      desired listeners run, minus those that had to be started at some round and have failed since. */
  lemma {:induction false} RoundsConverge(active: Listeners, desired: Listeners, rounds: seq<Round>)
    requires rounds != []
    ensures Rounds(active, desired, rounds) ==
            map n | n in desired && !LeftOut(active, desired, rounds, n) :: desired[n]
  {
    forall n ensures n in Rounds(active, desired, rounds) <==> n in desired && !LeftOut(active, desired, rounds, n) {
      RunsAfterRounds(active, desired, rounds, n);
    }
  }
}

/**
 The endpoint runtime store: 32 locked shards and one counter kept outside the locks.

 An operation takes the write lock of its shard, changes the map, adjusts the counter while still
 holding the lock, and leaves.  Each of these is a step, so operations on different shards
 interleave freely.  A lock has one holder, so what its holder is doing is part of the shard.
 */
module EndpointStore {
  import opened EndpointHealth

  const SHARD_COUNT: nat := 32

  datatype Key = Key(backend: string, address: string, port: nat)

  /** What the holder of a shard's write lock is doing. */
  datatype Section =
    | Free
    | Entered(key: Key, event: Event)
    | Changed(key: Key, delta: int)     // map changed, counter not adjusted yet
    | Leaving

  datatype Shard = Shard(states: map<Key, Health>, section: Section)

  datatype Done = Done(key: Key, event: Event)

  /** `base` is what the store was built with and `log` the changes made since, in order. */
  datatype Store = Store(shards: seq<Shard>, tracked: int, base: map<Key, Health>, log: seq<Done>)

  datatype Action = Enter(key: Key, event: Event) | Change(i: nat) | Adjust(i: nat) | Leave(i: nat)

  /** The shard of a key, for any hash function. */
  function ShardOf(hash: Key -> nat, key: Key): (i: nat)
    ensures i < 32 == SHARD_COUNT
  {
    hash(key) % SHARD_COUNT
  }

  const EMPTY: Store := Store(seq(SHARD_COUNT, _ => Shard(map[], Free)), 0, map[], [])

  function StateOf(states: map<Key, Health>, key: Key): Health {
    if key in states then states[key] else HEALTHY
  }

  /** A map update that never stores the default state. */
  function Stored(states: map<Key, Health>, key: Key, h: Health): map<Key, Health> {
    if IsDefault(h) then states - {key} else states[key := h]
  }

  function ChangeShard(sh: Shard, key: Key, event: Event): Shard {
    var h := After(StateOf(sh.states, key), event);
    var existed := key in sh.states;
    var delta := if IsDefault(h) then (if existed then -1 else 0) else (if existed then 0 else 1);
    Shard(Stored(sh.states, key, h), Changed(key, delta))
  }

  /** The lock holder of a shard moves on, adjusting the counter. */
  function WithSection(s: Store, i: nat, section: Section, delta: int): Store
    requires i < |s.shards|
  {
    s.(shards := s.shards[i := s.shards[i].(section := section)], tracked := s.tracked + delta)
  }

  function Step(hash: Key -> nat, s: Store, a: Action): Store {
    match a
    case Enter(key, event) =>
      var i := ShardOf(hash, key);
      if i < |s.shards| && s.shards[i].section.Free? then WithSection(s, i, Entered(key, event), 0) else s
    case Change(i) =>
      if i < |s.shards| && s.shards[i].section.Entered? then
        var Entered(key, event) := s.shards[i].section;
        s.(shards := s.shards[i := ChangeShard(s.shards[i], key, event)], log := s.log + [Done(key, event)])
      else s
    case Adjust(i) =>
      if i < |s.shards| && s.shards[i].section.Changed?
      then WithSection(s, i, Leaving, s.shards[i].section.delta) else s
    case Leave(i) =>
      if i < |s.shards| && s.shards[i].section.Leaving? then WithSection(s, i, Free, 0) else s
  }

  function Run(hash: Key -> nat, s: Store, actions: seq<Action>): Store {
    if actions == [] then s
    else Step(hash, Run(hash, s, actions[..|actions| - 1]), actions[|actions| - 1])
  }

  /** Success recording reads the counter first, without any lock, and stops when it is zero. */
  predicate SuccessSkips(s: Store) { s.tracked == 0 }

  /** The state of a key as the store has it now. */
  function Lookup(hash: Key -> nat, s: Store, key: Key): Health
    requires |s.shards| == SHARD_COUNT
  {
    StateOf(s.shards[ShardOf(hash, key)].states, key)
  }

  /** The state of a key in one plain map after the same changes in the same order. */
  function Replay(base: map<Key, Health>, log: seq<Done>, key: Key): Health {
    if log == [] then StateOf(base, key)
    else
      var h := Replay(base, log[..|log| - 1], key);
      if log[|log| - 1].key == key then After(h, log[|log| - 1].event) else h
  }

  predicate Changes(log: seq<Done>, key: Key) { exists d :: d in log && d.key == key }

  /** The last change of a key. */
  function LastChange(log: seq<Done>, key: Key): (d: Done)
    requires Changes(log, key)
    ensures d.key == key
  {
    var last := log[|log| - 1];
    if last.key == key then last
    else
      assert log == log[..|log| - 1] + [last];
      LastChange(log[..|log| - 1], key)
  }

  /** The log without the last change of a key. */
  function WithoutLast(log: seq<Done>, key: Key): seq<Done> {
    if log == [] then []
    else
      var before, last := log[..|log| - 1], log[|log| - 1];
      if last.key == key then before else WithoutLast(before, key) + [last]
  }

  // ------------------------------------------------------------------------------------------
  // The invariant
  // ------------------------------------------------------------------------------------------

  function Pending(sh: Shard): int { if sh.section.Changed? then sh.section.delta else 0 }

  function Entries(shards: seq<Shard>): nat {
    if shards == [] then 0 else Entries(shards[..|shards| - 1]) + |shards[|shards| - 1].states|
  }

  function PendingTotal(shards: seq<Shard>): int {
    if shards == [] then 0 else PendingTotal(shards[..|shards| - 1]) + Pending(shards[|shards| - 1])
  }

  ghost predicate ShardOk(hash: Key -> nat, sh: Shard, i: nat) {
    && (forall k :: k in sh.states ==> ShardOf(hash, k) == i && !IsDefault(sh.states[k]))
    && (sh.section.Entered? ==> ShardOf(hash, sh.section.key) == i)
    && (sh.section.Changed? ==> -1 <= sh.section.delta <= 1)
    && (sh.section.Changed? && sh.section.delta == 1 ==> sh.section.key in sh.states)
  }

  /** The last change of a key has put it into the store. */
  ghost predicate Inserted(base: map<Key, Health>, log: seq<Done>, key: Key) {
    Changes(log, key) && Replay(base, WithoutLast(log, key), key) == HEALTHY
  }

  /** An insertion in flight is the last change of its key. */
  ghost predicate InFlightOk(s: Store, i: nat)
    requires i < |s.shards|
  {
    var section := s.shards[i].section;
    section.Changed? && section.delta == 1 ==> Inserted(s.base, s.log, section.key)
  }

  ghost predicate Inv(hash: Key -> nat, s: Store) {
    && |s.shards| == SHARD_COUNT
    && (forall i :: 0 <= i < |s.shards| ==> ShardOk(hash, s.shards[i], i))
    && s.tracked == Entries(s.shards) - PendingTotal(s.shards)
    && (forall k :: Lookup(hash, s, k) == Replay(s.base, s.log, k))
    && (forall i :: 0 <= i < |s.shards| ==> InFlightOk(s, i))
  }

  lemma {:induction false} TotalsUpdate(shards: seq<Shard>, i: nat, sh: Shard)
    requires i < |shards|
    ensures Entries(shards[i := sh]) == Entries(shards) - |shards[i].states| + |sh.states|
    ensures PendingTotal(shards[i := sh]) == PendingTotal(shards) - Pending(shards[i]) + Pending(sh)
  {
    var n := |shards| - 1;
    if i == n {
      assert shards[i := sh][..n] == shards[..n];
    } else {
      assert shards[i := sh][..n] == shards[..n][i := sh];
      TotalsUpdate(shards[..n], i, sh);
    }
  }

  /** A shard contributes at least its pending adjustment, so the counter cannot underflow. */
  lemma {:induction false} EntriesCoverPending(hash: Key -> nat, shards: seq<Shard>)
    requires forall i :: 0 <= i < |shards| ==> ShardOk(hash, shards[i], i)
    ensures Entries(shards) - PendingTotal(shards) >= 0
    ensures Entries(shards) - PendingTotal(shards) == 0 ==>
              forall i :: 0 <= i < |shards| ==> |shards[i].states| == Pending(shards[i])
  {
    forall i | 0 <= i < |shards| ensures |shards[i].states| >= Pending(shards[i]) {
      ShardCoversPending(hash, shards[i], i);
    }
    TotalsCover(shards);
  }

  lemma {:induction false} TotalsCover(shards: seq<Shard>)
    requires forall i :: 0 <= i < |shards| ==> |shards[i].states| >= Pending(shards[i])
    ensures Entries(shards) - PendingTotal(shards) >= 0
    ensures Entries(shards) - PendingTotal(shards) == 0 ==>
              forall i :: 0 <= i < |shards| ==> |shards[i].states| == Pending(shards[i])
  {
    if shards != [] {
      var n := |shards| - 1;
      TotalsCover(shards[..n]);
      if Entries(shards) - PendingTotal(shards) == 0 {
        forall i | 0 <= i < |shards| ensures |shards[i].states| == Pending(shards[i]) {
          assert i < n ==> shards[..n][i] == shards[i];
        }
      }
    }
  }

  lemma {:induction false} ShardCoversPending(hash: Key -> nat, sh: Shard, i: nat)
    requires ShardOk(hash, sh, i)
    ensures |sh.states| >= Pending(sh)
  {
    if Pending(sh) == 1 {
      assert sh.section.key in sh.states.Keys;
    }
  }

  // ------------------------------------------------------------------------------------------
  // Every step keeps it
  // ------------------------------------------------------------------------------------------

  /** Steps that move the lock holder on without touching any map. */
  lemma {:induction false} SectionStepKeepsInv(hash: Key -> nat, s: Store, i: nat, section: Section, delta: int)
    requires Inv(hash, s) && i < |s.shards|
    requires ShardOk(hash, s.shards[i].(section := section), i) && !section.Changed?
    requires Pending(s.shards[i].(section := section)) == Pending(s.shards[i]) - delta
    ensures Inv(hash, WithSection(s, i, section, delta))
  {
    var s' := WithSection(s, i, section, delta);
    TotalsUpdate(s.shards, i, s.shards[i].(section := section));
    forall k ensures Lookup(hash, s', k) == Replay(s'.base, s'.log, k) {
      assert Lookup(hash, s', k) == Lookup(hash, s, k);
    }
    forall j | 0 <= j < |s'.shards| ensures InFlightOk(s', j) {
      assert InFlightOk(s, j);
    }
  }

  lemma {:induction false} ChangeShardOk(hash: Key -> nat, sh: Shard, i: nat, key: Key, event: Event)
    requires ShardOk(hash, sh, i) && ShardOf(hash, key) == i
    ensures ShardOk(hash, ChangeShard(sh, key, event), i)
    ensures |ChangeShard(sh, key, event).states| == |sh.states| + Pending(ChangeShard(sh, key, event))
    ensures forall k :: StateOf(ChangeShard(sh, key, event).states, k)
              == (if k == key then After(StateOf(sh.states, key), event) else StateOf(sh.states, k))
  {
    var h := After(StateOf(sh.states, key), event);
    var removed, added := sh.states - {key}, sh.states[key := h];
    assert removed.Keys == sh.states.Keys - {key};
    assert added.Keys == sh.states.Keys + {key};
    assert IsDefault(h) <==> h == HEALTHY;
  }

  /** A change of another key, and a change of the key itself. */
  lemma {:induction false} LogGrows(base: map<Key, Health>, log: seq<Done>, d: Done, key: Key)
    ensures Replay(base, log + [d], key) ==
              if d.key == key then After(Replay(base, log, key), d.event) else Replay(base, log, key)
    ensures d.key != key && Inserted(base, log, key) ==> Inserted(base, log + [d], key)
    ensures d.key == key && Replay(base, log, key) == HEALTHY ==> Inserted(base, log + [d], key)
  {
    var more := log + [d];
    assert more[..|more| - 1] == log;
    if d.key != key && Inserted(base, log, key) {
      var c :| c in log && c.key == key;
      assert c in more;
      var rest := WithoutLast(log, key) + [d];
      assert rest[..|rest| - 1] == WithoutLast(log, key);
    }
    assert d in more;
  }

  lemma {:induction false} ChangeKeepsLookup(hash: Key -> nat, s: Store, i: nat, k: Key)
    requires Inv(hash, s) && i < |s.shards| && s.shards[i].section.Entered?
    ensures
      var s' := Step(hash, s, Change(i));
      |s'.shards| == SHARD_COUNT && Lookup(hash, s', k) == Replay(s'.base, s'.log, k)
  {
    var Entered(key, event) := s.shards[i].section;
    assert Lookup(hash, s, k) == Replay(s.base, s.log, k);
    assert ShardOk(hash, s.shards[i], i);
    ChangeShardOk(hash, s.shards[i], i, key, event);
    LogGrows(s.base, s.log, Done(key, event), k);
  }

  lemma {:induction false} ChangeKeepsInFlight(hash: Key -> nat, s: Store, i: nat, j: nat)
    requires Inv(hash, s) && i < |s.shards| && j < |s.shards| && s.shards[i].section.Entered?
    ensures InFlightOk(Step(hash, s, Change(i)), j)
  {
    var Entered(key, event) := s.shards[i].section;
    assert ShardOk(hash, s.shards[i], i);
    if j == i {
      assert Lookup(hash, s, key) == Replay(s.base, s.log, key);
      LogGrows(s.base, s.log, Done(key, event), key);
    } else if s.shards[j].section.Changed? && s.shards[j].section.delta == 1 {
      assert ShardOk(hash, s.shards[j], j) && InFlightOk(s, j);
      LogGrows(s.base, s.log, Done(key, event), s.shards[j].section.key);
    }
  }

  lemma {:induction false} ChangeKeepsInv(hash: Key -> nat, s: Store, i: nat)
    requires Inv(hash, s) && i < |s.shards| && s.shards[i].section.Entered?
    ensures Inv(hash, Step(hash, s, Change(i)))
  {
    var Entered(key, event) := s.shards[i].section;
    var s' := Step(hash, s, Change(i));
    ChangeShardOk(hash, s.shards[i], i, key, event);
    TotalsUpdate(s.shards, i, ChangeShard(s.shards[i], key, event));
    forall k ensures Lookup(hash, s', k) == Replay(s'.base, s'.log, k) {
      ChangeKeepsLookup(hash, s, i, k);
    }
    forall j | 0 <= j < |s'.shards| ensures InFlightOk(s', j) {
      ChangeKeepsInFlight(hash, s, i, j);
    }
  }

  lemma {:induction false} EnterKeepsInv(hash: Key -> nat, s: Store, i: nat, key: Key, event: Event)
    requires Inv(hash, s) && i == ShardOf(hash, key) && s.shards[i].section.Free?
    ensures Inv(hash, WithSection(s, i, Entered(key, event), 0))
  {
    assert ShardOk(hash, s.shards[i], i);
    SectionStepKeepsInv(hash, s, i, Entered(key, event), 0);
  }

  lemma {:induction false} AdjustKeepsInv(hash: Key -> nat, s: Store, i: nat)
    requires Inv(hash, s) && i < |s.shards| && s.shards[i].section.Changed?
    ensures Inv(hash, WithSection(s, i, Leaving, s.shards[i].section.delta))
  {
    assert ShardOk(hash, s.shards[i], i);
    SectionStepKeepsInv(hash, s, i, Leaving, s.shards[i].section.delta);
  }

  lemma {:induction false} LeaveKeepsInv(hash: Key -> nat, s: Store, i: nat)
    requires Inv(hash, s) && i < |s.shards| && s.shards[i].section.Leaving?
    ensures Inv(hash, WithSection(s, i, Free, 0))
  {
    assert ShardOk(hash, s.shards[i], i);
    SectionStepKeepsInv(hash, s, i, Free, 0);
  }

  lemma {:induction false} StepKeepsInv(hash: Key -> nat, s: Store, a: Action)
    requires Inv(hash, s)
    ensures Inv(hash, Step(hash, s, a))
  {
    match a
    case Enter(key, event) =>
      if s.shards[ShardOf(hash, key)].section.Free? {
        EnterKeepsInv(hash, s, ShardOf(hash, key), key, event);
      }
    case Change(i) =>
      if i < |s.shards| && s.shards[i].section.Entered? {
        ChangeKeepsInv(hash, s, i);
      }
    case Adjust(i) =>
      if i < |s.shards| && s.shards[i].section.Changed? {
        AdjustKeepsInv(hash, s, i);
      }
    case Leave(i) =>
      if i < |s.shards| && s.shards[i].section.Leaving? {
        LeaveKeepsInv(hash, s, i);
      }
  }

  lemma {:induction false} RunKeepsInv(hash: Key -> nat, s: Store, actions: seq<Action>)
    requires Inv(hash, s)
    ensures Inv(hash, Run(hash, s, actions))
  {
    if actions != [] {
      RunKeepsInv(hash, s, actions[..|actions| - 1]);
      StepKeepsInv(hash, Run(hash, s, actions[..|actions| - 1]), actions[|actions| - 1]);
    }
  }

  lemma {:induction false} EmptyTotals(n: nat)
    ensures Entries(seq(n, _ => Shard(map[], Free))) == 0 && PendingTotal(seq(n, _ => Shard(map[], Free))) == 0
  {
    if n > 0 {
      assert seq(n, _ => Shard(map[], Free))[..n - 1] == seq(n - 1, _ => Shard(map[], Free));
      EmptyTotals(n - 1);
    }
  }

  lemma {:induction false} EmptyInv(hash: Key -> nat)
    ensures Inv(hash, EMPTY)
  {
    EmptyTotals(SHARD_COUNT);
    assert EMPTY.shards == seq(SHARD_COUNT, _ => Shard(map[], Free));
  }

  // ------------------------------------------------------------------------------------------
  // What holds in every run
  // ------------------------------------------------------------------------------------------

  /** In every interleaving the counter plus the pending adjustments is the number of entries, the
      counter never goes below zero, and no default state is stored. */
  lemma {:induction false} CounterExact(hash: Key -> nat, s: Store, actions: seq<Action>)
    requires Inv(hash, s)
    ensures
      var s' := Run(hash, s, actions);
      && s'.tracked + PendingTotal(s'.shards) == Entries(s'.shards)
      && s'.tracked >= 0
      && forall i, k :: 0 <= i < |s'.shards| && k in s'.shards[i].states ==> !IsDefault(s'.shards[i].states[k])
  {
    RunKeepsInv(hash, s, actions);
    EntriesCoverPending(hash, Run(hash, s, actions).shards);
  }

  /** The shards refine one map: every key is where replaying the changes in order puts it. */
  lemma {:induction false} ShardsRefineOneMap(hash: Key -> nat, s: Store, actions: seq<Action>, key: Key)
    requires Inv(hash, s)
    ensures
      var s' := Run(hash, s, actions);
      && |s'.shards| == SHARD_COUNT
      && Lookup(hash, s', key) == Replay(s'.base, s'.log, key)
      && forall i :: 0 <= i < SHARD_COUNT && key in s'.shards[i].states ==> i == ShardOf(hash, key)
  {
    RunKeepsInv(hash, s, actions);
  }

  /** No operation holds any lock. */
  ghost predicate Quiescent(s: Store) {
    forall i :: 0 <= i < |s.shards| ==> s.shards[i].section.Free?
  }

  /** The early exit loses a success for `key` exactly when the one operation that is inserting
      `key` has changed its shard but not yet the counter, and nothing else is counted. */
  lemma {:induction false} SkipLosesExactly(hash: Key -> nat, s: Store, key: Key)
    requires Inv(hash, s) && SuccessSkips(s)
    ensures Lookup(hash, s, key) != HEALTHY <==>
            s.shards[ShardOf(hash, key)].section == Changed(key, 1)
  {
    EntriesCoverPending(hash, s.shards);
    var sh := s.shards[ShardOf(hash, key)];
    assert |sh.states| == Pending(sh);
    assert IsDefault(HEALTHY);
    if Lookup(hash, s, key) != HEALTHY {
      OnlyEntry(sh.states, sh.section.key, key);
    }
  }

  lemma {:induction false} OnlyEntry(states: map<Key, Health>, a: Key, b: Key)
    requires a in states && b in states && |states| == 1
    ensures a == b
  {
    var rest := states.Keys - {a};
    assert |rest| == 0;
    assert states.Keys == {a} + rest;
  }

  /** The order of changes in which a success skipped for `key` takes its place: after all that are
      made, except that an insertion of `key` still in flight comes after it. */
  function Linearised(hash: Key -> nat, s: Store, key: Key, now: nat): seq<Done>
    requires |s.shards| == SHARD_COUNT
  {
    var success := Done(key, Success(now));
    if Lookup(hash, s, key) != HEALTHY && Changes(s.log, key)
    then WithoutLast(s.log, key) + [success] + [LastChange(s.log, key)]
    else s.log + [success]
  }

  lemma {:induction false} ReplayWithoutLast(base: map<Key, Health>, log: seq<Done>, key: Key, k: Key)
    requires Changes(log, key)
    ensures k != key ==> Replay(base, WithoutLast(log, key), k) == Replay(base, log, k)
    ensures After(Replay(base, WithoutLast(log, key), key), LastChange(log, key).event) == Replay(base, log, key)
  {
    var before, last := log[..|log| - 1], log[|log| - 1];
    if last.key != key {
      assert log == before + [last];
      ReplayWithoutLast(base, before, key, k);
      LogGrows(base, WithoutLast(before, key), last, k);
      LogGrows(base, WithoutLast(before, key), last, key);
    }
  }

  /** No success is lost: a skipped one takes effect before the insertion in flight that hides it from
      the counter, and that order of changes leads to the same state of every key. */
  lemma {:induction false} SkippedSuccessLinearises(hash: Key -> nat, s: Store, key: Key, now: nat, k: Key)
    requires Inv(hash, s) && SuccessSkips(s)
    ensures Lookup(hash, s, key) != HEALTHY ==>
              s.shards[ShardOf(hash, key)].section == Changed(key, 1) && Changes(s.log, key)
    ensures Replay(s.base, Linearised(hash, s, key, now), k) == Lookup(hash, s, k)
  {
    var success := Done(key, Success(now));
    SkipLosesExactly(hash, s, key);
    assert Lookup(hash, s, key) == Replay(s.base, s.log, key) && Lookup(hash, s, k) == Replay(s.base, s.log, k);
    if Lookup(hash, s, key) != HEALTHY {
      assert InFlightOk(s, ShardOf(hash, key));
      var rest := WithoutLast(s.log, key);
      ReplayWithoutLast(s.base, s.log, key, k);
      LogGrows(s.base, rest, success, k);
      LogGrows(s.base, rest + [success], LastChange(s.log, key), k);
    } else {
      LogGrows(s.base, s.log, success, k);
    }
  }

  /** With no operation in flight, the early exit skips nothing at all. */
  lemma {:induction false} QuiescentSkipIsSafe(hash: Key -> nat, s: Store, actions: seq<Action>, key: Key, now: nat)
    requires Inv(hash, s)
    requires Quiescent(Run(hash, s, actions)) && SuccessSkips(Run(hash, s, actions))
    ensures |Run(hash, s, actions).shards| == SHARD_COUNT
    ensures Lookup(hash, Run(hash, s, actions), key) == HEALTHY
              == After(Lookup(hash, Run(hash, s, actions), key), Success(now))
  {
    RunKeepsInv(hash, s, actions);
    SkipLosesExactly(hash, Run(hash, s, actions), key);
  }

  /** In flight it can: a failure that is recorded but not counted yet is missed. */
  lemma {:induction false} InFlightSkipLoses(hash: Key -> nat, key: Key, now: nat)
    ensures
      var s := Run(hash, EMPTY, [Enter(key, Failure(now)), Change(ShardOf(hash, key))]);
      && |s.shards| == SHARD_COUNT
      && SuccessSkips(s)
      && Lookup(hash, s, key) != HEALTHY
  {
    EmptyInv(hash);
    var i := ShardOf(hash, key);
    var actions := [Enter(key, Failure(now)), Change(i)];
    assert actions[..1] == [Enter(key, Failure(now))] && actions[..1][..0] == [];
    var s1 := Step(hash, EMPTY, Enter(key, Failure(now)));
    assert Run(hash, EMPTY, []) == EMPTY;
    assert Run(hash, EMPTY, actions[..1]) == s1;
    assert s1.shards[i] == Shard(map[], Entered(key, Failure(now)));
    var s2 := Step(hash, s1, Change(i));
    assert Run(hash, EMPTY, actions) == s2;
  }

  // ------------------------------------------------------------------------------------------
  // Building a store for the next snapshot
  // ------------------------------------------------------------------------------------------

  /** The endpoint keys of one cluster, in order. */
  type Cluster = seq<Key>

  ghost predicate Mentioned(clusters: seq<Cluster>, key: Key) {
    exists c :: 0 <= c < |clusters| && key in clusters[c]
  }

  /** One more entry, counted. */
  function WithEntry(hash: Key -> nat, s: Store, key: Key, h: Health): Store
    requires |s.shards| == SHARD_COUNT
  {
    var i := ShardOf(hash, key);
    s.(shards := s.shards[i := Shard(s.shards[i].states[key := h], Free)], tracked := s.tracked + 1,
       base := s.base[key := h])
  }

  /** A store without changes since it was built holds a key exactly when its base does. */
  lemma {:induction false} AbsentFromBase(hash: Key -> nat, s: Store, key: Key)
    requires Inv(hash, s) && s.log == [] && key !in s.base
    ensures key !in s.shards[ShardOf(hash, key)].states
  {
    assert Lookup(hash, s, key) == Replay(s.base, s.log, key);
    assert IsDefault(HEALTHY);
  }

  lemma {:induction false} InsertTotals(hash: Key -> nat, s: Store, key: Key, h: Health)
    requires Inv(hash, s) && Quiescent(s) && s.log == [] && key !in s.base
    ensures
      var i := ShardOf(hash, key);
      var shards := s.shards[i := Shard(s.shards[i].states[key := h], Free)];
      s.tracked + 1 == Entries(shards) - PendingTotal(shards)
  {
    var i := ShardOf(hash, key);
    var sh := Shard(s.shards[i].states[key := h], Free);
    AbsentFromBase(hash, s, key);
    assert sh.states.Keys == s.shards[i].states.Keys + {key};
    TotalsUpdate(s.shards, i, sh);
  }

  lemma {:induction false} InsertedLookup(hash: Key -> nat, s: Store, s': Store, key: Key, h: Health, k: Key)
    requires Inv(hash, s) && s.log == s'.log == [] && s'.base == s.base[key := h]
    requires
      var i := ShardOf(hash, key);
      s'.shards == s.shards[i := Shard(s.shards[i].states[key := h], Free)]
    ensures Lookup(hash, s', k) == Replay(s'.base, s'.log, k)
  {
    assert Lookup(hash, s, k) == Replay(s.base, s.log, k);
  }

  lemma {:induction false} InsertFresh(hash: Key -> nat, s: Store, key: Key, h: Health)
    requires Inv(hash, s) && Quiescent(s) && s.log == [] && key !in s.base && !IsDefault(h)
    ensures Inv(hash, WithEntry(hash, s, key, h)) && Quiescent(WithEntry(hash, s, key, h))
  {
    var s' := WithEntry(hash, s, key, h);
    InsertTotals(hash, s, key, h);
    forall j | 0 <= j < |s'.shards| ensures ShardOk(hash, s'.shards[j], j) && s'.shards[j].section.Free? {
      assert ShardOk(hash, s.shards[j], j);
    }
    forall k ensures Lookup(hash, s', k) == Replay(s'.base, s'.log, k) {
      InsertedLookup(hash, s, s', key, h, k);
    }
  }

  /** A store being built from a map, with some keys still to do. */
  ghost predicate Building(hash: Key -> nat, s: Store, states: map<Key, Health>, todo: set<Key>) {
    && Inv(hash, s) && Quiescent(s) && s.log == []
    && todo <= states.Keys && s.base == states - todo && s.tracked == |states| - |todo|
  }

  lemma {:induction false} BuildOne(hash: Key -> nat, s: Store, states: map<Key, Health>, todo: set<Key>, key: Key)
    requires Building(hash, s, states, todo) && key in todo && !IsDefault(states[key])
    ensures Building(hash, WithEntry(hash, s, key, states[key]), states, todo - {key})
  {
    InsertFresh(hash, s, key, states[key]);
    assert (states - todo)[key := states[key]] == states - (todo - {key});
  }

  lemma {:induction false} Built(hash: Key -> nat, s: Store, states: map<Key, Health>)
    requires Building(hash, s, states, {})
    ensures s.base == states && forall k :: Lookup(hash, s, k) == StateOf(states, k)
  {
    assert states - {} == states;
    assert forall k :: Lookup(hash, s, k) == Replay(s.base, s.log, k);
  }

  /** A store built by inserting the entries of a map one by one, each counted. */
  method FromMap(hash: Key -> nat, states: map<Key, Health>) returns (s: Store)
    requires forall k :: k in states ==> !IsDefault(states[k])
    ensures Inv(hash, s) && Quiescent(s)
    ensures s.base == states && s.tracked == |states|
    ensures forall k :: Lookup(hash, s, k) == StateOf(states, k)
  {
    s := EMPTY;
    EmptyInv(hash);
    var todo := states.Keys;
    assert states - states.Keys == map[];
    while todo != {}
      invariant Building(hash, s, states, todo)
      decreases |todo|
    {
      var key :| key in todo;
      BuildOne(hash, s, states, todo, key);
      s := WithEntry(hash, s, key, states[key]);
      todo := todo - {key};
    }
    Built(hash, s, states);
  }

  /** The store as it is when endpoint `e` of cluster `c` is looked up. */
  type Reads = (nat, nat) -> Store

  /** What the first `e` look-ups of cluster `c` make of a key: the last state that is worth keeping. */
  function SeenIn(hash: Key -> nat, store: Reads, cluster: Cluster, c: nat, e: nat, key: Key, before: Health): Health
    requires e <= |cluster| && forall d, f :: |store(d, f).shards| == SHARD_COUNT
  {
    if e == 0 then before
    else
      var h := Lookup(hash, store(c, e - 1), key);
      if cluster[e - 1] == key && h != HEALTHY then h else SeenIn(hash, store, cluster, c, e - 1, key, before)
  }

  /** The same for the first `n` clusters. */
  function Seen(hash: Key -> nat, store: Reads, clusters: seq<Cluster>, n: nat, key: Key): Health
    requires n <= |clusters| && forall d, f :: |store(d, f).shards| == SHARD_COUNT
  {
    if n == 0 then HEALTHY
    else
      SeenIn(hash, store, clusters[n - 1], n - 1, |clusters[n - 1]|, key, Seen(hash, store, clusters, n - 1, key))
  }

  /** The store of the next snapshot keeps, of the endpoints that are still there, the states seen on
      the way, and counts them; the old store may change between one look-up and the next. */
  method InheritForBackends(hash: Key -> nat, store: Reads, clusters: seq<Cluster>) returns (next: Store)
    requires forall c, e :: |store(c, e).shards| == SHARD_COUNT && Inv(hash, store(c, e))
    ensures Inv(hash, next) && Quiescent(next)
    ensures forall k :: Lookup(hash, next, k) == Seen(hash, store, clusters, |clusters|, k)
    ensures next.tracked == |next.base|
  {
    var kept: map<Key, Health> := map[];
    for c := 0 to |clusters|
      invariant forall k :: k in kept ==> !IsDefault(kept[k])
      invariant forall k :: StateOf(kept, k) == Seen(hash, store, clusters, c, k)
    {
      kept := InheritCluster(hash, store, clusters[c], c, kept);
    }
    next := FromMap(hash, kept);
  }

  /** The look-ups of one cluster. */
  method InheritCluster(hash: Key -> nat, store: Reads, cluster: Cluster, c: nat, kept: map<Key, Health>)
    returns (next: map<Key, Health>)
    requires forall c, e :: |store(c, e).shards| == SHARD_COUNT && Inv(hash, store(c, e))
    requires forall k :: k in kept ==> !IsDefault(kept[k])
    ensures forall k :: k in next ==> !IsDefault(next[k])
    ensures forall k :: StateOf(next, k) == SeenIn(hash, store, cluster, c, |cluster|, k, StateOf(kept, k))
  {
    next := kept;
    for e := 0 to |cluster|
      invariant forall k :: k in next ==> !IsDefault(next[k])
      invariant forall k :: StateOf(next, k) == SeenIn(hash, store, cluster, c, e, k, StateOf(kept, k))
    {
      next := InheritOne(hash, store(c, e), cluster[e], next);
    }
  }

  /** One look-up. */
  method InheritOne(hash: Key -> nat, s: Store, key: Key, kept: map<Key, Health>) returns (next: map<Key, Health>)
    requires Inv(hash, s) && forall k :: k in kept ==> !IsDefault(kept[k])
    ensures forall k :: k in next ==> !IsDefault(next[k])
    ensures forall k :: StateOf(next, k) ==
              if k == key && Lookup(hash, s, k) != HEALTHY then Lookup(hash, s, k) else StateOf(kept, k)
  {
    next := kept;
    var states := s.shards[ShardOf(hash, key)].states;
    assert IsDefault(HEALTHY);
    if key in states && !IsDefault(states[key]) {
      next := kept[key := states[key]];
    }
  }

  /** An inherited state was the key's state when one of its endpoints was looked up, and a key is left
      out exactly when every look-up found it healthy. */
  lemma {:induction false} InheritedWasSeen(hash: Key -> nat, store: Reads, clusters: seq<Cluster>, n: nat, key: Key)
    requires n <= |clusters| && forall d, f :: |store(d, f).shards| == SHARD_COUNT
    ensures Seen(hash, store, clusters, n, key) == HEALTHY <==>
      forall c, e :: 0 <= c < n && 0 <= e < |clusters[c]| && clusters[c][e] == key ==>
        Lookup(hash, store(c, e), key) == HEALTHY
    ensures Seen(hash, store, clusters, n, key) != HEALTHY ==>
      exists c, e :: 0 <= c < n && 0 <= e < |clusters[c]| && clusters[c][e] == key
                     && Lookup(hash, store(c, e), key) == Seen(hash, store, clusters, n, key)
  {
    if n > 0 {
      var c := n - 1;
      InheritedWasSeen(hash, store, clusters, c, key);
      SeenInExact(hash, store, clusters[c], c, |clusters[c]|, key, Seen(hash, store, clusters, c, key));
    }
  }

  lemma {:induction false} SeenInExact(hash: Key -> nat, store: Reads, cluster: Cluster, c: nat, e: nat, key: Key,
                                       before: Health)
    requires e <= |cluster| && forall d, f :: |store(d, f).shards| == SHARD_COUNT
    ensures
      var h := SeenIn(hash, store, cluster, c, e, key, before);
      && (h == HEALTHY <==>
            before == HEALTHY
            && forall f :: 0 <= f < e && cluster[f] == key ==> Lookup(hash, store(c, f), key) == HEALTHY)
      && (h == before || exists f :: 0 <= f < e && cluster[f] == key && Lookup(hash, store(c, f), key) == h)
  {
    if e > 0 {
      SeenInExact(hash, store, cluster, c, e - 1, key, before);
    }
  }

  /** If the store does not change meanwhile, exactly the endpoints that are still there keep their state. */
  lemma {:induction false} InheritedAtOnce(hash: Key -> nat, s: Store, clusters: seq<Cluster>, key: Key)
    requires |s.shards| == SHARD_COUNT
    ensures Seen(hash, (_, _) => s, clusters, |clusters|, key) ==
              if Mentioned(clusters, key) then Lookup(hash, s, key) else HEALTHY
  {
    InheritedWasSeen(hash, (_, _) => s, clusters, |clusters|, key);
    if Mentioned(clusters, key) {
      var c :| 0 <= c < |clusters| && key in clusters[c];
      var e :| 0 <= e < |clusters[c]| && clusters[c][e] == key;
    }
  }
}

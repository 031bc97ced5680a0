/**
 The endpoint runtime store as its callers see it: every run is linearisable.

 A trace lists the calls of a run with the state each one found and the time it took.  Successes that
 stop early because the counter is zero, and callers that take every endpoint for healthy for the same
 reason, are calls too.
 */
module EndpointLinear {
  import opened EndpointHealth
  import opened EndpointStore

  datatype Operation = Record(event: Event) | Read

  /** One call: the state `saw` that it found, or took for granted, and when it began at the latest. */
  datatype Call = Call(id: nat, key: Key, op: Operation, saw: Health, began: nat)

  /** The calls in the order of their effect on the shards, when the finished ones ended, when the holder
      of each lock began, and the call whose effect each holder has had. */
  datatype Traced = Traced(store: Store, calls: seq<Call>, ended: map<nat, nat>, entered: map<nat, nat>,
                           holder: map<nat, Call>, tick: nat)

  /** A step of the store, a read under the lock of a shard, and a call that stops at a zero counter. */
  datatype Move = Do(action: Action) | Look(key: Key) | Skip(key: Key, op: Operation)

  /** A call that takes one step. */
  function Instant(t: Traced, key: Key, op: Operation, saw: Health): Traced {
    t.(calls := t.calls + [Call(|t.calls|, key, op, saw, t.tick)], ended := t.ended[|t.calls| := t.tick],
       tick := t.tick + 1)
  }

  /** The call whose effect is the next change of a shard. */
  function Changing(t: Traced, i: nat): Call
    requires i < |t.store.shards| && t.store.shards[i].section.Entered?
  {
    var Entered(key, event) := t.store.shards[i].section;
    Call(|t.calls|, key, Record(event), StateOf(t.store.shards[i].states, key),
         if i in t.entered then t.entered[i] else t.tick)
  }

  function Acted(hash: Key -> nat, t: Traced, a: Action): Traced {
    var next := t.(store := Step(hash, t.store, a), tick := t.tick + 1);
    match a
    case Enter(key, _) =>
      var i := ShardOf(hash, key);
      if i < |t.store.shards| && t.store.shards[i].section.Free?
      then next.(entered := t.entered[i := t.tick]) else next
    case Change(i) =>
      if i < |t.store.shards| && t.store.shards[i].section.Entered? then
        var call := Changing(t, i);
        next.(calls := t.calls + [call], holder := t.holder[i := call])
      else next
    case Adjust(_) => next
    case Leave(i) =>
      if i < |t.store.shards| && t.store.shards[i].section.Leaving? && i in t.holder
      then next.(ended := t.ended[t.holder[i].id := t.tick]) else next
  }

  predicate MaySkip(op: Operation) { op.Read? || op.event.Success? }

  function Advance(hash: Key -> nat, t: Traced, m: Move): Traced {
    match m
    case Do(a) => Acted(hash, t, a)
    case Look(key) =>
      if |t.store.shards| == SHARD_COUNT && t.store.shards[ShardOf(hash, key)].section.Free?
      then Instant(t, key, Read, Lookup(hash, t.store, key)) else t.(tick := t.tick + 1)
    case Skip(key, op) =>
      if SuccessSkips(t.store) && MaySkip(op) then Instant(t, key, op, HEALTHY) else t.(tick := t.tick + 1)
  }

  function Trace(hash: Key -> nat, s: Store, moves: seq<Move>): Traced {
    if moves == [] then Traced(s, [], map[], map[], map[], 0)
    else Advance(hash, Trace(hash, s, moves[..|moves| - 1]), moves[|moves| - 1])
  }

  /** The steps of the store in a run. */
  function Actions(moves: seq<Move>): seq<Action> {
    if moves == [] then []
    else
      var last := moves[|moves| - 1];
      Actions(moves[..|moves| - 1]) + (if last.Do? then [last.action] else [])
  }

  /** Reads and calls that stop early leave the store alone. */
  lemma {:induction false} TraceIsRun(hash: Key -> nat, s: Store, moves: seq<Move>)
    ensures Trace(hash, s, moves).store == EndpointStore.Run(hash, s, Actions(moves))
  {
    if moves != [] {
      var before, last := moves[..|moves| - 1], moves[|moves| - 1];
      TraceIsRun(hash, s, before);
      if last.Do? {
        assert Actions(moves)[..|Actions(before)|] == Actions(before);
      } else {
        assert Actions(moves) == Actions(before);
      }
    }
  }

  // ------------------------------------------------------------------------------------------
  // Orders of calls
  // ------------------------------------------------------------------------------------------

  function Effect(op: Operation, h: Health): Health {
    match op
    case Record(event) => After(h, event)
    case Read => h
  }

  /** The state of a key in one plain map after calls made one at a time. */
  function StateAfter(base: map<Key, Health>, order: seq<Call>, key: Key): Health {
    if order == [] then StateOf(base, key)
    else
      var before, last := StateAfter(base, order[..|order| - 1], key), order[|order| - 1];
      if last.key == key then Effect(last.op, before) else before
  }

  /** Every call saw what the calls before it left. */
  predicate Legal(base: map<Key, Health>, order: seq<Call>) {
    order == [] ||
    var before, last := order[..|order| - 1], order[|order| - 1];
    Legal(base, before) && StateAfter(base, before, last.key) == last.saw
  }

  /** One call has ended before another begins. */
  predicate Precedes(ended: map<nat, nat>, a: Call, b: Call) { a.id in ended && ended[a.id] < b.began }

  ghost predicate PrecedesNone(ended: map<nat, nat>, a: Call, order: seq<Call>) {
    forall b :: b in order ==> !Precedes(ended, a, b)
  }

  ghost predicate RealTime(ended: map<nat, nat>, order: seq<Call>) {
    order == [] ||
    (RealTime(ended, order[..|order| - 1]) && PrecedesNone(ended, order[|order| - 1], order[..|order| - 1]))
  }

  /** A call is in the order, and no later one has its key. */
  predicate LastOfKey(order: seq<Call>, c: Call) {
    order != [] &&
    var last := order[|order| - 1];
    last == c || (last.key != c.key && LastOfKey(order[..|order| - 1], c))
  }

  function Removed(order: seq<Call>, c: Call): seq<Call> {
    if order == [] then []
    else
      var before, last := order[..|order| - 1], order[|order| - 1];
      if last == c then before else Removed(before, c) + [last]
  }

  /** An order of all calls that agrees with real time, in which each call sees what the earlier ones
      left, and that leads to the store as it is. */
  ghost predicate Linearises(hash: Key -> nat, t: Traced, order: seq<Call>) {
    && multiset(order) == multiset(t.calls)
    && (forall p, q :: 0 <= p < q < |order| ==> !Precedes(t.ended, order[q], order[p]))
    && (forall p :: 0 <= p < |order| ==> StateAfter(t.store.base, order[..p], order[p].key) == order[p].saw)
    && |t.store.shards| == SHARD_COUNT
    && (forall k :: StateAfter(t.store.base, order, k) == Lookup(hash, t.store, k))
  }

  lemma {:induction false} OrderGrows(base: map<Key, Health>, ended: map<nat, nat>, order: seq<Call>, c: Call, k: Key)
    ensures StateAfter(base, order + [c], k) ==
              if c.key == k then Effect(c.op, StateAfter(base, order, k)) else StateAfter(base, order, k)
    ensures Legal(base, order + [c]) <==> Legal(base, order) && StateAfter(base, order, c.key) == c.saw
    ensures RealTime(ended, order + [c]) <==> RealTime(ended, order) && PrecedesNone(ended, c, order)
  {
    assert (order + [c])[..|order|] == order;
  }

  lemma {:induction false} LastGrows(order: seq<Call>, c: Call, h: Call)
    ensures LastOfKey(order + [c], c)
    ensures LastOfKey(order, h) && h.key != c.key ==> LastOfKey(order + [c], h)
  {
    assert (order + [c])[..|order|] == order;
  }

  /** Taking the last call of a key away gives back what that call saw, and changes no other key. */
  lemma {:induction false} RemovedState(base: map<Key, Health>, order: seq<Call>, c: Call, k: Key)
    requires Legal(base, order) && LastOfKey(order, c)
    ensures StateAfter(base, Removed(order, c), k) == if k == c.key then c.saw else StateAfter(base, order, k)
    ensures StateAfter(base, order, c.key) == Effect(c.op, c.saw)
  {
    var before, last := order[..|order| - 1], order[|order| - 1];
    if last != c {
      RemovedState(base, before, c, k);
      OrderGrows(base, map[], Removed(before, c), last, k);
    }
  }

  lemma {:induction false} RemovedLegal(base: map<Key, Health>, order: seq<Call>, c: Call)
    requires Legal(base, order) && LastOfKey(order, c)
    ensures Legal(base, Removed(order, c))
  {
    var before, last := order[..|order| - 1], order[|order| - 1];
    if last != c {
      RemovedLegal(base, before, c);
      RemovedState(base, before, c, last.key);
      OrderGrows(base, map[], Removed(before, c), last, last.key);
    }
  }

  lemma {:induction false} RemovedMembers(order: seq<Call>, c: Call)
    requires LastOfKey(order, c)
    ensures multiset(order) == multiset(Removed(order, c)) + multiset{c}
  {
    var before, last := order[..|order| - 1], order[|order| - 1];
    assert order == before + [last];
    if last != c {
      RemovedMembers(before, c);
    }
  }

  lemma {:induction false} RemovedRealTime(ended: map<nat, nat>, order: seq<Call>, c: Call)
    requires RealTime(ended, order) && LastOfKey(order, c)
    ensures RealTime(ended, Removed(order, c))
  {
    var before, last := order[..|order| - 1], order[|order| - 1];
    if last != c {
      RemovedRealTime(ended, before, c);
      RemovedMembers(before, c);
      forall b | b in Removed(before, c) ensures !Precedes(ended, last, b) {
        assert b in multiset(before);
      }
      OrderGrows(map[], ended, Removed(before, c), last, last.key);
    }
  }

  lemma {:induction false} RemovedLast(order: seq<Call>, c: Call, h: Call)
    requires LastOfKey(order, h) && h != c
    ensures LastOfKey(Removed(order, c), h)
  {
    var before, last := order[..|order| - 1], order[|order| - 1];
    if last == h {
      LastGrows(Removed(before, c), h, h);
    } else if last != c {
      RemovedLast(before, c, h);
      LastGrows(Removed(before, c), last, h);
    }
  }

  /** A call that ends now ends before none that has begun. */
  lemma {:induction false} EndKeepsRealTime(ended: map<nat, nat>, order: seq<Call>, id: nat, now: nat)
    requires RealTime(ended, order) && forall c :: c in order ==> c.began <= now
    ensures RealTime(ended[id := now], order)
  {
    if order != [] {
      var before, last := order[..|order| - 1], order[|order| - 1];
      EndKeepsRealTime(ended, before, id, now);
      forall b | b in before ensures !Precedes(ended[id := now], last, b) {
        assert b in order && !Precedes(ended, last, b);
      }
    }
  }

  lemma {:induction false} LegalAt(base: map<Key, Health>, order: seq<Call>, p: nat)
    requires Legal(base, order) && p < |order|
    ensures StateAfter(base, order[..p], order[p].key) == order[p].saw
  {
    if p < |order| - 1 {
      LegalAt(base, order[..|order| - 1], p);
      assert order[..|order| - 1][..p] == order[..p];
    }
  }

  lemma {:induction false} RealTimeAt(ended: map<nat, nat>, order: seq<Call>, p: nat, q: nat)
    requires RealTime(ended, order) && p < q < |order|
    ensures !Precedes(ended, order[q], order[p])
  {
    var before := order[..|order| - 1];
    if q < |order| - 1 {
      RealTimeAt(ended, before, p, q);
    } else {
      assert order[p] == before[p];
    }
  }

  // ------------------------------------------------------------------------------------------
  // An order for every run
  // ------------------------------------------------------------------------------------------

  /** An insertion that is made but not counted is the last call of its key. */
  ghost predicate HolderOk(hash: Key -> nat, t: Traced, order: seq<Call>, i: nat)
    requires i < |t.store.shards|
  {
    var section := t.store.shards[i].section;
    && (section.Entered? ==> i in t.entered && t.entered[i] < t.tick)
    && (section.Changed? || section.Leaving? ==>
          i in t.holder && t.holder[i] in t.calls && t.holder[i].id !in t.ended && ShardOf(hash, t.holder[i].key) == i)
    && (section.Changed? && section.delta == 1 ==>
          t.holder[i].key == section.key && t.holder[i].saw == HEALTHY && LastOfKey(order, t.holder[i]))
  }

  ghost predicate TimesOk(t: Traced) {
    && (forall n :: 0 <= n < |t.calls| ==> t.calls[n].id == n && t.calls[n].began < t.tick)
    && (forall id :: id in t.ended ==> id < |t.calls|)
  }

  ghost predicate OrderOk(hash: Key -> nat, t: Traced, order: seq<Call>)
    requires |t.store.shards| == SHARD_COUNT
  {
    && multiset(order) == multiset(t.calls)
    && Legal(t.store.base, order)
    && RealTime(t.ended, order)
    && (forall k :: StateAfter(t.store.base, order, k) == Lookup(hash, t.store, k))
  }

  ghost predicate TraceInv(hash: Key -> nat, t: Traced, order: seq<Call>) {
    && Inv(hash, t.store)
    && TimesOk(t)
    && OrderOk(hash, t, order)
    && (forall i :: 0 <= i < |t.store.shards| ==> HolderOk(hash, t, order, i))
  }

  lemma {:induction false} InCalls(t: Traced, order: seq<Call>, c: Call)
    requires multiset(order) == multiset(t.calls)
    ensures c in order <==> c in t.calls
  {
    assert c in order <==> c in multiset(order);
    assert c in t.calls <==> c in multiset(t.calls);
  }

  /** All calls of an order have begun. */
  lemma {:induction false} AllBegun(t: Traced, order: seq<Call>)
    requires multiset(order) == multiset(t.calls) && TimesOk(t)
    ensures forall c :: c in order ==> c.began < t.tick && c.id < |t.calls|
  {
    forall c | c in order ensures c.began < t.tick && c.id < |t.calls| {
      InCalls(t, order, c);
    }
  }

  /** The trace after the lock holder of one shard has moved on. */
  function Moved(t: Traced, i: nat, section: Section, delta: int): Traced
    requires i < |t.store.shards|
  {
    t.(store := WithSection(t.store, i, section, delta), tick := t.tick + 1)
  }

  lemma {:induction false} SectionKeeps(hash: Key -> nat, t: Traced, order: seq<Call>, i: nat, section: Section,
                                        delta: int, entered: map<nat, nat>)
    requires TraceInv(hash, t, order) && i < |t.store.shards| && Inv(hash, WithSection(t.store, i, section, delta))
    requires entered == t.entered || entered == t.entered[i := t.tick]
    requires HolderOk(hash, Moved(t, i, section, delta).(entered := entered), order, i)
    ensures TraceInv(hash, Moved(t, i, section, delta).(entered := entered), order)
  {
    var next := Moved(t, i, section, delta).(entered := entered);
    forall k ensures Lookup(hash, next.store, k) == Lookup(hash, t.store, k) {
    }
    forall j | 0 <= j < |next.store.shards| ensures HolderOk(hash, next, order, j) {
      assert HolderOk(hash, t, order, j);
    }
  }

  lemma {:induction false} TickKeeps(hash: Key -> nat, t: Traced, order: seq<Call>)
    requires TraceInv(hash, t, order)
    ensures TraceInv(hash, t.(tick := t.tick + 1), order)
  {
    var next := t.(tick := t.tick + 1);
    forall j | 0 <= j < |next.store.shards| ensures HolderOk(hash, next, order, j) {
      assert HolderOk(hash, t, order, j);
    }
  }

  lemma {:induction false} EnterKeeps(hash: Key -> nat, t: Traced, order: seq<Call>, key: Key, event: Event)
    requires TraceInv(hash, t, order) && t.store.shards[ShardOf(hash, key)].section.Free?
    ensures TraceInv(hash, Acted(hash, t, Enter(key, event)), order)
  {
    var i := ShardOf(hash, key);
    EnterKeepsInv(hash, t.store, i, key, event);
    SectionKeeps(hash, t, order, i, Entered(key, event), 0, t.entered[i := t.tick]);
  }

  lemma {:induction false} AdjustKeeps(hash: Key -> nat, t: Traced, order: seq<Call>, i: nat)
    requires TraceInv(hash, t, order) && i < |t.store.shards| && t.store.shards[i].section.Changed?
    ensures TraceInv(hash, Acted(hash, t, Adjust(i)), order)
  {
    AdjustKeepsInv(hash, t.store, i);
    assert HolderOk(hash, t, order, i);
    SectionKeeps(hash, t, order, i, Leaving, t.store.shards[i].section.delta, t.entered);
  }

  /** A call ends.  No other call in progress is in its shard. */
  lemma {:induction false} EndKeeps(hash: Key -> nat, t: Traced, order: seq<Call>, c: Call, at: nat)
    requires TraceInv(hash, t, order) && c in t.calls && t.store.shards[ShardOf(hash, c.key)].section.Free?
    requires t.tick == at + 1
    ensures TraceInv(hash, t.(ended := t.ended[c.id := at]), order)
  {
    var next := t.(ended := t.ended[c.id := at]);
    AllBegun(t, order);
    EndKeepsRealTime(t.ended, order, c.id, at);
    forall j | 0 <= j < |next.store.shards| ensures HolderOk(hash, next, order, j) {
      assert HolderOk(hash, t, order, j);
    }
  }

  lemma {:induction false} LeaveMoves(hash: Key -> nat, t: Traced, order: seq<Call>, i: nat)
    requires TraceInv(hash, t, order) && i < |t.store.shards| && t.store.shards[i].section.Leaving?
    ensures TraceInv(hash, Moved(t, i, Free, 0), order)
    ensures i in t.holder && t.holder[i] in t.calls && ShardOf(hash, t.holder[i].key) == i
  {
    LeaveKeepsInv(hash, t.store, i);
    assert HolderOk(hash, t, order, i);
    SectionKeeps(hash, t, order, i, Free, 0, t.entered);
  }

  lemma {:induction false} LeaveKeeps(hash: Key -> nat, t: Traced, order: seq<Call>, i: nat)
    requires TraceInv(hash, t, order) && i < |t.store.shards| && t.store.shards[i].section.Leaving?
    ensures TraceInv(hash, Acted(hash, t, Leave(i)), order)
  {
    LeaveMoves(hash, t, order, i);
    var moved := Moved(t, i, Free, 0);
    EndKeeps(hash, moved, order, t.holder[i], t.tick);
    assert Acted(hash, t, Leave(i)) == moved.(ended := t.ended[t.holder[i].id := t.tick]);
  }

  // ------------------------------------------------------------------------------------------
  // New calls
  // ------------------------------------------------------------------------------------------

  /** A new call at the end of the order: it sees the state there and has not ended before it began. */
  lemma {:induction false} AppendOrder(base: map<Key, Health>, ended: map<nat, nat>, order: seq<Call>, c: Call,
                                       calls: seq<Call>, now: nat)
    requires multiset(order) == multiset(calls) && Legal(base, order) && RealTime(ended, order)
    requires StateAfter(base, order, c.key) == c.saw && (c.id in ended ==> ended[c.id] == now)
    requires forall b :: b in order ==> b.began <= now
    ensures multiset(order + [c]) == multiset(calls + [c]) && Legal(base, order + [c]) && RealTime(ended, order + [c])
  {
    OrderGrows(base, ended, order, c, c.key);
    assert PrecedesNone(ended, c, order);
  }

  lemma {:induction false} ChangeOrder(hash: Key -> nat, t: Traced, order: seq<Call>, i: nat)
    requires TraceInv(hash, t, order) && i < |t.store.shards| && t.store.shards[i].section.Entered?
    ensures
      var next := Acted(hash, t, Change(i));
      |next.store.shards| == SHARD_COUNT && OrderOk(hash, next, order + [Changing(t, i)])
  {
    var next, c := Acted(hash, t, Change(i)), Changing(t, i);
    assert ShardOk(hash, t.store.shards[i], i);
    assert StateAfter(t.store.base, order, c.key) == Lookup(hash, t.store, c.key) == c.saw;
    AllBegun(t, order);
    AppendOrder(t.store.base, t.ended, order, c, t.calls, t.tick);
    forall k ensures StateAfter(t.store.base, order + [c], k) == Lookup(hash, next.store, k) {
      OrderGrows(t.store.base, t.ended, order, c, k);
      ChangeShardOk(hash, t.store.shards[i], i, c.key, c.op.event);
    }
  }

  lemma {:induction false} ChangeHolder(hash: Key -> nat, t: Traced, order: seq<Call>, i: nat, j: nat)
    requires TraceInv(hash, t, order) && i < |t.store.shards| && t.store.shards[i].section.Entered?
    requires j < |t.store.shards|
    ensures HolderOk(hash, Acted(hash, t, Change(i)), order + [Changing(t, i)], j)
  {
    var c := Changing(t, i);
    assert ShardOk(hash, t.store.shards[i], i) && HolderOk(hash, t, order, j);
    if j == i {
      LastGrows(order, c, c);
    } else if t.store.shards[j].section.Changed? {
      LastGrows(order, c, t.holder[j]);
    }
  }

  lemma {:induction false} ChangeKeeps(hash: Key -> nat, t: Traced, order: seq<Call>, i: nat)
    requires TraceInv(hash, t, order) && i < |t.store.shards| && t.store.shards[i].section.Entered?
    ensures TraceInv(hash, Acted(hash, t, Change(i)), order + [Changing(t, i)])
  {
    var next, c := Acted(hash, t, Change(i)), Changing(t, i);
    ChangeKeepsInv(hash, t.store, i);
    ChangeOrder(hash, t, order, i);
    forall j | 0 <= j < |next.store.shards| ensures HolderOk(hash, next, order + [c], j) {
      ChangeHolder(hash, t, order, i, j);
    }
    assert HolderOk(hash, t, order, i);
  }

  /** The call that an instant step adds. */
  function Newest(t: Traced, key: Key, op: Operation, saw: Health): Call { Call(|t.calls|, key, op, saw, t.tick) }

  /** Its end keeps real time among the calls before it. */
  lemma {:induction false} InstantRealTime(hash: Key -> nat, t: Traced, order: seq<Call>)
    requires TraceInv(hash, t, order)
    ensures RealTime(t.ended[|t.calls| := t.tick], order)
    ensures forall b :: b in order ==> b.began <= t.tick && b.id != |t.calls|
  {
    AllBegun(t, order);
    EndKeepsRealTime(t.ended, order, |t.calls|, t.tick);
  }

  lemma {:induction false} InstantHolder(hash: Key -> nat, t: Traced, order: seq<Call>, c: Call, next: Traced, j: nat)
    requires TraceInv(hash, t, order) && next == Instant(t, c.key, c.op, c.saw) && j < |t.store.shards|
    requires t.store.shards[ShardOf(hash, c.key)].section != Changed(c.key, 1)
    ensures HolderOk(hash, next, order + [c], j)
  {
    assert HolderOk(hash, t, order, j);
    if t.store.shards[j].section.Changed? {
      LastGrows(order, c, t.holder[j]);
    }
  }

  /** A call that finds the state that it sees, and leaves it, comes last. */
  lemma {:induction false} InstantKeeps(hash: Key -> nat, t: Traced, order: seq<Call>, key: Key, op: Operation,
                                        saw: Health)
    requires TraceInv(hash, t, order) && Lookup(hash, t.store, key) == saw == Effect(op, saw)
    requires t.store.shards[ShardOf(hash, key)].section != Changed(key, 1)
    ensures TraceInv(hash, Instant(t, key, op, saw), order + [Newest(t, key, op, saw)])
  {
    var next, c := Instant(t, key, op, saw), Newest(t, key, op, saw);
    InstantRealTime(hash, t, order);
    AppendOrder(t.store.base, next.ended, order, c, t.calls, t.tick);
    forall k ensures StateAfter(t.store.base, order + [c], k) == Lookup(hash, t.store, k) {
      OrderGrows(t.store.base, t.ended, order, c, k);
    }
    forall j | 0 <= j < |next.store.shards| ensures HolderOk(hash, next, order + [c], j) {
      InstantHolder(hash, t, order, c, next, j);
    }
  }

  /** The order in which a skipped call comes before the insertion in flight that it has missed. */
  function Reordered(order: seq<Call>, c: Call, insertion: Call): seq<Call> {
    Removed(order, insertion) + [c] + [insertion]
  }

  lemma {:induction false} ReorderedMembers(order: seq<Call>, c: Call, insertion: Call)
    requires LastOfKey(order, insertion)
    ensures multiset(Reordered(order, c, insertion)) == multiset(order) + multiset{c}
  {
    RemovedMembers(order, insertion);
  }

  lemma {:induction false} ReorderedLegal(base: map<Key, Health>, order: seq<Call>, c: Call, insertion: Call)
    requires Legal(base, order) && LastOfKey(order, insertion)
    requires c.key == insertion.key && c.saw == insertion.saw == Effect(c.op, c.saw)
    ensures Legal(base, Reordered(order, c, insertion))
  {
    var rest := Removed(order, insertion);
    RemovedLegal(base, order, insertion);
    RemovedState(base, order, insertion, c.key);
    OrderGrows(base, map[], rest, c, c.key);
    OrderGrows(base, map[], rest + [c], insertion, c.key);
  }

  lemma {:induction false} ReorderedRealTime(ended: map<nat, nat>, order: seq<Call>, c: Call, insertion: Call, now: nat)
    requires RealTime(ended, order) && LastOfKey(order, insertion) && insertion.id !in ended
    requires (c.id in ended ==> ended[c.id] == now) && forall b :: b in order ==> b.began <= now
    ensures RealTime(ended, Reordered(order, c, insertion))
  {
    var rest := Removed(order, insertion);
    RemovedRealTime(ended, order, insertion);
    forall b | b in rest ensures !Precedes(ended, c, b) {
      RemovedMembers(order, insertion);
      assert b in multiset(order);
    }
    OrderGrows(map[], ended, rest, c, c.key);
    OrderGrows(map[], ended, rest + [c], insertion, c.key);
  }

  lemma {:induction false} ReorderedState(base: map<Key, Health>, order: seq<Call>, c: Call, insertion: Call, k: Key)
    requires Legal(base, order) && LastOfKey(order, insertion)
    requires c.key == insertion.key && c.saw == insertion.saw == Effect(c.op, c.saw)
    ensures StateAfter(base, Reordered(order, c, insertion), k) == StateAfter(base, order, k)
  {
    var rest := Removed(order, insertion);
    RemovedState(base, order, insertion, k);
    OrderGrows(base, map[], rest, c, k);
    OrderGrows(base, map[], rest + [c], insertion, k);
  }

  lemma {:induction false} ReorderedHolder(hash: Key -> nat, t: Traced, order: seq<Call>, c: Call, next: Traced,
                                           i: nat, j: nat)
    requires TraceInv(hash, t, order) && next == Instant(t, c.key, c.op, c.saw) && j < |t.store.shards|
    requires i == ShardOf(hash, c.key) && t.store.shards[i].section == Changed(c.key, 1)
    ensures i in t.holder && HolderOk(hash, next, Reordered(order, c, t.holder[i]), j)
  {
    assert HolderOk(hash, t, order, i) && HolderOk(hash, t, order, j);
    var insertion := t.holder[i];
    if t.store.shards[j].section.Changed? {
      var h, rest := t.holder[j], Removed(order, insertion);
      if j != i && t.store.shards[j].section.delta == 1 {
        RemovedLast(order, insertion, h);
      }
      LastGrows(rest, c, h);
      LastGrows(rest + [c], insertion, h);
    }
  }

  lemma {:induction false} MissOrder(hash: Key -> nat, t: Traced, order: seq<Call>, key: Key, op: Operation)
    requires TraceInv(hash, t, order) && MaySkip(op)
    requires t.store.shards[ShardOf(hash, key)].section == Changed(key, 1)
    ensures ShardOf(hash, key) in t.holder
    ensures OrderOk(hash, Instant(t, key, op, HEALTHY),
                    Reordered(order, Newest(t, key, op, HEALTHY), t.holder[ShardOf(hash, key)]))
  {
    assert HolderOk(hash, t, order, ShardOf(hash, key));
    var c, insertion := Newest(t, key, op, HEALTHY), t.holder[ShardOf(hash, key)];
    InstantRealTime(hash, t, order);
    InCalls(t, order, insertion);
    ReorderedMembers(order, c, insertion);
    ReorderedLegal(t.store.base, order, c, insertion);
    ReorderedRealTime(t.ended[c.id := t.tick], order, c, insertion, t.tick);
    forall k ensures StateAfter(t.store.base, Reordered(order, c, insertion), k) == Lookup(hash, t.store, k) {
      ReorderedState(t.store.base, order, c, insertion, k);
    }
  }

  /** A call that stops at a zero counter while its key is being inserted. */
  lemma {:induction false} MissKeeps(hash: Key -> nat, t: Traced, order: seq<Call>, key: Key, op: Operation)
    requires TraceInv(hash, t, order) && MaySkip(op)
    requires t.store.shards[ShardOf(hash, key)].section == Changed(key, 1)
    ensures ShardOf(hash, key) in t.holder
    ensures TraceInv(hash, Instant(t, key, op, HEALTHY),
                     Reordered(order, Newest(t, key, op, HEALTHY), t.holder[ShardOf(hash, key)]))
  {
    var i, next, c := ShardOf(hash, key), Instant(t, key, op, HEALTHY), Newest(t, key, op, HEALTHY);
    MissOrder(hash, t, order, key, op);
    forall j | 0 <= j < |next.store.shards| ensures HolderOk(hash, next, Reordered(order, c, t.holder[i]), j) {
      ReorderedHolder(hash, t, order, c, next, i, j);
    }
  }

  lemma {:induction false} SkipKeeps(hash: Key -> nat, t: Traced, order: seq<Call>, key: Key, op: Operation)
    returns (more: seq<Call>)
    requires TraceInv(hash, t, order) && SuccessSkips(t.store) && MaySkip(op)
    ensures TraceInv(hash, Instant(t, key, op, HEALTHY), more)
  {
    SkipLosesExactly(hash, t.store, key);
    if Lookup(hash, t.store, key) == HEALTHY {
      InstantKeeps(hash, t, order, key, op, HEALTHY);
      more := order + [Newest(t, key, op, HEALTHY)];
    } else {
      MissKeeps(hash, t, order, key, op);
      more := Reordered(order, Newest(t, key, op, HEALTHY), t.holder[ShardOf(hash, key)]);
    }
  }

  /** The holder of the lock is at the step that an action takes. */
  predicate Enabled(hash: Key -> nat, s: Store, a: Action) {
    match a
    case Enter(key, _) => ShardOf(hash, key) < |s.shards| && s.shards[ShardOf(hash, key)].section.Free?
    case Change(i) => i < |s.shards| && s.shards[i].section.Entered?
    case Adjust(i) => i < |s.shards| && s.shards[i].section.Changed?
    case Leave(i) => i < |s.shards| && s.shards[i].section.Leaving?
  }

  lemma {:induction false} EnabledKeeps(hash: Key -> nat, t: Traced, order: seq<Call>, a: Action)
    returns (more: seq<Call>)
    requires TraceInv(hash, t, order) && Enabled(hash, t.store, a)
    ensures TraceInv(hash, Acted(hash, t, a), more)
  {
    more := if a.Change? then order + [Changing(t, a.i)] else order;
    match a
    case Enter(key, event) => EnterKeeps(hash, t, order, key, event);
    case Change(i) => ChangeKeeps(hash, t, order, i);
    case Adjust(i) => AdjustKeeps(hash, t, order, i);
    case Leave(i) => LeaveKeeps(hash, t, order, i);
  }

  /** An action that is not enabled takes time only. */
  lemma {:induction false} Idles(hash: Key -> nat, t: Traced, a: Action)
    requires !Enabled(hash, t.store, a)
    ensures Acted(hash, t, a) == t.(tick := t.tick + 1)
  {
  }

  lemma {:induction false} ActedKeeps(hash: Key -> nat, t: Traced, order: seq<Call>, a: Action)
    returns (more: seq<Call>)
    requires TraceInv(hash, t, order)
    ensures TraceInv(hash, Acted(hash, t, a), more)
  {
    if Enabled(hash, t.store, a) {
      more := EnabledKeeps(hash, t, order, a);
    } else {
      Idles(hash, t, a);
      TickKeeps(hash, t, order);
      more := order;
    }
  }

  lemma {:induction false} LookKeeps(hash: Key -> nat, t: Traced, order: seq<Call>, key: Key)
    returns (more: seq<Call>)
    requires TraceInv(hash, t, order)
    ensures TraceInv(hash, Advance(hash, t, Look(key)), more)
  {
    if t.store.shards[ShardOf(hash, key)].section.Free? {
      var saw := Lookup(hash, t.store, key);
      assert Advance(hash, t, Look(key)) == Instant(t, key, Read, saw);
      InstantKeeps(hash, t, order, key, Read, saw);
      more := order + [Newest(t, key, Read, saw)];
    } else {
      TickKeeps(hash, t, order);
      more := order;
    }
  }

  lemma {:induction false} StopKeeps(hash: Key -> nat, t: Traced, order: seq<Call>, key: Key, op: Operation)
    returns (more: seq<Call>)
    requires TraceInv(hash, t, order)
    ensures TraceInv(hash, Advance(hash, t, Skip(key, op)), more)
  {
    if SuccessSkips(t.store) && MaySkip(op) {
      assert Advance(hash, t, Skip(key, op)) == Instant(t, key, op, HEALTHY);
      more := SkipKeeps(hash, t, order, key, op);
    } else {
      TickKeeps(hash, t, order);
      more := order;
    }
  }

  /** Every step of a run leaves an order of the calls so far. */
  lemma {:induction false} AdvanceKeeps(hash: Key -> nat, t: Traced, order: seq<Call>, m: Move)
    returns (more: seq<Call>)
    requires TraceInv(hash, t, order)
    ensures TraceInv(hash, Advance(hash, t, m), more)
  {
    match m
    case Do(a) => more := ActedKeeps(hash, t, order, a);
    case Look(key) => more := LookKeeps(hash, t, order, key);
    case Skip(key, op) => more := StopKeeps(hash, t, order, key, op);
  }

  lemma {:induction false} TraceKeeps(hash: Key -> nat, s: Store, moves: seq<Move>) returns (order: seq<Call>)
    requires Inv(hash, s) && Quiescent(s) && s.log == []
    ensures TraceInv(hash, Trace(hash, s, moves), order)
  {
    if moves == [] {
      order := [];
    } else {
      order := TraceKeeps(hash, s, moves[..|moves| - 1]);
      order := AdvanceKeeps(hash, Trace(hash, s, moves[..|moves| - 1]), order, moves[|moves| - 1]);
    }
  }

  /** Every run of a store, from the time it is built, is linearisable: all its calls, those that stop at
      a zero counter included, have one order that agrees with real time, in which each call sees exactly
      what the earlier ones left, and that leads to the state of every key. */
  lemma {:induction false} EveryRunLinearises(hash: Key -> nat, s: Store, moves: seq<Move>)
    requires Inv(hash, s) && Quiescent(s) && s.log == []
    ensures exists order :: Linearises(hash, Trace(hash, s, moves), order)
  {
    var t := Trace(hash, s, moves);
    var order := TraceKeeps(hash, s, moves);
    forall p, q | 0 <= p < q < |order| ensures !Precedes(t.ended, order[q], order[p]) {
      RealTimeAt(t.ended, order, p, q);
    }
    forall p | 0 <= p < |order|
      ensures StateAfter(t.store.base, order[..p], order[p].key) == order[p].saw
    {
      LegalAt(t.store.base, order, p);
    }
    assert Linearises(hash, t, order);
  }
}

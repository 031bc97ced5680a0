/**
 The backend service index: a bucket per service name that holds one entry inline and turns into a
 list when a second (namespace, port) arrives.
 */
module ServiceIndex {
  import opened Wrappers
  import opened Ints
  import opened Text

  datatype Entry = Entry(namespace: string, port: nat, index: nat)
  datatype Bucket = Single(entry: Entry) | Many(entries: seq<Entry>)
  datatype Service = Service(namespace: string, name: string, port: nat)

  /** A backend cluster; its name carries the port after the last colon. */
  datatype Cluster = Cluster(namespace: string, name: string)

  predicate Matches(e: Entry, namespace: string, port: nat) { e.namespace == namespace && e.port == port }

  function EntriesOf(b: Bucket): seq<Entry> {
    match b
    case Single(e) => [e]
    case Many(es) => es
  }

  // ------------------------------------------------------------------------------------------
  // The object
  // ------------------------------------------------------------------------------------------

  class BackendServiceIndex {
    var services: map<string, Bucket>
    /** The plain map this index stands for. */
    ghost var contents: map<Service, nat>

    /** Entries and contents agree, and no (namespace, port) appears twice in a bucket. */
    ghost predicate Valid()
      reads this
    {
      Agree(services, contents)
    }

    constructor ()
      ensures Valid() && contents == map[]
    {
      services, contents := map[], map[];
    }

    method Insert(namespace: string, name: string, port: nat, index: nat)
      requires Valid()
      modifies this
      ensures Valid()
      ensures contents == old(contents)[Service(namespace, name, port) := index]
    {
      var entry := Entry(namespace, port, index);
      var key := Service(namespace, name, port);
      var bucket := Single(entry);
      if name in services {
        bucket := InsertInto(services[name], entry, name, contents);
      } else {
        assert EntriesOf(bucket)[0] == entry;
      }
      BucketReplaced(services, contents, bucket, key, index);
      services := services[name := bucket];
      contents := contents[key := index];
    }

    /** The bucket update: replace in place, grow into a list, or append. */
    static method InsertInto(bucket: Bucket, entry: Entry, name: string, ghost contents: map<Service, nat>)
      returns (b: Bucket)
      requires BucketOk(bucket, name, contents)
      ensures BucketOk(b, name, contents[Service(entry.namespace, name, entry.port) := entry.index])
      ensures HasEntry(EntriesOf(b), Service(entry.namespace, name, entry.port), entry.index)
      ensures forall k: Service, i :: HasEntry(EntriesOf(bucket), k, i) && !Matches(entry, k.namespace, k.port) ==>
                HasEntry(EntriesOf(b), k, i)
    {
      match bucket
      case Single(existing) =>
        if Matches(existing, entry.namespace, entry.port) {
          b := Single(existing.(index := entry.index));
          assert EntriesOf(b)[0] == entry;
        } else {
          b := Many([existing, entry]);
          assert EntriesOf(b)[1] == entry && EntriesOf(b)[0] == existing;
        }
      case Many(entries) =>
        var at := Position(entries, entry.namespace, entry.port);
        if at < |entries| {
          b := Many(entries[at := entries[at].(index := entry.index)]);
          assert EntriesOf(b)[at] == entry;
        } else {
          b := Many(entries + [entry]);
          assert EntriesOf(b)[|entries|] == entry;
        }
        forall k: Service, i | HasEntry(entries, k, i) && !Matches(entry, k.namespace, k.port)
          ensures HasEntry(EntriesOf(b), k, i)
        {
          var j :| 0 <= j < |entries| && Matches(entries[j], k.namespace, k.port) && entries[j].index == i;
          assert EntriesOf(b)[j] == entries[j];
        }
    }

    /** The first matching entry, or the length of the list. */
    static method Position(entries: seq<Entry>, namespace: string, port: nat) returns (at: nat)
      ensures at <= |entries|
      ensures at < |entries| ==> Matches(entries[at], namespace, port)
      ensures forall j :: 0 <= j < at ==> !Matches(entries[j], namespace, port)
    {
      at := 0;
      while at < |entries| && !Matches(entries[at], namespace, port)
        invariant at <= |entries|
        invariant forall j :: 0 <= j < at ==> !Matches(entries[j], namespace, port)
      {
        at := at + 1;
      }
    }

    method IndexFor(namespace: string, name: string, port: nat) returns (r: Option<nat>)
      requires Valid()
      ensures r == Lookup(contents, Service(namespace, name, port))
    {
      ghost var key := Service(namespace, name, port);
      if name !in services {
        return None;
      }
      match services[name]
      case Single(e) =>
        assert EntriesOf(services[name])[0] == e;
        r := if Matches(e, namespace, port) then Some(e.index) else None;
      case Many(entries) =>
        var at := Position(entries, namespace, port);
        r := if at < |entries| then Some(entries[at].index) else None;
    }

    method UniqueNamespace(name: string, port: nat) returns (r: Option<string>)
      requires Valid()
      ensures r == OnlyNamespace(NamespacesIn(contents, name, port))
    {
      ghost var all := NamespacesIn(contents, name, port);
      if name !in services {
        assert all == {};
        return None;
      }
      ghost var entries := EntriesOf(services[name]);
      EntriesGiveNamespaces(entries, name, port, contents);
      match services[name]
      case Single(e) =>
        r := if e.port == port then Some(e.namespace) else None;
        assert NamespacesOf(entries, port) == if e.port == port then {e.namespace} else {};
        OnlyOne(e.namespace);
      case Many(es) => r := UniqueAmong(es, port);
    }

    static method UniqueAmong(es: seq<Entry>, port: nat) returns (r: Option<string>)
      ensures r == OnlyNamespace(NamespacesOf(es, port))
    {
      r := None;
      for i := 0 to |es|
        invariant NamespacesOf(es[..i], port) == if r.Some? then {r.value} else {}
      {
        assert es[..i + 1] == es[..i] + [es[i]];
        NamespacesAppend(es[..i], es[i], port);
        if es[i].port == port {
          if r.Some? && r.value != es[i].namespace {
            NamespacesPrefix(es, i + 1, port);
            TwoNamespaces(NamespacesOf(es, port), r.value, es[i].namespace);
            return None;
          }
          r := Some(es[i].namespace);
        }
      }
      assert es[..|es|] == es;
      if r.Some? {
        OnlyOne(r.value);
      }
    }
  }

  // ------------------------------------------------------------------------------------------
  // Specification
  // ------------------------------------------------------------------------------------------

  ghost predicate HasEntry(entries: seq<Entry>, k: Service, index: nat) {
    exists j :: 0 <= j < |entries| && Matches(entries[j], k.namespace, k.port) && entries[j].index == index
  }

  ghost predicate BucketOk(b: Bucket, name: string, contents: map<Service, nat>) {
    var es := EntriesOf(b);
    && (forall j :: 0 <= j < |es| ==>
          var k := Service(es[j].namespace, name, es[j].port);
          k in contents && contents[k] == es[j].index)
    && (forall i, j :: 0 <= i < j < |es| ==> !Matches(es[i], es[j].namespace, es[j].port))
  }

  ghost predicate Agree(services: map<string, Bucket>, contents: map<Service, nat>) {
    && (forall k :: k in contents ==> k.name in services && HasEntry(EntriesOf(services[k.name]), k, contents[k]))
    && (forall n :: n in services ==> BucketOk(services[n], n, contents))
  }

  /** Replacing the bucket of one name keeps the agreement. */
  lemma {:induction false} BucketReplaced(services: map<string, Bucket>, contents: map<Service, nat>, b: Bucket,
                                          key: Service, index: nat)
    requires Agree(services, contents)
    requires BucketOk(b, key.name, contents[key := index]) && HasEntry(EntriesOf(b), key, index)
    requires key.name in services ==>
               forall k, i :: k != key && k.name == key.name && HasEntry(EntriesOf(services[key.name]), k, i) ==>
                 HasEntry(EntriesOf(b), k, i)
    ensures Agree(services[key.name := b], contents[key := index])
  {
    var services', contents' := services[key.name := b], contents[key := index];
    forall n | n in services' ensures BucketOk(services'[n], n, contents') {
      if n != key.name {
        assert BucketOk(services[n], n, contents);
      }
    }
  }

  ghost function Lookup(contents: map<Service, nat>, k: Service): Option<nat> {
    if k in contents then Some(contents[k]) else None
  }

  ghost function NamespacesIn(contents: map<Service, nat>, name: string, port: nat): set<string> {
    set k | k in contents && k.name == name && k.port == port :: k.namespace
  }

  ghost function NamespacesOf(entries: seq<Entry>, port: nat): set<string> {
    set e | e in entries && e.port == port :: e.namespace
  }

  /** The only element of a set, if it has exactly one. */
  ghost function OnlyNamespace(s: set<string>): Option<string> {
    if exists n :: s == {n} then
      var n :| s == {n};
      Some(n)
    else None
  }

  lemma {:induction false} OnlyOne(n: string)
    ensures OnlyNamespace({n}) == Some(n)
  {
    var m :| {n} == {m} && OnlyNamespace({n}) == Some(m);
    assert m in {n};
  }

  lemma {:induction false} TwoNamespaces(s: set<string>, a: string, b: string)
    requires a in s && b in s && a != b
    ensures OnlyNamespace(s) == None
  {
    forall n ensures s != {n} {
      assert a in {n} && b in {n} ==> a == b;
    }
  }

  lemma {:induction false} NamespacesAppend(es: seq<Entry>, e: Entry, port: nat)
    ensures NamespacesOf(es + [e], port) == NamespacesOf(es, port) + (if e.port == port then {e.namespace} else {})
  {
    var all := es + [e];
    forall n | n in NamespacesOf(es, port) ensures n in NamespacesOf(all, port) {
      var x :| x in es && x.port == port && x.namespace == n;
      assert x in all;
    }
    if e.port == port {
      assert e in all;
    }
  }

  lemma {:induction false} NamespacesPrefix(es: seq<Entry>, i: nat, port: nat)
    requires i <= |es|
    ensures NamespacesOf(es[..i], port) <= NamespacesOf(es, port)
  {
    forall n | n in NamespacesOf(es[..i], port) ensures n in NamespacesOf(es, port) {
      var x :| x in es[..i] && x.port == port && x.namespace == n;
      assert x in es;
    }
  }

  lemma {:induction false} EntriesGiveNamespaces(entries: seq<Entry>, name: string, port: nat, contents: map<Service,
                                                 nat>)
    requires forall k :: k in contents && k.name == name ==> HasEntry(entries, k, contents[k])
    requires forall j :: 0 <= j < |entries| ==> Service(entries[j].namespace, name, entries[j].port) in contents
    ensures NamespacesOf(entries, port) == NamespacesIn(contents, name, port)
  {
    forall n | n in NamespacesOf(entries, port) ensures n in NamespacesIn(contents, name, port) {
      var e :| e in entries && e.port == port && e.namespace == n;
      assert Service(e.namespace, name, e.port) in contents;
    }
    forall n | n in NamespacesIn(contents, name, port) ensures n in NamespacesOf(entries, port) {
      var k :| k in contents && k.name == name && k.port == port && k.namespace == n;
      var j :| 0 <= j < |entries| && Matches(entries[j], k.namespace, k.port) && entries[j].index == contents[k];
      assert entries[j] in entries;
    }
  }

  // ------------------------------------------------------------------------------------------
  // Building the index, and the scans it replaces
  // ------------------------------------------------------------------------------------------

  /** The service name and port of a cluster, when its name ends in a canonical port. */
  function ServiceKey(clusterName: string): Option<(string, nat)> {
    match RSplitOnce(clusterName, ':')
    case None => None
    case Some((name, port)) =>
      match ParsePort(port)
      case None => None
      case Some(p) => Some((name, p))
  }

  /** A cluster is named after a service and port in exactly one way. */
  lemma {:induction false} ServiceKeyExact(clusterName: string, name: string, port: nat)
    ensures ServiceKey(clusterName) == Some((name, port)) <==>
            port <= U32_MAX && clusterName == name + ":" + Decimal(port)
  {
    if ServiceKey(clusterName) == Some((name, port)) {
      var (a, b) := RSplitOnce(clusterName, ':').value;
      RSplitOnceExact(clusterName, ':', a, b);
      ParsePortExact(b, port);
    }
    if port <= U32_MAX && clusterName == name + ":" + Decimal(port) {
      RSplitOnceExact(clusterName, ':', name, Decimal(port));
      ParsePortExact(Decimal(port), port);
    }
  }

  predicate Serves(c: Cluster, k: Service) {
    c.namespace == k.namespace && ServiceKey(c.name) == Some((k.name, k.port))
  }

  /** The service of a cluster, if its name gives one. */
  function ServiceOf(c: Cluster): Option<Service> {
    match ServiceKey(c.name)
    case None => None
    case Some((name, port)) => Some(Service(c.namespace, name, port))
  }

  ghost function Services(clusters: seq<Cluster>): (r: seq<Option<Service>>)
    ensures |r| == |clusters| && forall i :: 0 <= i < |r| ==> r[i] == ServiceOf(clusters[i])
  {
    seq(|clusters|, i requires 0 <= i < |clusters| => ServiceOf(clusters[i]))
  }

  /** Later clusters win. */
  ghost function LastOf(services: seq<Option<Service>>): map<Service, nat> {
    if services == [] then map[]
    else
      var n := |services| - 1;
      var before := LastOf(services[..n]);
      if services[n].Some? then before[services[n].value := n] else before
  }

  ghost function LastWins(clusters: seq<Cluster>): map<Service, nat> { LastOf(Services(clusters)) }

  method Rebuild(clusters: seq<Cluster>) returns (index: BackendServiceIndex)
    ensures fresh(index) && index.Valid()
    ensures index.contents == LastWins(clusters)
  {
    index := new BackendServiceIndex();
    ghost var services := Services(clusters);
    for i := 0 to |clusters|
      invariant fresh(index) && index.Valid()
      invariant index.contents == LastOf(services[..i])
    {
      assert services[..i + 1][..i] == services[..i];
      match ServiceKey(clusters[i].name)
      case None =>
      case Some((name, port)) => index.Insert(clusters[i].namespace, name, port, i);
    }
    assert services[..|clusters|] == services;
  }

  lemma {:induction false} LastOfExact(services: seq<Option<Service>>, k: Service)
    ensures k in LastOf(services) <==> Some(k) in services
    ensures k in LastOf(services) ==>
      var i := LastOf(services)[k];
      i < |services| && services[i] == Some(k) && forall j :: i < j < |services| ==> services[j] != Some(k)
  {
    if services != [] {
      var n := |services| - 1;
      LastOfExact(services[..n], k);
      assert services == services[..n] + [services[n]];
    }
  }

  /** The index maps a service to the last cluster that serves it. */
  lemma {:induction false} LastWinsExact(clusters: seq<Cluster>, k: Service)
    ensures k in LastWins(clusters) <==> exists i :: 0 <= i < |clusters| && Serves(clusters[i], k)
    ensures k in LastWins(clusters) ==>
      var i := LastWins(clusters)[k];
      i < |clusters| && Serves(clusters[i], k) && forall j :: i < j < |clusters| ==> !Serves(clusters[j], k)
  {
    var services := Services(clusters);
    LastOfExact(services, k);
    forall i | 0 <= i < |clusters| ensures Serves(clusters[i], k) <==> services[i] == Some(k) {
    }
  }

  /** The uncompiled look-up: the first cluster that serves. */
  method ScanFor(clusters: seq<Cluster>, k: Service) returns (r: Option<nat>)
    ensures r.Some? ==> r.value < |clusters| && Serves(clusters[r.value], k)
                        && forall j :: 0 <= j < r.value ==> !Serves(clusters[j], k)
    ensures r.None? ==> forall j :: 0 <= j < |clusters| ==> !Serves(clusters[j], k)
  {
    for i := 0 to |clusters|
      invariant forall j :: 0 <= j < i ==> !Serves(clusters[j], k)
    {
      if Serves(clusters[i], k) {
        return Some(i);
      }
    }
    r := None;
  }

  ghost predicate FirstServing(clusters: seq<Cluster>, k: Service, i: nat) {
    i < |clusters| && Serves(clusters[i], k) && forall j :: 0 <= j < i ==> !Serves(clusters[j], k)
  }

  ghost predicate ServedAtMostOnce(clusters: seq<Cluster>, k: Service) {
    forall i, j ::
      0 <= i < |clusters| && 0 <= j < |clusters| && Serves(clusters[i], k) && Serves(clusters[j], k) ==> i == j
  }

  /** The index and the scan name the same cluster exactly when no second cluster serves the same
      service: on duplicates the index has the last one and the scan the first. */
  lemma {:induction false} IndexAgreesWithScanIff(clusters: seq<Cluster>, k: Service, first: nat)
    requires FirstServing(clusters, k, first)
    ensures Lookup(LastWins(clusters), k) == Some(first) <==> ServedAtMostOnce(clusters, k)
  {
    LastWinsExact(clusters, k);
    var last := LastWins(clusters)[k];
    if last == first {
      forall i, j | 0 <= i < |clusters| && 0 <= j < |clusters| && Serves(clusters[i], k) && Serves(clusters[j], k)
        ensures i == j
      {
        assert i == first && j == first;
      }
    }
  }

  /** A service defined twice is found at different places. */
  lemma {:induction false} DuplicateClustersDisagree()
    ensures exists clusters, k ::
      FirstServing(clusters, k, 0) && Lookup(LastWins(clusters), k) == Some(1)
  {
    var c := Cluster("default", "api" + ":" + Decimal(80));
    var clusters := [c, c];
    var k := Service("default", "api", 80);
    ServiceKeyExact(c.name, "api", 80);
    assert Serves(clusters[0], k) && Serves(clusters[1], k);
    LastWinsExact(clusters, k);
    assert FirstServing(clusters, k, 0);
  }

  ghost function NamespacesServing(clusters: seq<Cluster>, name: string, port: nat): set<string> {
    set i | 0 <= i < |clusters| && ServiceKey(clusters[i].name) == Some((name, port)) :: clusters[i].namespace
  }

  /** The uncompiled search for a unique namespace. */
  method UniqueNamespaceByScan(clusters: seq<Cluster>, name: string, port: nat) returns (r: Option<string>)
    ensures r == OnlyNamespace(NamespacesServing(clusters, name, port))
  {
    r := None;
    for i := 0 to |clusters|
      invariant NamespacesServing(clusters[..i], name, port) == if r.Some? then {r.value} else {}
    {
      ServingExtends(clusters, i, name, port);
      if ServiceKey(clusters[i].name) == Some((name, port)) {
        if r.Some? && r.value != clusters[i].namespace {
          ServingPrefix(clusters, i + 1, name, port);
          TwoNamespaces(NamespacesServing(clusters, name, port), r.value, clusters[i].namespace);
          return None;
        }
        r := Some(clusters[i].namespace);
      }
    }
    assert clusters[..|clusters|] == clusters;
    if r.Some? {
      OnlyOne(r.value);
    }
  }

  lemma {:induction false} ServingExtends(clusters: seq<Cluster>, i: nat, name: string, port: nat)
    requires i < |clusters|
    ensures NamespacesServing(clusters[..i + 1], name, port) == NamespacesServing(clusters[..i], name, port)
              + (if ServiceKey(clusters[i].name) == Some((name, port)) then {clusters[i].namespace} else {})
  {
    var longer, shorter := clusters[..i + 1], clusters[..i];
    assert forall j :: 0 <= j < i ==> longer[j] == shorter[j];
    assert longer[i] == clusters[i];
  }

  lemma {:induction false} ServingPrefix(clusters: seq<Cluster>, i: nat, name: string, port: nat)
    requires i <= |clusters|
    ensures NamespacesServing(clusters[..i], name, port) <= NamespacesServing(clusters, name, port)
  {
    assert forall j :: 0 <= j < i ==> clusters[..i][j] == clusters[j];
  }

  /** The unique-namespace answer of the index is the answer of the full scan, duplicates or not. */
  lemma {:induction false} UniqueNamespaceAgrees(clusters: seq<Cluster>, name: string, port: nat)
    ensures NamespacesIn(LastWins(clusters), name, port) == NamespacesServing(clusters, name, port)
  {
    var contents := LastWins(clusters);
    forall n | n in NamespacesIn(contents, name, port) ensures n in NamespacesServing(clusters, name, port) {
      var k :| k in contents && k.name == name && k.port == port && k.namespace == n;
      LastWinsExact(clusters, k);
    }
    forall n | n in NamespacesServing(clusters, name, port) ensures n in NamespacesIn(contents, name, port) {
      var i :| 0 <= i < |clusters| && ServiceKey(clusters[i].name) == Some((name, port)) && clusters[i].namespace == n;
      var k := Service(n, name, port);
      LastWinsExact(clusters, k);
      assert Serves(clusters[i], k);
    }
  }
}

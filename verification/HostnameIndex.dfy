/**
 The hostname index of a route list: ascending lists of route indices per lower-case host name and
 per wildcard suffix, merged lazily one candidate at a time.
 */
module HostnameIndex {
  import opened Wrappers
  import opened Text
  import opened Hostname
  import opened Sorted

  datatype Index = Index(catchAll: seq<nat>, exact: map<string, seq<nat>>, wildcard: map<string, seq<nat>>)

  /** The bucket of a host name. */
  datatype Bucket = Exact(name: string) | Wild(suffix: string)

  function BucketOf(hostname: string): Bucket {
    var n := Lower(Normalize(hostname));
    match StripWildcard(n)
    case Some(suffix) => Wild(suffix)
    case None => Exact(n)
  }

  function ListIn(m: map<string, seq<nat>>, key: string): seq<nat> { if key in m then m[key] else [] }

  function List(idx: Index, b: Bucket): seq<nat> {
    match b
    case Exact(name) => ListIn(idx.exact, name)
    case Wild(suffix) => ListIn(idx.wildcard, suffix)
  }

  function Push(idx: Index, b: Bucket, r: nat): Index {
    match b
    case Exact(name) => idx.(exact := idx.exact[name := ListIn(idx.exact, name) + [r]])
    case Wild(suffix) => idx.(wildcard := idx.wildcard[suffix := ListIn(idx.wildcard, suffix) + [r]])
  }

  lemma {:induction false} PushExtends(idx: Index, b: Bucket, r: nat)
    ensures Push(idx, b, r).catchAll == idx.catchAll
    ensures forall c: Bucket :: List(Push(idx, b, r), c) == List(idx, c) + (if b == c then [r] else [])
  {
    forall c: Bucket ensures List(Push(idx, b, r), c) == List(idx, c) + (if b == c then [r] else []) {
      match c
      case Exact(_) =>
      case Wild(_) =>
    }
  }

  // ------------------------------------------------------------------------------------------
  // What the index contains
  // ------------------------------------------------------------------------------------------

  /** The buckets of every route's host names. */
  ghost function Rows(hostnames: seq<seq<string>>): (r: seq<seq<Bucket>>)
    ensures |r| == |hostnames| && forall i :: 0 <= i < |r| ==> |r[i]| == |hostnames[i]|
    ensures forall i, k :: 0 <= i < |r| && 0 <= k < |r[i]| ==> r[i][k] == BucketOf(hostnames[i][k])
  {
    seq(|hostnames|, i requires 0 <= i < |hostnames| =>
      seq(|hostnames[i]|, k requires 0 <= k < |hostnames[i]| => BucketOf(hostnames[i][k])))
  }

  /** What has been pushed to bucket `b` after the first `i` routes and `j` host names of the next. */
  ghost function Pushed(rows: seq<seq<Bucket>>, i: nat, j: nat, b: Bucket): seq<nat>
    requires i <= |rows| && (if i == |rows| then j == 0 else j <= |rows[i]|)
    decreases i, j
  {
    if j > 0 then Pushed(rows, i, j - 1, b) + (if rows[i][j - 1] == b then [i] else [])
    else if i > 0 then Pushed(rows, i - 1, |rows[i - 1]|, b)
    else []
  }

  ghost function CatchAll(hostnames: seq<seq<string>>, i: nat): seq<nat>
    requires i <= |hostnames|
  {
    if i == 0 then []
    else CatchAll(hostnames, i - 1) + (if hostnames[i - 1] == [] then [i - 1] else [])
  }

  ghost predicate Indexes(idx: Index, hostnames: seq<seq<string>>) {
    && idx.catchAll == CatchAll(hostnames, |hostnames|)
    && forall b: Bucket :: List(idx, b) == Pushed(Rows(hostnames), |hostnames|, 0, b)
  }

  method Build(hostnames: seq<seq<string>>) returns (idx: Index)
    ensures Indexes(idx, hostnames)
  {
    idx := Index([], map[], map[]);
    for i := 0 to |hostnames|
      invariant idx.catchAll == CatchAll(hostnames, i)
      invariant forall b: Bucket :: List(idx, b) == Pushed(Rows(hostnames), i, 0, b)
    {
      if hostnames[i] == [] {
        idx := idx.(catchAll := idx.catchAll + [i]);
      }
      for j := 0 to |hostnames[i]|
        invariant idx.catchAll == CatchAll(hostnames, i + 1)
        invariant forall b: Bucket :: List(idx, b) == Pushed(Rows(hostnames), i, j, b)
      {
        var b := BucketOf(hostnames[i][j]);
        PushExtends(idx, b, i);
        idx := Push(idx, b, i);
      }
    }
  }

  /** A bucket's list is ascending and names exactly the routes with a host name of that bucket. */
  lemma {:induction false} PushedExact(rows: seq<seq<Bucket>>, i: nat, b: Bucket)
    requires i <= |rows|
    ensures Ascending(Pushed(rows, i, 0, b))
    ensures forall r: nat :: r in Pushed(rows, i, 0, b) <==> r < i && b in rows[r]
    decreases i
  {
    if i > 0 {
      PushedExact(rows, i - 1, b);
      PushedRow(rows, i - 1, |rows[i - 1]|, b);
      assert rows[i - 1][..|rows[i - 1]|] == rows[i - 1];
    }
  }

  lemma {:induction false} PushedRow(rows: seq<seq<Bucket>>, i: nat, j: nat, b: Bucket)
    requires i < |rows| && j <= |rows[i]|
    requires Ascending(Pushed(rows, i, 0, b))
    requires forall r: nat :: r in Pushed(rows, i, 0, b) ==> r < i
    ensures Ascending(Pushed(rows, i, j, b))
    ensures forall r: nat :: r in Pushed(rows, i, j, b) <==>
              r in Pushed(rows, i, 0, b) || (r == i && b in rows[i][..j])
    decreases j
  {
    if j > 0 {
      PushedRow(rows, i, j - 1, b);
      assert rows[i][..j] == rows[i][..j - 1] + [rows[i][j - 1]];
      AppendAscending(Pushed(rows, i, j - 1, b), i);
    }
  }

  lemma {:induction false} CatchAllExact(hostnames: seq<seq<string>>, i: nat)
    requires i <= |hostnames|
    ensures Ascending(CatchAll(hostnames, i))
    ensures forall r: nat :: r in CatchAll(hostnames, i) <==> r < i && hostnames[r] == []
  {
    if i > 0 {
      CatchAllExact(hostnames, i - 1);
      AppendAscending(CatchAll(hostnames, i - 1), i - 1);
    }
  }

  // ------------------------------------------------------------------------------------------
  // The next candidate
  // ------------------------------------------------------------------------------------------

  predicate After(last: Option<nat>, r: nat) { last.None? || r > last.value }

  /** The first index of an ascending list past `last`. */
  function FirstAfter(s: seq<nat>, last: Option<nat>): Option<nat> {
    if s == [] then None
    else if After(last, s[0]) then Some(s[0])
    else FirstAfter(s[1..], last)
  }

  function MinCandidate(a: Option<nat>, b: Option<nat>): Option<nat> {
    if a.Some? && b.Some? then (if b.value < a.value then b else a)
    else if a.Some? then a else b
  }

  /** `r` is the least member of `p` past `last`. */
  ghost predicate Least(p: iset<nat>, last: Option<nat>, r: Option<nat>) {
    match r
    case None => forall i :: i in p ==> !After(last, i)
    case Some(least) => least in p && After(last, least) && forall i :: i in p && After(last, i) ==> least <= i
  }

  lemma {:induction false} FirstAfterLeast(s: seq<nat>, last: Option<nat>)
    requires Ascending(s)
    ensures Least(Members(s), last, FirstAfter(s, last))
  {
    if s != [] {
      FirstAfterLeast(s[1..], last);
      assert forall i :: i in s <==> i == s[0] || i in s[1..];
    }
  }

  lemma {:induction false} MinLeast(p: iset<nat>, q: iset<nat>, last: Option<nat>, a: Option<nat>, b: Option<nat>)
    requires Least(p, last, a) && Least(q, last, b)
    ensures Least(p + q, last, MinCandidate(a, b))
  {
  }

  ghost function Members(s: seq<nat>): iset<nat> { iset i | i in s }

  /** The routes in the wildcard lists of the suffixes behind the first `d` bytes of a host. */
  ghost function WildMembers(idx: Index, lower: string, d: nat): iset<nat>
    requires d <= |lower|
  {
    if d == 0 then iset{}
    else WildMembers(idx, lower, d - 1)
           + (if lower[d - 1] == '.' then Members(ListIn(idx.wildcard, lower[d..])) else iset{})
  }

  /** All candidates of a host. */
  ghost function Candidates(idx: Index, host: Option<string>): iset<nat> {
    Members(idx.catchAll) +
    (if host.None? then iset{}
     else Members(ListIn(idx.exact, Lower(host.value))) + WildMembers(idx, Lower(host.value), |host.value|))
  }

  ghost predicate ListsAscending(idx: Index) {
    Ascending(idx.catchAll) && forall b: Bucket :: Ascending(List(idx, b))
  }

  method NextWildcard(idx: Index, lower: string, last: Option<nat>) returns (next: Option<nat>)
    requires ListsAscending(idx)
    ensures Least(WildMembers(idx, lower, |lower|), last, next)
  {
    next := None;
    for d := 0 to |lower|
      invariant Least(WildMembers(idx, lower, d), last, next)
    {
      if lower[d] == '.' {
        var list := ListIn(idx.wildcard, lower[d + 1..]);
        assert list == List(idx, Wild(lower[d + 1..]));
        FirstAfterLeast(list, last);
        MinLeast(WildMembers(idx, lower, d), Members(list), last, next, FirstAfter(list, last));
        next := MinCandidate(next, FirstAfter(list, last));
      } else {
        assert WildMembers(idx, lower, d + 1) == WildMembers(idx, lower, d);
      }
    }
  }

  /** The least candidate past `last`. */
  method NextCandidate(idx: Index, host: Option<string>, last: Option<nat>) returns (next: Option<nat>)
    requires ListsAscending(idx)
    ensures Least(Candidates(idx, host), last, next)
  {
    next := FirstAfter(idx.catchAll, last);
    FirstAfterLeast(idx.catchAll, last);
    if host.Some? {
      var lower := Lower(host.value);
      var list := ListIn(idx.exact, lower);
      assert list == List(idx, Exact(lower));
      FirstAfterLeast(list, last);
      MinLeast(Members(idx.catchAll), Members(list), last, next, FirstAfter(list, last));
      next := MinCandidate(next, FirstAfter(list, last));
      var wild := NextWildcard(idx, lower, last);
      MinLeast(Members(idx.catchAll) + Members(list), WildMembers(idx, lower, |lower|), last, next, wild);
      next := MinCandidate(next, wild);
      assert Members(idx.catchAll) + Members(list) + WildMembers(idx, lower, |lower|) == Candidates(idx, host);
    } else {
      assert Candidates(idx, host) == Members(idx.catchAll);
    }
  }

  // ------------------------------------------------------------------------------------------
  // Against a linear scan
  // ------------------------------------------------------------------------------------------

  /** What a scan over the routes accepts. */
  ghost predicate Accepts(hostnames: seq<string>, host: Option<string>) {
    hostnames == [] || (host.Some? && exists h :: h in hostnames && Matches(h, host.value))
  }

  lemma {:induction false} WildMembersExact(idx: Index, lower: string, d: nat, r: nat)
    requires d <= |lower|
    ensures r in WildMembers(idx, lower, d) <==>
            exists k :: 0 <= k < d && lower[k] == '.' && r in ListIn(idx.wildcard, lower[k + 1..])
  {
    if d > 0 {
      WildMembersExact(idx, lower, d - 1, r);
    }
  }

  /** A host name covers a host exactly when the host leads to its bucket. */
  lemma {:induction false} MatchesByBucket(h: string, host: string)
    ensures Matches(h, host) <==>
            (BucketOf(h) == Exact(Lower(host))
             || exists k :: 0 <= k < |host| && Lower(host)[k] == '.' && BucketOf(h) == Wild(Lower(host)[k + 1..]))
  {
    var p := Normalize(h);
    LowerStrip(p);
    if StripWildcard(p).Some? {
      SuffixInLowerCase(host, StripWildcard(p).value);
    }
  }

  /** The candidates of the index are exactly the routes a scan accepts. */
  lemma {:induction false} CandidatesExact(idx: Index, hostnames: seq<seq<string>>, host: Option<string>, r: nat)
    requires Indexes(idx, hostnames)
    ensures r in Candidates(idx, host) <==> r < |hostnames| && Accepts(hostnames[r], host)
  {
    var n := |hostnames|;
    CatchAllExact(hostnames, n);
    if host.Some? {
      var lower := Lower(host.value);
      WildMembersExact(idx, lower, |lower|, r);
      PushedExact(Rows(hostnames), n, Exact(lower));
      assert ListIn(idx.exact, lower) == List(idx, Exact(lower));
      forall k | 0 <= k < |lower| && lower[k] == '.'
        ensures r in ListIn(idx.wildcard, lower[k + 1..]) <==> r < n && Wild(lower[k + 1..]) in Rows(hostnames)[r]
      {
        PushedExact(Rows(hostnames), n, Wild(lower[k + 1..]));
        assert ListIn(idx.wildcard, lower[k + 1..]) == List(idx, Wild(lower[k + 1..]));
      }
      if r < n {
        RouteByBuckets(hostnames[r], Rows(hostnames)[r], host.value);
      }
    }
  }

  lemma {:induction false} RouteByBuckets(names: seq<string>, row: seq<Bucket>, host: string)
    requires |row| == |names| && forall i :: 0 <= i < |row| ==> row[i] == BucketOf(names[i])
    ensures (exists h :: h in names && Matches(h, host)) <==>
            (Exact(Lower(host)) in row
             || exists k :: 0 <= k < |host| && Lower(host)[k] == '.' && Wild(Lower(host)[k + 1..]) in row)
  {
    forall i | 0 <= i < |names|
      ensures Matches(names[i], host) <==>
              (row[i] == Exact(Lower(host))
               || exists k :: 0 <= k < |host| && Lower(host)[k] == '.' && row[i] == Wild(Lower(host)[k + 1..]))
    {
      MatchesByBucket(names[i], host);
    }
  }

  lemma {:induction false} IndexedListsAscend(idx: Index, hostnames: seq<seq<string>>)
    requires Indexes(idx, hostnames)
    ensures ListsAscending(idx)
  {
    CatchAllExact(hostnames, |hostnames|);
    forall b: Bucket ensures Ascending(List(idx, b)) {
      PushedExact(Rows(hostnames), |hostnames|, b);
    }
  }

  /** Visiting through the index terminates and visits exactly the accepted routes, each once and
      in ascending order. */
  method CandidateIndices(idx: Index, ghost hostnames: seq<seq<string>>, requestHost: Option<string>)
    returns (visited: seq<nat>)
    requires Indexes(idx, hostnames)
    ensures StrictlyAscending(visited)
    ensures
      var host := if requestHost.Some? then Some(Normalize(requestHost.value)) else None;
      forall r: nat :: r in visited <==> r < |hostnames| && Accepts(hostnames[r], host)
  {
    var host := if requestHost.Some? then Some(Normalize(requestHost.value)) else None;
    IndexedListsAscend(idx, hostnames);
    forall r: nat ensures r in Candidates(idx, host) <==> r < |hostnames| && Accepts(hostnames[r], host) {
      CandidatesExact(idx, hostnames, host, r);
    }
    ghost var p := Candidates(idx, host);
    visited := [];
    var last: Option<nat> := None;
    var next := NextCandidate(idx, host, last);
    while next.Some?
      invariant StrictlyAscending(visited) && Least(p, last, next)
      invariant forall r: nat :: r in visited <==> r in p && !After(last, r)
      invariant last.Some? ==> last.value < |hostnames|
      decreases |hostnames| - (if last.Some? then last.value + 1 else 0)
    {
      VisitNext(p, visited, last, next.value);
      visited := visited + [next.value];
      last := next;
      next := NextCandidate(idx, host, last);
    }
  }

  lemma {:induction false} VisitNext(p: iset<nat>, visited: seq<nat>, last: Option<nat>, next: nat)
    requires StrictlyAscending(visited) && Least(p, last, Some(next))
    requires forall r: nat :: r in visited <==> r in p && !After(last, r)
    ensures StrictlyAscending(visited + [next])
    ensures forall r: nat :: r in visited + [next] <==> r in p && !After(Some(next), r)
  {
    AppendStrictly(visited, next);
  }
}

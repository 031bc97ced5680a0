/** The listeners that match a request, found by scanning or through the indexes. */
module HttpCandidates {
  import opened Wrappers
  import opened Sorted
  import opened Ranking
  import opened HttpRoutes
  import opened HttpIndexes
  import HostnameIndex

  /** `ready` says whether the indexes may be used. */
  datatype Snapshot = Snapshot(config: Config, ready: bool, hosts: HostnameIndex.Index, ports: PortIndex,
                               attachments: AttachmentIndex, fullHeaders: bool, sourceIp: bool)

  function Hostnames(routes: seq<Route>): (r: seq<seq<string>>)
    ensures |r| == |routes| && forall i :: 0 <= i < |routes| ==> r[i] == routes[i].hostnames
  {
    seq(|routes|, i requires 0 <= i < |routes| => routes[i].hostnames)
  }

  /** What the index builders establish. */
  ghost predicate IndexesBuilt(s: Snapshot) {
    && HostnameIndex.Indexes(s.hosts, Hostnames(s.config.routes))
    && (forall port: nat :: PortListed(PortList(s.ports, port), s.config.listeners, |s.config.listeners|, port))
    && AttachmentIndexed(s.attachments, s.config.listeners)
  }

  method CandidateListeners(s: Snapshot, port: nat) returns (list: seq<nat>)
    requires s.ready ==> IndexesBuilt(s)
    ensures StrictlyAscending(list)
    ensures forall l: nat :: l in list <==> Candidate(s.config, port, l)
  {
    var c := s.config;
    if !s.ready || port == 0 {
      list := [];
      for i := 0 to |c.listeners|
        invariant StrictlyAscending(list)
        invariant forall l: nat :: l in list <==> l < i && Candidate(c, port, l)
      {
        if IsHttp(c.listeners[i].protocol) && (port == 0 || c.listeners[i].port == port) {
          AppendStrictly(list, i);
          list := list + [i];
        }
      }
    } else {
      list := PortList(s.ports, port);
      assert PortListed(list, c.listeners, |c.listeners|, port);
    }
  }

  /** `top` holds the best scored of `seen`, in order. */
  ghost predicate TopOf(c: Config, host: Option<string>, seen: seq<nat>, best: Option<HostScore>, top: seq<nat>) {
    && StrictlyAscending(top)
    && (forall l: nat :: l in top <==> l in seen && best.Some? && ScoreFor(c, host, l) == best)
    && (best.Some? ==> top != [])
    && forall l: nat :: l in seen && ScoreFor(c, host, l).Some? ==>
         best.Some? && !HostLess(best.value, ScoreFor(c, host, l).value)
  }

  lemma {:induction false} TopStep(c: Config, host: Option<string>, seen: seq<nat>, best: Option<HostScore>,
                                   top: seq<nat>, l: nat)
    requires StrictlyAscending(seen + [l]) && TopOf(c, host, seen, best, top)
    ensures
      var score := ScoreFor(c, host, l);
      if score.None? || (best.Some? && HostLess(score.value, best.value)) then TopOf(c, host, seen + [l], best, top)
      else if score == best then TopOf(c, host, seen + [l], best, top + [l])
      else TopOf(c, host, seen + [l], score, [l])
  {
    var score := ScoreFor(c, host, l);
    SeenBefore(seen, l);
    if score.None? || (best.Some? && HostLess(score.value, best.value)) {
      TopKept(c, host, seen, best, top, l);
    } else if score == best {
      TopShared(c, host, seen, best, top, l);
    } else {
      TopBeaten(c, host, seen, best, top, l);
    }
  }

  lemma {:induction false} SeenBefore(seen: seq<nat>, l: nat)
    requires StrictlyAscending(seen + [l])
    ensures forall x: nat :: x in seen + [l] <==> x in seen || x == l
    ensures forall x :: x in seen ==> x < l
  {
    forall x | x in seen ensures x < l {
      var k :| 0 <= k < |seen| && seen[k] == x;
      assert (seen + [l])[k] == x && (seen + [l])[|seen|] == l;
    }
  }

  lemma {:induction false} TopKept(c: Config, host: Option<string>, seen: seq<nat>, best: Option<HostScore>,
                                   top: seq<nat>, l: nat)
    requires TopOf(c, host, seen, best, top) && forall x: nat :: x in seen + [l] <==> x in seen || x == l
    requires ScoreFor(c, host, l).None? || (best.Some? && HostLess(ScoreFor(c, host, l).value, best.value))
    ensures TopOf(c, host, seen + [l], best, top)
  {
  }

  lemma {:induction false} TopShared(c: Config, host: Option<string>, seen: seq<nat>, best: Option<HostScore>,
                                     top: seq<nat>, l: nat)
    requires TopOf(c, host, seen, best, top) && forall x: nat :: x in seen + [l] <==> x in seen || x == l
    requires ScoreFor(c, host, l) == best && best.Some? && forall x :: x in seen ==> x < l
    ensures TopOf(c, host, seen + [l], best, top + [l])
  {
    AppendStrictly(top, l);
  }

  lemma {:induction false} TopBeaten(c: Config, host: Option<string>, seen: seq<nat>, best: Option<HostScore>,
                                     top: seq<nat>, l: nat)
    requires TopOf(c, host, seen, best, top) && forall x: nat :: x in seen + [l] <==> x in seen || x == l
    requires ScoreFor(c, host, l).Some? && forall x :: x in seen ==> x < l
    requires best.Some? ==> HostLess(best.value, ScoreFor(c, host, l).value)
    ensures TopOf(c, host, seen + [l], ScoreFor(c, host, l), [l])
  {
  }

  /** The candidate listeners with the best host score, in order. */
  method MatchedListeners(s: Snapshot, q: Query) returns (top: seq<nat>, enforce: bool)
    requires s.ready ==> IndexesBuilt(s)
    ensures enforce <==> Enforced(s.config, q.port)
    ensures StrictlyAscending(top)
    ensures forall l: nat :: l in top <==> Top(s.config, q, l)
  {
    var c := s.config;
    var list := CandidateListeners(s, q.port);
    enforce := list != [];
    assert enforce ==> list[0] in list;
    top := [];
    var best: Option<HostScore> := None;
    for k := 0 to |list|
      invariant TopOf(c, q.host, list[..k], best, top)
    {
      assert list[..k + 1] == list[..k] + [list[k]];
      TopStep(c, q.host, list[..k], best, top, list[k]);
      var score := ScoreFor(c, q.host, list[k]);
      if score.Some? {
        if best.Some? && HostLess(score.value, best.value) {
        } else if best == score {
          top := top + [list[k]];
        } else {
          best := score;
          top := [list[k]];
        }
      }
    }
    assert list[..|list|] == list;
    TopIsBest(c, q, list, best, top);
  }

  lemma {:induction false} TopIsBest(c: Config, q: Query, list: seq<nat>, best: Option<HostScore>, top: seq<nat>)
    requires forall l: nat :: l in list <==> Candidate(c, q.port, l)
    requires TopOf(c, q.host, list, best, top)
    ensures forall l: nat :: l in top <==> Top(c, q, l)
  {
    forall l: nat ensures l in top <==> Top(c, q, l) {
      if Top(c, q, l) {
        var t := top[0];
        assert t in top && Candidate(c, q.port, t);
      }
    }
  }

  /** The listener a route is served on: the last of the matched ones that attach it. */
  method RouteListenerMatch(s: Snapshot, q: Query, top: seq<nat>, enforce: bool, route: Route) returns (m: Option<nat>)
    requires s.ready ==> IndexesBuilt(s)
    requires enforce <==> Enforced(s.config, q.port)
    requires StrictlyAscending(top)
    requires forall l: nat :: l in top <==> Top(s.config, q, l)
    ensures m == RouteListener(s.config, q, route)
  {
    m := None;
    if !enforce {
      return;
    }
    var c := s.config;
    assert forall k :: 0 <= k < |top| ==> top[k] in top;
    for k := 0 to |top|
      invariant m.Some? ==> m.value in top[..k] && Attached(c.listeners[m.value], route.namespace, route.name)
      invariant forall i :: 0 <= i < k && Attached(c.listeners[top[i]], route.namespace, route.name) ==>
                  m.Some? && top[i] <= m.value
    {
      var attached :=
        if s.ready then top[k] in AttachmentList(s.attachments, route.namespace, route.name)
        else Attached(c.listeners[top[k]], route.namespace, route.name);
      if attached {
        m := Some(top[k]);
      }
    }
    LastAttached(c, q, top, route, m);
  }

  lemma {:induction false} LastAttached(c: Config, q: Query, top: seq<nat>, route: Route, m: Option<nat>)
    requires Enforced(c, q.port)
    requires forall l: nat :: l in top <==> Top(c, q, l)
    requires forall i :: 0 <= i < |top| ==> top[i] < |c.listeners|
    requires m.Some? ==> m.value in top && Attached(c.listeners[m.value], route.namespace, route.name)
    requires forall i :: 0 <= i < |top| && Attached(c.listeners[top[i]], route.namespace, route.name) ==>
               m.Some? && top[i] <= m.value
    ensures m == RouteListener(c, q, route)
  {
    var r := RouteListener(c, q, route);
    if r.Some? {
      assert r.value in top;
    }
  }
}

/** The listener indexes: by port, and by attached route. */
module HttpIndexes {
  import opened Wrappers
  import opened Text
  import opened Sorted
  import opened HttpRoutes

  // ------------------------------------------------------------------------------------------
  // By port
  // ------------------------------------------------------------------------------------------

  type PortIndex = map<nat, seq<nat>>

  function PortList(idx: PortIndex, port: nat): seq<nat> { if port in idx then idx[port] else [] }

  /** `list` names exactly the HTTP listeners of a port among the first `n`, in order. */
  ghost predicate PortListed(list: seq<nat>, listeners: seq<Listener>, n: nat, port: nat)
    requires n <= |listeners|
  {
    && StrictlyAscending(list)
    && forall l: nat :: l in list <==> l < n && IsHttp(listeners[l].protocol) && listeners[l].port == port
  }

  method BuildPortIndex(listeners: seq<Listener>) returns (idx: PortIndex)
    ensures forall port: nat :: PortListed(PortList(idx, port), listeners, |listeners|, port)
  {
    idx := map[];
    for i := 0 to |listeners|
      invariant forall port: nat :: PortListed(PortList(idx, port), listeners, i, port)
    {
      ghost var before := idx;
      var p := listeners[i].port;
      if IsHttp(listeners[i].protocol) {
        idx := idx[p := PortList(idx, p) + [i]];
      }
      forall port: nat ensures PortListed(PortList(idx, port), listeners, i + 1, port) {
        assert PortListed(PortList(before, port), listeners, i, port);
        AppendStrictly(PortList(before, port), i);
      }
    }
  }

  // ------------------------------------------------------------------------------------------
  // By attached route
  // ------------------------------------------------------------------------------------------

  type AttachmentIndex = map<string, map<string, seq<nat>>>

  function ListenersForRoute(idx: AttachmentIndex, namespace: string, name: string): Option<seq<nat>> {
    if namespace in idx && name in idx[namespace] then Some(idx[namespace][name]) else None
  }

  function AttachmentList(idx: AttachmentIndex, namespace: string, name: string): seq<nat> {
    match ListenersForRoute(idx, namespace, name)
    case Some(list) => list
    case None => []
  }

  function Push(idx: AttachmentIndex, namespace: string, name: string, l: nat): (r: AttachmentIndex)
    ensures forall ns, n :: AttachmentList(r, ns, n) ==
              AttachmentList(idx, ns, n) + (if ns == namespace && n == name then [l] else [])
  {
    var inner := if namespace in idx then idx[namespace] else map[];
    idx[namespace := inner[name := AttachmentList(idx, namespace, name) + [l]]]
  }

  /** Drops repeated neighbours. */
  function Dedup(s: seq<nat>): (r: seq<nat>)
    ensures forall x :: x in r <==> x in s
    ensures Ascending(s) ==> StrictlyAscending(r)
    ensures s != [] ==> r != [] && r[|r| - 1] == s[|s| - 1]
  {
    if |s| <= 1 then s
    else
      var n := |s| - 1;
      var rest := Dedup(s[..n]);
      assert s == s[..n] + [s[n]];
      if s[n] == s[n - 1] then rest
      else
        assert Ascending(s) ==> forall x :: x in s[..n] ==> x < s[n] by {
          if Ascending(s) {
            forall x | x in s[..n] ensures x < s[n] {
              assert s[n - 1] < s[n];
            }
          }
        }
        assert Ascending(s) ==> StrictlyAscending(rest + [s[n]]) by {
          if Ascending(s) {
            AppendStrictly(rest, s[n]);
          }
        }
        rest + [s[n]]
  }

  /** `list` is ascending and names the listeners that attach the route: all of the first `i`, and
      the `i`-th if it does so among its first `j` attachments. */
  ghost predicate AttachedSoFar(list: seq<nat>, listeners: seq<Listener>, i: nat, j: nat, namespace: string,
                                name: string)
    requires i <= |listeners| && (if i == |listeners| then j == 0 else j <= |listeners[i].attachedRoutes|)
  {
    && Ascending(list)
    && forall l: nat :: l in list <==>
         || (l < i && Attached(listeners[l], namespace, name))
         || (l == i && exists a :: a in (if j == 0 then [] else listeners[i].attachedRoutes[..j])
                                   && SplitOnce(a, '/') == Some((namespace, name)))
  }

  lemma {:induction false} AttachedStep(list: seq<nat>, listeners: seq<Listener>, i: nat, j: nat, namespace: string,
                                        name: string)
    requires i < |listeners| && j < |listeners[i].attachedRoutes|
    requires AttachedSoFar(list, listeners, i, j, namespace, name)
    ensures
      var hit := SplitOnce(listeners[i].attachedRoutes[j], '/') == Some((namespace, name));
      AttachedSoFar(list + (if hit then [i] else []), listeners, i, j + 1, namespace, name)
  {
    var all := listeners[i].attachedRoutes;
    assert all[..j + 1] == all[..j] + [all[j]];
    assert forall k :: 0 <= k < |list| ==> list[k] in list;
    assert list + [] == list;
  }

  lemma {:induction false} AttachedRow(list: seq<nat>, listeners: seq<Listener>, i: nat, namespace: string,
                                       name: string)
    requires i < |listeners|
    requires AttachedSoFar(list, listeners, i, |listeners[i].attachedRoutes|, namespace, name)
    ensures AttachedSoFar(list, listeners, i + 1, 0, namespace, name)
  {
    var all := listeners[i].attachedRoutes;
    assert all[..|all|] == all;
  }

  /** `idx` lists for every route exactly the listeners it is attached to, in order and once each. */
  ghost predicate AttachmentIndexed(idx: AttachmentIndex, listeners: seq<Listener>) {
    forall namespace, name ::
      && StrictlyAscending(AttachmentList(idx, namespace, name))
      && forall l: nat :: l in AttachmentList(idx, namespace, name) <==>
                          l < |listeners| && Attached(listeners[l], namespace, name)
  }

  /** The lists come out ascending, so that sorting them before the removal of duplicates changes
      nothing. */
  method FromListeners(listeners: seq<Listener>) returns (idx: AttachmentIndex)
    ensures AttachmentIndexed(idx, listeners)
  {
    var routes: AttachmentIndex := map[];
    for i := 0 to |listeners|
      invariant forall ns, n :: AttachedSoFar(AttachmentList(routes, ns, n), listeners, i, 0, ns, n)
    {
      var all := listeners[i].attachedRoutes;
      for j := 0 to |all|
        invariant forall ns, n :: AttachedSoFar(AttachmentList(routes, ns, n), listeners, i, j, ns, n)
      {
        ghost var before := routes;
        var parts := SplitOnce(all[j], '/');
        if parts.Some? {
          routes := Push(routes, parts.value.0, parts.value.1, i);
        }
        forall ns, n ensures AttachedSoFar(AttachmentList(routes, ns, n), listeners, i, j + 1, ns, n) {
          AttachedStep(AttachmentList(before, ns, n), listeners, i, j, ns, n);
          assert AttachmentList(before, ns, n) + [] == AttachmentList(before, ns, n);
        }
      }
      forall ns, n ensures AttachedSoFar(AttachmentList(routes, ns, n), listeners, i + 1, 0, ns, n) {
        AttachedRow(AttachmentList(routes, ns, n), listeners, i, ns, n);
      }
    }
    idx := map ns | ns in routes :: map n | n in routes[ns] :: Dedup(routes[ns][n]);
    forall ns, n ensures
        && StrictlyAscending(AttachmentList(idx, ns, n))
        && forall l: nat :: l in AttachmentList(idx, ns, n) <==> l < |listeners| && Attached(listeners[l], ns, n)
    {
      assert AttachmentList(idx, ns, n) == Dedup(AttachmentList(routes, ns, n));
      assert AttachedSoFar(AttachmentList(routes, ns, n), listeners, |listeners|, 0, ns, n);
    }
  }
}

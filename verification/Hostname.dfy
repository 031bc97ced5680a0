/** Host names: normalisation and wildcard matching, on bytes. */
module Hostname {
  import opened Wrappers
  import opened Text

  predicate EqIgnoreCase(a: string, b: string) { Lower(a) == Lower(b) }

  /** Drops a port and the brackets of an IPv6 literal. */
  function Normalize(host: string): string {
    if host != "" && host[0] == '[' then
      match SplitOnce(host[1..], ']')
      case Some((inside, _)) => inside
      case None => host[1..]
    else
      match SplitOnce(host, ':')
      case Some((name, _)) => name
      case None => host
  }

  /** No port and no bracket to drop. */
  predicate Plain(host: string) { ':' !in host && (host == "" || host[0] != '[') }

  /** Normalising leaves exactly the plain hosts alone; it need not give one. */
  lemma {:induction false} NormalizeFixed(host: string)
    ensures Normalize(host) == host <==> Plain(host)
  {
    if host != "" && host[0] == '[' {
      var split := SplitOnce(host[1..], ']');
      if split.Some? {
        SplitOnceExact(host[1..], ']', split.value.0, split.value.1);
      }
    } else {
      var split := SplitOnce(host, ':');
      NoSplit(host, ':');
      if split.Some? {
        SplitOnceExact(host, ':', split.value.0, split.value.1);
      }
    }
  }

  lemma {:induction false} NormalizeWithPort(name: string, port: string)
    requires Plain(name)
    ensures Normalize(name + ":" + port) == name
  {
    SplitOnceExact(name + ":" + port, ':', name, port);
    assert name != "" ==> (name + ":" + port)[0] == name[0];
  }

  lemma {:induction false} NormalizeBracketed(inside: string, rest: string)
    requires ']' !in inside
    ensures Normalize("[" + inside + "]" + rest) == inside
  {
    var host := "[" + inside + "]" + rest;
    assert host[1..] == inside + "]" + rest;
    SplitOnceExact(host[1..], ']', inside, rest);
  }

  /** What follows a leading `*.`. */
  function StripWildcard(pattern: string): Option<string> {
    if |pattern| >= 2 && pattern[0] == '*' && pattern[1] == '.' then Some(pattern[2..]) else None
  }

  lemma {:induction false} StripWildcardExact(pattern: string, suffix: string)
    ensures StripWildcard(pattern) == Some(suffix) <==> pattern == "*." + suffix
  {
    if StripWildcard(pattern) == Some(suffix) {
      assert pattern == pattern[..2] + pattern[2..];
    }
  }

  predicate EndsWithLabelSuffix(host: string, suffix: string) {
    && |host| > |suffix|
    && host[|host| - |suffix| - 1] == '.'
    && EqIgnoreCase(host[|host| - |suffix|..], suffix)
  }

  /** Whether a listener or route host name covers a request host. */
  predicate Matches(pattern: string, host: string) {
    var p := Normalize(pattern);
    match StripWildcard(p)
    case Some(suffix) => EndsWithLabelSuffix(host, suffix)
    case None => EqIgnoreCase(p, host)
  }

  /** Lower case commutes with taking the wildcard apart. */
  lemma {:induction false} LowerStrip(p: string)
    ensures StripWildcard(Lower(p)) ==
      match StripWildcard(p)
      case Some(suffix) => Some(Lower(suffix))
      case None => None
  {
    if |p| >= 2 && p[0] == '*' && p[1] == '.' {
      assert Lower(p)[2..] == Lower(p[2..]);
    }
  }

  /** A host has a suffix after a dot exactly when the lower-case forms do. */
  lemma {:induction false} SuffixInLowerCase(host: string, suffix: string)
    ensures EndsWithLabelSuffix(host, suffix) <==>
      exists d :: 0 <= d < |host| && Lower(host)[d] == '.' && Lower(host)[d + 1..] == Lower(suffix)
  {
    if EndsWithLabelSuffix(host, suffix) {
      var d := |host| - |suffix| - 1;
      assert Lower(host)[d] == '.';
      assert Lower(host)[d + 1..] == Lower(host[d + 1..]);
    }
    if d :| 0 <= d < |host| && Lower(host)[d] == '.' && Lower(host)[d + 1..] == Lower(suffix) {
      assert |Lower(host)[d + 1..]| == |suffix|;
      assert d == |host| - |suffix| - 1;
      assert Lower(host)[d + 1..] == Lower(host[d + 1..]);
    }
  }
}

/** The chunked reader that collects the client preface before the server name is read. */
module Preface {
  import opened Wrappers
  import opened Sni

  const LIMIT: nat := 4096
  const CHUNK: nat := 1024

  /** What one read does: deliver up to `n` bytes (none once the peer has closed), fail, or time out. */
  datatype ReadOutcome = Got(n: nat) | Failed | TimedOut

  datatype Result = Collected(bytes: Bytes) | IoError | Timeout | ClosedEarly

  function Min(a: nat, b: nat): nat { if a < b then a else b }

  /** The bytes a read delivers into a buffer of `room` bytes with `left` bytes still to come. */
  function Delivered(n: nat, room: nat, left: nat): nat { Min(Min(if n == 0 then 1 else n, room), left) }

  /** A read can deliver any number of bytes that fit and are there, and none only at the end. */
  lemma {:induction false} DeliversAny(n: nat, room: nat, left: nat)
    ensures n <= room && n <= left && (n > 0 || left == 0) ==> Delivered(n, room, left) == n
    ensures Delivered(n, room, left) <= room && Delivered(n, room, left) <= left
    ensures Delivered(n, room, left) == 0 <==> room == 0 || left == 0
  {
  }

  /** The record is known to be complete, or the input is known not to be a TLS record. */
  predicate Enough(buf: Bytes) {
    match RecordLength(buf)
    case Some(expected) => |buf| >= expected
    case None => |buf| >= 5
  }

  /** The name that a collected preface gives for the stream it came from. */
  function NameFor(whole: Bytes, utf8: Bytes -> bool): Option<Bytes> {
    if RecordLength(whole).Some? && RecordLength(whole).value > LIMIT then None else Extract(whole, utf8)
  }

  /** All reads before the `i`-th have delivered. */
  ghost predicate Delivering(script: seq<ReadOutcome>, i: nat) {
    i <= |script| && forall k :: 0 <= k < i ==> script[k].Got?
  }

  /** The last read, of at most 1024 bytes, was needed: what was there before it was not enough. */
  ghost predicate LastReadNeeded(bytes: Bytes) {
    exists k :: 0 <= k <= |bytes| <= k + 1024 && !Enough(bytes[..k])
  }

  /** For every way of cutting the stream into reads: the result is a non-empty prefix of at most
      4096 bytes, no longer than needed, and the server name read from it is the one of the whole stream
      unless the first record is longer than the limit, when it is none. */
  method ReadPreface(whole: Bytes, script: seq<ReadOutcome>, ghost utf8: Bytes -> bool) returns (r: Result)
    ensures r.Collected? ==> r.bytes <= whole && 0 < |r.bytes| <= 4096 && LastReadNeeded(r.bytes)
    ensures r.Collected? ==> Enough(r.bytes) || r.bytes == whole || |r.bytes| == 4096
    ensures r.Collected? ==> Extract(r.bytes, utf8) == NameFor(whole, utf8)
    ensures r.ClosedEarly? ==> whole == []
    ensures r.IoError? ==> exists i :: 0 <= i < |script| && script[i].Failed? && Delivering(script, i)
    ensures r.Timeout? ==>
      Delivering(script, |script|) || exists i :: 0 <= i < |script| && script[i].TimedOut? && Delivering(script, i)
    ensures |script| >= LIMIT && (forall i :: 0 <= i < |script| ==> script[i].Got?) ==> r.Collected? || r.ClosedEarly?
  {
    var buf: Bytes := [];
    var i := 0;
    while |buf| < LIMIT
      invariant buf <= whole && i <= |buf| <= LIMIT && i <= |script|
      invariant !Enough(buf)
      invariant |buf| >= 5 ==> RecordLength(buf).Some?
      invariant Delivering(script, i) && (buf != [] ==> LastReadNeeded(buf))
      decreases LIMIT - |buf|
    {
      if i == |script| {
        return Timeout;
      }
      match script[i]
      case Failed => return IoError;
      case TimedOut => return Timeout;
      case Got(n) =>
        var room := Min(LIMIT - |buf|, CHUNK);
        var read := Delivered(n, room, |whole| - |buf|);
        i := i + 1;
        if read == 0 {
          assert buf == whole;
          SameStream(whole, utf8);
          return if buf == [] then ClosedEarly else Collected(buf);
        }
        ghost var before := buf;
        buf := buf + whole[|buf|..|buf| + read];
        assert buf[..|before|] == before;
        if Enough(buf) {
          EnoughSuffices(buf, whole, utf8);
          return Collected(buf);
        }
    }
    TooLong(buf, whole, utf8);
    r := Collected(buf);
  }

  lemma {:induction false} SameStream(whole: Bytes, utf8: Bytes -> bool)
    requires |whole| < LIMIT
    ensures Extract(whole, utf8) == NameFor(whole, utf8)
  {
  }

  lemma {:induction false} EnoughSuffices(buf: Bytes, whole: Bytes, utf8: Bytes -> bool)
    requires buf <= whole && |buf| <= LIMIT && Enough(buf)
    ensures Extract(buf, utf8) == NameFor(whole, utf8)
  {
    assert |buf| >= 5 && buf[..5] == whole[..5];
    assert buf[0] == whole[0] && buf[3] == whole[3] && buf[4] == whole[4];
    if RecordLength(buf).Some? {
      OnlyTheRecordMatters(buf, whole, utf8);
    }
  }

  lemma {:induction false} TooLong(buf: Bytes, whole: Bytes, utf8: Bytes -> bool)
    requires buf <= whole && |buf| == LIMIT && RecordLength(buf).Some? && !Enough(buf)
    ensures Extract(buf, utf8) == NameFor(whole, utf8) == None
  {
    assert buf[..5] == whole[..5];
    assert buf[0] == whole[0] && buf[3] == whole[3] && buf[4] == whole[4];
  }
}

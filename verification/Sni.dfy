/**
 Reading the server name out of a TLS ClientHello: the record layer (section 5.1 of RFC 8446), the
 ClientHello (section 4.1.2 of RFC 8446) and the server_name extension (section 3 of RFC 6066).
 Whether bytes are valid UTF-8 is a parameter.
 */
module Sni {
  import opened Wrappers
  import opened Ints

  type Bytes = seq<byte>

  const HANDSHAKE_RECORD: byte := 22
  const CLIENT_HELLO: byte := 1
  const SERVER_NAME: nat := 0
  const HOST_NAME: byte := 0

  // ------------------------------------------------------------------------------------------
  // The parser
  // ------------------------------------------------------------------------------------------

  function Be16(hi: nat, lo: nat): nat { 256 * hi + lo }
  function Be24(hi: nat, mid: nat, lo: nat): nat { 65536 * hi + 256 * mid + lo }

  function ReadU16(p: Bytes): Option<nat> {
    if |p| < 2 then None else Some(Be16(p[0], p[1]))
  }

  /** `p[from..to]` when in bounds. */
  function Get(p: Bytes, from: nat, to: nat): Option<Bytes> {
    if from <= to <= |p| then Some(p[from..to]) else None
  }

  function GetFrom(p: Bytes, from: nat): Option<Bytes> {
    if from <= |p| then Some(p[from..]) else None
  }

  function RecordLength(p: Bytes): Option<nat> {
    if |p| < 5 || p[0] != HANDSHAKE_RECORD then None else Some(5 + Be16(p[3], p[4]))
  }

  function ParseRecord(p: Bytes): Option<Bytes> {
    match RecordLength(p)
    case None => None
    case Some(n) => if |p| < n then None else Some(p[5..n])
  }

  function ParseHello(p: Bytes): Option<Bytes> {
    if |p| < 4 || p[0] != CLIENT_HELLO then None
    else
      var n := Be24(p[1], p[2], p[3]);
      if |p| < 4 + n then None else Some(p[4..4 + n])
  }

  /** Skips a vector with a length prefix of one or two bytes. */
  function SkipVector(p: Bytes, lengthBytes: nat): Option<Bytes> {
    if lengthBytes == 1 then
      if |p| < 1 then None else GetFrom(p, 1 + p[0] as int)
    else if lengthBytes == 2 then
      match ReadU16(p)
      case None => None
      case Some(n) => GetFrom(p, 2 + n)
    else None
  }

  /** The payload of the first server_name extension. */
  function FindServerName(p: Bytes): Option<Bytes> {
    if |p| < 4 then None
    else
      var n := Be16(p[2], p[3]);
      if 4 + n > |p| then None
      else if Be16(p[0], p[1]) == SERVER_NAME then Some(p[4..4 + n])
      else FindServerName(p[4 + n..])
  }

  /** The first host_name of a name list. */
  function FindHostName(p: Bytes): Option<Bytes> {
    if |p| < 3 then None
    else
      var n := Be16(p[1], p[2]);
      if 3 + n > |p| then None
      else if p[0] == HOST_NAME then Some(p[3..3 + n])
      else FindHostName(p[3 + n..])
  }

  /** The extension block of a ClientHello body. */
  function Extensions(body: Bytes): Option<Bytes> {
    if |body| < 34 then None
    else
      match SkipVector(body[34..], 1)
      case None => None
      case Some(a) =>
        match SkipVector(a, 2)
        case None => None
        case Some(b) =>
          match SkipVector(b, 1)
          case None => None
          case Some(c) =>
            match ReadU16(c)
            case None => None
            case Some(n) => Get(c, 2, 2 + n)
  }

  function NameList(payload: Bytes): Option<Bytes> {
    match ReadU16(payload)
    case None => None
    case Some(n) => Get(payload, 2, 2 + n)
  }

  function HostIn(payload: Bytes, utf8: Bytes -> bool): Option<Bytes> {
    match NameList(payload)
    case None => None
    case Some(list) =>
      match FindHostName(list)
      case None => None
      case Some(name) => if utf8(name) then Some(name) else None
  }

  function ServerNameIn(body: Bytes, utf8: Bytes -> bool): Option<Bytes> {
    match Extensions(body)
    case None => None
    case Some(block) =>
      match FindServerName(block)
      case None => None
      case Some(payload) => HostIn(payload, utf8)
  }

  function Extract(p: Bytes, utf8: Bytes -> bool): Option<Bytes> {
    match ParseRecord(p)
    case None => None
    case Some(record) =>
      match ParseHello(record)
      case None => None
      case Some(body) => ServerNameIn(body, utf8)
  }

  /** The extension loop, on a cursor that moves forward. */
  method ParseServerNameExtension(body: Bytes, utf8: Bytes -> bool) returns (r: Option<Bytes>)
    ensures r == ServerNameIn(body, utf8)
  {
    var block := Extensions(body);
    if block.None? {
      return None;
    }
    var cursor := block.value;
    while |cursor| >= 4
      invariant FindServerName(cursor) == FindServerName(block.value)
      decreases |cursor|
    {
      var extType := ReadU16(cursor).value;
      var extLen := ReadU16(cursor[2..]).value;
      var payload := Get(cursor, 4, 4 + extLen);
      if payload.None? {
        return None;
      }
      if extType == SERVER_NAME {
        r := ParseServerNameList(payload.value, utf8);
        return;
      }
      cursor := cursor[4 + extLen..];
    }
    r := None;
  }

  /** The name list loop. */
  method ParseServerNameList(payload: Bytes, utf8: Bytes -> bool) returns (r: Option<Bytes>)
    ensures r == HostIn(payload, utf8)
  {
    var list := NameList(payload);
    if list.None? {
      return None;
    }
    var cursor := list.value;
    while |cursor| >= 3
      invariant FindHostName(cursor) == FindHostName(list.value)
      decreases |cursor|
    {
      var nameLen := ReadU16(cursor[1..]).value;
      var name := Get(cursor, 3, 3 + nameLen);
      if name.None? {
        return None;
      }
      if cursor[0] == HOST_NAME {
        return if utf8(name.value) then name else None;
      }
      cursor := cursor[3 + nameLen..];
    }
    r := None;
  }

  method ExtractServerName(p: Bytes, utf8: Bytes -> bool) returns (r: Option<Bytes>)
    ensures r == Extract(p, utf8)
  {
    var record := ParseRecord(p);
    if record.None? {
      return None;
    }
    var body := ParseHello(record.value);
    if body.None? {
      return None;
    }
    r := ParseServerNameExtension(body.value, utf8);
  }

  // ------------------------------------------------------------------------------------------
  // The wire format
  // ------------------------------------------------------------------------------------------

  datatype Extension = Extension(kind: nat, payload: Bytes)
  datatype Name = Name(kind: byte, bytes: Bytes)

  function U16(n: nat): Bytes { [(n / 256) % 256, n % 256] }
  function U24(n: nat): Bytes { [(n / 65536) % 256, (n / 256) % 256, n % 256] }

  function Vector8(p: Bytes): Bytes { [|p| % 256] + p }
  function Vector16(p: Bytes): Bytes { U16(|p|) + p }

  function EncodeExtension(e: Extension): Bytes { U16(e.kind) + Vector16(e.payload) }
  function EncodeName(n: Name): Bytes { [n.kind] + Vector16(n.bytes) }

  function EncodeExtensions(es: seq<Extension>): Bytes {
    if es == [] then [] else EncodeExtension(es[0]) + EncodeExtensions(es[1..])
  }

  function EncodeNames(ns: seq<Name>): Bytes {
    if ns == [] then [] else EncodeName(ns[0]) + EncodeNames(ns[1..])
  }

  /** A ClientHello.  `slack` is whatever follows the extensions inside the message. */
  datatype Hello = Hello(versionAndRandom: Bytes, session: Bytes, ciphers: Bytes, compression: Bytes,
                         block: Bytes, slack: Bytes)

  function EncodeHello(h: Hello): Bytes {
    h.versionAndRandom + Vector8(h.session) + Vector16(h.ciphers) + Vector8(h.compression) + Vector16(h.block) + h.slack
  }

  predicate HelloFits(h: Hello) {
    && |h.versionAndRandom| == 34 && |h.session| < 256 && |h.ciphers| < 65536 && |h.compression| < 256
    && |h.block| < 65536
  }

  /** A handshake record that carries one message; `after` is the rest of the record. */
  function EncodeRecord(version: Bytes, message: Bytes, after: Bytes): Bytes {
    [HANDSHAKE_RECORD] + version + Vector16([CLIENT_HELLO] + U24(|message|) + message + after)
  }

  predicate RecordFits(version: Bytes, message: Bytes, after: Bytes) {
    |version| == 2 && 4 + |message| + |after| < 65536
  }

  predicate ExtensionFits(e: Extension) { e.kind < 65536 && |e.payload| < 65536 }
  predicate NameFits(n: Name) { |n.bytes| < 65536 }

  // ------------------------------------------------------------------------------------------
  // Each level is read back exactly
  // ------------------------------------------------------------------------------------------

  lemma {:induction false} U16Read(p: Bytes)
    requires |p| >= 2
    ensures U16(Be16(p[0], p[1])) == p[..2] && Be16(p[0], p[1]) < 65536
  {
  }

  lemma {:induction false} U16Written(n: nat)
    requires n < 65536
    ensures Be16(U16(n)[0], U16(n)[1]) == n
  {
  }

  lemma {:induction false} U24Read(p: Bytes)
    requires |p| >= 3
    ensures U24(Be24(p[0], p[1], p[2])) == p[..3] && Be24(p[0], p[1], p[2]) < 0x100_0000
  {
    var n := Be24(p[0], p[1], p[2]);
    var high := Be16(p[0], p[1]);
    assert n == 256 * high + p[2] as int;
    assert n / 256 == high && n % 256 == p[2];
    U16Read(p);
    assert n / 65536 == high / 256;
  }

  lemma {:induction false} Regroup(a: Bytes, b: Bytes, c: Bytes, d: Bytes)
    ensures a + (b + c + d) == (a + b) + c + d
  {
  }

  lemma {:induction false} RegroupHello(a: Bytes, b: Bytes, c: Bytes, d: Bytes, e: Bytes, f: Bytes)
    ensures a + (b + (c + (d + (e + f)))) == a + b + c + d + e + f
  {
  }

  lemma {:induction false} U24Written(n: nat)
    requires n < 0x100_0000
    ensures Be24(U24(n)[0], U24(n)[1], U24(n)[2]) == n
  {
    var high := n / 256;
    assert n == 256 * high + n % 256;
    assert n / 65536 == high / 256;
    U16Written(high);
  }

  // Records

  lemma {:induction false} RecordWritten(version: Bytes, payload: Bytes, rest: Bytes)
    requires |version| == 2 && |payload| < 65536
    ensures ParseRecord([HANDSHAKE_RECORD] + version + Vector16(payload) + rest) == Some(payload)
  {
    var p := [HANDSHAKE_RECORD] + version + Vector16(payload) + rest;
    assert p[3] == U16(|payload|)[0] && p[4] == U16(|payload|)[1];
    U16Written(|payload|);
    assert p[5..5 + |payload|] == payload;
  }

  lemma {:induction false} RecordRead(p: Bytes) returns (version: Bytes, rest: Bytes)
    requires ParseRecord(p).Some?
    ensures |version| == 2 && |ParseRecord(p).value| < 65536
    ensures p == [HANDSHAKE_RECORD] + version + Vector16(ParseRecord(p).value) + rest
  {
    U16Read(p[3..5]);
    var payload := ParseRecord(p).value;
    version, rest := p[1..3], p[5 + |payload|..];
    assert U16(|payload|) == p[3..5];
  }

  // Handshake messages

  lemma {:induction false} MessageWritten(body: Bytes, rest: Bytes)
    requires |body| < 0x100_0000
    ensures ParseHello([CLIENT_HELLO] + U24(|body|) + body + rest) == Some(body)
  {
    var p := [CLIENT_HELLO] + U24(|body|) + body + rest;
    assert p[1] == U24(|body|)[0] && p[2] == U24(|body|)[1] && p[3] == U24(|body|)[2];
    U24Written(|body|);
    assert p[4..4 + |body|] == body;
  }

  lemma {:induction false} MessageRead(p: Bytes) returns (rest: Bytes)
    requires ParseHello(p).Some?
    ensures |ParseHello(p).value| < 0x100_0000
    ensures p == [CLIENT_HELLO] + U24(|ParseHello(p).value|) + ParseHello(p).value + rest
  {
    U24Read(p[1..4]);
    var body := ParseHello(p).value;
    rest := p[4 + |body|..];
    assert U24(|body|) == p[1..4];
  }

  // Vectors

  lemma {:induction false} Vector8Written(v: Bytes, rest: Bytes)
    requires |v| < 256
    ensures SkipVector(Vector8(v) + rest, 1) == Some(rest)
  {
    assert (Vector8(v) + rest)[1 + |v|..] == rest;
  }

  lemma {:induction false} Vector8Read(p: Bytes) returns (v: Bytes)
    requires SkipVector(p, 1).Some?
    ensures |v| < 256 && p == Vector8(v) + SkipVector(p, 1).value
  {
    v := p[1..1 + p[0] as int];
  }

  lemma {:induction false} Vector16Written(v: Bytes, rest: Bytes)
    requires |v| < 65536
    ensures SkipVector(Vector16(v) + rest, 2) == Some(rest)
    ensures NameList(Vector16(v) + rest) == Some(v)
  {
    var p := Vector16(v) + rest;
    assert p[0] == U16(|v|)[0] && p[1] == U16(|v|)[1];
    U16Written(|v|);
    assert p[2..2 + |v|] == v && p[2 + |v|..] == rest;
  }

  lemma {:induction false} Vector16Read(p: Bytes) returns (v: Bytes)
    requires SkipVector(p, 2).Some?
    ensures |v| < 65536 && p == Vector16(v) + SkipVector(p, 2).value
  {
    U16Read(p);
    v := p[2..2 + Be16(p[0], p[1])];
    assert U16(|v|) == p[..2];
  }

  lemma {:induction false} BlockRead(p: Bytes) returns (rest: Bytes)
    requires NameList(p).Some?
    ensures |NameList(p).value| < 65536 && p == Vector16(NameList(p).value) + rest
  {
    U16Read(p);
    var v := NameList(p).value;
    rest := p[2 + |v|..];
    assert U16(|v|) == p[..2];
  }

  // ClientHello bodies

  lemma {:induction false} HelloWritten(h: Hello)
    requires HelloFits(h)
    ensures Extensions(EncodeHello(h)) == Some(h.block)
  {
    var d := Vector16(h.block) + h.slack;
    var c := Vector8(h.compression) + d;
    var b := Vector16(h.ciphers) + c;
    var a := Vector8(h.session) + b;
    RegroupHello(h.versionAndRandom, Vector8(h.session), Vector16(h.ciphers), Vector8(h.compression), Vector16(h.block),
                 h.slack);
    assert EncodeHello(h)[34..] == a;
    Vector8Written(h.session, b);
    Vector16Written(h.ciphers, c);
    Vector8Written(h.compression, d);
    Vector16Written(h.block, h.slack);
  }

  lemma {:induction false} HelloRead(body: Bytes) returns (h: Hello)
    requires Extensions(body).Some?
    ensures HelloFits(h) && h.block == Extensions(body).value && body == EncodeHello(h)
  {
    var session := Vector8Read(body[34..]);
    var a := SkipVector(body[34..], 1).value;
    var ciphers := Vector16Read(a);
    var b := SkipVector(a, 2).value;
    var compression := Vector8Read(b);
    var c := SkipVector(b, 1).value;
    var slack := BlockRead(c);
    h := Hello(body[..34], session, ciphers, compression, NameList(c).value, slack);
    RegroupHello(body[..34], Vector8(session), Vector16(ciphers), Vector8(compression), Vector16(h.block), slack);
  }

  // Extension blocks

  predicate OtherExtensions(es: seq<Extension>) {
    forall i :: 0 <= i < |es| ==> ExtensionFits(es[i]) && es[i].kind != SERVER_NAME
  }

  lemma {:induction false} ExtensionHead(e: Extension, rest: Bytes)
    requires ExtensionFits(e)
    ensures
      var p := EncodeExtension(e) + rest;
      && |p| >= 4 + |e.payload|
      && Be16(p[0], p[1]) == e.kind && Be16(p[2], p[3]) == |e.payload|
      && p[4..4 + |e.payload|] == e.payload && p[4 + |e.payload|..] == rest
  {
    var p := EncodeExtension(e) + rest;
    U16Written(e.kind);
    U16Written(|e.payload|);
    assert p[0] == U16(e.kind)[0] && p[1] == U16(e.kind)[1];
    assert p[2] == U16(|e.payload|)[0] && p[3] == U16(|e.payload|)[1];
  }

  lemma {:induction false} ServerNameWritten(before: seq<Extension>, payload: Bytes, rest: Bytes)
    requires OtherExtensions(before) && |payload| < 65536
    ensures FindServerName(EncodeExtensions(before) + EncodeExtension(Extension(SERVER_NAME, payload)) + rest)
         == Some(payload)
  {
    var found := EncodeExtension(Extension(SERVER_NAME, payload));
    if before == [] {
      NothingInFront(found, rest);
      ExtensionHead(Extension(SERVER_NAME, payload), rest);
    } else {
      var others := EncodeExtensions(before[1..]);
      ServerNameWritten(before[1..], payload, rest);
      Regroup(EncodeExtension(before[0]), others, found, rest);
      ExtensionHead(before[0], others + found + rest);
    }
  }

  lemma {:induction false} ExtensionsCons(e: Extension, es: seq<Extension>)
    ensures EncodeExtensions([e] + es) == EncodeExtension(e) + EncodeExtensions(es)
  {
    assert ([e] + es)[1..] == es;
  }

  /** The first extension of a block. */
  lemma {:induction false} ExtensionRead(p: Bytes) returns (e: Extension)
    requires |p| >= 4 && 4 + Be16(p[2], p[3]) <= |p|
    ensures e == Extension(Be16(p[0], p[1]), p[4..4 + Be16(p[2], p[3])])
    ensures ExtensionFits(e) && p == EncodeExtension(e) + p[4 + Be16(p[2], p[3])..]
  {
    var n := Be16(p[2], p[3]);
    e := Extension(Be16(p[0], p[1]), p[4..4 + n]);
    U16Read(p);
    U16Read(p[2..]);
    assert U16(e.kind) == p[..2] && U16(n) == p[2..4];
    FourParts(p, 2, 4, 4 + n);
  }

  lemma {:induction false} FourParts(p: Bytes, i: nat, j: nat, k: nat)
    requires i <= j <= k <= |p|
    ensures p == p[..i] + (p[i..j] + p[j..k]) + p[k..]
  {
  }

  lemma {:induction false} OtherCons(e: Extension, es: seq<Extension>)
    requires ExtensionFits(e) && e.kind != SERVER_NAME && OtherExtensions(es)
    ensures OtherExtensions([e] + es)
  {
  }

  /** One more extension in front of a block that is already split up. */
  lemma {:induction false} PrependExtension(e: Extension, others: seq<Extension>, found: Extension, rest: Bytes,
                                            tail: Bytes)
    requires tail == EncodeExtensions(others) + EncodeExtension(found) + rest
    ensures EncodeExtension(e) + tail == EncodeExtensions([e] + others) + EncodeExtension(found) + rest
  {
    ExtensionsCons(e, others);
    Regroup(EncodeExtension(e), EncodeExtensions(others), EncodeExtension(found), rest);
  }

  lemma {:induction false} ServerNameRead(p: Bytes, payload: Bytes) returns (before: seq<Extension>, rest: Bytes)
    requires FindServerName(p) == Some(payload)
    ensures OtherExtensions(before) && |payload| < 65536
    ensures p == EncodeExtensions(before) + EncodeExtension(Extension(SERVER_NAME, payload)) + rest
    decreases |p|
  {
    var e := ExtensionRead(p);
    rest := p[4 + |e.payload|..];
    before := [];
    if e.kind == SERVER_NAME {
      NothingInFront(EncodeExtension(e), rest);
    } else {
      var tail := rest;
      before, rest := ServerNameRead(tail, payload);
      PrependExtension(e, before, Extension(SERVER_NAME, payload), rest, tail);
      OtherCons(e, before);
      before := [e] + before;
    }
  }

  lemma {:induction false} NothingInFront(a: Bytes, b: Bytes)
    ensures EncodeExtensions([]) + a + b == a + b
  {
  }

  /** The end of a block at which no further extension is complete. */
  predicate Truncated(tail: Bytes) { |tail| < 4 || 4 + Be16(tail[2], tail[3]) > |tail| }

  /** Other extensions and an incomplete one have no server_name. */
  lemma {:induction false} NoneWritten(es: seq<Extension>, tail: Bytes)
    requires OtherExtensions(es) && Truncated(tail)
    ensures FindServerName(EncodeExtensions(es) + tail) == None
  {
    if es == [] {
      assert EncodeExtensions(es) + tail == tail;
    } else {
      NoneWritten(es[1..], tail);
      assert EncodeExtensions(es) + tail == EncodeExtension(es[0]) + (EncodeExtensions(es[1..]) + tail);
      ExtensionHead(es[0], EncodeExtensions(es[1..]) + tail);
    }
  }

  /** A block without a server_name consists of other extensions and an incomplete one. */
  lemma {:induction false} NoneRead(p: Bytes) returns (es: seq<Extension>, tail: Bytes)
    requires FindServerName(p) == None
    ensures OtherExtensions(es) && Truncated(tail) && p == EncodeExtensions(es) + tail
    decreases |p|
  {
    es, tail := [], p;
    if !Truncated(p) {
      var e := ExtensionRead(p);
      var others: seq<Extension>;
      others, tail := NoneRead(p[4 + |e.payload|..]);
      es := [e] + others;
      ExtensionsCons(e, others);
      OtherCons(e, others);
      assert p == EncodeExtension(e) + (EncodeExtensions(others) + tail);
    }
  }

  // Name lists

  predicate OtherNames(ns: seq<Name>) {
    forall i :: 0 <= i < |ns| ==> NameFits(ns[i]) && ns[i].kind != HOST_NAME
  }

  lemma {:induction false} NameHead(n: Name, rest: Bytes)
    requires NameFits(n)
    ensures
      var p := EncodeName(n) + rest;
      && |p| >= 3 + |n.bytes|
      && p[0] == n.kind && Be16(p[1], p[2]) == |n.bytes|
      && p[3..3 + |n.bytes|] == n.bytes && p[3 + |n.bytes|..] == rest
  {
    var p := EncodeName(n) + rest;
    U16Written(|n.bytes|);
    assert p[1] == U16(|n.bytes|)[0] && p[2] == U16(|n.bytes|)[1];
  }

  lemma {:induction false} HostNameWritten(before: seq<Name>, host: Bytes, rest: Bytes)
    requires OtherNames(before) && |host| < 65536
    ensures FindHostName(EncodeNames(before) + EncodeName(Name(HOST_NAME, host)) + rest) == Some(host)
  {
    var name := EncodeName(Name(HOST_NAME, host));
    if before == [] {
      assert [] + name == name;
      NameHead(Name(HOST_NAME, host), rest);
    } else {
      HostNameWritten(before[1..], host, rest);
      Regroup(EncodeName(before[0]), EncodeNames(before[1..]), name, rest);
      NameHead(before[0], EncodeNames(before[1..]) + name + rest);
    }
  }

  /** The first name of a list. */
  lemma {:induction false} NameRead(p: Bytes) returns (n: Name)
    requires |p| >= 3 && 3 + Be16(p[1], p[2]) <= |p|
    ensures n == Name(p[0], p[3..3 + Be16(p[1], p[2])])
    ensures NameFits(n) && p == EncodeName(n) + p[3 + Be16(p[1], p[2])..]
  {
    var length := Be16(p[1], p[2]);
    n := Name(p[0], p[3..3 + length]);
    U16Read(p[1..]);
    assert U16(length) == p[1..3];
  }

  lemma {:induction false} HostNameRead(p: Bytes) returns (before: seq<Name>, rest: Bytes)
    requires FindHostName(p).Some?
    ensures OtherNames(before) && |FindHostName(p).value| < 65536
    ensures p == EncodeNames(before) + EncodeName(Name(HOST_NAME, FindHostName(p).value)) + rest
    decreases |p|
  {
    var n := NameRead(p);
    var tail := p[3 + Be16(p[1], p[2])..];
    if n.kind == HOST_NAME {
      before, rest := [], tail;
    } else {
      var others, r := HostNameRead(tail);
      before, rest := [n] + others, r;
      assert before[1..] == others;
      Regroup(EncodeName(n), EncodeNames(others), EncodeName(Name(HOST_NAME, FindHostName(p).value)), rest);
    }
  }

  predicate TruncatedName(tail: Bytes) { |tail| < 3 || 3 + Be16(tail[1], tail[2]) > |tail| }

  lemma {:induction false} NoHostWritten(ns: seq<Name>, tail: Bytes)
    requires OtherNames(ns) && TruncatedName(tail)
    ensures FindHostName(EncodeNames(ns) + tail) == None
  {
    if ns == [] {
      assert EncodeNames(ns) + tail == tail;
    } else {
      NoHostWritten(ns[1..], tail);
      assert EncodeNames(ns) + tail == EncodeName(ns[0]) + (EncodeNames(ns[1..]) + tail);
      NameHead(ns[0], EncodeNames(ns[1..]) + tail);
    }
  }

  lemma {:induction false} NoHostRead(p: Bytes) returns (ns: seq<Name>, tail: Bytes)
    requires FindHostName(p) == None
    ensures OtherNames(ns) && TruncatedName(tail) && p == EncodeNames(ns) + tail
    decreases |p|
  {
    ns, tail := [], p;
    if !TruncatedName(p) {
      var n := NameRead(p);
      var others: seq<Name>;
      others, tail := NoHostRead(p[3 + |n.bytes|..]);
      ns := [n] + others;
      assert ns[1..] == others;
      assert p == EncodeName(n) + (EncodeNames(others) + tail);
    }
  }

  // ------------------------------------------------------------------------------------------
  // Whole packets
  // ------------------------------------------------------------------------------------------

  /** Everything a packet with a host name is made of; the `after` fields are arbitrary bytes that
      each level allows behind what it reads. */
  datatype Packet = Packet(
    version: Bytes, versionAndRandom: Bytes, session: Bytes, ciphers: Bytes, compression: Bytes,
    extensionsBefore: seq<Extension>, namesBefore: seq<Name>, host: Bytes,
    afterHost: Bytes, afterNames: Bytes, afterServerName: Bytes, afterExtensions: Bytes,
    afterHello: Bytes, afterRecord: Bytes)

  function NamesOf(k: Packet): Bytes { EncodeNames(k.namesBefore) + EncodeName(Name(HOST_NAME, k.host)) + k.afterHost }

  function PayloadOf(k: Packet): Bytes { Vector16(NamesOf(k)) + k.afterNames }

  function BlockOf(k: Packet): Bytes {
    EncodeExtensions(k.extensionsBefore) + EncodeExtension(Extension(SERVER_NAME, PayloadOf(k))) + k.afterServerName
  }

  function HelloOf(k: Packet): Hello {
    Hello(k.versionAndRandom, k.session, k.ciphers, k.compression, BlockOf(k), k.afterExtensions)
  }

  function EncodePacket(k: Packet): Bytes {
    EncodeRecord(k.version, EncodeHello(HelloOf(k)), k.afterHello) + k.afterRecord
  }

  /** All lengths fit their prefixes, and what comes before the host name is of another kind. */
  predicate PacketFits(k: Packet) {
    && OtherExtensions(k.extensionsBefore) && OtherNames(k.namesBefore)
    && |k.host| < 65536 && |NamesOf(k)| < 65536 && |PayloadOf(k)| < 65536
    && HelloFits(HelloOf(k)) && RecordFits(k.version, EncodeHello(HelloOf(k)), k.afterHello)
  }

  /** Every well-formed packet is read back to exactly its first host name, whatever follows at any
      level; a name that is not text gives nothing. */
  lemma {:induction false} PacketReadBack(k: Packet, utf8: Bytes -> bool)
    requires PacketFits(k)
    ensures Extract(EncodePacket(k), utf8) == if utf8(k.host) then Some(k.host) else None
  {
    var body := EncodeHello(HelloOf(k));
    RecordReadBack(k.version, body, k.afterHello, k.afterRecord, utf8);
    HelloReadBack(HelloOf(k), k, utf8);
  }

  lemma {:induction false} RecordReadBack(version: Bytes, body: Bytes, afterHello: Bytes, afterRecord: Bytes,
                                          utf8: Bytes -> bool)
    requires RecordFits(version, body, afterHello)
    ensures Extract(EncodeRecord(version, body, afterHello) + afterRecord, utf8) == ServerNameIn(body, utf8)
  {
    RecordWritten(version, [CLIENT_HELLO] + U24(|body|) + body + afterHello, afterRecord);
    MessageWritten(body, afterHello);
  }

  lemma {:induction false} HelloReadBack(h: Hello, k: Packet, utf8: Bytes -> bool)
    requires PacketFits(k) && h == HelloOf(k)
    ensures ServerNameIn(EncodeHello(h), utf8) == if utf8(k.host) then Some(k.host) else None
  {
    HelloWritten(h);
    ServerNameWritten(k.extensionsBefore, PayloadOf(k), k.afterServerName);
    Vector16Written(NamesOf(k), k.afterNames);
    HostNameWritten(k.namesBefore, k.host, k.afterHost);
  }

  /** A name is only ever read from such a packet. */
  lemma {:induction false} PacketRead(p: Bytes, utf8: Bytes -> bool) returns (k: Packet)
    requires Extract(p, utf8).Some?
    ensures PacketFits(k) && p == EncodePacket(k) && Extract(p, utf8) == Some(k.host) && utf8(k.host)
  {
    var version, afterRecord := RecordRead(p);
    var record := ParseRecord(p).value;
    var afterHello := MessageRead(record);
    var body := ParseHello(record).value;
    var h := HelloRead(body);
    var payload := FindServerName(h.block).value;
    var extensionsBefore, afterServerName := ServerNameRead(h.block, payload);
    var afterNames := BlockRead(payload);
    var names := NameList(payload).value;
    var namesBefore, afterHost := HostNameRead(names);
    k := Packet(version, h.versionAndRandom, h.session, h.ciphers, h.compression, extensionsBefore, namesBefore,
                FindHostName(names).value, afterHost, afterNames, afterServerName, h.slack, afterHello, afterRecord);
    assert NamesOf(k) == names && PayloadOf(k) == payload && BlockOf(k) == h.block && HelloOf(k) == h;
  }

  /** The accepted inputs, exactly. */
  lemma {:induction false} ExtractExact(p: Bytes, utf8: Bytes -> bool, name: Bytes)
    ensures Extract(p, utf8) == Some(name) <==>
            utf8(name) && exists k :: PacketFits(k) && k.host == name && p == EncodePacket(k)
  {
    if Extract(p, utf8) == Some(name) {
      var k := PacketRead(p, utf8);
    }
    if utf8(name) {
      forall k | PacketFits(k) && k.host == name && p == EncodePacket(k) ensures Extract(p, utf8) == Some(name) {
        PacketReadBack(k, utf8);
      }
    }
  }

  /** The bytes that say what is what: a handshake record (22) with a ClientHello (1). */
  lemma {:induction false} RecordTags(p: Bytes, utf8: Bytes -> bool)
    requires Extract(p, utf8).Some?
    ensures |p| >= 6 && p[0] == 22 && p[5] == 1
  {
    var record := ParseRecord(p).value;
    assert record[0] == p[5];
  }

  /** An extension of type 0 is the server name; one of another type is passed over. */
  lemma {:induction false} ExtensionTag(hi: byte, lo: byte, payload: Bytes, rest: Bytes)
    requires |payload| < 65536
    ensures FindServerName([hi, lo] + Vector16(payload) + rest) ==
              if hi == 0 && lo == 0 then Some(payload) else FindServerName(rest)
  {
    var p := [hi, lo] + Vector16(payload) + rest;
    U16Written(|payload|);
    assert p[2] == U16(|payload|)[0] && p[3] == U16(|payload|)[1];
    assert p[4..4 + |payload|] == payload && p[4 + |payload|..] == rest;
  }

  /** A name of type 0 is a host name; one of another type is passed over. */
  lemma {:induction false} NameTag(kind: byte, name: Bytes, rest: Bytes)
    requires |name| < 65536
    ensures FindHostName([kind] + Vector16(name) + rest) == if kind == 0 then Some(name) else FindHostName(rest)
  {
    var p := [kind] + Vector16(name) + rest;
    U16Written(|name|);
    assert p[1] == U16(|name|)[0] && p[2] == U16(|name|)[1];
    assert p[3..3 + |name|] == name && p[3 + |name|..] == rest;
  }

  /** The payload of a server_name extension without a complete list, or with names of other kinds and
      an incomplete one in it. */
  ghost predicate Nameless(payload: Bytes) {
    || |payload| < 2 || 2 + Be16(payload[0], payload[1]) > |payload|
    || exists ns, tail, rest ::
         OtherNames(ns) && TruncatedName(tail) && |EncodeNames(ns) + tail| < 65536
         && payload == Vector16(EncodeNames(ns) + tail) + rest
  }

  lemma {:induction false} NamelessExact(payload: Bytes)
    ensures Nameless(payload) <==> HostIn(payload, _ => true) == None
  {
    if NameList(payload).Some? {
      var list := NameList(payload).value;
      if FindHostName(list) == None {
        var rest := BlockRead(payload);
        var ns, tail := NoHostRead(list);
      }
      forall ns, tail, rest |
        OtherNames(ns) && TruncatedName(tail) && |EncodeNames(ns) + tail| < 65536
        && payload == Vector16(EncodeNames(ns) + tail) + rest
        ensures FindHostName(list) == None
      {
        Vector16Written(EncodeNames(ns) + tail, rest);
        NoHostWritten(ns, tail);
      }
    }
  }

  /** Other extensions and an incomplete one. */
  ghost predicate NoExtension(block: Bytes) {
    exists es, tail :: OtherExtensions(es) && Truncated(tail) && block == EncodeExtensions(es) + tail
  }

  /** Other extensions, and a server_name without a name. */
  ghost predicate EmptyExtension(block: Bytes) {
    exists before, payload: Bytes, rest :: OtherExtensions(before) && |payload| < 65536 && Nameless(payload)
      && block == EncodeExtensions(before) + EncodeExtension(Extension(SERVER_NAME, payload)) + rest
  }

  lemma {:induction false} NoExtensionExact(block: Bytes)
    ensures NoExtension(block) <==> FindServerName(block) == None
  {
    if FindServerName(block) == None {
      var es, tail := NoneRead(block);
    }
    forall es, tail | OtherExtensions(es) && Truncated(tail) && block == EncodeExtensions(es) + tail
      ensures FindServerName(block) == None
    {
      NoneWritten(es, tail);
    }
  }

  lemma {:induction false} EmptyExtensionExact(block: Bytes)
    ensures EmptyExtension(block) <==>
            FindServerName(block).Some? && HostIn(FindServerName(block).value, _ => true) == None
  {
    if FindServerName(block).Some? {
      var payload := FindServerName(block).value;
      NamelessExact(payload);
      var before, rest := ServerNameRead(block, payload);
    }
    forall before, payload: Bytes, rest |
      OtherExtensions(before) && |payload| < 65536 && Nameless(payload)
      && block == EncodeExtensions(before) + EncodeExtension(Extension(SERVER_NAME, payload)) + rest
      ensures FindServerName(block) == Some(payload) && HostIn(payload, _ => true) == None
    {
      ServerNameWritten(before, payload, rest);
      NamelessExact(payload);
    }
  }

  /** A packet with a well-formed ClientHello gives no name although every name counts as text,
      exactly when its extensions include no complete server_name, or the first one has no complete
      host_name. */
  lemma {:induction false} NoServerName(h: Hello, version: Bytes, afterHello: Bytes, afterRecord: Bytes)
    requires HelloFits(h) && RecordFits(version, EncodeHello(h), afterHello)
    ensures Extract(EncodeRecord(version, EncodeHello(h), afterHello) + afterRecord, _ => true) == None <==>
            NoExtension(h.block) || EmptyExtension(h.block)
  {
    RecordReadBack(version, EncodeHello(h), afterHello, afterRecord, _ => true);
    HelloWritten(h);
    NoExtensionExact(h.block);
    EmptyExtensionExact(h.block);
  }

  /** Bytes behind the first record make no difference. */
  lemma {:induction false} OnlyTheRecordMatters(p: Bytes, q: Bytes, utf8: Bytes -> bool)
    requires RecordLength(p).Some? && RecordLength(p).value <= |p| && p <= q
    ensures Extract(q, utf8) == Extract(p, utf8)
  {
    SameRecord(p, q);
  }

  lemma {:induction false} SameRecord(p: Bytes, q: Bytes)
    requires RecordLength(p).Some? && RecordLength(p).value <= |p| && p <= q
    ensures ParseRecord(q) == ParseRecord(p)
  {
    var n := RecordLength(p).value;
    assert q[..5] == p[..5];
    assert q[3] == p[3] && q[4] == p[4];
    assert q[..n] == p[..n];
    assert p[5..n] == p[..n][5..] && q[5..n] == q[..n][5..];
  }
}

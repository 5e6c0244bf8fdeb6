/** Finding the server name in a TLS ClientHello (section 4.1.2 of RFC 8446, section 3 of RFC 6066). */
module ClientHello {
  import opened Bytes
  import opened Common

  /** A stretch of the payload. */
  datatype Span = Span(lo: nat, hi: nat)

  function U16(p: Bytes, i: nat): nat
    requires i + 2 <= |p|
  {
    p[i] as int * 256 + p[i + 1] as int
  }

  // ---- Walking the message ----

  /** The entries of a server name list, up to the end of the extension or of the list. */
  function FindName(p: Bytes, at: nat, hi: nat, listEnd: nat): Option<Span>
    requires hi <= |p|
    decreases |p| - at
  {
    if at + 3 > hi || at >= listEnd then None else
      var n := U16(p, at + 1);
      if p[at] == 0 && at + 3 + n <= hi then Some(Span(at + 3, at + 3 + n)) else FindName(p, at + 3 + n, hi, listEnd)
  }

  /** The name in the extension whose body starts at `body`. */
  function NameIn(p: Bytes, body: nat, len: nat): Option<Span>
    requires body + len <= |p| && len >= 2
  {
    FindName(p, body + 2, body + len, body + 2 + U16(p, body))
  }

  function FindExtension(p: Bytes, at: nat, end: nat): Option<Span>
    requires end <= |p|
    decreases |p| - at
  {
    if at + 4 > end then None else
      var len := U16(p, at + 2);
      var body := at + 4;
      if body + len > end then None
      else if U16(p, at) != 0 then FindExtension(p, body + len, end)
      else if len < 2 then None
      else
        var found := NameIn(p, body, len);
        if found.Some? then found else FindExtension(p, body + len, end)
  }

  /** Where the extensions start and end, if the message reaches that far. */
  function Extensions(p: Bytes): (s: Option<Span>)
    ensures s.Some? ==> s.value.hi <= |p|
  {
    if |p| < 44 || p[0] != 0x16 || p[5] != 1 then None else
      var a := 44 + p[43] as int;
      if a + 2 > |p| then None else
        var b := a + 2 + U16(p, a);
        if b >= |p| then None else
          var c := b + 1 + p[b] as int;
          if c + 2 > |p| then None else
            var end := c + 2 + U16(p, c);
            Some(Span(c + 2, if end > |p| then |p| else end))
  }

  function ServerName(p: Bytes): Option<Span> {
    var e := Extensions(p);
    if e.None? then None else FindExtension(p, e.value.lo, e.value.hi)
  }

  // ---- The inspector ----

  method ReadExtensions(payload: Bytes) returns (found: Option<Span>)
    ensures found == Extensions(payload)
  {
    if |payload| < 43 || payload[0] != 0x16 || payload[5] != 0x01 {
      return None;
    }
    var offset := 5 + 4 + 2 + 32;
    if offset >= |payload| {
      return None;
    }
    var sessionIDLen := payload[offset];
    offset := offset + 1 + sessionIDLen;
    if offset >= |payload| || offset + 2 > |payload| {
      return None;
    }
    var cipherSuitesLen := U16(payload, offset);
    offset := offset + 2 + cipherSuitesLen;
    if offset >= |payload| {
      return None;
    }
    var compMethodsLen := payload[offset];
    offset := offset + 1 + compMethodsLen;
    if offset >= |payload| || offset + 2 > |payload| {
      return None;
    }
    var extensionsLen := U16(payload, offset);
    offset := offset + 2;
    var end := offset + extensionsLen;
    if end > |payload| {
      end := |payload|;
    }
    found := Some(Span(offset, end));
  }

  method ReadNames(payload: Bytes, offset: nat, extLen: nat) returns (found: Option<Span>)
    requires offset + extLen <= |payload| && extLen >= 2
    ensures found == NameIn(payload, offset, extLen)
  {
    var sniListLen := U16(payload, offset);
    var sniOffset := offset + 2;
    while sniOffset + 3 <= offset + extLen && sniOffset - offset - 2 < sniListLen
      invariant offset + 2 <= sniOffset
      invariant NameIn(payload, offset, extLen) == FindName(payload, sniOffset, offset + extLen, offset + 2 + sniListLen)
      decreases |payload| - sniOffset
    {
      var nameType := payload[sniOffset];
      var nameLen := U16(payload, sniOffset + 1);
      sniOffset := sniOffset + 3;
      if nameType == 0 && sniOffset + nameLen <= offset + extLen {
        return Some(Span(sniOffset, sniOffset + nameLen));
      }
      sniOffset := sniOffset + nameLen;
    }
    found := None;
  }

  /** The host name, if one is found. All reads are in bounds, on every payload. */
  method InspectClientHello(payload: Bytes) returns (name: Option<Bytes>)
    ensures name.Some? <==> ServerName(payload).Some?
    ensures name.Some? ==> 0 <= ServerName(payload).value.lo <= ServerName(payload).value.hi <= |payload|
    ensures name.Some? ==> name.value == payload[ServerName(payload).value.lo..ServerName(payload).value.hi]
  {
    var start := ReadExtensions(payload);
    if start == None {
      return None;
    }
    var offset, end := start.value.lo, start.value.hi;
    while offset + 4 <= end
      invariant ServerName(payload) == FindExtension(payload, offset, end)
      decreases |payload| - offset
    {
      var extType := U16(payload, offset);
      var extLen := U16(payload, offset + 2);
      offset := offset + 4;
      if offset + extLen > end {
        return None;
      }
      if extType == 0 {
        if extLen < 2 {
          return None;
        }
        var found := ReadNames(payload, offset, extLen);
        if found.Some? {
          NameIsInside(payload, offset + 2, offset + extLen, offset + 2 + U16(payload, offset));
          return Some(payload[found.value.lo..found.value.hi]);
        }
      }
      offset := offset + extLen;
    }
    name := None;
  }

  // ---- A name found lies inside a declared extension ----

  /** The walk over the declared lengths from `from` passes `at`. */
  ghost predicate Declared(p: Bytes, from: nat, end: nat, at: nat)
    requires end <= |p|
    decreases |p| - from
  {
    at == from || (from + 4 <= end && from + 4 + U16(p, from + 2) <= end && Declared(p, from + 4 + U16(p, from + 2), end, at))
  }

  /** The span is a host name entry in the server name extension at `at`. */
  ghost predicate HostNameIn(p: Bytes, at: nat, end: nat, s: Span)
    requires end <= |p|
  {
    && at + 4 <= end && U16(p, at) == 0 && at + 4 + U16(p, at + 2) <= end
    && at + 9 <= s.lo <= s.hi <= at + 4 + U16(p, at + 2)
    && p[s.lo - 3] == 0 && U16(p, s.lo - 2) == s.hi - s.lo
  }

  lemma {:induction false} NameIsInside(p: Bytes, at: nat, hi: nat, listEnd: nat)
    requires hi <= |p| && FindName(p, at, hi, listEnd).Some?
    ensures var s := FindName(p, at, hi, listEnd).value;
      at + 3 <= s.lo <= s.hi <= hi && p[s.lo - 3] == 0 && U16(p, s.lo - 2) == s.hi - s.lo
    decreases |p| - at
  {
    var n := U16(p, at + 1);
    if !(p[at] == 0 && at + 3 + n <= hi) {
      NameIsInside(p, at + 3 + n, hi, listEnd);
    }
  }

  lemma {:induction false} FoundIsDeclared(p: Bytes, from: nat, end: nat) returns (at: nat)
    requires end <= |p| && FindExtension(p, from, end).Some?
    ensures Declared(p, from, end, at) && HostNameIn(p, at, end, FindExtension(p, from, end).value)
    decreases |p| - from
  {
    var len := U16(p, from + 2);
    if U16(p, from) == 0 && NameIn(p, from + 4, len).Some? {
      at := from;
      NameIsInside(p, from + 6, from + 4 + len, from + 6 + U16(p, from + 4));
    } else {
      at := FoundIsDeclared(p, from + 4 + len, end);
    }
  }

  /** On any bytes whatever: a name that is returned is a whole host name entry inside a server name
      extension that the message declares. */
  lemma NameIsDeclared(p: Bytes) returns (at: nat)
    requires ServerName(p).Some?
    ensures Extensions(p).Some? && Declared(p, Extensions(p).value.lo, Extensions(p).value.hi, at)
    ensures HostNameIn(p, at, Extensions(p).value.hi, ServerName(p).value)
  {
    at := FoundIsDeclared(p, Extensions(p).value.lo, Extensions(p).value.hi);
  }

  // ---- Serialised messages ----

  datatype Extension = Extension(kind: nat, data: Bytes)

  datatype Hello = Hello(version: Bytes, random: Bytes, sessionID: Bytes, ciphers: Bytes, compression: Bytes, extensions: seq<Extension>)

  function U16Bytes(n: nat): Bytes
    requires n < 0x1_0000
  {
    [n / 256, n % 256]
  }

  predicate IsExtension(e: Extension) {
    e.kind < 0x1_0000 && |e.data| < 0x1_0000
  }

  function SerializeExtension(e: Extension): Bytes
    requires IsExtension(e)
  {
    U16Bytes(e.kind) + U16Bytes(|e.data|) + e.data
  }

  function SerializeExtensions(es: seq<Extension>): Bytes
    requires forall i :: 0 <= i < |es| ==> IsExtension(es[i])
  {
    if es == [] then [] else SerializeExtension(es[0]) + SerializeExtensions(es[1..])
  }

  predicate IsHello(h: Hello) {
    && |h.version| == 2 && |h.random| == 32 && |h.sessionID| <= 32 && |h.ciphers| < 0x1_0000 && |h.compression| < 0x100
    && (forall i :: 0 <= i < |h.extensions| ==> IsExtension(h.extensions[i]))
    && |SerializeExtensions(h.extensions)| < 0x1_0000
  }

  /** What follows the random value, up to the extensions. */
  function Middle(h: Hello): Bytes
    requires IsHello(h)
  {
    [|h.sessionID|] + h.sessionID + U16Bytes(|h.ciphers|) + h.ciphers + [|h.compression|] + h.compression
  }

  /** The record: `head` is the five-byte record header and the four-byte handshake header. */
  function Serialize(head: Bytes, h: Hello): Bytes
    requires IsHello(h)
  {
    head + h.version + h.random + Middle(h) + U16Bytes(|SerializeExtensions(h.extensions)|) + SerializeExtensions(h.extensions)
  }

  /** The header of a handshake record that holds a ClientHello; its lengths are not read. */
  predicate IsHead(head: Bytes) {
    |head| == 9 && head[0] == 0x16 && head[5] == 1
  }

  /** An entry of a server name list; kind 0 is a host name. */
  datatype NameEntry = NameEntry(kind: byte, name: Bytes)

  function SerializeNames(names: seq<NameEntry>): Bytes
    requires forall i :: 0 <= i < |names| ==> |names[i].name| < 0x1_0000
  {
    if names == [] then [] else [names[0].kind] + U16Bytes(|names[0].name|) + names[0].name + SerializeNames(names[1..])
  }

  predicate IsNameList(names: seq<NameEntry>) {
    (forall i :: 0 <= i < |names| ==> |names[i].name| < 0x1_0000) && |SerializeNames(names)| + 2 < 0x1_0000
  }

  /** A server name extension. */
  function NameExtension(names: seq<NameEntry>): Extension
    requires IsNameList(names)
  {
    Extension(0, U16Bytes(|SerializeNames(names)|) + SerializeNames(names))
  }

  // ---- Reading them back ----

  /** `q` stands in `p` at `i`. */
  ghost predicate At(p: Bytes, i: nat, q: Bytes) {
    i + |q| <= |p| && forall k :: 0 <= k < |q| ==> p[i + k] == q[k]
  }

  lemma AtParts(p: Bytes, i: nat, x: Bytes, y: Bytes)
    requires At(p, i, x + y)
    ensures At(p, i, x) && At(p, i + |x|, y)
  {
    forall k | 0 <= k < |x| ensures p[i + k] == x[k] {
      assert (x + y)[k] == x[k];
    }
    forall k | 0 <= k < |y| ensures p[i + |x| + k] == y[k] {
      assert (x + y)[|x| + k] == y[k];
    }
  }

  lemma ReadU16(p: Bytes, i: nat, n: nat)
    requires n < 0x1_0000 && At(p, i, U16Bytes(n))
    ensures U16(p, i) == n
  {
    assert p[i + 0] == U16Bytes(n)[0] && p[i + 1] == U16Bytes(n)[1];
  }

  lemma ReadExtension(p: Bytes, i: nat, e: Extension)
    requires IsExtension(e) && At(p, i, SerializeExtension(e))
    ensures |SerializeExtension(e)| == 4 + |e.data|
    ensures U16(p, i) == e.kind && U16(p, i + 2) == |e.data| && At(p, i + 4, e.data)
  {
    AtParts(p, i, U16Bytes(e.kind) + U16Bytes(|e.data|), e.data);
    AtParts(p, i, U16Bytes(e.kind), U16Bytes(|e.data|));
    ReadU16(p, i, e.kind);
    ReadU16(p, i + 2, |e.data|);
  }

  /** The host name is found behind entries of other kinds, and whatever follows it. */
  lemma {:induction false} FindInNames(p: Bytes, i: nat, hi: nat, pre: seq<NameEntry>, name: Bytes, post: seq<NameEntry>)
    requires var names := pre + [NameEntry(0, name)] + post;
      (forall k :: 0 <= k < |names| ==> |names[k].name| < 0x1_0000) && At(p, i, SerializeNames(names)) && hi == i + |SerializeNames(names)|
    requires forall k :: 0 <= k < |pre| ==> pre[k].kind != 0
    ensures FindName(p, i, hi, hi).Some?
    ensures var s := FindName(p, i, hi, hi).value; s.hi == s.lo + |name| && At(p, s.lo, name)
    decreases |pre|
  {
    var names := pre + [NameEntry(0, name)] + post;
    var e, rest := names[0], SerializeNames(names[1..]);
    AtParts(p, i, [e.kind] + U16Bytes(|e.name|) + e.name, rest);
    AtParts(p, i, [e.kind] + U16Bytes(|e.name|), e.name);
    AtParts(p, i, [e.kind], U16Bytes(|e.name|));
    ReadU16(p, i + 1, |e.name|);
    assert p[i + 0] == [e.kind][0];
    if pre != [] {
      assert names[1..] == pre[1..] + [NameEntry(0, name)] + post;
      FindInNames(p, i + 3 + |e.name|, hi, pre[1..], name, post);
    }
  }

  lemma ReadNameList(p: Bytes, i: nat, pre: seq<NameEntry>, name: Bytes, post: seq<NameEntry>)
    requires var names := pre + [NameEntry(0, name)] + post; IsNameList(names) && At(p, i, NameExtension(names).data)
    requires forall k :: 0 <= k < |pre| ==> pre[k].kind != 0
    ensures var len := |NameExtension(pre + [NameEntry(0, name)] + post).data|;
      len >= 2 && i + len <= |p| && NameIn(p, i, len).Some?
      && NameIn(p, i, len).value.hi == NameIn(p, i, len).value.lo + |name| && At(p, NameIn(p, i, len).value.lo, name)
  {
    var s := SerializeNames(pre + [NameEntry(0, name)] + post);
    AtParts(p, i, U16Bytes(|s|), s);
    ReadU16(p, i, |s|);
    FindInNames(p, i + 2, i + 2 + |s|, pre, name, post);
  }

  /** It is found in the first server name extension, whatever follows that or cuts it off. */
  lemma {:induction false} FindInExtensions(p: Bytes, i: nat, end: nat, pre: seq<Extension>, before: seq<NameEntry>, name: Bytes, after: seq<NameEntry>)
    requires IsNameList(before + [NameEntry(0, name)] + after) && forall k :: 0 <= k < |before| ==> before[k].kind != 0
    requires forall k :: 0 <= k < |pre| ==> IsExtension(pre[k]) && pre[k].kind != 0
    requires var es := pre + [NameExtension(before + [NameEntry(0, name)] + after)];
      (forall k :: 0 <= k < |es| ==> IsExtension(es[k])) && At(p, i, SerializeExtensions(es)) && i + |SerializeExtensions(es)| <= end <= |p|
    ensures FindExtension(p, i, end).Some?
    ensures var s := FindExtension(p, i, end).value; s.hi == s.lo + |name| && At(p, s.lo, name)
    decreases |pre|
  {
    var es := pre + [NameExtension(before + [NameEntry(0, name)] + after)];
    AtParts(p, i, SerializeExtension(es[0]), SerializeExtensions(es[1..]));
    ReadExtension(p, i, es[0]);
    if pre == [] {
      ReadNameList(p, i + 4, before, name, after);
    } else {
      assert es[1..] == pre[1..] + [NameExtension(before + [NameEntry(0, name)] + after)];
      FindInExtensions(p, i + 4 + |es[0].data|, end, pre[1..], before, name, after);
    }
  }

  lemma {:induction false} FindNone(p: Bytes, i: nat, end: nat, es: seq<Extension>)
    requires forall k :: 0 <= k < |es| ==> IsExtension(es[k]) && es[k].kind != 0
    requires At(p, i, SerializeExtensions(es)) && end == i + |SerializeExtensions(es)|
    ensures FindExtension(p, i, end) == None
    decreases |es|
  {
    if es != [] {
      AtParts(p, i, SerializeExtension(es[0]), SerializeExtensions(es[1..]));
      ReadExtension(p, i, es[0]);
      FindNone(p, i + 4 + |es[0].data|, end, es[1..]);
    }
  }

  /** The parts between the random value and the extensions are skipped by their lengths. */
  lemma ReadMiddle(p: Bytes, h: Hello)
    requires IsHello(h) && At(p, 43, Middle(h))
    ensures p[43] == |h.sessionID| && U16(p, 44 + |h.sessionID|) == |h.ciphers|
    ensures p[46 + |h.sessionID| + |h.ciphers|] == |h.compression|
    ensures |Middle(h)| == 4 + |h.sessionID| + |h.ciphers| + |h.compression|
  {
    var n := U16Bytes(|h.ciphers|);
    AtParts(p, 43, [|h.sessionID|] + h.sessionID + n + h.ciphers + [|h.compression|], h.compression);
    AtParts(p, 43, [|h.sessionID|] + h.sessionID + n + h.ciphers, [|h.compression|]);
    AtParts(p, 43, [|h.sessionID|] + h.sessionID + n, h.ciphers);
    AtParts(p, 43, [|h.sessionID|] + h.sessionID, n);
    AtParts(p, 43, [|h.sessionID|], h.sessionID);
    ReadU16(p, 44 + |h.sessionID|, |h.ciphers|);
    assert p[43 + 0] == [|h.sessionID|][0];
    assert p[46 + |h.sessionID| + |h.ciphers| + 0] == [|h.compression|][0];
  }

  lemma ExtensionsAt(p: Bytes, sid: nat, suites: nat, methods: nat, at: nat, total: nat)
    requires at == 49 + sid + suites + methods <= |p| && p[0] == 0x16 && p[5] == 1
    requires p[43] == sid && U16(p, 44 + sid) == suites && p[46 + sid + suites] == methods && U16(p, at - 2) == total
    ensures Extensions(p) == Some(Span(at, if at + total > |p| then |p| else at + total))
  {
  }

  /** The message up to its extensions, and `shown` of those. */
  function Opening(head: Bytes, h: Hello, shown: Bytes): Bytes
    requires IsHello(h)
  {
    head + h.version + h.random + Middle(h) + U16Bytes(|SerializeExtensions(h.extensions)|) + shown
  }

  /** Of a packet that starts like this the extensions are found, cut where it ends. */
  lemma ReadHello(p: Bytes, head: Bytes, h: Hello, shown: Bytes) returns (at: nat)
    requires IsHead(head) && IsHello(h) && At(p, 0, Opening(head, h, shown))
    ensures At(p, at, shown) && at + |shown| == |Opening(head, h, shown)| <= |p|
    ensures var total := |SerializeExtensions(h.extensions)|; Extensions(p) == Some(Span(at, if at + total > |p| then |p| else at + total))
  {
    var es, m := SerializeExtensions(h.extensions), Middle(h);
    var n := U16Bytes(|es|);
    AtParts(p, 0, head + h.version + h.random + m + n, shown);
    AtParts(p, 0, head + h.version + h.random + m, n);
    AtParts(p, 0, head + h.version + h.random, m);
    AtParts(p, 0, head + h.version, h.random);
    AtParts(p, 0, head, h.version);
    assert p[0 + 0] == head[0] && p[0 + 5] == head[5];
    ReadMiddle(p, h);
    ReadU16(p, 43 + |m|, |es|);
    at := 45 + |m|;
    ExtensionsAt(p, |h.sessionID|, |h.ciphers|, |h.compression|, at, |es|);
  }

  lemma AtIsSlice(p: Bytes, i: nat, q: Bytes)
    requires At(p, i, q)
    ensures p[i..i + |q|] == q
  {
  }

  lemma {:induction false} ExtensionsJoin(a: seq<Extension>, b: seq<Extension>)
    requires (forall k :: 0 <= k < |a| ==> IsExtension(a[k])) && forall k :: 0 <= k < |b| ==> IsExtension(b[k])
    ensures SerializeExtensions(a + b) == SerializeExtensions(a) + SerializeExtensions(b)
  {
    if a == [] {
      assert a + b == b;
    } else {
      ExtensionsJoin(a[1..], b);
      assert (a + b)[1..] == a[1..] + b;
    }
  }

  /** From every packet that starts with a ClientHello up to the end of its first server name extension,
      cut off after that or not: the name found is the first host name of that extension. */
  lemma ServerNameIsRead(p: Bytes, head: Bytes, h: Hello, pre: seq<Extension>, before: seq<NameEntry>, name: Bytes, after: seq<NameEntry>, post: seq<Extension>)
    requires IsHead(head) && IsHello(h) && IsNameList(before + [NameEntry(0, name)] + after)
    requires h.extensions == pre + [NameExtension(before + [NameEntry(0, name)] + after)] + post
    requires (forall k :: 0 <= k < |pre| ==> pre[k].kind != 0) && forall k :: 0 <= k < |before| ==> before[k].kind != 0
    requires forall k :: 0 <= k < |pre| ==> IsExtension(pre[k])
    requires At(p, 0, Opening(head, h, SerializeExtensions(pre + [NameExtension(before + [NameEntry(0, name)] + after)])))
    ensures ServerName(p).Some? && ServerName(p).value.lo <= ServerName(p).value.hi <= |p| && p[ServerName(p).value.lo..ServerName(p).value.hi] == name
  {
    var shown := pre + [NameExtension(before + [NameEntry(0, name)] + after)];
    ShownIsPart(h, shown, post);
    ShownIsRead(p, head, h, shown, pre, before, name, after);
  }

  lemma ShownIsRead(p: Bytes, head: Bytes, h: Hello, shown: seq<Extension>, pre: seq<Extension>, before: seq<NameEntry>, name: Bytes, after: seq<NameEntry>)
    requires IsHead(head) && IsHello(h) && IsNameList(before + [NameEntry(0, name)] + after)
    requires shown == pre + [NameExtension(before + [NameEntry(0, name)] + after)] && (forall k :: 0 <= k < |shown| ==> IsExtension(shown[k]))
    requires forall k :: 0 <= k < |before| ==> before[k].kind != 0
    requires forall k :: 0 <= k < |pre| ==> IsExtension(pre[k]) && pre[k].kind != 0
    requires |SerializeExtensions(shown)| <= |SerializeExtensions(h.extensions)| && At(p, 0, Opening(head, h, SerializeExtensions(shown)))
    ensures ServerName(p).Some? && ServerName(p).value.lo <= ServerName(p).value.hi <= |p| && p[ServerName(p).value.lo..ServerName(p).value.hi] == name
  {
    var at := ReadHello(p, head, h, SerializeExtensions(shown));
    FindInExtensions(p, at, Extensions(p).value.hi, pre, before, name, after);
    FoundIsName(p, at, Extensions(p).value.hi, name);
  }

  lemma FoundIsName(p: Bytes, at: nat, end: nat, name: Bytes)
    requires Extensions(p) == Some(Span(at, end)) && FindExtension(p, at, end).Some?
    requires var s := FindExtension(p, at, end).value; s.hi == s.lo + |name| && At(p, s.lo, name)
    ensures ServerName(p).Some? && ServerName(p).value.lo <= ServerName(p).value.hi <= |p| && p[ServerName(p).value.lo..ServerName(p).value.hi] == name
  {
    AtIsSlice(p, FindExtension(p, at, end).value.lo, name);
  }

  lemma ShownIsPart(h: Hello, shown: seq<Extension>, post: seq<Extension>)
    requires IsHello(h) && h.extensions == shown + post
    ensures forall k :: 0 <= k < |shown| ==> IsExtension(shown[k])
    ensures |SerializeExtensions(shown)| <= |SerializeExtensions(h.extensions)|
  {
    forall k | 0 <= k < |shown| ensures IsExtension(shown[k]) {
      assert h.extensions[k] == shown[k];
    }
    forall k | 0 <= k < |post| ensures IsExtension(post[k]) {
      assert h.extensions[|shown| + k] == post[k];
    }
    ExtensionsJoin(shown, post);
  }

  lemma StartsWith(a: Bytes, b: Bytes)
    ensures At(a + b, 0, a)
  {
  }

  /** In particular from the whole message, whatever extensions come before and after. */
  lemma ServerNameRoundTrip(head: Bytes, h: Hello, pre: seq<Extension>, before: seq<NameEntry>, name: Bytes, after: seq<NameEntry>, post: seq<Extension>)
    requires IsHead(head) && IsHello(h) && IsNameList(before + [NameEntry(0, name)] + after)
    requires h.extensions == pre + [NameExtension(before + [NameEntry(0, name)] + after)] + post
    requires (forall k :: 0 <= k < |pre| ==> pre[k].kind != 0) && forall k :: 0 <= k < |before| ==> before[k].kind != 0
    ensures var p := Serialize(head, h);
      ServerName(p).Some? && ServerName(p).value.lo <= ServerName(p).value.hi <= |p| && p[ServerName(p).value.lo..ServerName(p).value.hi] == name
  {
    var shown := pre + [NameExtension(before + [NameEntry(0, name)] + after)];
    forall k | 0 <= k < |pre| ensures IsExtension(pre[k]) {
      assert h.extensions[k] == pre[k];
    }
    forall k | 0 <= k < |post| ensures IsExtension(post[k]) {
      assert h.extensions[|shown| + k] == post[k];
    }
    ExtensionsJoin(shown, post);
    var a, b := Opening(head, h, SerializeExtensions(shown)), SerializeExtensions(post);
    assert Serialize(head, h) == a + b;
    StartsWith(a, b);
    ServerNameIsRead(Serialize(head, h), head, h, pre, before, name, after, post);
  }

  lemma WholeMessage(head: Bytes, h: Hello)
    requires IsHello(h)
    ensures var p := Opening(head, h, SerializeExtensions(h.extensions)); Serialize(head, h) == p && At(p, 0, p)
  {
  }

  /** Without such an extension there is none. */
  lemma NoServerName(head: Bytes, h: Hello)
    requires IsHead(head) && IsHello(h) && forall k :: 0 <= k < |h.extensions| ==> h.extensions[k].kind != 0
    ensures ServerName(Serialize(head, h)) == None
  {
    var p, es := Serialize(head, h), SerializeExtensions(h.extensions);
    WholeMessage(head, h);
    var at := ReadHello(p, head, h, es);
    FindNone(p, at, |p|, h.extensions);
  }
}

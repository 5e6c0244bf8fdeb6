/** The key of a flow: its endpoints in a canonical order, so both directions share it. */
module FlowKey {
  import opened Bytes

  type u16 = x: int | 0 <= x < 0x1_0000

  datatype Key = Key(protocol: byte, srcIP: Bytes, dstIP: Bytes, srcPort: u16, dstPort: u16)

  /** An address as the tracker keeps it. */
  type IP16 = ip: Bytes | |ip| == 16 witness ZeroIP()

  const V4_PREFIX: Bytes := [0, 0, 0, 0, 0, 0, 0, 0, 0, 0, 0xFF, 0xFF]

  function ZeroIP(): Bytes {
    seq(16, i => 0)
  }

  /** The 16-byte form of an address; the empty string stands for nil. */
  function To16(ip: Bytes): Bytes {
    if |ip| == 16 then ip else if |ip| == 4 then V4_PREFIX + ip else []
  }

  predicate IsAddress(ip: Bytes) {
    |ip| == 4 || |ip| == 16
  }

  /** The address copied into a zeroed 16-byte array. */
  function Copied(ip: Bytes): Bytes {
    if |ip| == 16 then ip else ZeroIP()
  }

  /** Lexicographic comparison: -1, 0 or 1. */
  function Compare(a: Bytes, b: Bytes): int {
    if a == [] then (if b == [] then 0 else -1)
    else if b == [] then 1
    else if a[0] != b[0] then (if a[0] < b[0] then -1 else 1)
    else Compare(a[1..], b[1..])
  }

  function NewKey(proto: byte, srcIP: Bytes, dstIP: Bytes, srcPort: u16, dstPort: u16): Key {
    var src, dst := To16(srcIP), To16(dstIP);
    if Compare(src, dst) < 0 || (src == dst && srcPort <= dstPort)
    then Key(proto, Copied(src), Copied(dst), srcPort, dstPort)
    else Key(proto, Copied(dst), Copied(src), dstPort, srcPort)
  }

  lemma {:induction false} CompareIsTotalOrder(a: Bytes, b: Bytes)
    ensures Compare(a, b) == -Compare(b, a)
    ensures Compare(a, b) == 0 <==> a == b
  {
    if a != [] && b != [] && a[0] == b[0] {
      CompareIsTotalOrder(a[1..], b[1..]);
      assert a == [a[0]] + a[1..] && b == [b[0]] + b[1..];
    }
  }

  /** Two packets share a key exactly when they run between the same endpoints, in either direction. */
  lemma SameKeyIff(p: byte, a: Bytes, b: Bytes, aPort: u16, bPort: u16, q: byte, c: Bytes, d: Bytes, cPort: u16, dPort: u16)
    requires IsAddress(a) && IsAddress(b) && IsAddress(c) && IsAddress(d)
    ensures NewKey(p, a, b, aPort, bPort) == NewKey(q, c, d, cPort, dPort) <==>
      p == q && ((To16(a) == To16(c) && aPort == cPort && To16(b) == To16(d) && bPort == dPort)
              || (To16(a) == To16(d) && aPort == dPort && To16(b) == To16(c) && bPort == cPort))
  {
    CompareIsTotalOrder(To16(a), To16(b));
    CompareIsTotalOrder(To16(c), To16(d));
  }
}

/** The variable-length FlexID header: a fixed prefix that is the memory image of the struct up
    to its two pointers, followed by two addresses of `hash_len` bytes each. */
module HeaderCodec {
  newtype byte = x: int | 0 <= x < 0x100
  newtype uint16 = x: int | 0 <= x < 0x1_0000

  /** Offset of the pointers in the struct: `sizeof(Flexhdr) - 2 * sizeof(uint8_t*)`. */
  const PREFIX: nat := 16

  /** The byte order of the host, which `memcpy` exposes. */
  datatype Endian = Little | Big

  /** A header as a value. */
  datatype Header = Header(version: byte, packetType: byte, hashType: byte, hashLen: byte, packetLen: uint16,
                           checksum: uint16, packetId: uint16, fragOff: uint16, headerLen: uint16, hopLimit: byte,
                           reserved: byte, saddr: seq<byte>, daddr: seq<byte>)
  {
    /** Both addresses have the announced length. */
    predicate WellFormed() {
      |saddr| == hashLen as int && |daddr| == hashLen as int
    }
  }

  function Bytes16(e: Endian, v: uint16): (b: seq<byte>)
    ensures |b| == 2
  {
    var hi, lo := (v / 256) as byte, (v % 256) as byte;
    if e.Little? then [lo, hi] else [hi, lo]
  }

  function Value16(e: Endian, b: seq<byte>): uint16
    requires |b| == 2
  {
    if e.Little? then b[1] as uint16 * 256 + b[0] as uint16 else b[0] as uint16 * 256 + b[1] as uint16
  }

  lemma {:induction false} RoundTrip16(e: Endian, v: uint16, b: seq<byte>)
    requires |b| == 2
    ensures Value16(e, Bytes16(e, v)) == v
    ensures Bytes16(e, Value16(e, b)) == b
  {
  }

  /** The memory image of the fields before the pointers. */
  function PrefixBytes(e: Endian, h: Header): (b: seq<byte>)
    ensures |b| == PREFIX
  {
    [h.version, h.packetType, h.hashType, h.hashLen] + Bytes16(e, h.packetLen) + Bytes16(e, h.checksum)
    + Bytes16(e, h.packetId) + Bytes16(e, h.fragOff) + Bytes16(e, h.headerLen) + [h.hopLimit, h.reserved]
  }

  /** The fields as read back from a memory image. */
  function PrefixFields(e: Endian, b: seq<byte>, saddr: seq<byte>, daddr: seq<byte>): Header
    requires |b| == PREFIX
  {
    Header(b[0], b[1], b[2], b[3], Value16(e, b[4..6]), Value16(e, b[6..8]), Value16(e, b[8..10]),
           Value16(e, b[10..12]), Value16(e, b[12..14]), b[14], b[15], saddr, daddr)
  }

  /** The bytes of a header. */
  function Encode(e: Endian, h: Header): seq<byte> {
    PrefixBytes(e, h) + h.saddr + h.daddr
  }

  /** How many bytes a buffer's header takes: the prefix tells. */
  function EncodedLength(b: seq<byte>): nat
    requires |b| >= PREFIX
  {
    PREFIX + 2 * b[3] as nat
  }

  /** The header at the start of a buffer. */
  function Decode(e: Endian, b: seq<byte>): Header
    requires |b| >= PREFIX && |b| >= EncodedLength(b)
  {
    var n := b[3] as nat;
    PrefixFields(e, b[..PREFIX], b[PREFIX..PREFIX + n], b[PREFIX + n..PREFIX + 2 * n])
  }

  lemma {:induction false} PrefixRoundTrip(e: Endian, h: Header)
    ensures PrefixFields(e, PrefixBytes(e, h), h.saddr, h.daddr) == h
  {
    var b := PrefixBytes(e, h);
    assert b[4..6] == Bytes16(e, h.packetLen);
    assert b[6..8] == Bytes16(e, h.checksum);
    assert b[8..10] == Bytes16(e, h.packetId);
    assert b[10..12] == Bytes16(e, h.fragOff);
    assert b[12..14] == Bytes16(e, h.headerLen);
  }

  /** The two bytes at `b[i]` hold a 16-bit field in the host's byte order. */
  predicate Holds16(e: Endian, b: seq<byte>, i: nat, v: uint16)
    requires i + 1 < |b|
  {
    v as int == if e.Little? then b[i] as int + 256 * b[i + 1] as int else 256 * b[i] as int + b[i + 1] as int
  }

  /** Every field sits where the struct has it, and the addresses follow. */
  lemma {:induction false} FieldPositions(e: Endian, h: Header)
    requires h.WellFormed()
    ensures var b, n := Encode(e, h), h.hashLen as int;
            && |b| == 16 + 2 * n
            && b[0] == h.version && b[1] == h.packetType && b[2] == h.hashType && b[3] == h.hashLen
            && Holds16(e, b, 4, h.packetLen) && Holds16(e, b, 6, h.checksum) && Holds16(e, b, 8, h.packetId)
            && Holds16(e, b, 10, h.fragOff) && Holds16(e, b, 12, h.headerLen)
            && b[14] == h.hopLimit && b[15] == h.reserved
            && b[16..16 + n] == h.saddr && b[16 + n..] == h.daddr
  {
    var b, p := Encode(e, h), PrefixBytes(e, h);
    assert b == p + (h.saddr + h.daddr);
    assert p[4..6] == Bytes16(e, h.packetLen) && p[6..8] == Bytes16(e, h.checksum);
    assert p[8..10] == Bytes16(e, h.packetId) && p[10..12] == Bytes16(e, h.fragOff);
    assert p[12..14] == Bytes16(e, h.headerLen);
    Bytes16Hold(e, h.packetLen);
    Bytes16Hold(e, h.checksum);
    Bytes16Hold(e, h.packetId);
    Bytes16Hold(e, h.fragOff);
    Bytes16Hold(e, h.headerLen);
  }

  lemma {:induction false} Bytes16Hold(e: Endian, v: uint16)
    ensures Holds16(e, Bytes16(e, v), 0, v)
  {
  }

  /** Decoding gives back every well-formed header, whatever bytes follow it. */
  lemma {:induction false} DecodeEncode(e: Endian, h: Header, rest: seq<byte>)
    requires h.WellFormed()
    ensures var b := Encode(e, h) + rest;
            |b| >= PREFIX && EncodedLength(b) == |Encode(e, h)| <= |b| && Decode(e, b) == h
  {
    var b := Encode(e, h) + rest;
    var n := h.hashLen as nat;
    assert b[..PREFIX] == PrefixBytes(e, h);
    assert b[PREFIX..PREFIX + n] == h.saddr;
    assert b[PREFIX + n..PREFIX + 2 * n] == h.daddr;
    PrefixRoundTrip(e, h);
  }

  lemma {:induction false} PrefixImage(e: Endian, b: seq<byte>, saddr: seq<byte>, daddr: seq<byte>)
    requires |b| == PREFIX
    ensures PrefixBytes(e, PrefixFields(e, b, saddr, daddr)) == b
  {
    RoundTrip16(e, 0, b[4..6]);
    RoundTrip16(e, 0, b[6..8]);
    RoundTrip16(e, 0, b[8..10]);
    RoundTrip16(e, 0, b[10..12]);
    RoundTrip16(e, 0, b[12..14]);
  }

  /** Conversely, re-encoding a decoded buffer gives exactly the bytes that were looked at. */
  lemma {:induction false} EncodeDecode(e: Endian, b: seq<byte>)
    requires |b| >= PREFIX && |b| >= EncodedLength(b)
    ensures Decode(e, b).WellFormed()
    ensures Encode(e, Decode(e, b)) == b[..EncodedLength(b)]
  {
    var n := b[3] as nat;
    PrefixImage(e, b[..PREFIX], b[PREFIX..PREFIX + n], b[PREFIX + n..PREFIX + 2 * n]);
    assert b[..PREFIX] + b[PREFIX..PREFIX + n] + b[PREFIX + n..PREFIX + 2 * n] == b[..PREFIX + 2 * n];
  }

  /** The encoding is prefix-free: a header's bytes determine the header and where it ends. */
  lemma {:induction false} EncodePrefixFree(e: Endian, h: Header, g: Header, r: seq<byte>, s: seq<byte>)
    requires h.WellFormed() && g.WellFormed() && Encode(e, h) + r == Encode(e, g) + s
    ensures h == g && r == s
  {
    DecodeEncode(e, h, r);
    DecodeEncode(e, g, s);
    assert r == (Encode(e, h) + r)[|Encode(e, h)|..];
    assert s == (Encode(e, g) + s)[|Encode(e, g)|..];
  }

  /** A 16-bit value that reads the same in both byte orders. */
  predicate Palindrome(v: uint16) {
    v / 256 == v % 256
  }

  lemma {:induction false} OtherEndian16(v: uint16)
    ensures Value16(Big, Bytes16(Little, v)) == v <==> Palindrome(v)
    ensures Value16(Little, Bytes16(Big, v)) == v <==> Palindrome(v)
  {
  }

  /** Nothing converts to network order: between hosts of different byte order a header survives if
      and only if all its 16-bit fields read the same both ways. */
  lemma {:induction false} HostsMustAgree(e: Endian, f: Endian, h: Header)
    requires h.WellFormed() && e != f
    ensures |Encode(e, h)| >= PREFIX && |Encode(e, h)| == EncodedLength(Encode(e, h))
    ensures Decode(f, Encode(e, h)) == h
            <==> Palindrome(h.packetLen) && Palindrome(h.checksum) && Palindrome(h.packetId) && Palindrome(h.fragOff)
                 && Palindrome(h.headerLen)
  {
    DecodeEncode(e, h, []);
    var b := Encode(e, h);
    assert b + [] == b;
    var p := PrefixBytes(e, h);
    assert b[..PREFIX] == p;
    assert p[4..6] == Bytes16(e, h.packetLen);
    assert p[6..8] == Bytes16(e, h.checksum);
    assert p[8..10] == Bytes16(e, h.packetId);
    assert p[10..12] == Bytes16(e, h.fragOff);
    assert p[12..14] == Bytes16(e, h.headerLen);
    OtherEndian16(h.packetLen);
    OtherEndian16(h.checksum);
    OtherEndian16(h.packetId);
    OtherEndian16(h.fragOff);
    OtherEndian16(h.headerLen);
  }
}

/** The header struct with its heap-allocated addresses, and the client that receives one. */
module FlexHeader {
  import opened Wrappers
  import opened HeaderCodec

  /** `memcpy`: `src` is the source memory as read before the copy. */
  method Memcpy(dst: array<byte>, off: nat, src: seq<byte>)
    requires off + |src| <= dst.Length
    modifies dst
    ensures dst[..] == old(dst[..off]) + src + old(dst[off + |src|..])
  {
    for i := 0 to |src|
      invariant dst[..off] == old(dst[..off])
      invariant dst[off..off + i] == src[..i]
      invariant dst[off + |src|..] == old(dst[off + |src|..])
    {
      dst[off + i] := src[i];
    }
    assert dst[..] == dst[..off] + dst[off..off + |src|] + dst[off + |src|..];
  }

  /** `hash_len` after `flexidhdr_init`: the length truncated to a byte. */
  function InitHashLen(len: nat): byte {
    (len % 0x100) as byte
  }

  /** `header_len` after `flexidhdr_init`: the sum truncated to 16 bits. */
  function InitHeaderLen(len: nat): uint16 {
    ((PREFIX + 2 * len) % 0x1_0000) as uint16
  }

  /** The announced header length is the number of bytes `serialize` writes for every length up to
      255 (and then at most 526), and beyond that only where both truncations happen to agree. */
  lemma {:induction false} InitLengthsAgreeIff(len: nat)
    ensures InitHeaderLen(len) as int == PREFIX + 2 * InitHashLen(len) as int <==> len % 0x8000 < 0x100
    ensures len <= 255 ==> InitHashLen(len) as int == len && InitHeaderLen(len) as int == PREFIX + 2 * len <= 526
  {
    var q, r := len / 0x8000, len % 0x8000;
    var r1, r0 := r / 0x100, r % 0x100;
    assert len == 0x8000 * q + r && r == 0x100 * r1 + r0;
    LowByte(0x80 * q + r1, r0);
    assert len == 0x100 * (0x80 * q + r1) + r0;
    if PREFIX + 2 * r < 0x1_0000 {
      LowWord(q, PREFIX + 2 * r);
      assert PREFIX + 2 * len == 0x1_0000 * q + (PREFIX + 2 * r);
    } else {
      LowWord(q + 1, PREFIX + 2 * r - 0x1_0000);
      assert PREFIX + 2 * len == 0x1_0000 * (q + 1) + (PREFIX + 2 * r - 0x1_0000);
    }
  }

  lemma {:induction false} LowByte(q: nat, r: nat)
    requires r < 0x100
    ensures (0x100 * q + r) % 0x100 == r
  {
  }

  lemma {:induction false} LowWord(q: nat, r: nat)
    requires r < 0x1_0000
    ensures (0x1_0000 * q + r) % 0x1_0000 == r
  {
  }

  class Flexhdr {
    var version: byte
    var packetType: byte
    var hashType: byte
    var hashLen: byte
    var packetLen: uint16
    var checksum: uint16
    var packetId: uint16
    var fragOff: uint16
    var headerLen: uint16
    var hopLimit: byte
    var reserved: byte
    var saddr: array<byte>
    var daddr: array<byte>

    /** The addresses are at least as long as `hash_len` says. */
    ghost predicate Valid()
      reads this
    {
      saddr.Length >= hashLen as int && daddr.Length >= hashLen as int && saddr != daddr
    }

    ghost function View(): (h: Header)
      requires Valid()
      reads this, saddr, daddr
      ensures h.WellFormed()
    {
      Header(version, packetType, hashType, hashLen, packetLen, checksum, packetId, fragOff, headerLen, hopLimit,
             reserved, saddr[..hashLen as int], daddr[..hashLen as int])
    }

    /** `flexidhdr_init`: only the lengths are set, everything else is whatever `malloc` returned. */
    constructor Init(len: nat)
      ensures Valid() && fresh(saddr) && fresh(daddr) && saddr.Length == daddr.Length == len
      ensures hashLen as int == len % 0x100 && headerLen as int == (16 + 2 * len) % 0x1_0000
    {
      hashLen := InitHashLen(len);
      saddr := new byte[len];
      daddr := new byte[len];
      headerLen := InitHeaderLen(len);
    }

    /** `have_more_frag`: 1 if bit 13 of the fragment offset is set, else 0. */
    method HaveMoreFrag() returns (m: bv16)
      ensures m == if fragOff as bv16 & 0x2000 == 0 then 0 else 1
    {
      m := (fragOff as bv16 & 0x2000) >> 13;
    }

    /** `serialize` into a buffer of `header_len` bytes. Where that is less than what is written, C does
        not say what happens; `null` stands for that. */
    method Serialize(e: Endian) returns (buffer: array?<byte>)
      requires Valid()
      ensures buffer == null <==> headerLen as int < PREFIX + 2 * hashLen as int
      ensures buffer != null ==> fresh(buffer) && buffer.Length == headerLen as int && Encode(e, View()) <= buffer[..]
    {
      var n := hashLen as int;
      if headerLen as int < PREFIX + 2 * n {
        return null;
      }
      buffer := new byte[headerLen as int];
      ghost var h := View();
      Memcpy(buffer, 0, PrefixBytes(e, Header(version, packetType, hashType, hashLen, packetLen, checksum, packetId,
                                               fragOff, headerLen, hopLimit, reserved, [], [])));
      assert buffer[..PREFIX] == PrefixBytes(e, h);
      Memcpy(buffer, PREFIX, saddr[..n]);
      assert buffer[..PREFIX + n] == PrefixBytes(e, h) + h.saddr;
      Memcpy(buffer, PREFIX + n, daddr[..n]);
      assert buffer[..PREFIX + 2 * n] == Encode(e, h);
    }

    /** `deserialize`: needs the prefix and as many address bytes as the prefix announces. */
    constructor Deserialize(e: Endian, buffer: array<byte>)
      requires buffer.Length >= PREFIX && buffer.Length >= EncodedLength(buffer[..])
      ensures Valid() && fresh(saddr) && fresh(daddr) && saddr.Length == daddr.Length == hashLen as int
      ensures View() == Decode(e, buffer[..])
    {
      var image := buffer[..PREFIX];
      var h := PrefixFields(e, image, [], []);
      var n := h.hashLen as int;
      var first, second := buffer[PREFIX..PREFIX + n], buffer[PREFIX + n..PREFIX + 2 * n];
      ghost var b := buffer[..];
      version, packetType, hashType, hashLen := h.version, h.packetType, h.hashType, h.hashLen;
      packetLen, checksum, packetId, fragOff := h.packetLen, h.checksum, h.packetId, h.fragOff;
      headerLen, hopLimit, reserved := h.headerLen, h.hopLimit, h.reserved;
      saddr, daddr := new byte[n], new byte[n];
      Slices(b, n);
      new;
      Memcpy(saddr, 0, first);
      Memcpy(daddr, 0, second);
      WholeCopy(saddr[..], first);
      WholeCopy(daddr[..], second);
      DecodedFields(e, b, image, first, second);
    }
  }

  lemma {:induction false} Slices(b: seq<byte>, n: nat)
    requires PREFIX + 2 * n <= |b|
    ensures |b[PREFIX..PREFIX + n]| == n && |b[PREFIX + n..PREFIX + 2 * n]| == n
  {
  }

  lemma {:induction false} WholeCopy(a: seq<byte>, src: seq<byte>)
    requires |a| == |src| && a == a[..0] + src + a[|src|..]
    ensures a[..|a|] == src
  {
  }

  lemma {:induction false} DecodedFields(e: Endian, b: seq<byte>, image: seq<byte>, saddr: seq<byte>, daddr: seq<byte>)
    requires |b| >= PREFIX && |b| >= EncodedLength(b) && image == b[..PREFIX]
    requires var n := b[3] as nat; saddr == b[PREFIX..PREFIX + n] && daddr == b[PREFIX + n..PREFIX + 2 * n]
    ensures Decode(e, b) == PrefixFields(e, image, saddr, daddr)
  {
  }

  /** What `recv` can report: at least one byte, the end of the stream, or an error. */
  datatype Recv = Data(chunk: seq<byte>) | Eof | Error

  /** What a receive loop that has `had` already ends up with; `None` if it meets an error first. */
  function Received(had: seq<byte>, events: seq<Recv>): Option<seq<byte>>
    decreases |events|
  {
    if events == [] then Some(had)
    else match events[0]
    case Data(chunk) => if chunk == [] then Some(had) else Received(had + chunk, events[1..])
    case Eof => Some(had)
    case Error => None
  }

  /** With chunks only before event `e`, the loop collects them up to there; it then ends with the stream,
      which an empty chunk announces as well, or with the error. */
  lemma {:induction false} ReceivedUpTo(had: seq<byte>, events: seq<Recv>, e: nat)
    requires e <= |events| && forall i :: 0 <= i < e ==> events[i].Data? && events[i].chunk != []
    requires e < |events| ==> !events[e].Data? || events[e].chunk == []
    ensures Received(had, events)
            == if e < |events| && events[e].Error? then None
               else Some(had + Flatten(seq(e, i requires 0 <= i < e => events[i].chunk)))
    decreases e
  {
    var chunks := seq(e, i requires 0 <= i < e => events[i].chunk);
    if e == 0 {
      assert had + [] == had;
    } else {
      ReceivedUpTo(had + events[0].chunk, events[1..], e - 1);
      assert chunks[1..] == seq(e - 1, i requires 0 <= i < e - 1 => events[1..][i].chunk);
      assert had + events[0].chunk + Flatten(chunks[1..]) == had + Flatten(chunks);
    }
  }

  const BUFFER: nat := 1000

  /** Everything sent, whether or not an error ends the loop early, fits the client's buffer. */
  ghost predicate Fits(events: seq<Recv>, room: int) {
    room >= 0 && (events != [] && events[0].Data? && events[0].chunk != []
      ==> Fits(events[1..], room - |events[0].chunk|))
  }

  /** How the loop ends: with the stream, with an error, or past the buffer, after which C does not
      say what happens. */
  datatype LoopEnd = Ended(bytes: nat) | Failed | Overrun

  /** The receive loop: every chunk goes to the end of what is there, until the stream ends. */
  method ReceiveLoop(buffer: array<byte>, events: seq<Recv>) returns (end: LoopEnd)
    requires buffer.Length == BUFFER
    modifies buffer
    ensures end.Overrun? <==> !Fits(events, BUFFER)
    ensures end.Failed? ==> Received([], events).None?
    ensures end.Ended? ==> end.bytes <= BUFFER && Received([], events) == Some(buffer[..end.bytes])
  {
    var n, i := 0, 0;
    while i < |events|
      invariant 0 <= i <= |events| && 0 <= n <= BUFFER
      invariant Fits(events[i..], BUFFER - n) == Fits(events, BUFFER)
      invariant Received([], events) == Received(buffer[..n], events[i..])
    {
      if events[i].Error? {
        return Failed;
      }
      if events[i].Eof? || events[i].chunk == [] {
        return Ended(n);
      }
      var chunk := events[i].chunk;
      if n + |chunk| > BUFFER {
        return Overrun;
      }
      ghost var had := buffer[..n];
      assert events[i..][1..] == events[i + 1..];
      Memcpy(buffer, n, chunk);
      n := n + |chunk|;
      assert buffer[..n] == had + chunk;
      i := i + 1;
    }
    end := Ended(n);
  }

  /** The client. If what was received starts with the bytes of a header, that header comes out. */
  method ClientReceive(e: Endian, events: seq<Recv>) returns (h: Flexhdr?)
    ensures h == null <==> Received([], events).None? || !Fits(events, BUFFER)
    ensures h != null ==> fresh(h) && h.Valid()
    ensures h != null
            ==> forall g: Header :: g.WellFormed() && Encode(e, g) <= Received([], events).value ==> h.View() == g
  {
    var buffer := new byte[BUFFER];
    var end := ReceiveLoop(buffer, events);
    if !end.Ended? {
      return null;
    }
    ghost var memory := buffer[..];
    h := new Flexhdr.Deserialize(e, buffer);
    forall g: Header | g.WellFormed() && Encode(e, g) <= Received([], events).value ensures h.View() == g {
      assert memory[..end.bytes] == Received([], events).value;
      PrefixDecodes(e, g, memory);
    }
  }

  lemma {:induction false} PrefixDecodes(e: Endian, g: Header, memory: seq<byte>)
    requires g.WellFormed() && Encode(e, g) <= memory
    ensures |memory| >= PREFIX && |memory| >= EncodedLength(memory) && Decode(e, memory) == g
  {
    var rest := memory[|Encode(e, g)|..];
    assert memory == Encode(e, g) + rest;
    DecodeEncode(e, g, rest);
  }

  function Flatten(chunks: seq<seq<byte>>): seq<byte> {
    if chunks == [] then [] else chunks[0] + Flatten(chunks[1..])
  }

  function Deliveries(chunks: seq<seq<byte>>): seq<Recv> {
    if chunks == [] then [Eof] else [Data(chunks[0])] + Deliveries(chunks[1..])
  }

  lemma {:induction false} FlattenNext(had: seq<byte>, chunks: seq<seq<byte>>)
    requires chunks != []
    ensures had + Flatten(chunks) == had + chunks[0] + Flatten(chunks[1..])
  {
  }

  lemma {:induction false} DeliveriesNext(chunks: seq<seq<byte>>)
    requires chunks != []
    ensures Deliveries(chunks) != [] && Deliveries(chunks)[0] == Data(chunks[0])
    ensures Deliveries(chunks)[1..] == Deliveries(chunks[1..])
  {
  }

  lemma {:induction false} ChunksCollected(chunks: seq<seq<byte>>, had: seq<byte>, room: nat)
    requires (forall i :: 0 <= i < |chunks| ==> chunks[i] != []) && |Flatten(chunks)| <= room
    ensures Fits(Deliveries(chunks), room)
    ensures Received(had, Deliveries(chunks)) == Some(had + Flatten(chunks))
  {
    if chunks == [] {
      assert had + [] == had;
    } else {
      FlattenNext([], chunks);
      FlattenNext(had, chunks);
      DeliveriesNext(chunks);
      ChunksCollected(chunks[1..], had + chunks[0], room - |chunks[0]|);
    }
  }

  /** However the network cuts a header into chunks, the receive loop puts exactly its bytes together
      again, within the client's buffer: no header is longer than 526 bytes. */
  lemma {:induction false} AnyChunking(e: Endian, g: Header, chunks: seq<seq<byte>>)
    requires g.WellFormed() && (forall c :: c in chunks ==> c != []) && Flatten(chunks) == Encode(e, g)
    ensures |Encode(e, g)| <= 526
    ensures Fits(Deliveries(chunks), BUFFER)
    ensures Received([], Deliveries(chunks)) == Some(Encode(e, g))
  {
    forall i | 0 <= i < |chunks| ensures chunks[i] != [] {
      assert chunks[i] in chunks;
    }
    ChunksCollected(chunks, [], BUFFER);
    assert [] + Flatten(chunks) == Flatten(chunks);
  }

  /** From one end to the other: the server serializes and sends `header_len` bytes, the network cuts
      them somehow, and the client ends up with the header that was sent. */
  method Transfer(e: Endian, sent: Flexhdr) returns (received: Flexhdr?)
    requires sent.Valid() && sent.headerLen as int == PREFIX + 2 * sent.hashLen as int
    ensures received != null && received.Valid() && received.View() == sent.View()
  {
    var buffer := sent.Serialize(e);
    assert buffer[..] == Encode(e, sent.View());
    assert Flatten([buffer[..]]) == buffer[..];
    var chunks :| Flatten(chunks) == buffer[..] && forall c :: c in chunks ==> c != [];
    AnyChunking(e, sent.View(), chunks);
    received := ClientReceive(e, Deliveries(chunks));
  }
}

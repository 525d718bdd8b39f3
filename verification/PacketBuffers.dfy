/**
 The C++ code that writes LSAs into a packet buffer and reads them back, as loops over arrays
 (src/packet.hpp, src/packet.cpp). Each method is tied to the wire form defined in `Codec`.
 */
module PacketBuffers {
  import opened Words
  import opened Lsas
  import opened Codec
  import Fletcher

  /** `s` with `bytes` written over it at `at`. */
  function Overwritten(s: Bytes, at: nat, bytes: Bytes): (r: Bytes)
    requires at + |bytes| <= |s|
    ensures |r| == |s|
  {
    s[..at] + bytes + s[at + |bytes|..]
  }

  /** Writing `x` and then `y` right after it is writing `x + y`. */
  lemma OverwrittenTwice(s: Bytes, at: nat, x: Bytes, y: Bytes)
    requires at + |x| + |y| <= |s|
    ensures Overwritten(Overwritten(s, at, x), at + |x|, y) == Overwritten(s, at, x + y)
  {
  }

  lemma OverwrittenAll(s: Bytes, bytes: Bytes)
    requires |s| == |bytes|
    ensures Overwritten(s, 0, bytes) == bytes
  {
  }

  lemma EncodeLinksStep(links: seq<Link>, i: nat)
    requires i < |links|
    ensures EncodeLinks(links[..i + 1]) == EncodeLinks(links[..i]) + EncodeLink(links[i])
  {
    assert links[..i + 1][..i] == links[..i];
  }

  lemma EncodeIdsStep(ids: seq<uint32>, i: nat)
    requires i < |ids|
    ensures EncodeIds(ids[..i + 1]) == EncodeIds(ids[..i]) + Be32(ids[i])
  {
    assert ids[..i + 1][..i] == ids[..i];
  }

  lemma EncodeAllStep(lsas: seq<Lsa>, i: nat)
    requires i < |lsas|
    ensures EncodeAll(lsas[..i + 1]) == EncodeAll(lsas[..i]) + EncodeLsa(lsas[i])
  {
    assert lsas[..i + 1] == lsas[..i] + [lsas[i]];
    EncodeAllSnoc(lsas[..i], lsas[i]);
  }

  // ----- Writing

  method Put8(buf: array<uint8>, at: nat, x: uint8)
    requires at + 1 <= buf.Length
    modifies buf
    ensures buf[..] == Overwritten(old(buf[..]), at, [x])
  {
    buf[at] := x;
  }

  method Put16(buf: array<uint8>, at: nat, x: uint16)
    requires at + 2 <= buf.Length
    modifies buf
    ensures buf[..] == Overwritten(old(buf[..]), at, Be16(x))
  {
    buf[at], buf[at + 1] := x / TWO_8, x % TWO_8;
  }

  method Put32(buf: array<uint8>, at: nat, x: uint32)
    requires at + 4 <= buf.Length
    modifies buf
    ensures buf[..] == Overwritten(old(buf[..]), at, Be32(x))
  {
    buf[at], buf[at + 1] := x / TWO_24, x / TWO_16 % TWO_8;
    buf[at + 2], buf[at + 3] := x / TWO_8 % TWO_8, x % TWO_8;
  }

  method Put24(buf: array<uint8>, at: nat, x: uint32)
    requires at + 3 <= buf.Length
    modifies buf
    ensures buf[..] == Overwritten(old(buf[..]), at, Be24(x))
  {
    buf[at], buf[at + 1], buf[at + 2] := x / TWO_16 % TWO_8, x / TWO_8 % TWO_8, x % TWO_8;
  }

  method PutHeader(buf: array<uint8>, at: nat, h: Header)
    requires at + HEADER_SIZE <= buf.Length
    modifies buf
    ensures buf[..] == Overwritten(old(buf[..]), at, EncodeHeader(h))
  {
    ghost var s := buf[..];
    Put16(buf, at, h.age);
    Put8(buf, at + 2, h.options);
    Put8(buf, at + 3, h.lsType);
    Put32(buf, at + 4, h.linkStateId);
    Put32(buf, at + 8, h.advertisingRouter);
    Put32(buf, at + 12, h.sequenceNumber);
    Put16(buf, at + 16, h.checksum);
    Put16(buf, at + 18, h.length);
    ghost var b1 := Be16(h.age);
    ghost var b2: Bytes := b1 + [h.options];
    ghost var b3: Bytes := b2 + [h.lsType];
    ghost var b4 := b3 + Be32(h.linkStateId);
    ghost var b5 := b4 + Be32(h.advertisingRouter);
    ghost var b6 := b5 + Be32(h.sequenceNumber);
    ghost var b7 := b6 + Be16(h.checksum);
    OverwrittenTwice(s, at, b1, [h.options]);
    OverwrittenTwice(s, at, b2, [h.lsType]);
    OverwrittenTwice(s, at, b3, Be32(h.linkStateId));
    OverwrittenTwice(s, at, b4, Be32(h.advertisingRouter));
    OverwrittenTwice(s, at, b5, Be32(h.sequenceNumber));
    OverwrittenTwice(s, at, b6, Be16(h.checksum));
    OverwrittenTwice(s, at, b7, Be16(h.length));
    assert b3 == Be16(h.age) + [h.options, h.lsType];
  }

  method PutLink(buf: array<uint8>, at: nat, l: Link)
    requires at + 12 <= buf.Length
    modifies buf
    ensures buf[..] == Overwritten(old(buf[..]), at, EncodeLink(l))
  {
    ghost var s := buf[..];
    Put32(buf, at, l.linkId);
    Put32(buf, at + 4, l.linkData);
    Put8(buf, at + 8, l.linkType);
    Put8(buf, at + 9, l.tos);
    Put16(buf, at + 10, l.metric);
    ghost var b1 := Be32(l.linkId);
    ghost var b2 := b1 + Be32(l.linkData);
    ghost var b3: Bytes := b2 + [l.linkType];
    ghost var b4: Bytes := b3 + [l.tos];
    OverwrittenTwice(s, at, b1, Be32(l.linkData));
    OverwrittenTwice(s, at, b2, [l.linkType]);
    OverwrittenTwice(s, at, b3, [l.tos]);
    OverwrittenTwice(s, at, b4, Be16(l.metric));
    assert b4 == Be32(l.linkId) + Be32(l.linkData) + [l.linkType, l.tos];
  }

  method PutLinks(buf: array<uint8>, at: nat, links: seq<Link>)
    requires at + 12 * |links| <= buf.Length
    modifies buf
    ensures buf[..] == Overwritten(old(buf[..]), at, EncodeLinks(links))
  {
    hide EncodeLink;
    ghost var s := buf[..];
    var ptr := at;
    for i := 0 to |links|
      invariant ptr == at + 12 * i
      invariant buf[..] == Overwritten(s, at, EncodeLinks(links[..i]))
    {
      PutLink(buf, ptr, links[i]);
      EncodeLinksStep(links, i);
      OverwrittenTwice(s, at, EncodeLinks(links[..i]), EncodeLink(links[i]));
      ptr := ptr + 12;
    }
    assert links[..|links|] == links;
  }

  method PutIds(buf: array<uint8>, at: nat, ids: seq<uint32>)
    requires at + 4 * |ids| <= buf.Length
    modifies buf
    ensures buf[..] == Overwritten(old(buf[..]), at, EncodeIds(ids))
  {
    hide Be32;
    ghost var s := buf[..];
    var ptr := at;
    for i := 0 to |ids|
      invariant ptr == at + 4 * i
      invariant buf[..] == Overwritten(s, at, EncodeIds(ids[..i]))
    {
      Put32(buf, ptr, ids[i]);
      EncodeIdsStep(ids, i);
      OverwrittenTwice(s, at, EncodeIds(ids[..i]), Be32(ids[i]));
      ptr := ptr + 4;
    }
    assert ids[..|ids|] == ids;
  }

  /** `to_packet` of each kind of LSA. */
  method ToPacket(buf: array<uint8>, at: nat, lsa: Lsa)
    requires at + Size(lsa) <= buf.Length
    modifies buf
    ensures buf[..] == Overwritten(old(buf[..]), at, EncodeLsa(lsa))
  {
    ghost var s := buf[..];
    PutHeader(buf, at, lsa.header);
    PutBody(buf, at + HEADER_SIZE, lsa);
    OverwrittenTwice(s, at, EncodeHeader(lsa.header), EncodeBody(lsa));
  }

  method PutBody(buf: array<uint8>, at: nat, lsa: Lsa)
    requires at + Size(lsa) - HEADER_SIZE <= buf.Length
    modifies buf
    ensures buf[..] == Overwritten(old(buf[..]), at, EncodeBody(lsa))
  {
    match lsa {
      case RouterLsa(_, flags, numLinks, links) => PutRouterBody(buf, at, flags, numLinks, links);
      case NetworkLsa(_, mask, routers) => PutNetworkBody(buf, at, mask, routers);
      case SummaryLsa(_, mask, tos, metric) => PutSummaryBody(buf, at, mask, tos, metric);
    }
  }

  method PutRouterBody(buf: array<uint8>, at: nat, flags: uint16, numLinks: uint16, links: seq<Link>)
    requires at + 4 + 12 * |links| <= buf.Length
    modifies buf
    ensures buf[..] == Overwritten(old(buf[..]), at, Be16(flags) + Be16(numLinks) + EncodeLinks(links))
  {
    ghost var s := buf[..];
    Put16(buf, at, flags);
    Put16(buf, at + 2, numLinks);
    OverwrittenTwice(s, at, Be16(flags), Be16(numLinks));
    PutLinks(buf, at + 4, links);
    OverwrittenTwice(s, at, Be16(flags) + Be16(numLinks), EncodeLinks(links));
  }

  method PutNetworkBody(buf: array<uint8>, at: nat, mask: uint32, routers: seq<uint32>)
    requires at + 4 + 4 * |routers| <= buf.Length
    modifies buf
    ensures buf[..] == Overwritten(old(buf[..]), at, Be32(mask) + EncodeIds(routers))
  {
    ghost var s := buf[..];
    Put32(buf, at, mask);
    PutIds(buf, at + 4, routers);
    OverwrittenTwice(s, at, Be32(mask), EncodeIds(routers));
  }

  method PutSummaryBody(buf: array<uint8>, at: nat, mask: uint32, tos: uint8, metric: uint32)
    requires at + 8 <= buf.Length
    modifies buf
    ensures buf[..] == Overwritten(old(buf[..]), at, Be32(mask) + ([tos] + Be24(metric)))
  {
    ghost var s := buf[..];
    Put32(buf, at, mask);
    Put8(buf, at + 4, tos);
    OverwrittenTwice(s, at, Be32(mask), [tos]);
    Put24(buf, at + 5, metric);
    OverwrittenTwice(s, at, Be32(mask) + [tos], Be24(metric));
    assert Be32(mask) + [tos] + Be24(metric) == Be32(mask) + ([tos] + Be24(metric));
  }

  /** `produce_lsu`: writes the update at the front of `buf` and returns its length. */
  method ProduceLsu(buf: array<uint8>, lsas: seq<Lsa>) returns (offset: nat)
    requires |lsas| < TWO_32 && |EncodeLsu(lsas)| <= buf.Length
    modifies buf
    ensures offset == |EncodeLsu(lsas)|
    ensures buf[..] == Overwritten(old(buf[..]), 0, EncodeLsu(lsas))
  {
    hide EncodeLsa;
    ghost var s := buf[..];
    offset := 4;
    for i := 0 to |lsas|
      invariant offset == 4 + |EncodeAll(lsas[..i])| <= buf.Length
      invariant buf[..] == Overwritten(s, 4, EncodeAll(lsas[..i]))
    {
      EncodeAllStep(lsas, i);
      EncodeAllPrefix(lsas, i + 1);
      ToPacket(buf, offset, lsas[i]);
      OverwrittenTwice(s, 4, EncodeAll(lsas[..i]), EncodeLsa(lsas[i]));
      offset := offset + Size(lsas[i]);
    }
    assert lsas[..|lsas|] == lsas;
    Put32(buf, 0, |lsas|);
  }

  lemma {:induction false} EncodeAllPrefix(lsas: seq<Lsa>, n: nat)
    requires n <= |lsas|
    ensures |EncodeAll(lsas[..n])| <= |EncodeAll(lsas)|
    decreases |lsas| - n
  {
    hide EncodeLsa;
    if n < |lsas| {
      EncodeAllPrefix(lsas, n + 1);
      EncodeAllStep(lsas, n);
    } else {
      assert lsas[..n] == lsas;
    }
  }

  // ----- Reading

  /** The `Router` constructor. */
  method ReadRouter(buf: array<uint8>, at: nat) returns (p: Parse<Lsa>)
    ensures p == ParseRouter(buf[..], at)
  {
    if buf.Length < at + HEADER_SIZE + 4 {
      return PastEnd;
    }
    var numLinks: nat := Get16(buf[..], at + HEADER_SIZE + 2);
    if buf.Length < at + HEADER_SIZE + 4 + 12 * numLinks {
      return PastEnd;
    }
    var links, ptr := [], at + HEADER_SIZE + 4;
    for i := 0 to numLinks
      invariant ptr == at + HEADER_SIZE + 4 + 12 * i
      invariant links == GetLinks(buf[..], at + HEADER_SIZE + 4, i)
    {
      links := links + [GetLink(buf[..], ptr)];
      ptr := ptr + 12;
    }
    var lsa := RouterLsa(GetHeader(buf[..], at), Get16(buf[..], at + HEADER_SIZE), numLinks, links);
    p := Parsed(lsa, at + Size(lsa));
  }

  /** The `Network` constructor: it reads ids until the end that the header's length gives. */
  method ReadNetwork(buf: array<uint8>, at: nat) returns (p: Parse<Lsa>)
    ensures p == ParseNetwork(buf[..], at)
  {
    if buf.Length < at + HEADER_SIZE + 4 {
      return PastEnd;
    }
    var header := GetHeader(buf[..], at);
    var end := at + header.length;
    var mask := Get32(buf[..], at + HEADER_SIZE);
    var routers, ptr := [], at + HEADER_SIZE + 4;
    while ptr < end
      invariant ptr == at + HEADER_SIZE + 4 + 4 * |routers| <= buf.Length
      invariant |routers| <= AttachedCount(header.length)
      invariant routers == GetIds(buf[..], at + HEADER_SIZE + 4, |routers|)
    {
      if buf.Length < ptr + 4 {
        return PastEnd;
      }
      routers := routers + [Get32(buf[..], ptr)];
      ptr := ptr + 4;
    }
    var lsa := NetworkLsa(header, mask, routers);
    p := Parsed(lsa, at + Size(lsa));
  }

  /** The parse loop of `process_lsu`, from the LSA count at `at` on. */
  method ReadLsu(buf: array<uint8>, at: nat) returns (p: Parse<seq<Lsa>>)
    ensures p == ParseLsu(buf[..], at)
  {
    if buf.Length < at + 4 {
      return PastEnd;
    }
    var numLsas := Get32(buf[..], at);
    var lsas: seq<Lsa>, offset: nat := [], at + 4;
    ghost var b := buf[..];
    for i := 0 to numLsas
      invariant ParseAll(b, at + 4, i) == Parsed(lsas, offset)
    {
      var next: Parse<Lsa>;
      if buf.Length < offset + HEADER_SIZE {
        next := PastEnd;
      } else if buf[offset + 3] == ROUTER {
        next := ReadRouter(buf, offset);
      } else if buf[offset + 3] == NETWORK {
        next := ReadNetwork(buf, offset);
      } else if buf[offset + 3] == SUMMARY {
        next := ParseSummary(buf[..], offset);
      } else {
        next := UnknownType;
      }
      assert next == ParseLsa(b, offset);
      if next.PastEnd? || next.UnknownType? {
        ParseAllStops(b, at + 4, i, numLsas);
        return if next.PastEnd? then PastEnd else UnknownType;
      }
      lsas, offset := lsas + [next.value], next.end;
    }
    p := Parsed(lsas, offset);
  }

  /** A read that fails at the LSA after `i` fails for every longer count. */
  lemma {:induction false} ParseAllStops(b: Bytes, at: nat, i: nat, n: nat)
    requires i < n && ParseAll(b, at, i).Parsed? && !ParseLsa(b, ParseAll(b, at, i).end).Parsed?
    ensures ParseAll(b, at, n).PastEnd? <==> ParseLsa(b, ParseAll(b, at, i).end).PastEnd?
    ensures ParseAll(b, at, n).UnknownType? <==> ParseLsa(b, ParseAll(b, at, i).end).UnknownType?
  {
    if i + 1 < n {
      ParseAllStops(b, at, i, n - 1);
    }
  }

  // ----- Checksums of LSAs

  /** Where the checksum field stands in an LSA from which the age has been cut. */
  const CHECKSUM_OFFSET := 14

  /** The LSA with the checksum that `make_checksum` gives it. */
  function Checksummed(lsa: Lsa): Lsa
  {
    var data := EncodeLsa(lsa)[2..];
    var c := Fletcher.StampHigh(data, CHECKSUM_OFFSET) * TWO_8 + Fletcher.StampLow(data, CHECKSUM_OFFSET);
    WithHeader(lsa, lsa.header.(checksum := c))
  }

  /** `make_checksum`; the C++ code reads `header.length` bytes of a buffer of `size()` bytes. */
  method MakeChecksum(lsa: Lsa) returns (r: Lsa)
    requires lsa.header.length == Size(lsa)
    ensures r == Checksummed(lsa)
  {
    var packet := new uint8[Size(lsa)];
    ghost var before := packet[..];
    ToPacket(packet, 0, lsa);
    OverwrittenAll(before, EncodeLsa(lsa));
    assert packet[2..lsa.header.length] == packet[..][2..];
    var checksum := Fletcher.Fletcher16(packet[2..lsa.header.length], CHECKSUM_OFFSET);
    r := WithHeader(lsa, lsa.header.(checksum := checksum));
  }

  lemma HeaderChecksumBytes(h: Header, x: uint8, y: uint8)
    ensures EncodeHeader(h.(checksum := x * TWO_8 + y))[2..]
            == EncodeHeader(h)[2..16] + [x, y] + EncodeHeader(h)[18..]
  {
    assert Be16(x * TWO_8 + y) == [x, y];
  }

  lemma BodyWithHeader(lsa: Lsa, h: Header)
    ensures WithHeader(lsa, h).header == h && EncodeBody(WithHeader(lsa, h)) == EncodeBody(lsa)
  {
  }

  /** In the wire form the two check bytes stand exactly in the checksum field. */
  lemma EncodeChecksummed(lsa: Lsa)
    ensures var data := EncodeLsa(lsa)[2..];
            EncodeLsa(Checksummed(lsa))[2..]
            == Fletcher.Stamped(data, CHECKSUM_OFFSET, Fletcher.StampHigh(data, CHECKSUM_OFFSET),
                                Fletcher.StampLow(data, CHECKSUM_OFFSET))
  {
    hide EncodeHeader, EncodeBody, Fletcher.StampHigh, Fletcher.StampLow;
    var data := EncodeLsa(lsa)[2..];
    var x, y := Fletcher.StampHigh(data, CHECKSUM_OFFSET), Fletcher.StampLow(data, CHECKSUM_OFFSET);
    var e, f, body := EncodeHeader(lsa.header), EncodeHeader(lsa.header.(checksum := x * TWO_8 + y)), EncodeBody(lsa);
    HeaderChecksumBytes(lsa.header, x, y);
    BodyWithHeader(lsa, lsa.header.(checksum := x * TWO_8 + y));
    assert data == e[2..] + body;
    assert EncodeLsa(Checksummed(lsa))[2..] == f[2..] + body;
    assert Fletcher.Stamped(data, CHECKSUM_OFFSET, x, y) == data[..14] + [x, y] + data[16..];
  }

  /**
   What a router floods passes the receiver's checksum test, whatever its content, except in the two
   failing cases of the Fletcher code; its checksum field is never zero.
   */
  lemma FloodedLsaVerifiesExactly(lsa: Lsa)
    requires Size(lsa) - 2 <= Fletcher.MAX_EXACT_LENGTH
    ensures Checksummed(lsa).header.checksum != 0
    ensures Fletcher.Verifies(EncodeLsa(Checksummed(lsa))[2..])
            <==> !Fletcher.HighByteFails(EncodeLsa(lsa)[2..], CHECKSUM_OFFSET)
                 && !Fletcher.LowByteFails(EncodeLsa(lsa)[2..], CHECKSUM_OFFSET)
  {
    EncodeChecksummed(lsa);
    Fletcher.StampVerifiesExactly(EncodeLsa(lsa)[2..], CHECKSUM_OFFSET);
  }
}

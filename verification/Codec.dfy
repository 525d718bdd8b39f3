/**
 The wire form of LSAs and of link state updates (src/packet.hpp, src/packet.cpp; RFC 2328, sections
 A.3.5 and A.4). The `Encode` and `Parse` functions say what the bytes are; `PacketBuffers` holds the loops over them.
 */
module Codec {
  import opened Words
  import opened Lsas

  type Bytes = seq<uint8>

  /** What reading an object of type `T` at some offset gives: its value and the offset after it. */
  datatype Parse<+T> =
    | Parsed(value: T, end: nat)
    | PastEnd       // the read would leave the buffer
    | UnknownType   // the `assert(false)` of `process_lsu`

  // ----- Network byte order

  function Be16(x: uint16): (r: Bytes)
    ensures |r| == 2
  {
    [x / TWO_8, x % TWO_8]
  }

  function Be32(x: uint32): (r: Bytes)
    ensures |r| == 4
  {
    [x / TWO_24, x / TWO_16 % TWO_8, x / TWO_8 % TWO_8, x % TWO_8]
  }

  function Get16(b: Bytes, at: nat): uint16
    requires at + 2 <= |b|
  {
    b[at] * TWO_8 + b[at + 1]
  }

  function Get32(b: Bytes, at: nat): uint32
    requires at + 4 <= |b|
  {
    b[at] * TWO_24 + b[at + 1] * TWO_16 + b[at + 2] * TWO_8 + b[at + 3]
  }

  /** The three-byte metric of a summary LSA. */
  function Get24(b: Bytes, at: nat): uint32
    requires at + 3 <= |b|
  {
    b[at] * TWO_16 + b[at + 1] * TWO_8 + b[at + 2]
  }

  // ----- Wire forms

  function EncodeHeader(h: Header): (r: Bytes)
    ensures |r| == HEADER_SIZE
  {
    Be16(h.age) + [h.options, h.lsType] + Be32(h.linkStateId) + Be32(h.advertisingRouter)
    + Be32(h.sequenceNumber) + Be16(h.checksum) + Be16(h.length)
  }

  function EncodeLink(l: Link): (r: Bytes)
    ensures |r| == 12
  {
    Be32(l.linkId) + Be32(l.linkData) + [l.linkType, l.tos] + Be16(l.metric)
  }

  function EncodeLinks(ls: seq<Link>): (r: Bytes)
    ensures |r| == 12 * |ls|
  {
    if ls == [] then [] else EncodeLinks(ls[..|ls| - 1]) + EncodeLink(ls[|ls| - 1])
  }

  function EncodeIds(ids: seq<uint32>): (r: Bytes)
    ensures |r| == 4 * |ids|
  {
    if ids == [] then [] else EncodeIds(ids[..|ids| - 1]) + Be32(ids[|ids| - 1])
  }

  /** The three metric bytes: the top byte of the 32-bit metric is dropped. */
  function Be24(x: uint32): (r: Bytes)
    ensures |r| == 3
  {
    [x / TWO_16 % TWO_8, x / TWO_8 % TWO_8, x % TWO_8]
  }

  function EncodeBody(lsa: Lsa): (r: Bytes)
    ensures |r| == Size(lsa) - HEADER_SIZE
  {
    match lsa
    case RouterLsa(_, flags, numLinks, links) => Be16(flags) + Be16(numLinks) + EncodeLinks(links)
    case NetworkLsa(_, mask, routers) => Be32(mask) + EncodeIds(routers)
    case SummaryLsa(_, mask, tos, metric) => Be32(mask) + ([tos] + Be24(metric))
  }

  function EncodeLsa(lsa: Lsa): (r: Bytes)
    ensures |r| == Size(lsa)
  {
    EncodeHeader(lsa.header) + EncodeBody(lsa)
  }

  function EncodeAll(lsas: seq<Lsa>): Bytes {
    if lsas == [] then [] else EncodeAll(lsas[..|lsas| - 1]) + EncodeLsa(lsas[|lsas| - 1])
  }

  /** The body of a link state update. */
  function EncodeLsu(lsas: seq<Lsa>): Bytes
    requires |lsas| < TWO_32
  {
    Be32(|lsas|) + EncodeAll(lsas)
  }

  // ----- Reading

  function GetHeader(b: Bytes, at: nat): Header
    requires at + HEADER_SIZE <= |b|
  {
    Header(Get16(b, at), b[at + 2], b[at + 3], Get32(b, at + 4), Get32(b, at + 8), Get32(b, at + 12),
           Get16(b, at + 16), Get16(b, at + 18))
  }

  /** A link: the constructor sets `tos` to 0 whatever the packet says. */
  function GetLink(b: Bytes, at: nat): Link
    requires at + 12 <= |b|
  {
    Link(Get32(b, at), Get32(b, at + 4), b[at + 8], 0, Get16(b, at + 10))
  }

  function GetLinks(b: Bytes, at: nat, n: nat): (r: seq<Link>)
    requires at + 12 * n <= |b|
    ensures |r| == n
  {
    seq(n, i requires 0 <= i < n => GetLink(b, at + 12 * i))
  }

  function GetIds(b: Bytes, at: nat, n: nat): (r: seq<uint32>)
    requires at + 4 * n <= |b|
    ensures |r| == n
  {
    seq(n, i requires 0 <= i < n => Get32(b, at + 4 * i))
  }

  function ParseRouter(b: Bytes, at: nat): Parse<Lsa> {
    if |b| < at + HEADER_SIZE + 4 then PastEnd
    else
      var n := Get16(b, at + HEADER_SIZE + 2);
      if |b| < at + HEADER_SIZE + 4 + 12 * n then PastEnd
      else
        var lsa := RouterLsa(GetHeader(b, at), Get16(b, at + HEADER_SIZE), n, GetLinks(b, at + HEADER_SIZE + 4, n));
        Parsed(lsa, at + Size(lsa))
  }

  function ParseNetwork(b: Bytes, at: nat): Parse<Lsa> {
    if |b| < at + HEADER_SIZE + 4 then PastEnd
    else
      var h := GetHeader(b, at);
      var n := AttachedCount(h.length);
      if |b| < at + HEADER_SIZE + 4 + 4 * n then PastEnd
      else
        var lsa := NetworkLsa(h, Get32(b, at + HEADER_SIZE), GetIds(b, at + HEADER_SIZE + 4, n));
        Parsed(lsa, at + Size(lsa))
  }

  function ParseSummary(b: Bytes, at: nat): Parse<Lsa> {
    if |b| < at + HEADER_SIZE + 8 then PastEnd
    else
      var lsa := SummaryLsa(GetHeader(b, at), Get32(b, at + HEADER_SIZE), b[at + HEADER_SIZE + 4],
                            Get24(b, at + HEADER_SIZE + 5));
      Parsed(lsa, at + Size(lsa))
  }

  /** The dispatch of `process_lsu` on the type byte. */
  function ParseLsa(b: Bytes, at: nat): Parse<Lsa> {
    if |b| < at + HEADER_SIZE then PastEnd
    else if b[at + 3] == ROUTER then ParseRouter(b, at)
    else if b[at + 3] == NETWORK then ParseNetwork(b, at)
    else if b[at + 3] == SUMMARY then ParseSummary(b, at)
    else UnknownType
  }

  /** `n` LSAs one after the other. */
  function ParseAll(b: Bytes, at: nat, n: nat): Parse<seq<Lsa>> {
    if n == 0 then Parsed([], at)
    else
      match ParseAll(b, at, n - 1)
      case Parsed(lsas, mid) =>
        (match ParseLsa(b, mid)
         case Parsed(lsa, end) => Parsed(lsas + [lsa], end)
         case PastEnd => PastEnd
         case UnknownType => UnknownType)
      case PastEnd => PastEnd
      case UnknownType => UnknownType
  }

  function ParseLsu(b: Bytes, at: nat): Parse<seq<Lsa>> {
    if |b| < at + 4 then PastEnd else ParseAll(b, at + 4, Get32(b, at))
  }

  // ----- Round trips

  /** The LSAs that survive being written and read back. */
  predicate WellFormed(lsa: Lsa) {
    match lsa
    case RouterLsa(h, _, numLinks, links) =>
      h.lsType == ROUTER && numLinks == |links| && forall l | l in links :: l.tos == 0
    case NetworkLsa(h, _, routers) => h.lsType == NETWORK && EndsWithin(h.length, |routers|)
    case SummaryLsa(h, _, _, metric) => h.lsType == SUMMARY && metric < TWO_24
  }

  /** The length says that the LSA ends within the last of `n` ids, or before the first if there is none. */
  predicate EndsWithin(length: uint16, n: nat) {
    if n == 0 then length <= 24 else 20 + 4 * n < length <= 24 + 4 * n
  }

  /** An LSA as its originator fills it in: the length is its size, the link count the number of links, the fields fit. */
  predicate Proper(lsa: Lsa) {
    && lsa.header.length == Size(lsa)
    && match lsa
       case RouterLsa(h, _, numLinks, links) => h.lsType == 1 && numLinks == |links| && forall l | l in links :: l.tos == 0
       case NetworkLsa(h, _, _) => h.lsType == 2
       case SummaryLsa(h, _, _, metric) => h.lsType == 3 && metric < 0x100_0000
  }

  lemma ProperIsWellFormed(lsa: Lsa)
    requires Proper(lsa)
    ensures WellFormed(lsa)
  {
  }

  /** `bytes` stands in `b` at offset `at`. */
  predicate At(b: Bytes, at: nat, bytes: Bytes) {
    at + |bytes| <= |b| && b[at..at + |bytes|] == bytes
  }

  lemma AtSplit(b: Bytes, at: nat, x: Bytes, y: Bytes)
    ensures At(b, at, x + y) <==> At(b, at, x) && At(b, at + |x|, y)
  {
    if at + |x| + |y| <= |b| {
      var whole := b[at..at + |x| + |y|];
      assert whole == b[at..at + |x|] + b[at + |x|..at + |x| + |y|];
      if whole == x + y {
        assert whole[..|x|] == x && whole[|x|..] == y;
      }
    }
  }

  lemma GetBe16(b: Bytes, at: nat, x: uint16)
    requires At(b, at, Be16(x))
    ensures Get16(b, at) == x
  {
    assert b[at..at + 2][0] == b[at] && b[at..at + 2][1] == b[at + 1];
  }

  lemma GetBe32(b: Bytes, at: nat, x: uint32)
    requires At(b, at, Be32(x))
    ensures Get32(b, at) == x
  {
    var w := b[at..at + 4];
    assert w[0] == b[at] && w[1] == b[at + 1] && w[2] == b[at + 2] && w[3] == b[at + 3];
    JoinBytes(x);
  }

  lemma JoinBytes(x: uint32)
    ensures x / TWO_24 * TWO_24 + x / TWO_16 % TWO_8 * TWO_16 + x / TWO_8 % TWO_8 * TWO_8 + x % TWO_8 == x
  {
    var p, q := x / TWO_8, x / TWO_16;
    assert q == p / TWO_8 && x / TWO_24 == q / TWO_8;
  }

  lemma GetBe24(b: Bytes, at: nat, x: uint32)
    requires At(b, at, Be24(x)) && x < TWO_24
    ensures Get24(b, at) == x
  {
    var w := b[at..at + 3];
    assert w[0] == b[at] && w[1] == b[at + 1] && w[2] == b[at + 2];
  }

  lemma GetEncodedHeader(b: Bytes, at: nat, h: Header)
    requires At(b, at, EncodeHeader(h))
    ensures GetHeader(b, at) == h
  {
    var p1: Bytes := Be16(h.age);
    var p2: Bytes := p1 + [h.options, h.lsType];
    var p3 := p2 + Be32(h.linkStateId);
    var p4 := p3 + Be32(h.advertisingRouter);
    var p5 := p4 + Be32(h.sequenceNumber);
    var p6 := p5 + Be16(h.checksum);
    AtSplit(b, at, p6, Be16(h.length));
    AtSplit(b, at, p5, Be16(h.checksum));
    AtSplit(b, at, p4, Be32(h.sequenceNumber));
    AtSplit(b, at, p3, Be32(h.advertisingRouter));
    AtSplit(b, at, p2, Be32(h.linkStateId));
    AtSplit(b, at, p1, [h.options, h.lsType]);
    assert b[at + 2..at + 4][0] == b[at + 2] && b[at + 2..at + 4][1] == b[at + 3];
    GetBe16(b, at, h.age);
    GetBe32(b, at + 4, h.linkStateId);
    GetBe32(b, at + 8, h.advertisingRouter);
    GetBe32(b, at + 12, h.sequenceNumber);
    GetBe16(b, at + 16, h.checksum);
    GetBe16(b, at + 18, h.length);
  }

  lemma GetEncodedLink(b: Bytes, at: nat, l: Link)
    requires At(b, at, EncodeLink(l))
    ensures GetLink(b, at) == l.(tos := 0)
  {
    var p1 := Be32(l.linkId);
    var p2 := p1 + Be32(l.linkData);
    var p3: Bytes := p2 + [l.linkType, l.tos];
    AtSplit(b, at, p3, Be16(l.metric));
    AtSplit(b, at, p2, [l.linkType, l.tos]);
    AtSplit(b, at, p1, Be32(l.linkData));
    assert b[at + 8..at + 10][0] == b[at + 8];
    GetBe32(b, at, l.linkId);
    GetBe32(b, at + 4, l.linkData);
    GetBe16(b, at + 10, l.metric);
  }

  lemma {:induction false} GetEncodedLinks(b: Bytes, at: nat, ls: seq<Link>)
    requires At(b, at, EncodeLinks(ls)) && forall l | l in ls :: l.tos == 0
    ensures GetLinks(b, at, |ls|) == ls
  {
    if ls != [] {
      var n := |ls| - 1;
      AtSplit(b, at, EncodeLinks(ls[..n]), EncodeLink(ls[n]));
      GetEncodedLinks(b, at, ls[..n]);
      GetEncodedLink(b, at + 12 * n, ls[n]);
      assert GetLinks(b, at, |ls|) == GetLinks(b, at, n) + [ls[n]];
    }
  }

  lemma {:induction false} GetEncodedIds(b: Bytes, at: nat, ids: seq<uint32>)
    requires At(b, at, EncodeIds(ids))
    ensures GetIds(b, at, |ids|) == ids
  {
    if ids != [] {
      var n := |ids| - 1;
      AtSplit(b, at, EncodeIds(ids[..n]), Be32(ids[n]));
      GetEncodedIds(b, at, ids[..n]);
      GetBe32(b, at + 4 * n, ids[n]);
      assert GetIds(b, at, |ids|) == GetIds(b, at, n) + [ids[n]];
    }
  }

  lemma ParseEncodedRouter(b: Bytes, at: nat, lsa: Lsa)
    requires At(b, at, EncodeLsa(lsa)) && WellFormed(lsa) && lsa.RouterLsa?
    requires GetHeader(b, at) == lsa.header && At(b, at + HEADER_SIZE, EncodeBody(lsa))
    ensures ParseRouter(b, at) == Parsed(lsa, at + Size(lsa))
  {
    var body := at + HEADER_SIZE;
    AtSplit(b, body, Be16(lsa.flags) + Be16(lsa.numLinks), EncodeLinks(lsa.links));
    AtSplit(b, body, Be16(lsa.flags), Be16(lsa.numLinks));
    GetBe16(b, body, lsa.flags);
    GetBe16(b, body + 2, lsa.numLinks);
    GetEncodedLinks(b, body + 4, lsa.links);
  }

  lemma ParseEncodedNetwork(b: Bytes, at: nat, lsa: Lsa)
    requires At(b, at, EncodeLsa(lsa)) && WellFormed(lsa) && lsa.NetworkLsa?
    requires GetHeader(b, at) == lsa.header && At(b, at + HEADER_SIZE, EncodeBody(lsa))
    ensures ParseNetwork(b, at) == Parsed(lsa, at + Size(lsa))
  {
    var body := at + HEADER_SIZE;
    AtSplit(b, body, Be32(lsa.networkMask), EncodeIds(lsa.attachedRouters));
    GetBe32(b, body, lsa.networkMask);
    GetEncodedIds(b, body + 4, lsa.attachedRouters);
  }

  lemma ParseEncodedSummary(b: Bytes, at: nat, lsa: Lsa)
    requires At(b, at, EncodeLsa(lsa)) && WellFormed(lsa) && lsa.SummaryLsa?
    requires GetHeader(b, at) == lsa.header && At(b, at + HEADER_SIZE, EncodeBody(lsa))
    ensures ParseSummary(b, at) == Parsed(lsa, at + Size(lsa))
  {
    var body := at + HEADER_SIZE;
    AtSplit(b, body, Be32(lsa.networkMask), [lsa.tos] + Be24(lsa.metric));
    AtSplit(b, body + 4, [lsa.tos], Be24(lsa.metric));
    assert b[body + 4..body + 5][0] == b[body + 4];
    GetBe32(b, body, lsa.networkMask);
    GetBe24(b, body + 5, lsa.metric);
  }

  /** A well-formed LSA is read back from wherever its wire form stands in a packet. */
  lemma ParseEncodedLsa(b: Bytes, at: nat, lsa: Lsa)
    requires At(b, at, EncodeLsa(lsa)) && WellFormed(lsa)
    ensures ParseLsa(b, at) == Parsed(lsa, at + Size(lsa))
  {
    AtSplit(b, at, EncodeHeader(lsa.header), EncodeBody(lsa));
    GetEncodedHeader(b, at, lsa.header);
    assert b[at + 3] == GetHeader(b, at).lsType;
    match lsa {
      case RouterLsa(_, _, _, _) => ParseEncodedRouter(b, at, lsa);
      case NetworkLsa(_, _, _) => ParseEncodedNetwork(b, at, lsa);
      case SummaryLsa(_, _, _, _) => ParseEncodedSummary(b, at, lsa);
    }
  }

  /** Whatever the bytes, an LSA that `process_lsu` reads is well formed and ends `Size` bytes further. */
  lemma ParsedIsWellFormed(b: Bytes, at: nat)
    requires ParseLsa(b, at).Parsed?
    ensures WellFormed(ParseLsa(b, at).value)
    ensures ParseLsa(b, at).end == at + Size(ParseLsa(b, at).value)
  {
  }

  /** Writing and reading back gives the same LSA exactly when it is well formed. */
  lemma RoundTripExactly(lsa: Lsa, pre: Bytes, post: Bytes)
    ensures ParseLsa(pre + EncodeLsa(lsa) + post, |pre|) == Parsed(lsa, |pre| + Size(lsa)) <==> WellFormed(lsa)
  {
    var b := pre + EncodeLsa(lsa) + post;
    assert b[|pre|..|pre| + Size(lsa)] == EncodeLsa(lsa);
    if WellFormed(lsa) {
      ParseEncodedLsa(b, |pre|, lsa);
    } else if ParseLsa(b, |pre|).Parsed? {
      ParsedIsWellFormed(b, |pre|);
    }
  }

  /** One more round of the loop. */
  lemma ParseAllStep(b: Bytes, at: nat, init: seq<Lsa>, mid: nat, last: Lsa)
    requires ParseAll(b, at, |init|) == Parsed(init, mid)
    requires At(b, mid, EncodeLsa(last)) && WellFormed(last)
    ensures ParseAll(b, at, |init| + 1) == Parsed(init + [last], mid + Size(last))
  {
    ParseEncodedLsa(b, mid, last);
  }

  lemma EncodeAllSnoc(init: seq<Lsa>, last: Lsa)
    ensures EncodeAll(init + [last]) == EncodeAll(init) + EncodeLsa(last)
  {
    assert (init + [last])[..|init|] == init;
  }

  lemma ParseNone(b: Bytes, at: nat)
    ensures ParseAll(b, at, 0) == Parsed([], at) && EncodeAll([]) == []
  {
  }

  lemma {:induction false} ParseEncodedAll(b: Bytes, at: nat, lsas: seq<Lsa>)
    requires At(b, at, EncodeAll(lsas)) && forall i | 0 <= i < |lsas| :: WellFormed(lsas[i])
    ensures ParseAll(b, at, |lsas|) == Parsed(lsas, at + |EncodeAll(lsas)|)
    decreases |lsas|
  {
    hide EncodeLsa, ParseLsa, WellFormed, ParseAll, EncodeAll, At;
    if lsas == [] {
      ParseNone(b, at);
    } else {
      var n := |lsas| - 1;
      var init, last := lsas[..n], lsas[n];
      var x, y := EncodeAll(init), EncodeLsa(last);
      assert init + [last] == lsas;
      EncodeAllSnoc(init, last);
      AtSplit(b, at, x, y);
      ParseEncodedAll(b, at, init);
      ParseAllStep(b, at, init, at + |x|, last);
    }
  }

  /**
   The receiver's loop over a link state update recovers the sender's list and stops right after it,
   whatever surrounds the update in the packet buffer.
   */
  lemma LsuRoundTrip(lsas: seq<Lsa>, pre: Bytes, post: Bytes)
    requires |lsas| < TWO_32 && forall i | 0 <= i < |lsas| :: WellFormed(lsas[i])
    ensures ParseLsu(pre + EncodeLsu(lsas) + post, |pre|) == Parsed(lsas, |pre| + |EncodeLsu(lsas)|)
  {
    var b := pre + EncodeLsu(lsas) + post;
    assert b[|pre|..|pre| + |EncodeLsu(lsas)|] == EncodeLsu(lsas);
    AtSplit(b, |pre|, Be32(|lsas|), EncodeAll(lsas));
    GetBe32(b, |pre|, |lsas|);
    ParseEncodedAll(b, |pre| + 4, lsas);
  }

  /** Whatever routers send about themselves and their networks is read back, and the loop goes on right behind it. */
  lemma ProperLsuRoundTrip(lsas: seq<Lsa>, pre: Bytes, post: Bytes)
    requires |lsas| < TWO_32 && forall i | 0 <= i < |lsas| :: Proper(lsas[i])
    ensures ParseLsu(pre + EncodeLsu(lsas) + post, |pre|) == Parsed(lsas, |pre| + |EncodeLsu(lsas)|)
    ensures forall i | 0 <= i < |lsas| :: ParseLsa(pre + EncodeLsa(lsas[i]) + post, |pre|) == Parsed(lsas[i], |pre| + Size(lsas[i]))
  {
    forall i | 0 <= i < |lsas|
      ensures WellFormed(lsas[i])
      ensures ParseLsa(pre + EncodeLsa(lsas[i]) + post, |pre|) == Parsed(lsas[i], |pre| + Size(lsas[i]))
    {
      ProperIsWellFormed(lsas[i]);
      RoundTripExactly(lsas[i], pre, post);
    }
    LsuRoundTrip(lsas, pre, post);
  }
}

/** Where each field stands in the wire form, byte by byte and most significant byte first (RFC 2328, section A.4). */
module WireLayout {
  import opened Words
  import opened Lsas
  import opened Codec

  /** The number in `width` bytes from `at` on. */
  function Number(b: Bytes, at: nat, width: nat): nat
    requires at + width <= |b|
  {
    if width == 0 then 0 else 256 * Number(b, at, width - 1) + b[at + width - 1]
  }

  lemma NumberOfTwo(b: Bytes, at: nat, x: uint16)
    requires At(b, at, Be16(x))
    ensures Number(b, at, 2) == x
  {
    GetBe16(b, at, x);
    assert Number(b, at, 1) == b[at] by {
      assert Number(b, at, 0) == 0;
    }
  }

  lemma NumberOfFour(b: Bytes, at: nat, x: uint32)
    requires At(b, at, Be32(x))
    ensures Number(b, at, 4) == x
  {
    GetBe32(b, at, x);
    assert Number(b, at, 1) == b[at] by {
      assert Number(b, at, 0) == 0;
    }
    assert Number(b, at, 2) == TWO_8 * b[at] + b[at + 1];
    assert Number(b, at, 3) == TWO_8 * (TWO_8 * b[at] + b[at + 1]) + b[at + 2];
  }

  /** Section A.4.1. */
  lemma HeaderLayout(lsa: Lsa)
    ensures var b, h := EncodeLsa(lsa), lsa.header;
            && Number(b, 0, 2) == h.age && b[2] == h.options && b[3] == h.lsType
            && Number(b, 4, 4) == h.linkStateId && Number(b, 8, 4) == h.advertisingRouter
            && Number(b, 12, 4) == h.sequenceNumber && Number(b, 16, 2) == h.checksum && Number(b, 18, 2) == h.length
  {
    var b, h := EncodeLsa(lsa), lsa.header;
    hide Number, EncodeBody, Be16, Be32;
    HeaderParts(b, h, EncodeBody(lsa));
    NumberOfTwo(b, 0, h.age);
    NumberOfFour(b, 4, h.linkStateId);
    NumberOfFour(b, 8, h.advertisingRouter);
    NumberOfFour(b, 12, h.sequenceNumber);
    NumberOfTwo(b, 16, h.checksum);
    NumberOfTwo(b, 18, h.length);
  }

  lemma HeaderParts(b: Bytes, h: Header, body: Bytes)
    requires b == EncodeHeader(h) + body
    ensures At(b, 0, Be16(h.age)) && b[2] == h.options && b[3] == h.lsType
    ensures At(b, 4, Be32(h.linkStateId)) && At(b, 8, Be32(h.advertisingRouter)) && At(b, 12, Be32(h.sequenceNumber))
    ensures At(b, 16, Be16(h.checksum)) && At(b, 18, Be16(h.length))
  {
    hide Be16, Be32;
  }

  /** Section A.4.2: the flags, the number of links, and twelve bytes for each link. */
  lemma RouterLayout(lsa: Lsa, i: nat)
    requires lsa.RouterLsa? && i < |lsa.links|
    ensures |EncodeLsa(lsa)| == 24 + 12 * |lsa.links|
    ensures var b, l, at := EncodeLsa(lsa), lsa.links[i], 24 + 12 * i;
            && Number(b, 20, 2) == lsa.flags && Number(b, 22, 2) == lsa.numLinks
            && Number(b, at, 4) == l.linkId && Number(b, at + 4, 4) == l.linkData
            && b[at + 8] == l.linkType && b[at + 9] == l.tos && Number(b, at + 10, 2) == l.metric
  {
    var b, l, at := EncodeLsa(lsa), lsa.links[i], 24 + 12 * i;
    var fixed := Be16(lsa.flags) + Be16(lsa.numLinks);
    hide Number, EncodeHeader, EncodeLinks, EncodeLink, Be16, Be32;
    Whole(b);
    AtSplit(b, 0, EncodeHeader(lsa.header), EncodeBody(lsa));
    AtSplit(b, 20, fixed, EncodeLinks(lsa.links));
    AtSplit(b, 20, Be16(lsa.flags), Be16(lsa.numLinks));
    NumberOfTwo(b, 20, lsa.flags);
    NumberOfTwo(b, 22, lsa.numLinks);
    LinkStands(b, 24, lsa.links, i);
    LinkParts(b, at, l);
    NumberOfFour(b, at, l.linkId);
    NumberOfFour(b, at + 4, l.linkData);
    NumberOfTwo(b, at + 10, l.metric);
  }

  lemma Whole(b: Bytes)
    ensures At(b, 0, b)
  {
  }

  lemma {:induction false} LinkStands(b: Bytes, at: nat, ls: seq<Link>, i: nat)
    requires At(b, at, EncodeLinks(ls)) && i < |ls|
    ensures At(b, at + 12 * i, EncodeLink(ls[i]))
  {
    hide EncodeLink;
    var n := |ls| - 1;
    AtSplit(b, at, EncodeLinks(ls[..n]), EncodeLink(ls[n]));
    if i < n {
      LinkStands(b, at, ls[..n], i);
    }
  }

  lemma LinkParts(b: Bytes, at: nat, l: Link)
    requires At(b, at, EncodeLink(l))
    ensures At(b, at, Be32(l.linkId)) && At(b, at + 4, Be32(l.linkData))
    ensures b[at + 8] == l.linkType && b[at + 9] == l.tos && At(b, at + 10, Be16(l.metric))
  {
    hide Be16, Be32;
    var kind: Bytes := [l.linkType, l.tos];
    var ids := Be32(l.linkId) + Be32(l.linkData);
    AtSplit(b, at, ids + kind, Be16(l.metric));
    AtSplit(b, at, ids, kind);
    AtSplit(b, at, Be32(l.linkId), Be32(l.linkData));
    assert b[at + 8..at + 10][0] == b[at + 8] && b[at + 8..at + 10][1] == b[at + 9];
  }

  /** Section A.4.3: the mask, and four bytes for each attached router. */
  lemma NetworkLayout(lsa: Lsa)
    requires lsa.NetworkLsa?
    ensures |EncodeLsa(lsa)| == 24 + 4 * |lsa.attachedRouters| && Number(EncodeLsa(lsa), 20, 4) == lsa.networkMask
    ensures forall i | 0 <= i < |lsa.attachedRouters| :: Number(EncodeLsa(lsa), 24 + 4 * i, 4) == lsa.attachedRouters[i]
  {
    var b := EncodeLsa(lsa);
    hide Number, EncodeHeader, EncodeIds, Be32;
    Whole(b);
    AtSplit(b, 0, EncodeHeader(lsa.header), EncodeBody(lsa));
    AtSplit(b, 20, Be32(lsa.networkMask), EncodeIds(lsa.attachedRouters));
    NumberOfFour(b, 20, lsa.networkMask);
    forall i | 0 <= i < |lsa.attachedRouters|
      ensures Number(b, 24 + 4 * i, 4) == lsa.attachedRouters[i]
    {
      IdStands(b, 24, lsa.attachedRouters, i);
      NumberOfFour(b, 24 + 4 * i, lsa.attachedRouters[i]);
    }
  }

  lemma {:induction false} IdStands(b: Bytes, at: nat, ids: seq<uint32>, i: nat)
    requires At(b, at, EncodeIds(ids)) && i < |ids|
    ensures At(b, at + 4 * i, Be32(ids[i]))
  {
    hide Be32;
    var n := |ids| - 1;
    AtSplit(b, at, EncodeIds(ids[..n]), Be32(ids[n]));
    if i < n {
      IdStands(b, at, ids[..n], i);
    }
  }

  /** Section A.4.4: the mask, the type of service, and the low three bytes of the metric. */
  lemma SummaryLayout(lsa: Lsa)
    requires lsa.SummaryLsa?
    ensures |EncodeLsa(lsa)| == 28 && Number(EncodeLsa(lsa), 20, 4) == lsa.networkMask && EncodeLsa(lsa)[24] == lsa.tos
    ensures Number(EncodeLsa(lsa), 25, 3) == lsa.metric % 0x100_0000
  {
    var b := EncodeLsa(lsa);
    var low: uint32 := lsa.metric % TWO_24;
    hide EncodeHeader, Be32;
    Whole(b);
    AtSplit(b, 0, EncodeHeader(lsa.header), EncodeBody(lsa));
    AtSplit(b, 20, Be32(lsa.networkMask), [lsa.tos] + Be24(lsa.metric));
    AtSplit(b, 24, [lsa.tos], Be24(lsa.metric));
    assert b[24..25][0] == b[24];
    NumberOfFour(b, 20, lsa.networkMask);
    SameLowBytes(lsa.metric);
    NumberOfThree(b, 25, low);
  }

  lemma SameLowBytes(x: uint32)
    ensures Be24(x) == Be24(x % TWO_24)
  {
    var q, low: uint32 := x / TWO_24, x % TWO_24;
    var a, c, d := low / TWO_16, low / TWO_8 % TWO_8, low % TWO_8;
    LowBytes(low, a, c, d, 0);
    LowBytes(x, a, c, d, q);
  }

  /** A number whose bytes are `q`, `a`, `c` and `d`. */
  lemma LowBytes(x: uint32, a: nat, c: nat, d: nat, q: nat)
    requires a < TWO_8 && c < TWO_8 && d < TWO_8 && x == TWO_24 * q + TWO_16 * a + TWO_8 * c + d
    ensures Be24(x) == [a, c, d]
  {
    Divided16(x, TWO_8 * q + a, TWO_8 * c + d);
    Divided8(TWO_8 * q + a, q, a);
    Divided8(x, TWO_8 * (TWO_8 * q + a) + c, d);
    Divided8(TWO_8 * (TWO_8 * q + a) + c, TWO_8 * q + a, c);
  }

  lemma Divided8(x: nat, q: nat, r: nat)
    requires x == TWO_8 * q + r && r < TWO_8
    ensures x / TWO_8 == q && x % TWO_8 == r
  {
  }

  lemma Divided16(x: nat, q: nat, r: nat)
    requires x == TWO_16 * q + r && r < TWO_16
    ensures x / TWO_16 == q && x % TWO_16 == r
  {
  }

  lemma NumberOfThree(b: Bytes, at: nat, x: uint32)
    requires At(b, at, Be24(x)) && x < TWO_24
    ensures Number(b, at, 3) == x
  {
    GetBe24(b, at, x);
    assert Number(b, at, 1) == b[at] by {
      assert Number(b, at, 0) == 0;
    }
    assert Number(b, at, 2) == TWO_8 * b[at] + b[at + 1];
  }

  /** Section A.3.5: the number of LSAs, and the LSAs one behind the other. */
  lemma UpdateLayout(lsas: seq<Lsa>, i: nat)
    requires |lsas| < TWO_32 && i < |lsas|
    ensures Number(EncodeLsu(lsas), 0, 4) == |lsas|
    ensures At(EncodeLsu(lsas), Start(lsas, i), EncodeLsa(lsas[i]))
  {
    var b := EncodeLsu(lsas);
    Whole(b);
    AtSplit(b, 0, Be32(|lsas|), EncodeAll(lsas));
    hide Number;
    NumberOfFour(b, 0, |lsas|);
    LsaStands(b, lsas, i);
  }

  /** Where the `i`-th LSA of an update starts: behind the four bytes of the count and all earlier LSAs. */
  function Start(lsas: seq<Lsa>, i: nat): nat
    requires i <= |lsas|
  {
    if i == 0 then 4 else Start(lsas, i - 1) + Size(lsas[i - 1])
  }

  lemma {:induction false} LsaStands(b: Bytes, lsas: seq<Lsa>, i: nat)
    requires At(b, 4, EncodeAll(lsas)) && i < |lsas|
    ensures At(b, Start(lsas, i), EncodeLsa(lsas[i]))
  {
    hide EncodeLsa;
    var n := |lsas| - 1;
    AtSplit(b, 4, EncodeAll(lsas[..n]), EncodeLsa(lsas[n]));
    if i < n {
      LsaStands(b, lsas[..n], i);
      StartOfPrefix(lsas, n, i);
    } else {
      StartIsEnd(lsas, n);
    }
  }

  lemma {:induction false} StartOfPrefix(lsas: seq<Lsa>, n: nat, i: nat)
    requires i <= n <= |lsas|
    ensures Start(lsas[..n], i) == Start(lsas, i)
  {
    if i > 0 {
      StartOfPrefix(lsas, n, i - 1);
    }
  }

  lemma {:induction false} StartIsEnd(lsas: seq<Lsa>, n: nat)
    requires n <= |lsas|
    ensures Start(lsas, n) == 4 + |EncodeAll(lsas[..n])|
  {
    hide EncodeLsa;
    if n > 0 {
      StartIsEnd(lsas, n - 1);
      assert lsas[..n][..n - 1] == lsas[..n - 1];
    }
  }
}

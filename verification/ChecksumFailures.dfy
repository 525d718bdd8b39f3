/**
 Both failing cases of `fletcher16` happen to LSAs that a router originates: a receiver that tests the checksum as RFC 2328,
 section 12.1.7, demands rejects them.
 */
module ChecksumFailures {
  import opened Words
  import opened Lsas
  import opened Codec
  import opened PacketBuffers
  import opened Fletcher

  /** The router LSA of 10.0.0.`host` with one stub link, to 10.0.1.0/24, as `make_router_lsa` builds it. */
  function StubRouter(host: uint8, low: uint8): (lsa: Lsa)
    ensures lsa.header.length == Size(lsa) && WellFormed(lsa)
  {
    var id := 0x0A00_0000 + host;
    RouterLsa(Header(0, 2, ROUTER, id, id, 0x8000_0000 + low, 0, 36), 0, 1, [StubLink()])
  }

  function StubLink(): Link {
    Link(0x0A00_0100, 0xFFFF_FF00, STUB, 0, 1)
  }

  lemma HeaderWithoutAge(h: Header)
    ensures EncodeHeader(h)[2..]
            == [h.options, h.lsType] + Be32(h.linkStateId) + Be32(h.advertisingRouter) + Be32(h.sequenceNumber)
               + Be16(h.checksum) + Be16(h.length)
  {
    hide Be32;
  }

  lemma SumsOfTwo(s: seq<uint8>, a: uint8, b: uint8)
    requires s == [a, b]
    ensures C0(s) == a + b && C1(s) == a + a + b
  {
    SumsStep(s, 0);
    SumsStep(s, 1);
    assert s[..2] == s;
  }

  lemma SumsOfQuad(s: seq<uint8>, a: nat, b: nat, c: nat, d: nat)
    requires |s| == 4 && s[0] == a && s[1] == b && s[2] == c && s[3] == d
    ensures C0(s) == a + b + c + d && C1(s) == 4 * a + 3 * b + 2 * c + d
  {
    SumsOfFour(s);
  }

  lemma StubHeaderSums(host: uint8, low: uint8)
    ensures var s := EncodeHeader(StubRouter(host, low).header)[2..];
            C0(s) == 187 + 2 * host + low && C1(s) == 1393 + 22 * host + 5 * low
  {
    var h := StubRouter(host, low).header;
    var o, id, number, sum, length := [h.options, h.lsType], Be32(h.linkStateId), Be32(h.sequenceNumber), Be16(0), Be16(36);
    SumsOfTwo(o, 2, 1);
    SumsOfQuad(id, 10, 0, 0, host);
    SumsOfQuad(number, 128, 0, 0, low);
    SumsOfTwo(sum, 0, 0);
    SumsOfTwo(length, 0, 36);
    HeaderWithoutAge(h);
    hide C0, C1, Be16, Be32, EncodeHeader;
    SumsAppend(o, id);
    SumsAppend(o + id, id);
    SumsAppend(o + id + id, number);
    SumsAppend(o + id + id + number, sum);
    SumsAppend(o + id + id + number + sum, length);
  }

  lemma StubLinkSums()
    ensures C0(EncodeLink(StubLink())) == 780 && C1(EncodeLink(StubLink())) == 5498
  {
    var id, mask, kind, metric := Be32(0x0A00_0100), Be32(0xFFFF_FF00), [3, 0], Be16(1);
    SumsOfQuad(id, 10, 0, 1, 0);
    SumsOfQuad(mask, 255, 255, 255, 0);
    SumsOfTwo(kind, 3, 0);
    SumsOfTwo(metric, 0, 1);
    hide C0, C1, Be16, Be32;
    assert EncodeLink(StubLink()) == id + mask + kind + metric;
    SumsAppend(id, mask);
    SumsAppend(id + mask, kind);
    SumsAppend(id + mask + kind, metric);
  }

  lemma StubBodySums(host: uint8, low: uint8)
    ensures var s := EncodeBody(StubRouter(host, low)); C0(s) == 781 && C1(s) == 5511
  {
    var zero, one, link := Be16(0), Be16(1), EncodeLink(StubLink());
    SumsOfTwo(zero, 0, 0);
    SumsOfTwo(one, 0, 1);
    StubLinkSums();
    assert EncodeLinks([StubLink()]) == link by {
      assert [StubLink()][..0] == [];
    }
    hide C0, C1, Be16, Be32, EncodeLinks, EncodeLink, StubLink;
    SumsAppend(zero, one);
    SumsAppend(zero + one, link);
  }

  /** The LSA without its age, whose checksum field is zero. */
  lemma StubRouterSums(host: uint8, low: uint8)
    ensures var data := EncodeLsa(StubRouter(host, low))[2..];
            |data| == 34 && Blank(data, CHECKSUM_OFFSET) == data
            && C0(data) == 968 + 2 * host + low && C1(data) == 9896 + 54 * host + 21 * low
  {
    var lsa := StubRouter(host, low);
    var head, body := EncodeHeader(lsa.header)[2..], EncodeBody(lsa);
    HeaderChecksumBytes(lsa.header, 0, 0);
    StubHeaderSums(host, low);
    StubBodySums(host, low);
    hide C0, C1, EncodeHeader, EncodeBody;
    assert EncodeLsa(lsa)[2..] == head + body;
    assert head[14] == 0 && head[15] == 0;
    SumsAppend(head, body);
  }

  /** The sums that decide whether a stub router's LSA fails the test. */
  lemma StubRouterFails(host: uint8, low: uint8)
    ensures var data := EncodeLsa(StubRouter(host, low))[2..];
            var c0: nat, c1: nat := 968 + 2 * host + low, 9896 + 54 * host + 21 * low;
            && (HighByteFails(data, CHECKSUM_OFFSET) <==> c0 % 255 == 0 && c1 % 255 == 254)
            && (LowByteFails(data, CHECKSUM_OFFSET) <==>
                  c1 % 255 - 20 * (c0 % 255) <= -254 && (c1 % 255 - 20 * (c0 % 255)) % 255 == 1)
  {
    StubRouterSums(host, low);
    hide EncodeLsa, StubRouter, Blank, C0, C1;
  }

  /** The second origination of 10.0.0.2 fails the receiver's test because of its low check byte. */
  lemma LowByteFailsInLsa()
    ensures LowByteFails(EncodeLsa(StubRouter(2, 2))[2..], CHECKSUM_OFFSET)
    ensures !Verifies(EncodeLsa(Checksummed(StubRouter(2, 2)))[2..])
  {
    hide EncodeLsa, Checksummed, Verifies, LowByteFails, HighByteFails;
    StubRouterFails(2, 2);
    FloodedLsaVerifiesExactly(StubRouter(2, 2));
  }

  /** An origination of 10.0.0.83 fails it because of its high check byte. */
  lemma HighByteFailsInLsa()
    ensures HighByteFails(EncodeLsa(StubRouter(83, 0x8D))[2..], CHECKSUM_OFFSET)
    ensures !Verifies(EncodeLsa(Checksummed(StubRouter(83, 0x8D)))[2..])
  {
    hide EncodeLsa, Checksummed, Verifies, LowByteFails, HighByteFails;
    StubRouterFails(83, 0x8D);
    FloodedLsaVerifiesExactly(StubRouter(83, 0x8D));
  }
}

/** Link state advertisements in host form (src/packet.hpp). */
module Lsas {
  import opened Words

  const ROUTER: uint8 := 1
  const NETWORK: uint8 := 2
  const SUMMARY: uint8 := 3
  const ASBR_SUMMARY: uint8 := 4
  const AS_EXTERNAL: uint8 := 5

  const POINT2POINT: uint8 := 1
  const TRANSIT: uint8 := 2
  const STUB: uint8 := 3

  datatype Header = Header(
    age: uint16, options: uint8, lsType: uint8,
    linkStateId: uint32, advertisingRouter: uint32, sequenceNumber: uint32,
    checksum: uint16, length: uint16)

  /** What identifies an LSA: its type, link state id and advertising router. */
  datatype Key = Key(lsType: uint8, linkStateId: uint32, advertisingRouter: uint32)

  function KeyOf(h: Header): Key {
    Key(h.lsType, h.linkStateId, h.advertisingRouter)
  }

  datatype Link = Link(linkId: uint32, linkData: uint32, linkType: uint8, tos: uint8, metric: uint16)

  datatype Lsa =
    | RouterLsa(header: Header, flags: uint16, numLinks: uint16, links: seq<Link>)
    | NetworkLsa(header: Header, networkMask: uint32, attachedRouters: seq<uint32>)
    | SummaryLsa(header: Header, networkMask: uint32, tos: uint8, metric: uint32)

  const HEADER_SIZE := 20

  /** `size()` of each kind. */
  function Size(lsa: Lsa): nat {
    match lsa
    case RouterLsa(_, _, _, links) => HEADER_SIZE + 4 + 12 * |links|
    case NetworkLsa(_, _, routers) => HEADER_SIZE + 4 + 4 * |routers|
    case SummaryLsa(_, _, _, _) => HEADER_SIZE + 8
  }

  function WithHeader(lsa: Lsa, h: Header): (r: Lsa)
    ensures r.header == h && Size(r) == Size(lsa)
  {
    match lsa
    case RouterLsa(_, flags, numLinks, links) => RouterLsa(h, flags, numLinks, links)
    case NetworkLsa(_, mask, routers) => NetworkLsa(h, mask, routers)
    case SummaryLsa(_, mask, tos, metric) => SummaryLsa(h, mask, tos, metric)
  }

  /** `Base::operator>`: by sequence number, then by checksum, both unsigned. */
  predicate Newer(a: Header, b: Header) {
    if a.sequenceNumber != b.sequenceNumber then a.sequenceNumber > b.sequenceNumber
    else a.checksum > b.checksum
  }

  /** As one 48-bit number: the sequence number decides, and the checksum among equal ones. */
  lemma NewerInNumbers(a: Header, b: Header)
    ensures Newer(a, b) <==> a.sequenceNumber * 0x1_0000 + a.checksum > b.sequenceNumber * 0x1_0000 + b.checksum
  {
  }

  /** The number of router ids the `Network` constructor reads for a header length. */
  function AttachedCount(length: uint16): nat {
    if length <= HEADER_SIZE + 4 then 0 else (length - HEADER_SIZE - 4 + 3) / 4
  }
}

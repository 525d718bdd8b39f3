/**
 The checksum of whole OSPF packets (src/utils.hpp; RFC 2328, sections A.3.1 and D.4.1): the one's
 complement of the one's complement sum of the packet read as little-endian 16-bit words.
 */
module InternetChecksum {
  import opened Words

  /** The longest packet whose word sum cannot exceed 32 bits. */
  const MAX_EXACT_LENGTH := 131074

  /** The sum of the words; an odd last byte counts as a word of its own. */
  function WordSum(s: seq<uint8>): nat {
    if |s| == 0 then 0
    else if |s| == 1 then s[0]
    else s[0] + TWO_8 * s[1] + WordSum(s[2..])
  }

  /** The two folds of the carries and the final complement. */
  function FoldTwice(sum: uint32): (r: uint16) {
    var once := sum / TWO_16 + sum % TWO_16;
    var twice := once + once / TWO_16;
    TWO_16 - 1 - twice % TWO_16
  }

  function Checksum(data: seq<uint8>): uint16 {
    FoldTwice(U32(WordSum(data)))
  }

  /** `crc_checksum`, for data of any length. */
  method CrcChecksum(data: seq<uint8>) returns (checksum: uint16)
    ensures checksum == Checksum(data)
  {
    var sum: uint32 := 0;
    for i := 0 to |data| / 2
      invariant U32(sum + WordSum(data[2 * i..])) == U32(WordSum(data))
    {
      var word: uint16 := data[2 * i] + TWO_8 * data[2 * i + 1];
      WordSumStep(data, 2 * i);
      U32Add(sum + word, WordSum(data[2 * i + 2..]));
      sum := U32(sum + word);
    }
    if |data| % 2 == 1 {
      assert |data[2 * (|data| / 2)..]| == 1;
      sum := U32(sum + data[|data| - 1]);
    }
    assert sum == U32(WordSum(data));
    checksum := Fold(sum);
  }

  /** The last three lines of `crc_checksum`. */
  method Fold(total: uint32) returns (checksum: uint16)
    ensures checksum == FoldTwice(total)
  {
    var sum: uint32 := total / TWO_16 + total % TWO_16;
    sum := sum + sum / TWO_16;
    checksum := TWO_16 - 1 - sum % TWO_16;
  }

  lemma WordSumStep(data: seq<uint8>, at: nat)
    requires at + 2 <= |data|
    ensures WordSum(data[at..]) == data[at] + TWO_8 * data[at + 1] + WordSum(data[at + 2..])
  {
    assert data[at..][2..] == data[at + 2..];
  }

  /** The packet with `checksum` stored at `off` as a little-endian word, as `send_packet` stores it. */
  function Stored(data: seq<uint8>, off: nat, checksum: uint16): (r: seq<uint8>)
    requires off + 1 < |data|
    ensures |r| == |data|
  {
    data[off := checksum % TWO_8][off + 1 := checksum / TWO_8]
  }

  /** No 32-bit sum wraps up to `MAX_EXACT_LENGTH` bytes. */
  lemma {:induction false} WordSumBounded(s: seq<uint8>)
    ensures WordSum(s) <= (|s| + 1) / 2 * (TWO_16 - 1)
  {
    if |s| >= 2 {
      WordSumBounded(s[2..]);
      assert (|s| + 1) / 2 == (|s[2..]| + 1) / 2 + 1;
    }
  }

  lemma NoWrap(s: seq<uint8>)
    requires |s| <= MAX_EXACT_LENGTH
    ensures U32(WordSum(s)) == WordSum(s)
  {
    WordSumBounded(s);
    MulMonotone((|s| + 1) / 2, MAX_EXACT_LENGTH / 2, TWO_16 - 1);
  }

  lemma {:induction false} WordSumStored(data: seq<uint8>, off: nat, checksum: uint16)
    requires off % 2 == 0 && off + 1 < |data| && data[off] == data[off + 1] == 0
    ensures WordSum(Stored(data, off, checksum)) == WordSum(data) + checksum
  {
    var t := Stored(data, off, checksum);
    if off == 0 {
      assert t[2..] == data[2..];
    } else {
      assert t[2..] == Stored(data[2..], off - 2, checksum);
      WordSumStored(data[2..], off - 2, checksum);
    }
  }

  /**
   Two folds suffice: the complemented result is the one's complement sum, which is 0 only for sum 0
   and otherwise the representative in 1..65535 of the sum modulo 65535.
   */
  lemma FoldTwiceResidue(sum: uint32)
    ensures sum == 0 ==> FoldTwice(sum) == TWO_16 - 1
    ensures sum > 0 ==> 0 <= FoldTwice(sum) < TWO_16 - 1 && (sum + FoldTwice(sum)) % (TWO_16 - 1) == 0
  {
    var hi, lo := sum / TWO_16, sum % TWO_16;
    assert sum == (TWO_16 - 1) * hi + (hi + lo);
    var once := hi + lo;
    if once < TWO_16 {
      assert once / TWO_16 == 0;
      assert sum + FoldTwice(sum) == (TWO_16 - 1) * (hi + 1);
    } else {
      assert once / TWO_16 == 1;
      assert sum + FoldTwice(sum) == (TWO_16 - 1) * (hi + 2);
    }
  }

  /** Adding the complement to a sum makes it fold to 0. */
  lemma FoldCancels(sum: uint32)
    requires sum + FoldTwice(sum) < TWO_32
    ensures FoldTwice(sum + FoldTwice(sum)) == 0
  {
    FoldTwiceResidue(sum);
    var total := sum + FoldTwice(sum);
    var r := FoldTwice(total);
    FoldTwiceResidue(total);
    MultiplesDiffer(total, r);
  }

  lemma MultiplesDiffer(x: nat, r: nat)
    requires x % (TWO_16 - 1) == 0 && (x + r) % (TWO_16 - 1) == 0 && r < TWO_16 - 1
    ensures r == 0
  {
  }

  /** A packet that carries its own checksum has checksum 0, whatever its content and parity. */
  lemma StoredChecksumVerifies(data: seq<uint8>, off: nat)
    requires off % 2 == 0 && off + 1 < |data| <= MAX_EXACT_LENGTH && data[off] == data[off + 1] == 0
    ensures Checksum(Stored(data, off, Checksum(data))) == 0
  {
    var r := Checksum(data);
    NoWrap(data);
    NoWrap(Stored(data, off, r));
    WordSumStored(data, off, r);
    FoldCancels(WordSum(data));
  }

  // ----- The same in network byte order

  /** The sum of the words in network byte order, an odd last byte padded with a zero byte, as in RFC 1071. */
  function NetworkSum(s: seq<uint8>): nat {
    if s == [] then 0
    else if |s| == 1 then 0x100 * (s[0] as int)
    else 0x100 * (s[0] as int) + s[1] + NetworkSum(s[2..])
  }

  /** Reading words in the other order multiplies the one's complement sum by 256. */
  lemma {:induction false} ByteOrderIndependent(s: seq<uint8>) returns (k: nat)
    ensures 0x100 * WordSum(s) == NetworkSum(s) + 0xFFFF * k
    ensures NetworkSum(s) == 0 <==> WordSum(s) == 0
  {
    if |s| < 2 {
      k := 0;
    } else {
      var rest := ByteOrderIndependent(s[2..]);
      k := rest + s[1];
    }
  }

  /** The receiver's test in network byte order: the one's complement sum of the packet is all ones. */
  lemma StoredChecksumVerifiesOnTheWire(data: seq<uint8>, off: nat)
    requires off % 2 == 0 && off + 1 < |data| <= MAX_EXACT_LENGTH && data[off] == data[off + 1] == 0
    ensures var sum := NetworkSum(Stored(data, off, Checksum(data))); sum > 0 && sum % 0xFFFF == 0
  {
    NoWrap(data);
    FoldTwiceResidue(WordSum(data));
    WordSumStored(data, off, Checksum(data));
    var stored := Stored(data, off, Checksum(data));
    var k := ByteOrderIndependent(stored);
    var m := WordSum(stored) / 0xFFFF;
    assert WordSum(stored) % 0xFFFF == 0;
    assert WordSum(stored) == 0xFFFF * m;
    assert NetworkSum(stored) == 0xFFFF * (0x100 * m - k);
  }
}

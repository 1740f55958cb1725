/** Length headers (apx/src/numheader.c) and address headers (apx/src/remotefile.c). */
module Headers {
  import opened Common
  import opened Bytes

  const NUM16_MAX_SHORT := 127
  const NUM16_MAX_LONG := 32895
  const NUM32_MAX_SHORT := 127
  const NUM32_MAX_LONG := 0x7FFF_FFFF
  const LONG_BIT := 0x8000_0000

  const HIGH_ADDR_MIN := 0x4000
  const HIGH_ADDR_MAX := 0x3FFF_FFFF
  const HIGH_ADDR_BIT := 0x8000_0000
  const MORE_BIT_LOW := 0x4000
  const MORE_BIT_HIGH := 0x4000_0000
  const INVALID_ADDRESS := 0x7FFF_FFFF
  const CMD_AREA_START := 0x3FFF_FC00
  const CMD_AREA_SIZE := 1024

  /** The number whose base-256 digits these are. */
  function Digits2(a: int, b: int): int { 0x100 * a + b }

  function Digits4(a: int, b: int, c: int, d: int): int { 0x100_0000 * a + 0x1_0000 * b + 0x100 * c + d }

  lemma BigEndian2(bs: seq<byte>)
    requires |bs| == 2
    ensures UnpackBE(bs) == 0x100 * bs[0] as int + bs[1] as int
  {
    assert bs[..1] == [bs[0]] && UnpackBE(bs[..1][..0]) == 0;
  }

  lemma BigEndian4(bs: seq<byte>)
    requires |bs| == 4
    ensures UnpackBE(bs) == 0x100_0000 * bs[0] as int + 0x1_0000 * bs[1] as int + 0x100 * bs[2] as int + bs[3] as int
  {
    BigEndian2(bs[..2]);
    var three := bs[..3];
    assert three[..2] == bs[..2];
    assert UnpackBE(three) == 256 * UnpackBE(bs[..2]) + three[2];
  }

  lemma BigEndianBack(n: nat, size: nat)
    requires n < Pow256(size)
    ensures UnpackBE(PackBE(n, size)) == n
  {
    UnpackPackBE(n, size);
    ModUnique(n, Pow256(size), 0, n);
  }

  // ---------- 32-bit length headers ----------

  /** The bytes numheader_encode32 writes; nothing for numbers it refuses. */
  function NumBytes32(n: nat): seq<byte> {
    if n > NUM32_MAX_LONG then [] else if n <= NUM32_MAX_SHORT then [n] else PackBE(n + LONG_BIT, 4)
  }

  /** The number and the size of its header, or nothing while the header is incomplete. */
  function ReadNum32(bs: seq<byte>): Option<(nat, nat)> {
    if |bs| == 0 then None
    else if bs[0] < 0x80 then Some((bs[0], 1))
    else if |bs| < 4 then None
    else Some((UnpackBE(bs[..4]) % LONG_BIT, 4))
  }

  lemma Num32RoundTrip(n: nat, rest: seq<byte>)
    requires n <= NUM32_MAX_LONG
    ensures ReadNum32(NumBytes32(n) + rest) == Some((n, |NumBytes32(n)|))
  {
    if n > NUM32_MAX_SHORT {
      var bs := PackBE(n + LONG_BIT, 4);
      Pow256Values();
      BigEndianBack(n + LONG_BIT, 4);
      BigEndian4(bs);
      assert (bs + rest)[..4] == bs;
    }
  }

  /** On the wire: a number up to 127 is its own byte; any other is four bytes, most significant first, the first bit set. */
  lemma Num32Wire(n: nat)
    requires n <= 0x7FFF_FFFF
    ensures var bs := NumBytes32(n);
            if n <= 127 then bs == [n] else |bs| == 4 && Digits4(bs[0], bs[1], bs[2], bs[3]) == 0x8000_0000 + n
  {
    if n > 127 {
      Pow256Values();
      BigEndianBack(n + LONG_BIT, 4);
      BigEndian4(NumBytes32(n));
    }
  }

  /** Every first byte announces one of these two forms, whoever wrote it. */
  lemma ReadNum32Exact(bs: seq<byte>)
    ensures ReadNum32(bs).None? <==> |bs| == 0 || (bs[0] >= 0x80 && |bs| < 4)
    ensures |bs| > 0 && bs[0] < 0x80 ==> ReadNum32(bs) == Some((bs[0], 1))
    ensures |bs| >= 4 && bs[0] >= 0x80 ==>
      ReadNum32(bs).value.0 == Digits4(bs[0], bs[1], bs[2], bs[3]) - 0x8000_0000 && ReadNum32(bs).value.1 == 4
  {
    if |bs| >= 4 {
      BigEndian4(bs[..4]);
    }
  }

  lemma Num32NotEmpty(n: nat)
    ensures n <= NUM32_MAX_LONG ==> |NumBytes32(n)| > 0
  {
    hide PackBE;
  }

  /** A header that was read is read the same when more bytes follow. */
  lemma Num32Stable(bs: seq<byte>, more: seq<byte>)
    requires ReadNum32(bs).Some?
    ensures ReadNum32(bs + more) == ReadNum32(bs) && ReadNum32(bs).value.1 <= |bs|
  {
    if bs[0] >= 0x80 {
      assert (bs + more)[..4] == bs[..4];
    }
  }

  /** numheader_encode32; -1 if the number or the buffer does not fit. */
  method EncodeNum32(buf: array<byte>, maxLen: nat, n: uint32) returns (size: int)
    requires maxLen <= buf.Length
    modifies buf
    ensures n > NUM32_MAX_LONG || |NumBytes32(n)| > maxLen ==> size == -1 && buf[..] == old(buf[..])
    ensures n <= NUM32_MAX_LONG && |NumBytes32(n)| <= maxLen ==>
      size == |NumBytes32(n)| && buf[..] == WriteAt(old(buf[..]), 0, NumBytes32(n))
  {
    if maxLen == 0 || n > NUM32_MAX_LONG {
      return -1;
    }
    if n <= NUM32_MAX_SHORT {
      buf[0] := n;
      return 1;
    }
    if maxLen < 4 {
      return -1;
    }
    Store(buf, 0, PackBE(n + LONG_BIT, 4));
    return 4;
  }

  /** numheader_decode32: `next == 0` while the header is incomplete. */
  method DecodeNum32(bs: seq<byte>) returns (next: nat, n: nat)
    ensures match ReadNum32(bs)
            case None => next == 0
            case Some((x, size)) => next == size && n == x && 0 < next <= |bs|
  {
    next, n := 0, 0;
    if |bs| > 0 {
      if bs[0] >= 0x80 {
        if 4 <= |bs| {
          n := UnpackBE(bs[..4]) % LONG_BIT;
          next := 4;
        }
      } else {
        n, next := bs[0], 1;
      }
    }
  }

  // ---------- 16-bit length headers ----------

  /** Numbers 32768 to 32895 are stored as 0 to 127, which need no long header themselves. */
  function NumBytes16(n: nat): seq<byte> {
    if n > NUM16_MAX_LONG then []
    else if n <= NUM16_MAX_SHORT then [n]
    else
      var stored := if n > 32767 then n - 32768 else n;
      [0x80 + stored / 0x100, stored % 0x100]
  }

  /**
   * numheader_decode16: the number of bytes used and the number, if it was set. One byte of
   * a long header is used up without a number.
   */
  function ReadNum16(bs: seq<byte>): (nat, Option<nat>) {
    if |bs| == 0 then (0, None)
    else if bs[0] < 0x80 then (1, Some(bs[0]))
    else if |bs| == 1 then (1, None)
    else
      var stored := UnpackBE(bs[..2]) % 0x8000;
      (2, Some(if stored < 128 then stored + 32768 else stored))
  }

  lemma Num16RoundTrip(n: nat, rest: seq<byte>)
    requires n <= NUM16_MAX_LONG
    ensures ReadNum16(NumBytes16(n) + rest) == (|NumBytes16(n)|, Some(n))
  {
    if n > NUM16_MAX_SHORT {
      var bs := NumBytes16(n);
      BigEndian2(bs);
      assert (bs + rest)[..2] == bs;
    }
  }

  /** On the wire: one byte up to 127; else two, most significant first, the first bit set and 2^15 taken off larger numbers. */
  lemma Num16Wire(n: nat)
    requires n <= 32895
    ensures var bs := NumBytes16(n);
            if n <= 127 then bs == [n]
            else |bs| == 2 && Digits2(bs[0], bs[1]) == if n <= 0x7FFF then 0x8000 + n else n
  {
  }

  /** Every first byte announces one of two forms; a long header cut off behind it is used up without a number. */
  lemma ReadNum16Exact(bs: seq<byte>)
    ensures |bs| == 0 ==> ReadNum16(bs) == (0, None)
    ensures |bs| > 0 && bs[0] < 0x80 ==> ReadNum16(bs) == (1, Some(bs[0]))
    ensures |bs| == 1 && bs[0] >= 0x80 ==> ReadNum16(bs) == (1, None)
    ensures |bs| >= 2 && bs[0] >= 0x80 ==>
      var n := Digits2(bs[0], bs[1]) - 0x8000;
      ReadNum16(bs).0 == 2 && ReadNum16(bs).1 == Some(if n <= 127 then n + 0x8000 else n)
  {
    if |bs| >= 2 {
      BigEndian2(bs[..2]);
    }
  }

  /**
   * The 16-bit decoder does not wait for a split header: it uses up a lone first byte exactly
   * for the numbers that need two bytes.
   */
  lemma Num16SplitHeader(n: nat)
    requires n <= NUM16_MAX_LONG
    ensures ReadNum16(NumBytes16(n)[..1]) == (1, None) <==> n > NUM16_MAX_SHORT
  {
  }

  // ---------- address headers ----------

  /** The bytes rmf_address_encode writes; nothing for addresses it refuses. */
  function AddressBytes(address: nat, more: bool): seq<byte> {
    if address > HIGH_ADDR_MAX then []
    else if address < HIGH_ADDR_MIN then PackBE(address + if more then MORE_BIT_LOW else 0, 2)
    else PackBE(address + HIGH_ADDR_BIT + if more then MORE_BIT_HIGH else 0, 4)
  }

  datatype AddressHeader = AddressHeader(address: nat, more: bool, size: nat)

  /** rmf_address_decode */
  function ReadAddress(bs: seq<byte>): Option<AddressHeader> {
    if |bs| == 0 then None else
      var more := (bs[0] / 0x40) % 2 == 1;
      if bs[0] >= 0x80 then
        if |bs| < 4 then None else Some(AddressHeader(UnpackBE(bs[..4]) % 0x4000_0000, more, 4))
      else if |bs| < 2 then None else Some(AddressHeader(UnpackBE(bs[..2]) % 0x4000, more, 2))
  }

  lemma LowAddress(address: nat, more: bool)
    requires address < HIGH_ADDR_MIN
    ensures var bs := AddressBytes(address, more);
            |bs| == 2 && bs[0] < 0x80 && (bs[0] / 0x40) % 2 == (if more then 1 else 0) && UnpackBE(bs) % 0x4000 == address
  {
    var n := address + if more then MORE_BIT_LOW else 0;
    Pow256Values();
    BigEndianBack(n, 2);
    BigEndian2(PackBE(n, 2));
  }

  lemma HighAddress(address: nat, more: bool)
    requires HIGH_ADDR_MIN <= address <= HIGH_ADDR_MAX
    ensures var bs := AddressBytes(address, more);
            |bs| == 4 && bs[0] >= 0x80 && (bs[0] / 0x40) % 2 == (if more then 1 else 0) && UnpackBE(bs) % 0x4000_0000 == address
  {
    var n := address + HIGH_ADDR_BIT + if more then MORE_BIT_HIGH else 0;
    Pow256Values();
    BigEndianBack(n, 4);
    BigEndian4(PackBE(n, 4));
  }

  /** Every address of up to 30 bits comes back with its more bit, whatever follows it. */
  lemma AddressRoundTrip(address: nat, more: bool, rest: seq<byte>)
    requires address <= HIGH_ADDR_MAX
    ensures ReadAddress(AddressBytes(address, more) + rest) == Some(AddressHeader(address, more, |AddressBytes(address, more)|))
  {
    var bs := AddressBytes(address, more);
    hide AddressBytes;
    if address < HIGH_ADDR_MIN {
      LowAddress(address, more);
      assert (bs + rest)[..2] == bs;
    } else {
      HighAddress(address, more);
      assert (bs + rest)[..4] == bs;
    }
  }

  /**
   * On the wire: two or four bytes, most significant first, the second bit of the first byte
   * being the more bit and its first bit telling the two forms apart.
   */
  lemma AddressWire(address: nat, more: bool)
    requires address <= 0x3FFF_FFFF
    ensures var bs := AddressBytes(address, more);
            if address < 0x4000 then
              |bs| == 2 && Digits2(bs[0], bs[1]) == address + if more then 0x4000 else 0
            else
              |bs| == 4 && Digits4(bs[0], bs[1], bs[2], bs[3]) == 0x8000_0000 + address + if more then 0x4000_0000 else 0
  {
    Pow256Values();
    if address < 0x4000 {
      BigEndianBack(address + if more then MORE_BIT_LOW else 0, 2);
      BigEndian2(AddressBytes(address, more));
    } else {
      BigEndianBack(address + HIGH_ADDR_BIT + if more then MORE_BIT_HIGH else 0, 4);
      BigEndian4(AddressBytes(address, more));
    }
  }

  /** Every first byte announces one of these two forms, whoever wrote it. */
  lemma ReadAddressExact(bs: seq<byte>)
    ensures ReadAddress(bs).None? <==> |bs| < 2 || (bs[0] >= 0x80 && |bs| < 4)
    ensures |bs| >= 2 && bs[0] < 0x80 ==>
      var n := Digits2(bs[0], bs[1]);
      ReadAddress(bs) == Some(AddressHeader(if n >= 0x4000 then n - 0x4000 else n, n >= 0x4000, 2))
    ensures |bs| >= 4 && bs[0] >= 0x80 ==>
      var n := Digits4(bs[0], bs[1], bs[2], bs[3]) - 0x8000_0000;
      ReadAddress(bs) == Some(AddressHeader(if n >= 0x4000_0000 then n - 0x4000_0000 else n, n >= 0x4000_0000, 4))
  {
    if |bs| >= 2 {
      BigEndian2(bs[..2]);
    }
    if |bs| >= 4 {
      BigEndian4(bs[..4]);
    }
  }

  /** rmf_address_encode; 0 if the address or the buffer does not fit. */
  method EncodeAddress(buf: array<byte>, size: nat, address: uint32, more: bool) returns (used: nat)
    requires size <= buf.Length
    modifies buf
    ensures address > HIGH_ADDR_MAX || |AddressBytes(address, more)| > size ==> used == 0 && buf[..] == old(buf[..])
    ensures address <= HIGH_ADDR_MAX && |AddressBytes(address, more)| <= size ==>
      used == |AddressBytes(address, more)| && buf[..] == WriteAt(old(buf[..]), 0, AddressBytes(address, more))
  {
    hide PackBE, WriteAt;
    if size == 0 || address > HIGH_ADDR_MAX {
      return 0;
    }
    used := if address < HIGH_ADDR_MIN then 2 else 4;
    if used > size {
      return 0;
    }
    if used == 2 {
      var value := if more then MORE_BIT_LOW else 0;
      value := value + address;
      Store(buf, 0, PackBE(value, 2));
    } else {
      var value := if more then HIGH_ADDR_BIT + MORE_BIT_HIGH else HIGH_ADDR_BIT;
      value := value + address;
      Store(buf, 0, PackBE(value, 4));
    }
  }
}

/** Packet framing (lib/coreproto.h): two magic bytes, the payload size as a 32-bit number in network
    byte order (Appendix B of RFC 791), then the payload. */
module CoreProto {
  type Byte = b: int | 0 <= b < 256

  /** An unsigned 32-bit number. */
  type Word = n: int | 0 <= n < 0x1_0000_0000

  /** Blocks of bytes, one behind the other. */
  function Flat(blocks: seq<seq<Byte>>): seq<Byte> {
    if blocks == [] then [] else blocks[0] + Flat(blocks[1..])
  }

  lemma {:induction false} FlatSnoc(blocks: seq<seq<Byte>>, block: seq<Byte>)
    ensures Flat(blocks + [block]) == Flat(blocks) + block
  {
    if blocks == [] {
      assert (blocks + [block])[1..] == [];
    } else {
      assert (blocks + [block])[1..] == blocks[1..] + [block];
      FlatSnoc(blocks[1..], block);
    }
  }

  const HEADER_SIZE := 6
  const MAX_PACKET_SIZE := 0x3FFF_FFFF
  const MAGIC: seq<Byte> := [78, 70]

  function Truncate(n: int): Word {
    n % 0x1_0000_0000
  }

  function LowByte(n: int): Byte {
    n % 256
  }

  /** `htonl`, as the bytes it leaves in memory. */
  function Htonl(n: Word): (bytes: seq<Byte>)
    ensures |bytes| == 4
  {
    [LowByte(n / 0x100_0000), LowByte(n / 0x1_0000), LowByte(n / 0x100), LowByte(n)]
  }

  function Ntohl(bytes: seq<Byte>): Word
    requires |bytes| == 4
  {
    bytes[0] as int * 0x100_0000 + bytes[1] as int * 0x1_0000 + bytes[2] as int * 0x100 + bytes[3] as int
  }

  lemma {:induction false} NtohlOfHtonl(n: Word)
    ensures Ntohl(Htonl(n)) == n
  {
    assert n / 0x1_0000 == n / 0x100 / 256;
    assert n / 0x100_0000 == n / 0x1_0000 / 256;
  }

  /** The packet for a payload. The size field has 32 bits, whatever the payload. */
  function CreatePacket(data: seq<Byte>): (packet: seq<Byte>)
    ensures |packet| == HEADER_SIZE + |data|
  {
    MAGIC + Htonl(Truncate(|data|)) + data
  }

  /** `createPacket`: a header of zeroes, the size written into it, the payload behind it. */
  method BuildPacket(data: seq<Byte>) returns (ret: seq<Byte>)
    ensures ret == CreatePacket(data)
    ensures |ret| == 6 + |data| && ret[0] == 78 && ret[1] == 70 && ret[6..] == data
    ensures BigEndian(ret[2], ret[3], ret[4], ret[5]) == |data| % 0x1_0000_0000
  {
    var header := new Byte[HEADER_SIZE](_ => 0);
    header[0], header[1] := MAGIC[0], MAGIC[1];
    var size := Htonl(Truncate(|data|));
    for i := 0 to 4
      invariant header[..2] == MAGIC
      invariant header[2..2 + i] == size[..i]
    {
      header[2 + i] := size[i];
    }
    assert header[..] == header[..2] + header[2..6] && size[..4] == size;
    ret := header[..] + data;
    WireFormat(data);
  }

  /** A verdict, and the `pkgSize` variable as it was left. */
  datatype Check = Check(complete: bool, pkgSize: Word)

  /** `isPacketComplete` on a vector. `pkgSize` is written only once the header has been recognised. */
  function CheckVector(data: seq<Byte>, pkgSize: Word): Check {
    if |data| < HEADER_SIZE || data[..2] != MAGIC then Check(false, pkgSize)
    else
      var size := Ntohl(data[2..6]);
      Check(size <= MAX_PACKET_SIZE && |data| >= Truncate(size + HEADER_SIZE), size)
  }

  /** `isPacketComplete` on the whole read buffer, filled or not. */
  function CheckArray(buffer: seq<Byte>, pkgSize: Word): Check
    requires |buffer| > HEADER_SIZE
  {
    if buffer[..2] != MAGIC then Check(false, pkgSize)
    else
      var size := Ntohl(buffer[2..6]);
      Check(size <= MAX_PACKET_SIZE && |buffer| >= Truncate(size + HEADER_SIZE), size)
  }

  predicate IsPacketStart(buffer: seq<Byte>) {
    |buffer| >= HEADER_SIZE && buffer[..2] == MAGIC
  }

  /** `fetchData` on a vector. The first test is the wrong way round: it gives up on every vector that is
      longer than the header. */
  function FetchVector(data: seq<Byte>, bytes: Word): seq<Byte>
    requires |data| > HEADER_SIZE || bytes > |data| + HEADER_SIZE || bytes + HEADER_SIZE <= |data|
  {
    if HEADER_SIZE < |data| then []
    else if bytes > |data| + HEADER_SIZE then []
    else data[HEADER_SIZE..HEADER_SIZE + bytes]
  }

  function FetchArray(buffer: seq<Byte>, bytes: Word): seq<Byte>
    requires bytes > |buffer| + HEADER_SIZE || bytes + HEADER_SIZE <= |buffer|
  {
    if bytes > |buffer| + HEADER_SIZE then [] else buffer[HEADER_SIZE..HEADER_SIZE + bytes]
  }

  lemma {:induction false} HeaderOf(data: seq<Byte>, x: seq<Byte>)
    ensures var text := CreatePacket(data) + x;
            && |text| == HEADER_SIZE + |data| + |x|
            && text[..2] == MAGIC && text[2..6] == Htonl(Truncate(|data|))
            && text[6..6 + |data|] == data
            && Ntohl(text[2..6]) == Truncate(|data|)
  {
    NtohlOfHtonl(Truncate(|data|));
  }

  /** After the size check the 32-bit sum of size and header cannot wrap. */
  lemma {:induction false} SumDoesNotWrap(size: Word)
    requires size <= MAX_PACKET_SIZE
    ensures Truncate(size + HEADER_SIZE) == size + HEADER_SIZE
  {
  }

  /** The vector check on the first `k` bytes of a packet and whatever follows it. */
  lemma {:induction false} CheckOfCut(data: seq<Byte>, x: seq<Byte>, k: nat, pkgSize: Word)
    requires k <= HEADER_SIZE + |data| + |x|
    ensures var size := Truncate(|data|);
            CheckVector((CreatePacket(data) + x)[..k], pkgSize) ==
            if k < HEADER_SIZE then Check(false, pkgSize)
            else Check(size <= MAX_PACKET_SIZE && k >= size + HEADER_SIZE, size)
  {
    HeaderOf(data, x);
    var text := CreatePacket(data) + x;
    hide CreatePacket, Ntohl, Htonl;
    if k >= HEADER_SIZE {
      assert text[..k][..2] == text[..2] && text[..k][2..6] == text[2..6];
    }
  }

  /** Whatever follows, a packet is complete from its last byte on and not before. */
  ghost predicate FramesExactly(data: seq<Byte>) {
    forall x: seq<Byte>, k: nat, pkgSize: Word :: k <= HEADER_SIZE + |data| + |x| ==>
      (CheckVector((CreatePacket(data) + x)[..k], pkgSize).complete <==> k >= |data| + HEADER_SIZE)
  }

  /** That law holds for a payload exactly when it is not larger than the limit. */
  lemma {:induction false} FramingIsExactUpToTheLimit(data: seq<Byte>)
    ensures FramesExactly(data) <==> |data| <= MAX_PACKET_SIZE
  {
    if |data| <= MAX_PACKET_SIZE {
      forall x: seq<Byte>, k: nat, pkgSize: Word | k <= HEADER_SIZE + |data| + |x|
        ensures CheckVector((CreatePacket(data) + x)[..k], pkgSize).complete <==> k >= |data| + HEADER_SIZE
      {
        CheckOfCut(data, x, k, pkgSize);
      }
    } else {
      var size := Truncate(|data|);
      var k := if size <= MAX_PACKET_SIZE then size + HEADER_SIZE else |data| + HEADER_SIZE;
      CheckOfCut(data, [], k, 0);
      assert CheckVector((CreatePacket(data) + [])[..k], 0).complete != (k >= |data| + HEADER_SIZE);
    }
  }

  /** The array overloads recover a packet that fits, whatever stale bytes are behind it, and see that
      one that does not fit is not complete. */
  lemma {:induction false} ArrayRecoversPacket(data: seq<Byte>, stale: seq<Byte>, cut: nat, pkgSize: Word)
    requires |data| <= MAX_PACKET_SIZE && HEADER_SIZE < cut <= HEADER_SIZE + |data| + |stale|
    ensures var buffer := (CreatePacket(data) + stale)[..cut];
            && CheckArray(buffer, pkgSize) == Check(|data| + HEADER_SIZE <= cut, |data|)
            && IsPacketStart(buffer)
            && (|data| + HEADER_SIZE <= cut ==> FetchArray(buffer, |data|) == data)
  {
    HeaderOf(data, stale);
    var text := CreatePacket(data) + stale;
    hide CreatePacket, Ntohl, Htonl;
    var buffer := text[..cut];
    assert buffer[..2] == text[..2] && buffer[2..6] == text[2..6];
    if |data| + HEADER_SIZE <= cut {
      assert buffer[6..6 + |data|] == text[6..6 + |data|];
    }
  }

  /** Four bytes as a number, the first one counting most. */
  function BigEndian(a: Byte, b: Byte, c: Byte, d: Byte): int {
    ((a as int * 256 + b as int) * 256 + c as int) * 256 + d as int
  }

  /** The wire format in numbers: 'N', 'F', four bytes of size, the payload. */
  lemma {:induction false} WireFormat(data: seq<Byte>)
    ensures var packet := CreatePacket(data);
            && |packet| == 6 + |data| && packet[0] == 78 && packet[1] == 70 && packet[6..] == data
            && BigEndian(packet[2], packet[3], packet[4], packet[5]) == |data| % 0x1_0000_0000
  {
    NtohlOfHtonl(Truncate(|data|));
  }

  /** `isPacketComplete` on a vector, and the size variable, in numbers. */
  lemma {:induction false} VectorCheckInNumbers(data: seq<Byte>, pkgSize: Word)
    ensures var check := CheckVector(data, pkgSize);
            if |data| >= 6 && data[0] == 78 && data[1] == 70 then
              var size := BigEndian(data[2], data[3], data[4], data[5]);
              check.pkgSize == size && (check.complete <==> size <= 0x3FFF_FFFF && size + 6 <= |data|)
            else
              check == Check(false, pkgSize)
  {
    if |data| >= 6 {
      HeaderInNumbers(data);
    }
  }

  /** `isPacketComplete`, `isPacketStart` and `fetchData` on a buffer, in numbers. */
  lemma {:induction false} ArrayCheckInNumbers(buffer: seq<Byte>, pkgSize: Word)
    requires |buffer| > 6
    ensures var check := CheckArray(buffer, pkgSize);
            && (IsPacketStart(buffer) <==> buffer[0] == 78 && buffer[1] == 70)
            && if buffer[0] == 78 && buffer[1] == 70 then
                 var size := BigEndian(buffer[2], buffer[3], buffer[4], buffer[5]);
                 && check.pkgSize == size && (check.complete <==> size <= 0x3FFF_FFFF && size + 6 <= |buffer|)
                 && (check.complete ==> FetchArray(buffer, size) == buffer[6..6 + size])
               else
                 check == Check(false, pkgSize)
  {
    HeaderInNumbers(buffer);
  }

  lemma {:induction false} HeaderInNumbers(data: seq<Byte>)
    requires |data| >= 6
    ensures data[..2] == MAGIC <==> data[0] == 78 && data[1] == 70
    ensures Ntohl(data[2..6]) == BigEndian(data[2], data[3], data[4], data[5])
  {
    assert data[..2] == [data[0], data[1]];
  }
}

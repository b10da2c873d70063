/** The messages of aodv-packet.cc on the wire: how each header is written and read back. */
module Packets {
  import opened Common
  import opened AodvTable

  // uint8_t
  type Byte = n: int | 0 <= n < 256

  // ----- Bytes in a buffer -----

  // Byte k of a word, the highest first.
  function ByteOf(w: Word, k: nat): Byte
    requires k < 4
  {
    if k == 0 then w / 0x100_0000 else if k == 1 then w / 0x1_0000 % 256 else if k == 2 then w / 256 % 256 else w % 256
  }

  function Compose(a: Byte, b: Byte, c: Byte, d: Byte): Word {
    a as int * 0x100_0000 + b as int * 0x1_0000 + c as int * 256 + d as int
  }

  lemma ComposeBytes(w: Word)
    ensures Compose(ByteOf(w, 0), ByteOf(w, 1), ByteOf(w, 2), ByteOf(w, 3)) == w
  {
    assert w / 256 == w / 0x1_0000 * 256 + w / 256 % 256;
    assert w / 0x1_0000 == w / 0x100_0000 * 256 + w / 0x1_0000 % 256;
  }

  // A word in network order.
  function U32(w: Word): (s: seq<Byte>)
    ensures |s| == 4
  {
    [ByteOf(w, 0), ByteOf(w, 1), ByteOf(w, 2), ByteOf(w, 3)]
  }

  function U32At(s: seq<Byte>, i: nat): Word
    requires i + 4 <= |s|
  {
    Compose(s[i], s[i + 1], s[i + 2], s[i + 3])
  }

  lemma WordStands(s: seq<Byte>, i: nat, w: Word)
    requires Stands(s, i, U32(w))
    ensures U32At(s, i) == w
  {
    var t := U32(w);
    assert s[i + 0] == t[0] && s[i + 1] == t[1] && s[i + 2] == t[2] && s[i + 3] == t[3];
    ComposeBytes(w);
  }

  // s with t written over it at position i.
  function Put(s: seq<Byte>, i: nat, t: seq<Byte>): (r: seq<Byte>)
    requires i + |t| <= |s|
    ensures |r| == |s|
  {
    s[..i] + t + s[i + |t|..]
  }

  lemma PutJoins(s: seq<Byte>, i: nat, a: seq<Byte>, b: seq<Byte>)
    requires i + |a| + |b| <= |s|
    ensures Put(Put(s, i, a), i + |a|, b) == Put(s, i, a + b)
  {
    var p := Put(s, i, a);
    assert p[..i + |a|] == s[..i] + a;
    assert p[i + |a| + |b|..] == s[i + |a| + |b|..];
  }

  lemma PutFour(s: seq<Byte>, i: nat, head: seq<Byte>, a: seq<Byte>, b: seq<Byte>, c: seq<Byte>, d: seq<Byte>)
    requires i + |head| + |a + b + c + d| <= |s|
    ensures Put(Put(s, i, head), i + |head|, a + b + c + d) == Put(s, i, head + a + b + c + d)
  {
    assert head + (a + b + c + d) == head + a + b + c + d;
    PutJoins(s, i, head, a + b + c + d);
  }

  lemma PutStands(s: seq<Byte>, i: nat, t: seq<Byte>)
    requires i + |t| <= |s|
    ensures Stands(Put(s, i, t), i, t)
  {
  }

  // Buffer::Iterator
  class Iterator {
    const data: array<Byte>
    var at: nat

    constructor (data: array<Byte>, at: nat)
      ensures this.data == data && this.at == at
    {
      this.data, this.at := data, at;
    }

    // Room for n bytes.
    predicate Has(n: nat)
      reads this
    {
      at + n <= data.Length
    }

    ghost function Text(): seq<Byte>
      reads data
    {
      data[..]
    }

    method WriteU8(b: Byte)
      requires Has(1)
      modifies this`at, data
      ensures at == old(at) + 1 && Text() == Put(old(Text()), old(at), [b])
    {
      data[at] := b;
      at := at + 1;
    }

    method WriteHtonU32(w: Word)
      requires Has(4)
      modifies this`at, data
      ensures at == old(at) + 4 && Text() == Put(old(Text()), old(at), U32(w))
    {
      data[at], data[at + 1], data[at + 2], data[at + 3] := ByteOf(w, 0), ByteOf(w, 1), ByteOf(w, 2), ByteOf(w, 3);
      at := at + 4;
    }

    method ReadU8() returns (b: Byte)
      requires Has(1)
      modifies this`at
      ensures at == old(at) + 1 && b == Text()[old(at)]
    {
      b := data[at];
      at := at + 1;
    }

    method ReadNtohU32() returns (w: Word)
      requires Has(4)
      modifies this`at
      ensures at == old(at) + 4 && w == U32At(Text(), old(at))
    {
      w := Compose(data[at], data[at + 1], data[at + 2], data[at + 3]);
      at := at + 4;
    }
  }

  // The three bytes with which a message begins.
  method WriteBytes(i: Iterator, a: Byte, b: Byte, c: Byte)
    requires i.Has(3)
    modifies i`at, i.data
    ensures i.at == old(i.at) + 3 && i.Text() == Put(old(i.Text()), old(i.at), [a] + [b] + [c])
  {
    ghost var s, at := i.Text(), i.at;
    i.WriteU8(a);
    i.WriteU8(b);
    PutJoins(s, at, [a], [b]);
    i.WriteU8(c);
    PutJoins(s, at, [a] + [b], [c]);
  }

  // The four words with which a request or a reply ends.
  method WriteWords(i: Iterator, a: Word, b: Word, c: Word, d: Word)
    requires i.Has(16)
    modifies i`at, i.data
    ensures i.at == old(i.at) + 16 && i.Text() == Put(old(i.Text()), old(i.at), U32(a) + U32(b) + U32(c) + U32(d))
  {
    ghost var s, at := i.Text(), i.at;
    i.WriteHtonU32(a);
    i.WriteHtonU32(b);
    PutJoins(s, at, U32(a), U32(b));
    i.WriteHtonU32(c);
    PutJoins(s, at, U32(a) + U32(b), U32(c));
    i.WriteHtonU32(d);
    PutJoins(s, at, U32(a) + U32(b) + U32(c), U32(d));
  }

  // ----- Route requests -----

  datatype Rreq = Rreq(flags: Byte, reserved: Byte, hopCount: Byte, requestId: Word,
                       dst: Address, dstSeqNo: Word, origin: Address, originSeqNo: Word)

  const RREQ_SIZE: nat := 23

  // What follows the type byte; section 5.1 of RFC 3561.
  function RreqBytes(m: Rreq): (s: seq<Byte>)
    ensures |s| == RREQ_SIZE
  {
    [m.flags] + [m.reserved] + [m.hopCount] + U32(m.requestId)
    + U32(m.dst.bits) + U32(m.dstSeqNo) + U32(m.origin.bits) + U32(m.originSeqNo)
  }

  function RreqAt(s: seq<Byte>, i: nat): Rreq
    requires i + RREQ_SIZE <= |s|
  {
    Rreq(s[i], s[i + 1], s[i + 2], U32At(s, i + 3), Address(U32At(s, i + 7)), U32At(s, i + 11),
         Address(U32At(s, i + 15)), U32At(s, i + 19))
  }

  // A request is read back as it was written.
  lemma RreqRoundTrip(s: seq<Byte>, i: nat, m: Rreq)
    requires Stands(s, i, RreqBytes(m))
    ensures RreqAt(s, i) == m
  {
    var a := [m.flags] + [m.reserved] + [m.hopCount];
    var b := a + U32(m.requestId);
    var c := b + U32(m.dst.bits);
    var d := c + U32(m.dstSeqNo);
    var e := d + U32(m.origin.bits);
    StandsParts(s, i, e, U32(m.originSeqNo));
    StandsParts(s, i, d, U32(m.origin.bits));
    StandsParts(s, i, c, U32(m.dstSeqNo));
    StandsParts(s, i, b, U32(m.dst.bits));
    StandsParts(s, i, a, U32(m.requestId));
    assert s[i + 0] == a[0] && s[i + 1] == a[1] && s[i + 2] == a[2];
    WordStands(s, i + 3, m.requestId);
    WordStands(s, i + 7, m.dst.bits);
    WordStands(s, i + 11, m.dstSeqNo);
    WordStands(s, i + 15, m.origin.bits);
    WordStands(s, i + 19, m.originSeqNo);
  }

  // Four bytes as a number, the most significant first.
  function Number(s: seq<Byte>, i: nat): int
    requires i + 4 <= |s|
  {
    ((s[i] as int * 256 + s[i + 1]) * 256 + s[i + 2]) * 256 + s[i + 3]
  }

  lemma WordIsNumber(s: seq<Byte>, i: nat)
    requires i + 4 <= |s|
    ensures U32At(s, i) == Number(s, i)
  {
  }

  // Where the fields of a request stand.
  lemma RreqOfRfc(m: Rreq)
    ensures var s := RreqBytes(m);
            && s[0] == m.flags && s[1] == m.reserved && s[2] == m.hopCount && Number(s, 3) == m.requestId
            && Number(s, 7) == m.dst.bits && Number(s, 11) == m.dstSeqNo
            && Number(s, 15) == m.origin.bits && Number(s, 19) == m.originSeqNo
  {
    var s := RreqBytes(m);
    RreqRoundTrip(s, 0, m);
    WordIsNumber(s, 3);
    WordIsNumber(s, 7);
    WordIsNumber(s, 11);
    WordIsNumber(s, 15);
    WordIsNumber(s, 19);
  }

  // AddHeader at the sender, RemoveHeader at the receiver: the same request, from the same bytes.
  method CarryRreq(h: RreqHeader, data: array<Byte>, at: nat) returns (back: RreqHeader, written: nat, read: nat)
    requires at + RREQ_SIZE <= data.Length
    modifies data
    ensures fresh(back) && back.Value() == old(h.Value()) && read == written == RREQ_SIZE
  {
    var i := new Iterator(data, at);
    var j := new Iterator(data, at);
    ghost var before := data[..];
    h.Serialize(i);
    PutStands(before, at, RreqBytes(h.Value()));
    RreqRoundTrip(data[..], at, h.Value());
    back := new RreqHeader(Rreq(0, 0, 0, 0, UNSET, 0, UNSET, 0));
    read := back.Deserialize(j);
    written := i.at - at;
  }

  // ----- Flag bits -----

  // flags & (1 << k)
  predicate Bit(flags: nat, k: nat) {
    if k == 0 then flags % 2 == 1 else Bit(flags / 2, k - 1)
  }

  // flags | (1 << k) or flags & ~(1 << k)
  function WithBit(flags: nat, k: nat, f: bool): nat {
    if k == 0 then flags / 2 * 2 + (if f then 1 else 0) else WithBit(flags / 2, k - 1, f) * 2 + flags % 2
  }

  // What the bits of a byte are worth.
  lemma BitIsDigit(flags: nat)
    ensures Bit(flags, 3) <==> flags / 8 % 2 == 1
    ensures Bit(flags, 4) <==> flags / 16 % 2 == 1
    ensures Bit(flags, 5) <==> flags / 32 % 2 == 1
    ensures Bit(flags, 6) <==> flags / 64 % 2 == 1
  {
    Bit3(flags);
    Bit4(flags);
    Bit5(flags);
    Bit5(flags / 2);
    assert flags / 2 / 32 == flags / 64;
  }

  lemma Bit3(flags: nat)
    ensures Bit(flags, 3) <==> flags / 8 % 2 == 1
  {
    assert Bit(flags, 3) == Bit(flags / 2, 2) == Bit(flags / 2 / 2, 1) == Bit(flags / 2 / 2 / 2, 0);
    assert flags / 2 / 2 / 2 == flags / 8;
  }

  lemma Bit4(flags: nat)
    ensures Bit(flags, 4) <==> flags / 16 % 2 == 1
  {
    Bit3(flags / 2);
    assert flags / 2 / 8 == flags / 16;
  }

  lemma Bit5(flags: nat)
    ensures Bit(flags, 5) <==> flags / 32 % 2 == 1
  {
    Bit4(flags / 2);
    assert flags / 2 / 16 == flags / 32;
  }

  // Writing a bit sets that bit and no other.
  lemma {:induction false} WithBitSets(flags: nat, k: nat, f: bool, j: nat)
    ensures Bit(WithBit(flags, k, f), j) == if j == k then f else Bit(flags, j)
  {
    if k > 0 && j > 0 {
      WithBitSets(flags / 2, k - 1, f, j - 1);
    }
  }

  function Pow2(n: nat): nat {
    if n == 0 then 1 else 2 * Pow2(n - 1)
  }

  lemma HalfFits(a: nat, p: nat)
    requires a < 2 * p
    ensures a / 2 < p
  {
  }

  lemma DoubleFits(a: nat, b: nat, p: nat)
    requires a < p && b < 2
    ensures a * 2 + b < 2 * p
  {
  }

  // It stays within the width of the field.
  lemma {:induction false} WithBitFits(flags: nat, k: nat, f: bool, n: nat)
    requires flags < Pow2(n) && k < n
    ensures WithBit(flags, k, f) < Pow2(n)
  {
    var p := Pow2(n - 1);
    HalfFits(flags, p);
    if k == 0 {
      DoubleFits(flags / 2, if f then 1 else 0, p);
    } else {
      WithBitFits(flags / 2, k - 1, f, n - 1);
      DoubleFits(WithBit(flags / 2, k - 1, f), flags % 2, p);
    }
  }

  function SetBit(flags: Byte, k: nat, f: bool): Byte
    requires k < 8
  {
    assert Pow2(8) == 256 by { assert Pow2(4) == 16; }
    WithBitFits(flags, k, f, 8);
    WithBit(flags, k, f)
  }

  // ----- Route request headers -----

  class RreqHeader {
    var flags: Byte
    var reserved: Byte
    var hopCount: Byte
    var requestId: Word
    var dst: Address
    var dstSeqNo: Word
    var origin: Address
    var originSeqNo: Word

    constructor (m: Rreq)
      ensures Value() == m
    {
      flags, reserved, hopCount, requestId := m.flags, m.reserved, m.hopCount, m.requestId;
      dst, dstSeqNo, origin, originSeqNo := m.dst, m.dstSeqNo, m.origin, m.originSeqNo;
    }

    function Value(): Rreq
      reads this
    {
      Rreq(flags, reserved, hopCount, requestId, dst, dstSeqNo, origin, originSeqNo)
    }

    method Serialize(i: Iterator)
      requires i.Has(RREQ_SIZE)
      modifies i`at, i.data
      ensures i.at == old(i.at) + RREQ_SIZE && i.Text() == Put(old(i.Text()), old(i.at), RreqBytes(Value()))
    {
      ghost var s, at, m := i.Text(), i.at, Value();
      WriteBytes(i, flags, reserved, hopCount);
      i.WriteHtonU32(requestId);
      PutJoins(s, at, [m.flags] + [m.reserved] + [m.hopCount], U32(m.requestId));
      WriteWords(i, dst.bits, dstSeqNo, origin.bits, originSeqNo);
      PutFour(s, at, [m.flags] + [m.reserved] + [m.hopCount] + U32(m.requestId),
              U32(m.dst.bits), U32(m.dstSeqNo), U32(m.origin.bits), U32(m.originSeqNo));
    }

    method Deserialize(i: Iterator) returns (dist: nat)
      requires i.Has(RREQ_SIZE)
      modifies this, i`at
      ensures dist == RREQ_SIZE && i.at == old(i.at) + dist
      ensures Value() == RreqAt(i.Text(), old(i.at))
    {
      var start := i.at;
      flags := i.ReadU8();
      reserved := i.ReadU8();
      hopCount := i.ReadU8();
      requestId := i.ReadNtohU32();
      DeserializeRoute(i);
      dist := i.at - start;
    }

    method DeserializeRoute(i: Iterator)
      requires i.Has(16)
      modifies this`dst, this`dstSeqNo, this`origin, this`originSeqNo, i`at
      ensures i.at == old(i.at) + 16
      ensures dst == Address(U32At(i.Text(), old(i.at))) && dstSeqNo == U32At(i.Text(), old(i.at) + 4)
      ensures origin == Address(U32At(i.Text(), old(i.at) + 8)) && originSeqNo == U32At(i.Text(), old(i.at) + 12)
    {
      var a := i.ReadNtohU32();
      dst := Address(a);
      dstSeqNo := i.ReadNtohU32();
      var b := i.ReadNtohU32();
      origin := Address(b);
      originSeqNo := i.ReadNtohU32();
    }

    // The G, D and U flags are bits 5, 4 and 3, of values 32, 16 and 8.
    method SetGratiousRrep(f: bool)
      modifies this`flags
      ensures flags as int / 32 % 2 == (if f then 1 else 0)
      ensures GetGratiousRrep() == f && GetDestinationOnly() == old(GetDestinationOnly())
      ensures GetUnknownSeqno() == old(GetUnknownSeqno())
    {
      forall j { WithBitSets(flags, 5, f, j); }
      flags := SetBit(flags, 5, f);
      BitIsDigit(flags);
    }

    method SetDestinationOnly(f: bool)
      modifies this`flags
      ensures flags as int / 16 % 2 == (if f then 1 else 0)
      ensures GetDestinationOnly() == f && GetGratiousRrep() == old(GetGratiousRrep())
      ensures GetUnknownSeqno() == old(GetUnknownSeqno())
    {
      forall j { WithBitSets(flags, 4, f, j); }
      flags := SetBit(flags, 4, f);
      BitIsDigit(flags);
    }

    method SetUnknownSeqno(f: bool)
      modifies this`flags
      ensures flags as int / 8 % 2 == (if f then 1 else 0)
      ensures GetUnknownSeqno() == f && GetGratiousRrep() == old(GetGratiousRrep())
      ensures GetDestinationOnly() == old(GetDestinationOnly())
    {
      forall j { WithBitSets(flags, 3, f, j); }
      flags := SetBit(flags, 3, f);
      BitIsDigit(flags);
    }

    predicate GetGratiousRrep()
      reads this
    {
      Bit(flags, 5)
    }

    predicate GetDestinationOnly()
      reads this
    {
      Bit(flags, 4)
    }

    predicate GetUnknownSeqno()
      reads this
    {
      Bit(flags, 3)
    }
  }

  // ----- Route replies -----

  datatype Rrep = Rrep(flags: Byte, prefixSize: Byte, hopCount: Byte, dst: Address, dstSeqNo: Word,
                       origin: Address, lifeTime: Word)

  const RREP_SIZE: nat := 19

  // What follows the type byte; section 5.2 of RFC 3561.
  function RrepBytes(m: Rrep): (s: seq<Byte>)
    ensures |s| == RREP_SIZE
  {
    [m.flags] + [m.prefixSize] + [m.hopCount] + U32(m.dst.bits) + U32(m.dstSeqNo) + U32(m.origin.bits) + U32(m.lifeTime)
  }

  function RrepAt(s: seq<Byte>, i: nat): Rrep
    requires i + RREP_SIZE <= |s|
  {
    Rrep(s[i], s[i + 1], s[i + 2], Address(U32At(s, i + 3)), U32At(s, i + 7), Address(U32At(s, i + 11)),
         U32At(s, i + 15))
  }

  // A reply is read back as it was written.
  lemma RrepRoundTrip(s: seq<Byte>, i: nat, m: Rrep)
    requires Stands(s, i, RrepBytes(m))
    ensures RrepAt(s, i) == m
  {
    var a := [m.flags] + [m.prefixSize] + [m.hopCount];
    var b := a + U32(m.dst.bits);
    var c := b + U32(m.dstSeqNo);
    var d := c + U32(m.origin.bits);
    StandsParts(s, i, d, U32(m.lifeTime));
    StandsParts(s, i, c, U32(m.origin.bits));
    StandsParts(s, i, b, U32(m.dstSeqNo));
    StandsParts(s, i, a, U32(m.dst.bits));
    assert s[i + 0] == a[0] && s[i + 1] == a[1] && s[i + 2] == a[2];
    WordStands(s, i + 3, m.dst.bits);
    WordStands(s, i + 7, m.dstSeqNo);
    WordStands(s, i + 11, m.origin.bits);
    WordStands(s, i + 15, m.lifeTime);
  }

  // Where the fields of a reply stand.
  lemma RrepOfRfc(m: Rrep)
    ensures var s := RrepBytes(m);
            && s[0] == m.flags && s[1] == m.prefixSize && s[2] == m.hopCount
            && Number(s, 3) == m.dst.bits && Number(s, 7) == m.dstSeqNo
            && Number(s, 11) == m.origin.bits && Number(s, 15) == m.lifeTime
  {
    var s := RrepBytes(m);
    RrepRoundTrip(s, 0, m);
    WordIsNumber(s, 3);
    WordIsNumber(s, 7);
    WordIsNumber(s, 11);
    WordIsNumber(s, 15);
  }

  class RrepHeader {
    var flags: Byte
    var prefixSize: Byte
    var hopCount: Byte
    var dst: Address
    var dstSeqNo: Word
    var origin: Address
    var lifeTime: Word

    constructor (m: Rrep)
      ensures Value() == m
    {
      flags, prefixSize, hopCount, dst := m.flags, m.prefixSize, m.hopCount, m.dst;
      dstSeqNo, origin, lifeTime := m.dstSeqNo, m.origin, m.lifeTime;
    }

    function Value(): Rrep
      reads this
    {
      Rrep(flags, prefixSize, hopCount, dst, dstSeqNo, origin, lifeTime)
    }

    method Serialize(i: Iterator)
      requires i.Has(RREP_SIZE)
      modifies i`at, i.data
      ensures i.at == old(i.at) + RREP_SIZE && i.Text() == Put(old(i.Text()), old(i.at), RrepBytes(Value()))
    {
      ghost var s, at, m := i.Text(), i.at, Value();
      WriteBytes(i, flags, prefixSize, hopCount);
      WriteWords(i, dst.bits, dstSeqNo, origin.bits, lifeTime);
      PutFour(s, at, [m.flags] + [m.prefixSize] + [m.hopCount],
              U32(m.dst.bits), U32(m.dstSeqNo), U32(m.origin.bits), U32(m.lifeTime));
    }

    method Deserialize(i: Iterator) returns (dist: nat)
      requires i.Has(RREP_SIZE)
      modifies this, i`at
      ensures dist == RREP_SIZE && i.at == old(i.at) + dist
      ensures Value() == RrepAt(i.Text(), old(i.at))
    {
      var start := i.at;
      flags := i.ReadU8();
      prefixSize := i.ReadU8();
      hopCount := i.ReadU8();
      var a := i.ReadNtohU32();
      dst := Address(a);
      dstSeqNo := i.ReadNtohU32();
      var b := i.ReadNtohU32();
      origin := Address(b);
      lifeTime := i.ReadNtohU32();
      dist := i.at - start;
    }

    // The A flag is bit 6, of value 64.
    method SetAckRequired(f: bool)
      modifies this`flags
      ensures flags as int / 64 % 2 == (if f then 1 else 0)
      ensures GetAckRequired() == f && forall k :: k != 6 ==> Bit(flags, k) == Bit(old(flags), k)
    {
      forall j { WithBitSets(flags, 6, f, j); }
      flags := SetBit(flags, 6, f);
      BitIsDigit(flags);
    }

    predicate GetAckRequired()
      reads this
    {
      Bit(flags, 6)
    }
  }

  method CarryRrep(h: RrepHeader, data: array<Byte>, at: nat) returns (back: RrepHeader, written: nat, read: nat)
    requires at + RREP_SIZE <= data.Length
    modifies data
    ensures fresh(back) && back.Value() == old(h.Value()) && read == written == RREP_SIZE
  {
    var i := new Iterator(data, at);
    var j := new Iterator(data, at);
    ghost var before := data[..];
    h.Serialize(i);
    PutStands(before, at, RrepBytes(h.Value()));
    RrepRoundTrip(data[..], at, h.Value());
    back := new RrepHeader(Rrep(0, 0, 0, UNSET, 0, UNSET, 0));
    read := back.Deserialize(j);
    written := i.at - at;
  }

  // ----- Acknowledgements -----

  class RrepAckHeader {
    var reserved: Byte

    constructor ()
      ensures reserved == 0
    {
      reserved := 0;
    }

    method Serialize(i: Iterator)
      requires i.Has(1)
      modifies i`at, i.data
      ensures i.at == old(i.at) + 1 && i.Text() == Put(old(i.Text()), old(i.at), [reserved])
    {
      i.WriteU8(reserved);
    }

    method Deserialize(i: Iterator) returns (dist: nat)
      requires i.Has(1)
      modifies this, i`at
      ensures dist == 1 && i.at == old(i.at) + 1 && reserved == i.Text()[old(i.at)]
    {
      reserved := i.ReadU8();
      dist := 1;
    }
  }

  method CarryRrepAck(h: RrepAckHeader, data: array<Byte>, at: nat)
    returns (back: RrepAckHeader, written: nat, read: nat)
    requires at + 1 <= data.Length
    modifies data
    ensures fresh(back) && back.reserved == old(h.reserved) && read == written == 1
  {
    var i := new Iterator(data, at);
    var j := new Iterator(data, at);
    ghost var before := data[..];
    h.Serialize(i);
    PutStands(before, at, [h.reserved]);
    OneStands(data[..], at, h.reserved);
    back := new RrepAckHeader();
    read := back.Deserialize(j);
    written := i.at - at;
  }

  // ----- Route errors -----

  datatype Rerr = Rerr(flag: Byte, reserved: Byte, dests: map<Address, Word>)

  // GetDestCount, a uint8_t.
  function DestCount(dests: map<Address, Word>): Byte {
    |dests| % 256
  }

  ghost predicate IsLeast(keys: set<Address>, k: Address) {
    k in keys && forall j :: j in keys ==> k.bits <= j.bits
  }

  lemma {:induction false} HasLeast(keys: set<Address>)
    requires keys != {}
    ensures exists k :: IsLeast(keys, k)
  {
    var x :| x in keys;
    if keys - {x} == {} {
      assert keys == {x};
      assert IsLeast(keys, x);
    } else {
      HasLeast(keys - {x});
      var k :| IsLeast(keys - {x}, k);
      assert IsLeast(keys, if x.bits < k.bits then x else k);
    }
  }

  // The first key of the map, which is ordered by address.
  ghost function Least(keys: set<Address>): (k: Address)
    requires keys != {}
    ensures IsLeast(keys, k)
  {
    HasLeast(keys);
    var k :| IsLeast(keys, k);
    k
  }

  function PairBytes(dst: Address, seqNo: Word): (s: seq<Byte>)
    ensures |s| == 8
  {
    U32(dst.bits) + U32(seqNo)
  }

  lemma PairStands(s: seq<Byte>, i: nat, dst: Address, seqNo: Word)
    requires Stands(s, i, PairBytes(dst, seqNo))
    ensures i + 8 <= |s| && U32At(s, i) == dst.bits && U32At(s, i + 4) == seqNo
  {
    StandsParts(s, i, U32(dst.bits), U32(seqNo));
    WordStands(s, i, dst.bits);
    WordStands(s, i + 4, seqNo);
  }

  lemma PairThenRest(s: seq<Byte>, i: nat, dst: Address, seqNo: Word, rest: seq<Byte>)
    requires Stands(s, i, PairBytes(dst, seqNo) + rest)
    ensures i + 8 <= |s| && U32At(s, i) == dst.bits && U32At(s, i + 4) == seqNo && Stands(s, i + 8, rest)
  {
    StandsParts(s, i, PairBytes(dst, seqNo), rest);
    PairStands(s, i, dst, seqNo);
  }

  // The destinations in the order of the map.
  ghost function DestBytes(dests: map<Address, Word>): (s: seq<Byte>)
    ensures |s| == 8 * |dests|
    decreases |dests|
  {
    if dests == map[] then []
    else
      var k := Least(dests.Keys);
      KeyOut(dests, k);
      PairBytes(k, dests[k]) + DestBytes(dests - {k})
  }

  lemma KeyOut(dests: map<Address, Word>, k: Address)
    requires k in dests
    ensures |dests - {k}| == |dests| - 1
  {
    var rest := dests - {k};
    assert dests.Keys == rest.Keys + {k};
  }

  // What follows the type byte; section 5.3 of RFC 3561.
  ghost function RerrBytes(m: Rerr): (s: seq<Byte>)
    ensures |s| == 3 + 8 * |m.dests|
  {
    [m.flag] + [m.reserved] + [DestCount(m.dests)] + DestBytes(m.dests)
  }

  // map::insert, which keeps a key that is there.
  function Insert(dests: map<Address, Word>, dst: Address, seqNo: Word): map<Address, Word> {
    if dst in dests then dests else dests[dst := seqNo]
  }

  function InsertAll(s: seq<Byte>, i: nat, n: nat, acc: map<Address, Word>): map<Address, Word>
    requires i + 8 * n <= |s|
    decreases n
  {
    if n == 0 then acc else InsertAll(s, i + 8, n - 1, Insert(acc, Address(U32At(s, i)), U32At(s, i + 4)))
  }

  predicate HasRerr(s: seq<Byte>, i: nat) {
    i + 3 <= |s| && i + 3 + 8 * s[i + 2] as int <= |s|
  }

  function RerrAt(s: seq<Byte>, i: nat): Rerr
    requires HasRerr(s, i)
  {
    Rerr(s[i], s[i + 1], InsertAll(s, i + 3, s[i + 2], map[]))
  }

  // What stands first where destinations do.
  lemma FirstDest(s: seq<Byte>, i: nat, dests: map<Address, Word>)
    requires Stands(s, i, DestBytes(dests)) && dests != map[]
    ensures var k := Least(dests.Keys);
            && i + 8 <= |s| && U32At(s, i) == k.bits && U32At(s, i + 4) == dests[k]
            && Stands(s, i + 8, DestBytes(dests - {k})) && |dests - {k}| == |dests| - 1
  {
    var k := Least(dests.Keys);
    KeyOut(dests, k);
    PairThenRest(s, i, k, dests[k], DestBytes(dests - {k}));
  }

  ghost predicate NamesPair(s: seq<Byte>, i: nat, dests: map<Address, Word>) {
    i + 8 <= |s| && exists a :: a in dests && Number(s, i) == a.bits && Number(s, i + 4) == dests[a]
  }

  // A pair stands at i, before one of a higher address if there are more.
  ghost predicate PairStandsAt(s: seq<Byte>, i: nat, dests: map<Address, Word>, more: bool) {
    NamesPair(s, i, dests) && (more ==> i + 12 <= |s| && Number(s, i) < Number(s, i + 8))
  }

  lemma WordsNamePair(s: seq<Byte>, i: nat, dests: map<Address, Word>, a: Address)
    requires i + 8 <= |s| && a in dests && U32At(s, i) == a.bits && U32At(s, i + 4) == dests[a]
    ensures NamesPair(s, i, dests)
  {
    WordIsNumber(s, i);
    WordIsNumber(s, i + 4);
  }

  lemma WordsAscend(s: seq<Byte>, i: nat)
    requires i + 12 <= |s| && U32At(s, i) < U32At(s, i + 8)
    ensures Number(s, i) < Number(s, i + 8)
  {
    WordIsNumber(s, i);
    WordIsNumber(s, i + 8);
  }

  lemma LeastOfRest(dests: map<Address, Word>)
    requires |dests| > 1
    ensures var rest := dests - {Least(dests.Keys)};
            rest != map[] && Least(dests.Keys).bits < Least(rest.Keys).bits
  {
    var least := Least(dests.Keys);
    KeyOut(dests, least);
    var next := Least((dests - {least}).Keys);
    assert next in dests && next != least;
  }

  lemma FirstPair(s: seq<Byte>, i: nat, dests: map<Address, Word>)
    requires Stands(s, i, DestBytes(dests)) && dests != map[]
    ensures PairStandsAt(s, i, dests, |dests| > 1)
  {
    FirstDest(s, i, dests);
    WordsNamePair(s, i, dests, Least(dests.Keys));
    if |dests| > 1 {
      LeastOfRest(dests);
      FirstDest(s, i + 8, dests - {Least(dests.Keys)});
      WordsAscend(s, i);
    }
  }

  lemma PairOfMore(s: seq<Byte>, i: nat, dests: map<Address, Word>, k: Address, more: bool)
    requires PairStandsAt(s, i, dests - {k}, more)
    ensures PairStandsAt(s, i, dests, more)
  {
    var a :| a in dests - {k} && Number(s, i) == a.bits && Number(s, i + 4) == (dests - {k})[a];
    assert a in dests && dests[a] == (dests - {k})[a];
  }

  // The destinations stand in ascending order of their addresses, each before its number.
  lemma {:induction false} DestsInOrder(s: seq<Byte>, i: nat, dests: map<Address, Word>, k: nat)
    requires Stands(s, i, DestBytes(dests)) && k < |dests|
    ensures PairStandsAt(s, i + 8 * k, dests, k + 1 < |dests|)
    decreases k
  {
    if k == 0 {
      FirstPair(s, i, dests);
    } else {
      var least := Least(dests.Keys);
      FirstDest(s, i, dests);
      DestsInOrder(s, i + 8, dests - {least}, k - 1);
      assert i + 8 + 8 * (k - 1) == i + 8 * k;
      PairOfMore(s, i + 8 * k, dests, least, k + 1 < |dests|);
    }
  }

  // Where the fields of an error stand.
  lemma RerrOfRfc(m: Rerr)
    ensures var s := RerrBytes(m);
            && s[0] == m.flag && s[1] == m.reserved && s[2] == |m.dests| % 256 && PairsStandAt(s, 3, m.dests)
  {
    var s := RerrBytes(m);
    RerrHead(s, 0, m);
    AllInOrder(s, 3, m.dests);
  }

  ghost predicate PairsStandAt(s: seq<Byte>, i: nat, dests: map<Address, Word>) {
    forall k :: 0 <= k < |dests| ==> PairStandsAt(s, i + 8 * k, dests, k + 1 < |dests|)
  }

  lemma AllInOrder(s: seq<Byte>, i: nat, dests: map<Address, Word>)
    requires Stands(s, i, DestBytes(dests))
    ensures PairsStandAt(s, i, dests)
  {
    forall k | 0 <= k < |dests|
      ensures PairStandsAt(s, i + 8 * k, dests, k + 1 < |dests|)
    {
      DestsInOrder(s, i, dests, k);
    }
  }

  lemma MoveKey(acc: map<Address, Word>, dests: map<Address, Word>, k: Address)
    requires k in dests && dests.Keys !! acc.Keys
    ensures acc[k := dests[k]] + (dests - {k}) == acc + dests
    ensures (dests - {k}).Keys !! acc[k := dests[k]].Keys
  {
  }

  // All destinations inserted in the order of the map.
  ghost function Gather(dests: map<Address, Word>, acc: map<Address, Word>): map<Address, Word>
    decreases |dests|
  {
    if dests == map[] then acc
    else
      var k := Least(dests.Keys);
      KeyOut(dests, k);
      Gather(dests - {k}, Insert(acc, k, dests[k]))
  }

  lemma {:induction false} GatherAdds(dests: map<Address, Word>, acc: map<Address, Word>)
    requires dests.Keys !! acc.Keys
    ensures Gather(dests, acc) == acc + dests
    decreases |dests|
  {
    if dests == map[] {
      assert acc + dests == acc;
    } else {
      var k := Least(dests.Keys);
      KeyOut(dests, k);
      MoveKey(acc, dests, k);
      GatherAdds(dests - {k}, acc[k := dests[k]]);
    }
  }

  lemma {:induction false} InsertAllGathers(s: seq<Byte>, i: nat, dests: map<Address, Word>, acc: map<Address, Word>)
    requires Stands(s, i, DestBytes(dests))
    ensures InsertAll(s, i, |dests|, acc) == Gather(dests, acc)
    decreases |dests|
  {
    if dests != map[] {
      var k := Least(dests.Keys);
      FirstDest(s, i, dests);
      InsertAllGathers(s, i + 8, dests - {k}, Insert(acc, k, dests[k]));
    }
  }

  lemma DestsRoundTrip(s: seq<Byte>, i: nat, dests: map<Address, Word>, acc: map<Address, Word>)
    requires Stands(s, i, DestBytes(dests)) && dests.Keys !! acc.Keys
    ensures InsertAll(s, i, |dests|, acc) == acc + dests
  {
    InsertAllGathers(s, i, dests, acc);
    GatherAdds(dests, acc);
  }

  lemma {:induction false} InsertAllSize(s: seq<Byte>, i: nat, n: nat, acc: map<Address, Word>)
    requires i + 8 * n <= |s|
    ensures |InsertAll(s, i, n, acc)| <= |acc| + n
    decreases n
  {
    if n > 0 {
      var k, v := Address(U32At(s, i)), U32At(s, i + 4);
      InsertAllSize(s, i + 8, n - 1, Insert(acc, k, v));
    }
  }

  lemma RerrHead(s: seq<Byte>, i: nat, m: Rerr)
    requires Stands(s, i, RerrBytes(m))
    ensures HasRerr(s, i) && s[i] == m.flag && s[i + 1] == m.reserved && s[i + 2] == DestCount(m.dests)
    ensures Stands(s, i + 3, DestBytes(m.dests))
  {
    var a := [m.flag] + [m.reserved] + [DestCount(m.dests)];
    StandsParts(s, i, a, DestBytes(m.dests));
    assert s[i + 0] == a[0] && s[i + 1] == a[1] && s[i + 2] == a[2];
  }

  lemma DestsFromNone(s: seq<Byte>, i: nat, dests: map<Address, Word>)
    requires Stands(s, i, DestBytes(dests))
    ensures InsertAll(s, i, |dests|, map[]) == dests
  {
    var none: map<Address, Word> := map[];
    DestsRoundTrip(s, i, dests, none);
    assert none + dests == dests;
  }

  lemma FewDestsComeBack(s: seq<Byte>, i: nat, m: Rerr)
    requires Stands(s, i, RerrBytes(m)) && |m.dests| <= 255
    ensures HasRerr(s, i) && RerrAt(s, i) == m
  {
    RerrHead(s, i, m);
    assert s[i + 2] == |m.dests|;
    DestsFromNone(s, i + 3, m.dests);
  }

  lemma AtMost255ComeBack(s: seq<Byte>, i: nat)
    requires HasRerr(s, i)
    ensures |RerrAt(s, i).dests| <= 255
  {
    InsertAllSize(s, i + 3, s[i + 2], map[]);
  }

  // An error is read back as it was written exactly when it has no more destinations than its count can tell.
  lemma RerrRoundTripIff(s: seq<Byte>, i: nat, m: Rerr)
    requires Stands(s, i, RerrBytes(m))
    ensures HasRerr(s, i)
    ensures RerrAt(s, i) == m <==> |m.dests| <= 255
  {
    RerrHead(s, i, m);
    if |m.dests| <= 255 {
      FewDestsComeBack(s, i, m);
    } else {
      AtMost255ComeBack(s, i);
    }
  }

  // The addresses of n destinations.
  function Addresses(s: seq<Byte>, i: nat, n: nat): seq<Address>
    requires i + 8 * n <= |s|
    decreases n
  {
    if n == 0 then [] else [Address(U32At(s, i))] + Addresses(s, i + 8, n - 1)
  }

  lemma DistinctStep(k: Address, rest: seq<Address>)
    ensures Distinct([k] + rest) <==> k !in rest && Distinct(rest)
  {
    var list := [k] + rest;
    if Distinct(list) {
      forall b | 0 <= b < |rest| ensures rest[b] != k {
        assert list[0] != list[b + 1];
      }
      forall a, b | 0 <= a < b < |rest| ensures rest[a] != rest[b] {
        assert list[a + 1] != list[b + 1];
      }
    }
  }

  ghost predicate NoneIn(list: seq<Address>, acc: map<Address, Word>) {
    forall a :: a in list ==> a !in acc
  }

  lemma NoneInStep(k: Address, v: Word, rest: seq<Address>, acc: map<Address, Word>)
    ensures Distinct([k] + rest) && NoneIn([k] + rest, acc)
            <==> k !in acc && Distinct(rest) && NoneIn(rest, Insert(acc, k, v))
  {
    DistinctStep(k, rest);
    assert k in [k] + rest && forall a :: a in [k] + rest <==> a == k || a in rest;
  }

  lemma {:induction false} InsertAllSizeIff(s: seq<Byte>, i: nat, n: nat, acc: map<Address, Word>)
    requires i + 8 * n <= |s|
    ensures |InsertAll(s, i, n, acc)| == |acc| + n <==> Distinct(Addresses(s, i, n)) && NoneIn(Addresses(s, i, n), acc)
    decreases n
  {
    if n > 0 {
      var k, v := Address(U32At(s, i)), U32At(s, i + 4);
      var rest := Addresses(s, i + 8, n - 1);
      NoneInStep(k, v, rest, acc);
      InsertAllSizeIff(s, i + 8, n - 1, Insert(acc, k, v));
      InsertAllSize(s, i + 8, n - 1, Insert(acc, k, v));
      assert Addresses(s, i, n) == [k] + rest;
      assert |Insert(acc, k, v)| == |acc| + if k in acc then 0 else 1;
    }
  }

  // GetSerializedSize
  function RerrSize(dests: map<Address, Word>): nat {
    3 + 8 * DestCount(dests) as nat
  }

  // Deserialize asserts that it has read as many bytes as the header it leaves would need. It has
  // exactly when the message names no destination twice.
  lemma SizeAgreesIff(s: seq<Byte>, i: nat)
    requires HasRerr(s, i)
    ensures RerrSize(RerrAt(s, i).dests) == 3 + 8 * s[i + 2] as nat <==> Distinct(Addresses(s, i + 3, s[i + 2]))
  {
    InsertAllSizeIff(s, i + 3, s[i + 2], map[]);
    AtMost255ComeBack(s, i);
    FewDestsSize(RerrAt(s, i).dests, s[i + 2]);
  }

  lemma FewDestsSize(dests: map<Address, Word>, n: nat)
    requires |dests| <= 255
    ensures RerrSize(dests) == 3 + 8 * n <==> |dests| == n
  {
    assert DestCount(dests) == |dests|;
  }

  lemma FirstTwoAlike(s: seq<Byte>, i: nat)
    requires i + 16 <= |s| && U32At(s, i) == U32At(s, i + 8)
    ensures !Distinct(Addresses(s, i, 2))
  {
    var two := Addresses(s, i, 2);
    assert Addresses(s, i + 8, 1)[0] == Address(U32At(s, i + 8));
    assert two[0] == two[1];
  }

  lemma SameTwiceDisagrees(s: seq<Byte>)
    requires |s| == 19 && s[2] == 2 && U32At(s, 3) == U32At(s, 11)
    ensures HasRerr(s, 0) && RerrSize(RerrAt(s, 0).dests) != |s|
  {
    FirstTwoAlike(s, 3);
    SizeAgreesIff(s, 0);
  }

  // A message that names address 0 twice.
  lemma ZeroTwiceDisagrees(s: seq<Byte>)
    requires s == [0, 0, 2] + U32(0) + U32(0) + U32(0) + U32(0)
    ensures HasRerr(s, 0) && RerrSize(RerrAt(s, 0).dests) != |s|
  {
    assert s[3] == s[11] && s[4] == s[12] && s[5] == s[13] && s[6] == s[14];
    SameTwiceDisagrees(s);
  }

  // AddUnDestination asserts that the count is below 255, but an optimized build makes no assertions. Then n
  // additions can be made.
  function ManyDests(n: nat): map<Address, Word>
    requires n <= 256
  {
    if n == 0 then map[] else Insert(ManyDests(n - 1), Address(n), 0)
  }

  lemma {:induction false} ManyDestsSize(n: nat)
    requires n <= 256
    ensures |ManyDests(n)| == n && forall a :: a in ManyDests(n) ==> a.bits <= n
  {
    if n > 0 {
      ManyDestsSize(n - 1);
      assert ManyDests(n).Keys == ManyDests(n - 1).Keys + {Address(n)};
    }
  }

  // 256 of them are counted as none, and none come back.
  lemma ManyDestsAreLost(s: seq<Byte>, i: nat, m: Rerr)
    requires |m.dests| == 256 && Stands(s, i, RerrBytes(m))
    ensures HasRerr(s, i) && RerrAt(s, i).dests == map[]
  {
    RerrHead(s, i, m);
  }

  // The bytes of an error are as many as GetSerializedSize says exactly up to 255 destinations.
  lemma SizeIsRightIff(m: Rerr)
    ensures |RerrBytes(m)| == RerrSize(m.dests) <==> |m.dests| <= 255
  {
  }

  method WriteDest(i: Iterator, dst: Address, seqNo: Word)
    requires i.Has(8)
    modifies i`at, i.data
    ensures i.at == old(i.at) + 8 && i.Text() == Put(old(i.Text()), old(i.at), PairBytes(dst, seqNo))
  {
    ghost var s, at := i.Text(), i.at;
    i.WriteHtonU32(dst.bits);
    i.WriteHtonU32(seqNo);
    PutJoins(s, at, U32(dst.bits), U32(seqNo));
  }

  // Writes the first pair and moves on.
  method WriteFirst(i: Iterator, rest: map<Address, Word>) returns (rest': map<Address, Word>)
    requires rest != map[] && i.Has(8)
    modifies i`at, i.data
    ensures var j := Least(rest.Keys);
            && rest' == rest - {j}
            && i.at == old(i.at) + 8 && i.Text() == Put(old(i.Text()), old(i.at), PairBytes(j, rest[j]))
  {
    FirstKey(rest);
    var j: Address :| j in rest && forall k :: k in rest ==> j.bits <= k.bits;
    WriteDest(i, j, rest[j]);
    rest' := rest - {j};
  }

  method ReadDest(i: Iterator) returns (dst: Address, seqNo: Word)
    requires i.Has(8)
    modifies i`at
    ensures i.at == old(i.at) + 8
    ensures dst == Address(U32At(i.Text(), old(i.at))) && seqNo == U32At(i.Text(), old(i.at) + 4)
  {
    var a := i.ReadNtohU32();
    seqNo := i.ReadNtohU32();
    dst := Address(a);
  }

  // So much stands in s from position at on, and there is room for the rest.
  ghost predicate Written(i: Iterator, rest: map<Address, Word>, s: seq<Byte>, at: nat, done: seq<Byte>)
    reads i, i.data
  {
    i.at == at + |done| && i.at + 8 * |rest| <= |s| == i.data.Length && i.Text() == Put(s, at, done)
  }

  // A round of the loop of Serialize.
  method WriteNext(i: Iterator, rest: map<Address, Word>, ghost s: seq<Byte>, ghost at: nat, ghost done: seq<Byte>)
    returns (rest': map<Address, Word>, ghost done': seq<Byte>)
    requires rest != map[] && Written(i, rest, s, at, done)
    modifies i`at, i.data
    ensures Written(i, rest', s, at, done') && |rest'| < |rest|
    ensures done' + DestBytes(rest') == done + DestBytes(rest)
  {
    ghost var j := Least(rest.Keys);
    ghost var pair := PairBytes(j, rest[j]);
    KeyOut(rest, j);
    PutJoins(s, at, done, pair);
    DestsStep(done, rest, j);
    rest' := WriteFirst(i, rest);
    done' := done + pair;
  }

  // The loop of Deserialize.
  method ReadDests(i: Iterator, dest: nat) returns (dests: map<Address, Word>)
    requires i.Has(8 * dest)
    modifies i`at
    ensures i.at == old(i.at) + 8 * dest && dests == InsertAll(i.Text(), old(i.at), dest, map[])
  {
    dests := map[];
    for k := 0 to dest
      invariant i.at == old(i.at) + 8 * k
      invariant InsertAll(i.Text(), old(i.at), dest, map[]) == InsertAll(i.Text(), i.at, dest - k, dests)
    {
      var dst, seqNo := ReadDest(i);
      dests := Insert(dests, dst, seqNo);
    }
  }

  lemma DestsStep(done: seq<Byte>, rest: map<Address, Word>, j: Address)
    requires rest != map[] && j == Least(rest.Keys)
    ensures done + DestBytes(rest) == done + PairBytes(j, rest[j]) + DestBytes(rest - {j})
  {
    assert DestBytes(rest) == PairBytes(j, rest[j]) + DestBytes(rest - {j});
  }

  class RerrHeader {
    var flag: Byte
    var reserved: Byte
    var dests: map<Address, Word>

    constructor ()
      ensures Value() == Rerr(0, 0, map[])
    {
      flag, reserved, dests := 0, 0, map[];
    }

    function Value(): Rerr
      reads this
    {
      Rerr(flag, reserved, dests)
    }

    method Serialize(i: Iterator)
      requires i.Has(3 + 8 * |dests|)
      modifies i`at, i.data
      ensures i.at == old(i.at) + 3 + 8 * |dests|
      ensures i.Text() == Put(old(i.Text()), old(i.at), RerrBytes(Value()))
    {
      ghost var s, at := i.Text(), i.at;
      WriteBytes(i, flag, reserved, DestCount(dests));
      ghost var done := [flag] + [reserved] + [DestCount(dests)];
      var rest := dests;
      while rest != map[]
        invariant Written(i, rest, s, at, done)
        invariant done + DestBytes(rest) == RerrBytes(Value())
        decreases |rest|
      {
        rest, done := WriteNext(i, rest, s, at, done);
      }
      assert done + DestBytes(rest) == done;
    }

    method Deserialize(i: Iterator) returns (dist: nat)
      requires HasRerr(i.Text(), i.at)
      modifies this, i`at
      ensures Value() == RerrAt(i.Text(), old(i.at))
      ensures dist == 3 + 8 * i.Text()[old(i.at) + 2] as nat && i.at == old(i.at) + dist
    {
      var start := i.at;
      flag := i.ReadU8();
      reserved := i.ReadU8();
      var dest := i.ReadU8();
      dests := ReadDests(i, dest);
      dist := i.at - start;
    }

    // A destination that is listed keeps its sequence number. The header stays within 255 destinations if the
    // assertion holds, which an optimized build does not check.
    method AddUnDestination(dst: Address, seqNo: Word) returns (ok: bool)
      modifies this`dests
      ensures ok && dests == Insert(old(dests), dst, seqNo)
      ensures old(|dests| <= 255 && (dst in dests || DestCount(dests) < 255)) ==> |dests| <= 255
    {
      if dst in dests {
        return true;
      }
      KeyOut(dests[dst := seqNo], dst);
      assert dests[dst := seqNo] - {dst} == dests;
      dests := dests[dst := seqNo];
      return true;
    }

    method RemoveUnDestination() returns (un: Option<(Address, Word)>)
      modifies this`dests
      ensures un.None? <==> old(dests) == map[]
      ensures un.Some? ==> IsLeast(old(dests).Keys, un.value.0) && old(dests)[un.value.0] == un.value.1
      ensures dests == if un.Some? then old(dests) - {un.value.0} else old(dests)
    {
      if dests == map[] {
        return None;
      }
      FirstKey(dests);
      var j: Address :| j in dests && forall k :: k in dests ==> j.bits <= k.bits;
      un := Some((j, dests[j]));
      dests := dests - {j};
    }
  }

  // What is read from the bytes that were written.
  lemma RerrComesBack(before: seq<Byte>, s: seq<Byte>, at: nat, m: Rerr)
    requires at + 3 + 8 * |m.dests| <= |before| && s == Put(before, at, RerrBytes(m))
    ensures HasRerr(s, at) && s[at + 2] == DestCount(m.dests)
    ensures RerrAt(s, at) == m <==> |m.dests| <= 255
  {
    PutStands(before, at, RerrBytes(m));
    RerrHead(s, at, m);
    RerrRoundTripIff(s, at, m);
  }

  // An error takes up its serialized size exactly if it comes back, which it does up to 255 destinations.
  method CarryRerr(h: RerrHeader, data: array<Byte>, at: nat) returns (back: RerrHeader, written: nat, read: nat)
    requires at + 3 + 8 * |h.dests| <= data.Length
    modifies data
    ensures fresh(back) && written == 3 + 8 * |h.dests| && read == RerrSize(h.dests)
    ensures back.Value() == old(h.Value()) <==> |h.dests| <= 255
    ensures read == written <==> |h.dests| <= 255
  {
    var i := new Iterator(data, at);
    var j := new Iterator(data, at);
    ghost var before := data[..];
    h.Serialize(i);
    RerrComesBack(before, data[..], at, h.Value());
    SizeIsRightIff(h.Value());
    back := new RerrHeader();
    read := back.Deserialize(j);
    written := i.at - at;
  }

  lemma FirstKey(dests: map<Address, Word>)
    requires dests != map[]
    ensures exists j :: j in dests && forall k :: k in dests ==> j.bits <= k.bits
    ensures forall j :: j in dests && (forall k :: k in dests ==> j.bits <= k.bits) ==> j == Least(dests.Keys)
  {
    var l := Least(dests.Keys);
    assert l in dests && forall k :: k in dests ==> l.bits <= k.bits;
  }

  // ----- The type byte -----

  datatype MessageType = RREQ | RREP | RERR | RREP_ACK

  function TypeCode(t: MessageType): Byte {
    match t
    case RREQ => 1
    case RREP => 2
    case RERR => 3
    case RREP_ACK => 4
  }

  // The types of sections 5.1 to 5.4 of RFC 3561.
  lemma TypesOfRfc(t: MessageType)
    ensures t == RREQ <==> TypeCode(t) == 1
    ensures t == RREP <==> TypeCode(t) == 2
    ensures t == RERR <==> TypeCode(t) == 3
    ensures t == RREP_ACK <==> TypeCode(t) == 4
  {
  }

  class TypeHeader {
    var messageType: MessageType
    var valid: bool

    constructor (t: MessageType)
      ensures messageType == t && valid
    {
      messageType, valid := t, true;
    }

    method Serialize(i: Iterator)
      requires i.Has(1)
      modifies i`at, i.data
      ensures i.at == old(i.at) + 1 && i.Text() == Put(old(i.Text()), old(i.at), [TypeCode(messageType)])
    {
      i.WriteU8(TypeCode(messageType));
    }

    // The header is valid exactly when the byte is the code of a type, and then it is that type.
    method Deserialize(i: Iterator) returns (dist: nat)
      requires i.Has(1)
      modifies this, i`at
      ensures dist == 1 && i.at == old(i.at) + 1
      ensures valid <==> exists t :: TypeCode(t) == i.Text()[old(i.at)]
      ensures if valid then TypeCode(messageType) == i.Text()[old(i.at)] else messageType == old(messageType)
    {
      var t := i.ReadU8();
      valid := true;
      match t {
        case 1 => messageType := RREQ;
        case 2 => messageType := RREP;
        case 3 => messageType := RERR;
        case 4 => messageType := RREP_ACK;
        case _ => valid := false;
      }
      assert valid ==> TypeCode(messageType) == t;
      dist := 1;
    }
  }
}

/** The message frame that hmr_send_task_create serialises and that the receive
    completion handler reads back: a 4-byte message type, a 4-byte signed size,
    then the payload.  Both sides are taken to be little-endian. */
module Wire {

  type Byte = x: int | 0 <= x < 256

  // enum hmr_msg_type and enum hmr_task_type have the same constants.
  const MR := 0
  const NORMAL := 1
  const READ := 2
  const WRITE := 3
  const FINISH := 4
  const DONE := 5

  const HEADER := 8
  const INT_MAX := 0x7fff_ffff

  datatype Msg = Msg(typ: int, data: seq<Byte>)

  // A struct ibv_mr is exchanged by copying its 48 bytes.
  const MR_SIZE := 48
  type Mr = s: seq<Byte> | |s| == 48 witness seq(48, i => 0)

  function Quad(b: seq<Byte>, i: nat): nat
    requires i + 4 <= |b|
  {
    (b[i] as int) + 256 * (b[i + 1] as int) + 65536 * (b[i + 2] as int) + 16777216 * (b[i + 3] as int)
  }

  // The addr and rkey fields, at their offsets on a 64-bit machine.
  function MrAddr(mr: Mr): nat { Quad(mr, 16) + 0x1_0000_0000 * Quad(mr, 20) }

  function MrRkey(mr: Mr): nat { Quad(mr, 40) }

  // ----- struct ibv_mr of infiniband/verbs.h

  type U32 = x: int | 0 <= x < 0x1_0000_0000
  type U64 = x: int | 0 <= x < 0x1_0000_0000_0000_0000

  datatype IbvMr = IbvMr(context: U64, pd: U64, addr: U64, length: U64, handle: U32, lkey: U32, rkey: U32)

  // The n bytes of a little-endian integer.
  function Little(x: nat, n: nat): (b: seq<Byte>)
    ensures |b| == n
  {
    if n == 0 then [] else [x % 256] + Little(x / 256, n - 1)
  }

  // The struct in memory; pad are the four bytes that fill it up to its alignment.
  function Image(m: IbvMr, pad: seq<Byte>): Mr
    requires |pad| == 4
  {
    Little(m.context, 8) + Little(m.pd, 8) + Little(m.addr, 8) + Little(m.length, 8)
    + Little(m.handle, 4) + Little(m.lkey, 4) + Little(m.rkey, 4) + pad
  }

  // The struct that 48 bytes are the image of.
  function StructOf(b: Mr): IbvMr {
    IbvMr(Word(b, 0), Word(b, 8), Word(b, 16), Word(b, 24), Quad(b, 32), Quad(b, 36), Quad(b, 40))
  }

  function Word(b: seq<Byte>, i: nat): nat
    requires i + 8 <= |b|
  {
    Quad(b, i) + 0x1_0000_0000 * Quad(b, i + 4)
  }

  function Power256(n: nat): nat { if n == 0 then 1 else 256 * Power256(n - 1) }

  // Byte k weighs 256 to the power of k.
  function Value(b: seq<Byte>): nat { if b == [] then 0 else b[0] + 256 * Value(b[1..]) }

  lemma {:induction false} LittleValue(x: nat, n: nat)
    requires x < Power256(n)
    ensures Value(Little(x, n)) == x
  {
    if n > 0 {
      LittleValue(x / 256, n - 1);
      assert Little(x, n)[1..] == Little(x / 256, n - 1);
    }
  }

  lemma {:induction false} ValueFour(b: seq<Byte>)
    requires |b| >= 4
    ensures Value(b) == Quad(b, 0) + 0x1_0000_0000 * Value(b[4..])
  {
    assert b[1..][1..] == b[2..] && b[2..][1..] == b[3..] && b[3..][1..] == b[4..];
    assert Value(b[3..]) == b[3] + 256 * Value(b[4..]);
    assert Value(b[2..]) == b[2] + 256 * Value(b[3..]);
    assert Value(b[1..]) == b[1] + 256 * Value(b[2..]);
  }

  lemma {:induction false} QuadOf(x: U32, b: seq<Byte>, i: nat)
    requires i + 4 <= |b| && b[i..i + 4] == Little(x, 4)
    ensures Quad(b, i) == x
  {
    var c := b[i..i + 4];
    assert Power256(4) == 0x1_0000_0000;
    LittleValue(x, 4);
    ValueFour(c);
    assert c[4..] == [] && c[0] == b[i] && c[1] == b[i + 1] && c[2] == b[i + 2] && c[3] == b[i + 3];
  }

  lemma {:induction false} WordOf(x: U64, b: seq<Byte>, i: nat)
    requires i + 8 <= |b| && b[i..i + 8] == Little(x, 8)
    ensures Word(b, i) == x
  {
    var c := b[i..i + 8];
    assert Power256(4) == 0x1_0000_0000 && Power256(8) == 0x1_0000_0000_0000_0000;
    LittleValue(x, 8);
    ValueFour(c);
    ValueFour(c[4..]);
    assert c[4..][4..] == [];
    assert forall k :: 0 <= k < 8 ==> c[k] == b[i + k];
  }

  /** Where the fields of a struct ibv_mr lie: from its 48-byte image every field is read
      back, whatever the padding, and the address and the key that remote writes use are
      its own addr and rkey. */
  lemma {:induction false} StructRead(m: IbvMr, pad: seq<Byte>)
    requires |pad| == 4
    ensures StructOf(Image(m, pad)) == m
    ensures MrAddr(Image(m, pad)) == m.addr && MrRkey(Image(m, pad)) == m.rkey
    ensures Value(Image(m, pad)[16..24]) == m.addr && Value(Image(m, pad)[40..44]) == m.rkey
  {
    hide Little, Quad, Word;
    var b := Image(m, pad);
    assert b[0..8] == Little(m.context, 8) && b[8..16] == Little(m.pd, 8);
    assert b[16..24] == Little(m.addr, 8) && b[24..32] == Little(m.length, 8);
    assert b[32..36] == Little(m.handle, 4) && b[36..40] == Little(m.lkey, 4) && b[40..44] == Little(m.rkey, 4);
    WordOf(m.context, b, 0);
    WordOf(m.pd, b, 8);
    WordOf(m.addr, b, 16);
    WordOf(m.length, b, 24);
    QuadOf(m.handle, b, 32);
    QuadOf(m.lkey, b, 36);
    QuadOf(m.rkey, b, 40);
    AddrIsWord(b);
    assert Power256(4) == 0x1_0000_0000 && Power256(8) == 0x1_0000_0000_0000_0000;
    LittleValue(m.addr, 8);
    LittleValue(m.rkey, 4);
  }

  lemma {:induction false} AddrIsWord(b: Mr)
    ensures MrAddr(b) == Word(b, 16) && MrRkey(b) == Quad(b, 40)
  {
  }

  // Every 48 bytes are the image of one struct.
  lemma {:induction false} ImageOfStruct(b: Mr)
    ensures Image(StructOf(b), b[44..]) == b
  {
    hide Little;
    LittleOf(b[0..8]);
    LittleOf(b[8..16]);
    LittleOf(b[16..24]);
    LittleOf(b[24..32]);
    LittleOf(b[32..36]);
    LittleOf(b[36..40]);
    LittleOf(b[40..44]);
    StructValues(b);
    assert b == b[0..8] + b[8..16] + b[16..24] + b[24..32] + b[32..36] + b[36..40] + b[40..44] + b[44..];
  }

  lemma {:induction false} LittleOf(b: seq<Byte>)
    ensures Little(Value(b), |b|) == b
  {
    if b != [] {
      LittleOf(b[1..]);
      assert Value(b) % 256 == b[0] && Value(b) / 256 == Value(b[1..]);
      assert b == [b[0]] + b[1..];
    }
  }

  lemma {:induction false} ValueQuad(b: seq<Byte>, i: nat)
    requires i + 4 <= |b|
    ensures Value(b[i..i + 4]) == Quad(b, i)
  {
    ValueFour(b[i..i + 4]);
    assert b[i..i + 4][4..] == [];
  }

  lemma {:induction false} ValueWord(b: seq<Byte>, i: nat)
    requires i + 8 <= |b|
    ensures Value(b[i..i + 8]) == Word(b, i)
  {
    ValueFour(b[i..i + 8]);
    assert b[i..i + 8][4..] == b[i + 4..i + 4 + 4];
    ValueQuad(b, i + 4);
  }

  lemma {:induction false} StructValues(b: Mr)
    ensures var m := StructOf(b);
            && m.context == Value(b[0..8]) && m.pd == Value(b[8..16]) && m.addr == Value(b[16..24])
            && m.length == Value(b[24..32]) && m.handle == Value(b[32..36]) && m.lkey == Value(b[36..40])
            && m.rkey == Value(b[40..44])
  {
    ValueWord(b, 0);
    ValueWord(b, 8);
    ValueWord(b, 16);
    ValueWord(b, 24);
    ValueQuad(b, 32);
    ValueQuad(b, 36);
    ValueQuad(b, 40);
  }

  function PutInt(x: int): (b: seq<Byte>)
    requires 0 <= x <= INT_MAX
    ensures |b| == 4
  {
    [x % 256, x / 256 % 256, x / 65536 % 256, x / 16777216]
  }

  // Reads a two's complement 32-bit integer.
  function GetInt(b: seq<Byte>): int
    requires |b| == 4
  {
    var v := Quad(b, 0);
    if v > INT_MAX then v - 0x1_0000_0000 else v
  }

  // A message whose header fields fit the C types that hold them.
  predicate Sendable(m: Msg) { 0 <= m.typ <= INT_MAX && HEADER + |m.data| <= INT_MAX }

  function Frame(m: Msg): (b: seq<Byte>)
    requires Sendable(m)
    ensures |b| == HEADER + |m.data|
  {
    PutInt(m.typ) + PutInt(|m.data|) + m.data
  }

  // The message a handler sees in buffer b.  A size that is negative or points
  // beyond the buffer is never produced by Frame; it is read as an empty payload.
  function Parse(b: seq<Byte>): Msg
    requires |b| >= HEADER
  {
    var size := GetInt(b[4..8]);
    Msg(GetInt(b[..4]), if 0 <= size <= |b| - HEADER then b[HEADER..HEADER + size] else [])
  }

  // The bytes the handler of a descriptor message copies: those after the header.
  function DescIn(b: seq<Byte>): Mr
    requires |b| >= HEADER + MR_SIZE
  {
    b[HEADER..HEADER + MR_SIZE]
  }

  lemma {:induction false} IntRoundTrip(x: int)
    requires 0 <= x <= INT_MAX
    ensures GetInt(PutInt(x)) == x
  {
    assert x / 65536 == x / 256 / 256;
    assert x / 16777216 == x / 65536 / 256;
  }

  /** Whatever bytes follow a frame in its buffer, the handler reads back the
      message that was serialised. */
  lemma {:induction false} FrameRoundTrip(m: Msg, rest: seq<Byte>)
    requires Sendable(m)
    ensures Parse(Frame(m) + rest) == m
  {
    var b := Frame(m) + rest;
    IntRoundTrip(m.typ);
    IntRoundTrip(|m.data|);
    assert b[..4] == PutInt(m.typ);
    assert b[4..8] == PutInt(|m.data|);
    assert b[HEADER..HEADER + |m.data|] == m.data;
  }

  /** Two sendable messages never share a frame, even as prefixes of each other. */
  lemma {:induction false} FramePrefixFree(m: Msg, n: Msg)
    requires Sendable(m) && Sendable(n) && Frame(m) <= Frame(n)
    ensures m == n
  {
    var rest := Frame(n)[|Frame(m)|..];
    assert Frame(n) == Frame(m) + rest;
    FrameRoundTrip(m, rest);
    FrameRoundTrip(n, []);
    assert Frame(n) + [] == Frame(n);
  }

  /** The header in memory: byte k of the type field and byte k of the size field weigh 256
      to the power of k, and the payload follows them. */
  lemma {:induction false} HeaderBytes(m: Msg)
    requires Sendable(m)
    ensures var f := Frame(m);
            && (f[0] as int) + 256 * (f[1] as int) + 65536 * (f[2] as int) + 16777216 * (f[3] as int) == m.typ
            && (f[4] as int) + 256 * (f[5] as int) + 65536 * (f[6] as int) + 16777216 * (f[7] as int) == |m.data|
            && f[8..] == m.data
  {
    IntBytes(m.typ);
    IntBytes(|m.data|);
    assert Frame(m)[..4] == PutInt(m.typ) && Frame(m)[4..8] == PutInt(|m.data|);
  }

  lemma {:induction false} IntBytes(x: int)
    requires 0 <= x <= INT_MAX
    ensures var b := PutInt(x);
            (b[0] as int) + 256 * (b[1] as int) + 65536 * (b[2] as int) + 16777216 * (b[3] as int) == x
  {
    IntRoundTrip(x);
  }

  /** What the handler makes of any buffer: both fields are two's complement integers of
      four bytes, the lowest first, and as many bytes as the size says follow the header,
      none if that is negative or more than the buffer holds. */
  lemma {:induction false} ParseBytes(b: seq<Byte>)
    requires |b| >= HEADER
    ensures var t := (b[0] as int) + 256 * (b[1] as int) + 65536 * (b[2] as int) + 16777216 * (b[3] as int);
            Parse(b).typ == if b[3] < 128 then t else t - 0x1_0000_0000
    ensures var n := (b[4] as int) + 256 * (b[5] as int) + 65536 * (b[6] as int) + 16777216 * (b[7] as int);
            Parse(b).data == if b[7] < 128 && n <= |b| - 8 then b[8..8 + n] else []
  {
    assert Quad(b[..4], 0) == Quad(b, 0) && Quad(b[4..8], 0) == Quad(b, 4);
  }

  /** The type fields of the six kinds of message. */
  lemma {:induction false} TypeFields(data: seq<Byte>)
    requires HEADER + |data| <= INT_MAX
    ensures Frame(Msg(MR, data))[..4] == [0, 0, 0, 0] && Frame(Msg(NORMAL, data))[..4] == [1, 0, 0, 0]
    ensures Frame(Msg(READ, data))[..4] == [2, 0, 0, 0] && Frame(Msg(WRITE, data))[..4] == [3, 0, 0, 0]
    ensures Frame(Msg(FINISH, data))[..4] == [4, 0, 0, 0] && Frame(Msg(DONE, data))[..4] == [5, 0, 0, 0]
  {
    FieldOf(Msg(MR, data), 0);
    FieldOf(Msg(NORMAL, data), 1);
    FieldOf(Msg(READ, data), 2);
    FieldOf(Msg(WRITE, data), 3);
    FieldOf(Msg(FINISH, data), 4);
    FieldOf(Msg(DONE, data), 5);
  }

  lemma {:induction false} FieldOf(m: Msg, k: Byte)
    requires Sendable(m) && m.typ == k
    ensures Frame(m)[..4] == [k, 0, 0, 0]
  {
    HeaderBytes(m);
  }

  // memcpy into a memory: the bytes at [addr, addr + |b|) are replaced.
  function Copy(mem: seq<Byte>, addr: nat, b: seq<Byte>): (r: seq<Byte>)
    requires addr + |b| <= |mem|
    ensures |r| == |mem|
    ensures r[addr..addr + |b|] == b
  {
    mem[..addr] + b + mem[addr + |b|..]
  }

  lemma {:induction false} CopyKeeps(mem: seq<Byte>, addr: nat, b: seq<Byte>, at: nat, n: nat)
    requires addr + |b| <= |mem| && at + n <= |mem|
    requires at + n <= addr || addr + |b| <= at
    ensures Copy(mem, addr, b)[at..at + n] == mem[at..at + n]
  {
    var r := Copy(mem, addr, b);
    assert forall k :: at <= k < at + n ==> r[k] == mem[k];
  }
}

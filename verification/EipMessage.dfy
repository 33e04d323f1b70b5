/** `EIP_Message`: the cursor codec of EtherNet/IP messages, framed by an encapsulation header
    (section 2-3.1 of The CIP Networks Library, Volume 2).

    Bytes and words are numbers; a mask or right shift by whole bytes is a remainder or quotient, and an OR of
    fields that do not overlap is a sum.  `big` is the byte order of the host, `WORDS_BIGENDIAN`. */
module EipMessage {

  type Byte = n: int | 0 <= n < 0x100
  type Word16 = n: int | 0 <= n < 0x1_0000
  type Word32 = n: int | 0 <= n < 0x1_0000_0000

  const SIZE_LIMIT := 0x1_0000_0000_0000_0000   // size_t values are below this
  const HEADER := 24                            // sizeof(EIP_EncapsulationHeader)
  const LENGTH_FIELD := 2                       // offset of its length field
  const HANDLE_FIELD := 4                       // offset of its session handle
  const CONTEXT_FIELD := 12                     // offset of its context

  // ---------- Byte order ----------

  /** The CIP wire format: least significant byte first. */
  function Wire16(v: Word16): seq<Byte> { [v % 0x100, v / 0x100] }

  function Wire32(v: Word32): seq<Byte> { [v % 0x100, v / 0x100 % 0x100, v / 0x1_0000 % 0x100, v / 0x100_0000] }

  function Pair(high: Byte, low: Byte): Word16 { high as int * 0x100 + low }

  function Quad(a: Byte, b: Byte, c: Byte, d: Byte): Word32 {
    a as int * 0x100_0000 + b as int * 0x1_0000 + c as int * 0x100 + d
  }

  /** The word a host finds when it copies bytes into a variable. */
  function Load16(big: bool, b: seq<Byte>): Word16
    requires |b| == 2
  {
    if big then Pair(b[0], b[1]) else Pair(b[1], b[0])
  }

  function Load32(big: bool, b: seq<Byte>): Word32
    requires |b| == 4
  {
    if big then Quad(b[0], b[1], b[2], b[3]) else Quad(b[3], b[2], b[1], b[0])
  }

  /** The bytes a host leaves when it stores a variable. */
  function Store16(big: bool, v: Word16): seq<Byte> { if big then [v / 0x100, v % 0x100] else Wire16(v) }

  function Store32(big: bool, v: Word32): seq<Byte> {
    if big then [v / 0x100_0000, v / 0x1_0000 % 0x100, v / 0x100 % 0x100, v % 0x100] else Wire32(v)
  }

  function Swap16(big: bool, v: Word16): Word16 { if big then v % 0x100 * 0x100 + v / 0x100 else v }

  function Swap32(big: bool, v: Word32): Word32 {
    if big then v % 0x100 * 0x100_0000 + v / 0x100 % 0x100 * 0x1_0000 + v / 0x1_0000 % 0x100 * 0x100 + v / 0x100_0000
    else v
  }

  lemma QuadDigits(v: Word32, a: Byte, b: Byte, c: Byte, d: Byte)
    requires v == Quad(a, b, c, d)
    ensures v % 0x100 == d && v / 0x100 % 0x100 == c && v / 0x1_0000 % 0x100 == b && v / 0x100_0000 == a
  {
    assert v / 0x100 == a as int * 0x1_0000 + b as int * 0x100 + c;
    assert v / 0x1_0000 == a as int * 0x100 + b;
  }

  lemma DigitsQuad(v: Word32)
    ensures v == Quad(v / 0x100_0000, v / 0x1_0000 % 0x100, v / 0x100 % 0x100, v % 0x100)
  {
    assert v / 0x100 / 0x100 == v / 0x1_0000 && v / 0x1_0000 / 0x100 == v / 0x100_0000;
  }

  /** The wire format has the least significant byte first. */
  lemma WireIsLittleEndian(v: Word16, w: Word32)
    ensures var b := Wire16(v); v == b[0] as int + b[1] as int * 0x100
    ensures var b := Wire32(w); w == b[0] as int + b[1] as int * 0x100 + b[2] as int * 0x1_0000 + b[3] as int * 0x100_0000
  {
    DigitsQuad(w);
  }

  /** What a host stores it loads again; the two kinds of host store the bytes in opposite orders. */
  lemma HostOrder(big: bool, v: Word16, w: Word32)
    ensures Load16(big, Store16(big, v)) == v && Load32(big, Store32(big, w)) == w
    ensures var b, l := Store16(true, v), Store16(false, v); b == [l[1], l[0]]
    ensures var b, l := Store32(true, w), Store32(false, w); b == [l[3], l[2], l[1], l[0]]
  {
    DigitsQuad(w);
  }

  /** A swapped load reads the wire format and a swapped store writes it, on both kinds of host. */
  lemma SwapIsWire16(big: bool, b: seq<Byte>, v: Word16)
    requires |b| == 2
    ensures Wire16(Swap16(big, Load16(big, b))) == b
    ensures Store16(big, Swap16(big, v)) == Wire16(v)
  {
    var p := Pair(b[0], b[1]);
    assert p / 0x100 == b[0] && p % 0x100 == b[1];
    var q := Pair(b[1], b[0]);
    assert q / 0x100 == b[1] && q % 0x100 == b[0];
    assert v == v / 0x100 * 0x100 + v % 0x100;
  }

  lemma WireOfQuad(a: Byte, b: Byte, c: Byte, d: Byte)
    ensures Wire32(Quad(d, c, b, a)) == [a, b, c, d]
    ensures Swap32(true, Quad(a, b, c, d)) == Quad(d, c, b, a)
  {
    QuadDigits(Quad(d, c, b, a), d, c, b, a);
    QuadDigits(Quad(a, b, c, d), a, b, c, d);
  }

  lemma SwapIsWire32(big: bool, b: seq<Byte>, v: Word32)
    requires |b| == 4
    ensures Wire32(Swap32(big, Load32(big, b))) == b
    ensures Store32(big, Swap32(big, v)) == Wire32(v)
  {
    WireOfQuad(b[0], b[1], b[2], b[3]);
    assert b == [b[0], b[1], b[2], b[3]];
    StoreOfSwap(v);
  }

  lemma StoreOfSwap(v: Word32)
    ensures Store32(true, Swap32(true, v)) == Wire32(v)
  {
    var w := Wire32(v);
    DigitsQuad(v);
    WireOfQuad(w[3], w[2], w[1], w[0]);
    QuadDigits(Quad(w[0], w[1], w[2], w[3]), w[0], w[1], w[2], w[3]);
  }

  lemma WireIsInjective16(v: Word16, w: Word16)
    requires Wire16(v) == Wire16(w)
    ensures v == w
  {
    assert Wire16(v)[0] == Wire16(w)[0] && Wire16(v)[1] == Wire16(w)[1];
  }

  lemma WireIsInjective32(v: Word32, w: Word32)
    requires Wire32(v) == Wire32(w)
    ensures v == w
  {
    assert forall i :: 0 <= i < 4 ==> Wire32(v)[i] == Wire32(w)[i];
    assert Wire32(v)[0] == Wire32(w)[0] && Wire32(v)[1] == Wire32(w)[1];
    assert Wire32(v)[2] == Wire32(w)[2] && Wire32(v)[3] == Wire32(w)[3];
    DigitsQuad(v);
    DigitsQuad(w);
  }

  // ---------- Messages as values ----------

  /** The block at m_bytes, m_dataSize and m_writeOffset. */
  datatype State = State(bytes: seq<Byte>, size: nat, offset: nat)

  predicate Ok(m: State) { HEADER + m.size <= |m.bytes| < SIZE_LIMIT && m.offset <= m.size }

  /** `n` data bytes from data offset `at`. */
  function Data(m: State, at: nat, n: nat): seq<Byte>
    requires HEADER + at + n <= |m.bytes|
  {
    m.bytes[HEADER + at..HEADER + at + n]
  }

  /** Addition on size_t. */
  function Add(a: nat, b: nat): nat { (a + b) % SIZE_LIMIT }

  lemma AddWraps(a: nat, b: nat)
    requires a < SIZE_LIMIT && b < SIZE_LIMIT
    ensures Add(a, b) == if a + b < SIZE_LIMIT then a + b else a + b - SIZE_LIMIT
  {
  }

  function Read8(m: State, offset: nat): (r: Byte)
    requires Ok(m)
    ensures if offset < m.size then [r] == Data(m, offset, 1) else r == 0
  {
    if offset < m.size then m.bytes[HEADER + offset] else 0
  }

  /** What a guarded load gives: a value, or it goes astray, outside the data of the message. */
  datatype Loaded = Value(value: int) | Stray

  /** The guard of a load of `n` bytes lets the offset through although the bytes are not all data. */
  predicate Slips(m: State, offset: nat, n: nat) { SIZE_LIMIT <= offset + n <= SIZE_LIMIT + m.size }

  function Read16(big: bool, m: State, offset: nat): (r: Loaded)
    requires Ok(m) && offset < SIZE_LIMIT
    ensures r == Stray <==> Slips(m, offset, 2)
    ensures offset + 2 <= m.size ==> r.Value? && 0 <= r.value < 0x1_0000 && Wire16(r.value) == Data(m, offset, 2)
    ensures offset + 2 > m.size && r != Stray ==> r == Value(0)
  {
    if Add(offset, 2) > m.size then Value(0)
    else if offset + 2 > m.size then Stray
    else
      var b := Data(m, offset, 2);
      SwapIsWire16(big, b, 0);
      Value(Swap16(big, Load16(big, b)))
  }

  function Read32(big: bool, m: State, offset: nat): (r: Loaded)
    requires Ok(m) && offset < SIZE_LIMIT
    ensures r == Stray <==> Slips(m, offset, 4)
    ensures offset + 4 <= m.size ==> r.Value? && 0 <= r.value < 0x1_0000_0000 && Wire32(r.value) == Data(m, offset, 4)
    ensures offset + 4 > m.size && r != Stray ==> r == Value(0)
  {
    if Add(offset, 4) > m.size then Value(0)
    else if offset + 4 > m.size then Stray
    else
      var b := Data(m, offset, 4);
      SwapIsWire32(big, b, 0);
      Value(Swap32(big, Load32(big, b)))
  }

  /** The guard `offset + n <= m_dataSize` of reads and writes is the bounds check it is meant to be except
      exactly where the sum of the two size_t values wraps round to something within the data. */
  lemma GuardIsBoundsCheck(m: State, offset: nat, n: nat)
    requires Ok(m) && offset < SIZE_LIMIT && n < SIZE_LIMIT
    ensures (Add(offset, n) <= m.size <==> offset + n <= m.size) <==> !Slips(m, offset, n)
  {
    AddWraps(offset, n);
  }

  /** For example a read at the largest offset there is goes astray in every message with data. */
  lemma LastOffsetStrays(big: bool, m: State)
    requires Ok(m) && m.size >= 1
    ensures Read16(big, m, 0xFFFF_FFFF_FFFF_FFFF) == Stray
  {
  }

  datatype Op = Bytes(value: seq<Byte>) | U8(b: Byte) | U16(v: Word16) | U32(w: Word32) | Skip(n: nat)

  function Width(op: Op): nat {
    match op
    case Bytes(value) => |value|
    case U8(_) => 1
    case U16(_) => 2
    case U32(_) => 4
    case Skip(n) => n
  }

  predicate Fits(m: State, op: Op) { m.offset + Width(op) <= m.size }

  /** What an operation leaves in its place: its encoding, or the old bytes where it only skips. */
  function Encoded(m: State, op: Op): (e: seq<Byte>)
    requires Ok(m) && Fits(m, op)
    ensures |e| == Width(op)
  {
    match op
    case Bytes(value) => value
    case U8(b) => [b]
    case U16(v) => Wire16(v)
    case U32(w) => Wire32(w)
    case Skip(n) => Data(m, m.offset, n)
  }

  /** `value` in place of the bytes from index `at`. */
  function Spliced(s: seq<Byte>, at: nat, value: seq<Byte>): (r: seq<Byte>)
    requires at + |value| <= |s|
    ensures |r| == |s|
  {
    s[..at] + value + s[at + |value|..]
  }

  lemma SplicedHas(s: seq<Byte>, at: nat, value: seq<Byte>)
    requires at + |value| <= |s|
    ensures Spliced(s, at, value)[at..at + |value|] == value
  {
  }

  lemma SplicedKeeps(s: seq<Byte>, at: nat, value: seq<Byte>, from: nat, to: nat)
    requires at + |value| <= |s| && from <= to <= |s|
    requires to <= at || at + |value| <= from
    ensures Spliced(s, at, value)[from..to] == s[from..to]
  {
    var r := Spliced(s, at, value);
    assert forall k :: from <= k < to ==> r[k] == s[k];
  }

  lemma SplicedQuad(s: seq<Byte>, at: nat, a: Byte, b: Byte, c: Byte, d: Byte)
    requires at + 4 <= |s|
    ensures s[at := a][at + 1 := b][at + 2 := c][at + 3 := d] == Spliced(s, at, [a, b, c, d])
  {
  }

  /** `value` at the write offset, and the offset behind it. */
  function Put(m: State, value: seq<Byte>): (r: State)
    requires Ok(m) && m.offset + |value| <= m.size
    ensures Ok(r)
  {
    State(Spliced(m.bytes, HEADER + m.offset, value), m.size, m.offset + |value|)
  }

  /** A write that does not fit changes nothing. */
  function Meaning(m: State, op: Op): (r: State)
    requires Ok(m)
    ensures Ok(r)
  {
    if Fits(m, op) then Put(m, Encoded(m, op)) else m
  }

  function Zeros(n: nat): (z: seq<Byte>)
    ensures |z| == n && forall i :: 0 <= i < n ==> z[i] == 0
  {
    seq(n, _ => 0)
  }

  /** The block of a new message, field by field: command, length, session handle, status, context, options,
      and the data. */
  function NewBlock(command: seq<Byte>, handle: seq<Byte>, context: seq<Byte>, dataSize: nat): seq<Byte> {
    command + Zeros(2) + handle + Zeros(4) + context + Zeros(4) + Zeros(dataSize)
  }

  lemma NewBlockFields(command: seq<Byte>, handle: seq<Byte>, context: seq<Byte>, dataSize: nat)
    requires |command| == 2 && |handle| == 4 && |context| == 8
    ensures Spliced(Spliced(Spliced(Zeros(HEADER + dataSize), 0, command), CONTEXT_FIELD, context), HANDLE_FIELD, handle)
            == NewBlock(command, handle, context, dataSize)
  {
    var s1 := Spliced(Zeros(HEADER + dataSize), 0, command);
    assert s1 == command + Zeros(22 + dataSize);
    var s2 := Spliced(s1, CONTEXT_FIELD, context);
    assert s2 == command + Zeros(10) + context + Zeros(4 + dataSize);
    assert Spliced(s2, HANDLE_FIELD, handle) == command + Zeros(2) + handle + Zeros(4) + context + Zeros(4 + dataSize);
    assert Zeros(4 + dataSize) == Zeros(4) + Zeros(dataSize);
  }

  // ---------- The class ----------

  /** memcpy into a buffer. */
  method CopyIn(a: array<Byte>, at: nat, value: seq<Byte>)
    requires at + |value| <= a.Length
    modifies a
    ensures a[..] == Spliced(old(a[..]), at, value)
  {
    for i := 0 to |value|
      invariant a[..at] == old(a[..at])
      invariant a[at..at + i] == value[..i]
      invariant a[at + i..] == old(a[at + i..])
    {
      a[at + i] := value[i];
    }
    assert a[..] == a[..at] + a[at..at + |value|] + a[at + |value|..];
  }

  class Message {
    const big: bool
    const bytes: array<Byte>
    var dataSize: nat
    var writeOffset: nat

    ghost function View(): State
      reads this, bytes
    {
      State(bytes[..], dataSize, writeOffset)
    }

    ghost predicate Valid()
      reads this, bytes
    {
      Ok(View())
    }

    /** A new message with room for `dataSize` data bytes; `context` is the clock, as eight bytes. */
    constructor (big: bool, command: Word16, dataSize: nat, handle: Word32, context: seq<Byte>)
      requires HEADER + dataSize < SIZE_LIMIT && |context| == 8
      ensures Valid() && this.big == big && fresh(bytes)
      ensures this.dataSize == dataSize && writeOffset == 0
      ensures bytes[..] == NewBlock(Wire16(command), Store32(big, handle), context, dataSize)
    {
      this.big := big;
      this.dataSize := dataSize;
      writeOffset := 0;
      bytes := new Byte[HEADER + dataSize](_ => 0);
      new;
      SwapIsWire16(big, [0, 0], command);
      ghost var block := bytes[..];
      assert block == Zeros(HEADER + dataSize);
      CopyIn(bytes, 0, Store16(big, Swap16(big, command)));
      CopyIn(bytes, CONTEXT_FIELD, context);
      CopyIn(bytes, HANDLE_FIELD, Store32(big, handle));
      NewBlockFields(Wire16(command), Store32(big, handle), context, dataSize);
    }

    /** A copy of received data, whose size is what the header says; a good message exactly when that much
        was received, which the receiver sees to. */
    constructor FromNetwork(big: bool, networkData: seq<Byte>)
      requires HEADER <= |networkData| < SIZE_LIMIT
      ensures this.big == big && fresh(bytes)
      ensures View() == State(networkData, FrameLength(big, networkData), 0)
      ensures Valid() <==> HEADER + FrameLength(big, networkData) <= |networkData|
    {
      this.big := big;
      bytes := new Byte[|networkData|](i requires 0 <= i < |networkData| => networkData[i]);
      dataSize := FrameLength(big, networkData);
      writeOffset := 0;
    }

    /** Four bytes, one after the other. */
    method StoreQuad(at: nat, a: Byte, b: Byte, c: Byte, d: Byte)
      requires at + 4 <= bytes.Length
      modifies bytes
      ensures bytes[..] == Spliced(old(bytes[..]), at, [a, b, c, d])
    {
      SplicedQuad(bytes[..], at, a, b, c, d);
      bytes[at] := a;
      bytes[at + 1] := b;
      bytes[at + 2] := c;
      bytes[at + 3] := d;
    }

    /** The two branches on byte order. */
    method Store(at: nat, value: Word32)
      requires at + 4 <= bytes.Length
      modifies bytes
      ensures bytes[..] == Spliced(old(bytes[..]), at, Wire32(value))
    {
      if big {
        StoreQuad(at, value % 0x100, value / 0x100 % 0x100, value / 0x1_0000 % 0x100, value / 0x100_0000);
      } else {
        CopyIn(bytes, at, Store32(big, value));
      }
    }

    method WriteData(value: seq<Byte>)
      requires Valid() && bytes.Length + |value| < SIZE_LIMIT
      modifies this`writeOffset, bytes
      ensures Valid() && View() == Meaning(old(View()), Bytes(value))
    {
      if Add(writeOffset, |value|) <= dataSize {
        CopyIn(bytes, HEADER + writeOffset, value);
        writeOffset := writeOffset + |value|;
      }
    }

    method WriteDataAsUInt8(value: Byte)
      requires Valid()
      modifies this`writeOffset, bytes
      ensures Valid() && View() == Meaning(old(View()), U8(value))
    {
      if writeOffset < dataSize {
        bytes[HEADER + writeOffset] := value;
        writeOffset := writeOffset + 1;
      }
    }

    method WriteDataAsUInt16(value: Word16)
      requires Valid()
      modifies this`writeOffset, bytes
      ensures Valid() && View() == Meaning(old(View()), U16(value))
    {
      if Add(writeOffset, 2) <= dataSize {
        bytes[HEADER + writeOffset] := value % 0x100;
        writeOffset := writeOffset + 1;
        bytes[HEADER + writeOffset] := value / 0x100;
        writeOffset := writeOffset + 1;
      }
    }

    method WriteDataAsUInt32(value: Word32)
      requires Valid()
      modifies this`writeOffset, bytes
      ensures Valid() && View() == Meaning(old(View()), U32(value))
    {
      if Add(writeOffset, 4) <= dataSize {
        Store(HEADER + writeOffset, value);
        writeOffset := writeOffset + 4;
      }
    }

    /** Moves forward like a write, except where the sum wraps: then, and only then, it moves back. */
    method AdvanceWritePosition(n: nat) returns (r: nat)
      requires Valid() && n < SIZE_LIMIT
      modifies this`writeOffset
      ensures Valid() && r == old(writeOffset)
      ensures r + n < SIZE_LIMIT ==> View() == Meaning(old(View()), Skip(n))
      ensures r + n >= SIZE_LIMIT <==> writeOffset < r
    {
      r := writeOffset;
      AddWraps(r, n);
      if Add(writeOffset, n) <= dataSize {
        writeOffset := Add(writeOffset, n);
      }
    }

    method ResetWritePosition()
      requires Valid()
      modifies this`writeOffset
      ensures Valid() && View() == old(View()).(offset := 0)
    {
      writeOffset := 0;
    }

    method CompleteDataWrite()
      requires Valid()
      modifies this`dataSize, bytes
      ensures Valid() && View() == Completed(old(View()))
    {
      dataSize := writeOffset;
      SwapIsWire16(big, [0, 0], dataSize % 0x1_0000);
      CopyIn(bytes, LENGTH_FIELD, Store16(big, Swap16(big, dataSize % 0x1_0000)));
    }

    function ReadDataAsUInt16(offset: nat): (r: Loaded)
      requires Valid() && offset < SIZE_LIMIT
      reads this, bytes
      ensures r == Stray <==> SIZE_LIMIT <= offset + 2 <= SIZE_LIMIT + dataSize
      ensures offset + 2 <= dataSize ==>
                r.Value? && 0 <= r.value < 0x1_0000 && Wire16(r.value) == bytes[HEADER + offset..HEADER + offset + 2]
      ensures offset + 2 > dataSize && r != Stray ==> r == Value(0)
    {
      Read16(big, State(bytes[..], dataSize, writeOffset), offset)
    }

    function ReadDataAsUInt32(offset: nat): (r: Loaded)
      requires Valid() && offset < SIZE_LIMIT
      reads this, bytes
      ensures r == Stray <==> SIZE_LIMIT <= offset + 4 <= SIZE_LIMIT + dataSize
      ensures offset + 4 <= dataSize ==>
                r.Value? && 0 <= r.value < 0x1_0000_0000 && Wire32(r.value) == bytes[HEADER + offset..HEADER + offset + 4]
      ensures offset + 4 > dataSize && r != Stray ==> r == Value(0)
    {
      Read32(big, State(bytes[..], dataSize, writeOffset), offset)
    }
  }

  /** For example skipping the largest size there is, after one byte, goes back to the start. */
  method SkipGoesBack() returns (before: nat, after: nat)
    ensures before == 1 && after == 0
  {
    var m := new Message(false, 0, 1, 0, Zeros(8));
    m.WriteDataAsUInt8(0);
    before := m.AdvanceWritePosition(0xFFFF_FFFF_FFFF_FFFF);
    after := m.writeOffset;
  }

  /** The data size becomes the write offset, and the header gets its low sixteen bits in wire format. */
  function Completed(m: State): (r: State)
    requires Ok(m)
    ensures Ok(r)
  {
    m.(bytes := Spliced(m.bytes, LENGTH_FIELD, Wire16(m.offset % 0x1_0000)), size := m.offset)
  }

  /** The length a host finds in the header at the start of received data. */
  function FrameLength(big: bool, received: seq<Byte>): Word16
    requires |received| >= HEADER
  {
    Swap16(big, Load16(big, received[LENGTH_FIELD..LENGTH_FIELD + 2]))
  }

  // ---------- Runs of writes ----------

  function Run(m: State, ops: seq<Op>): (r: State)
    requires Ok(m)
    ensures Ok(r)
    decreases |ops|
  {
    if ops == [] then m else Run(Meaning(m, ops[0]), ops[1..])
  }

  /** The encodings of the accepted writes, one after the other. */
  function Written(m: State, ops: seq<Op>): seq<Byte>
    requires Ok(m)
    decreases |ops|
  {
    if ops == [] then []
    else (if Fits(m, ops[0]) then Encoded(m, ops[0]) else []) + Written(Meaning(m, ops[0]), ops[1..])
  }

  lemma SplicedTwice(s: seq<Byte>, at: nat, a: seq<Byte>, b: seq<Byte>)
    requires at + |a| + |b| <= |s|
    ensures Spliced(Spliced(s, at, a), at + |a|, b) == Spliced(s, at, a + b)
  {
  }

  /** The data from the write offset on become the concatenated encodings; nothing else changes. */
  lemma {:induction false} RunWrites(m: State, ops: seq<Op>)
    requires Ok(m)
    ensures m.offset + |Written(m, ops)| <= m.size
    ensures Run(m, ops) == Put(m, Written(m, ops))
    decreases |ops|
  {
    if ops == [] {
      assert Spliced(m.bytes, HEADER + m.offset, []) == m.bytes;
    } else {
      var m1 := Meaning(m, ops[0]);
      RunWrites(m1, ops[1..]);
      if Fits(m, ops[0]) {
        SplicedTwice(m.bytes, HEADER + m.offset, Encoded(m, ops[0]), Written(m1, ops[1..]));
      } else {
        assert Written(m, ops) == Written(m1, ops[1..]);
      }
    }
  }

  lemma {:induction false} RunSplits(m: State, ops: seq<Op>, i: nat)
    requires Ok(m) && i <= |ops|
    ensures Run(m, ops) == Run(Run(m, ops[..i]), ops[i..])
    decreases i
  {
    if i == 0 {
      assert ops[0..] == ops;
    } else {
      RunSplits(Meaning(m, ops[0]), ops[1..], i - 1);
      assert ops[..i][1..] == ops[1..][..i - 1] && ops[1..][i - 1..] == ops[i..];
    }
  }

  lemma PutStays(m: State, e: seq<Byte>, later: seq<Byte>)
    requires Ok(m) && m.offset + |e| + |later| <= m.size
    ensures Data(Put(Put(m, e), later), m.offset, |e|) == e
  {
    SplicedTwice(m.bytes, HEADER + m.offset, e, later);
  }

  /** Every write accepted in a run is still where it was put when the run ends. */
  lemma WriteIsFound(m: State, ops: seq<Op>, i: nat)
    requires Ok(m) && i < |ops| && Fits(Run(m, ops[..i]), ops[i])
    ensures var before, after := Run(m, ops[..i]), Run(m, ops);
            && before.offset + Width(ops[i]) <= after.offset
            && Data(after, before.offset, Width(ops[i])) == Encoded(before, ops[i])
  {
    var before := Run(m, ops[..i]);
    RunSplits(m, ops, i);
    var m1 := Meaning(before, ops[i]);
    var rest := ops[i..][1..];
    RunWrites(m1, rest);
    PutStays(before, Encoded(before, ops[i]), Written(m1, rest));
  }

  /** Reading at `at`, on a host of either byte order, gives back what was written. */
  predicate ReadsAs(big: bool, m: State, at: nat, op: Op)
    requires Ok(m) && at + Width(op) <= m.size
  {
    match op
    case Bytes(value) => Data(m, at, |value|) == value
    case U8(b) => Read8(m, at) == b
    case U16(v) => Read16(big, m, at) == Value(v)
    case U32(w) => Read32(big, m, at) == Value(w)
    case Skip(_) => true
  }

  lemma FoundReadsAs(big: bool, before: State, m: State, op: Op)
    requires Ok(before) && Fits(before, op)
    requires Ok(m) && before.offset + Width(op) <= m.size
    requires Data(m, before.offset, Width(op)) == Encoded(before, op)
    ensures ReadsAs(big, m, before.offset, op)
  {
    match op
    case Bytes(_) =>
    case U8(b) => assert Data(m, before.offset, 1)[0] == b;
    case U16(v) => WireIsInjective16(v, Read16(big, m, before.offset).value);
    case U32(w) => WireIsInjective32(w, Read32(big, m, before.offset).value);
    case Skip(_) =>
  }

  /** Reading at the recorded offset of any accepted write of a run returns what was written. */
  lemma ReadBack(big: bool, m: State, ops: seq<Op>, i: nat)
    requires Ok(m) && i < |ops| && Fits(Run(m, ops[..i]), ops[i])
    ensures var before, after := Run(m, ops[..i]), Run(m, ops);
            before.offset + Width(ops[i]) <= after.offset && ReadsAs(big, after, before.offset, ops[i])
  {
    WriteIsFound(m, ops, i);
    FoundReadsAs(big, Run(m, ops[..i]), Run(m, ops), ops[i]);
  }

  // ---------- From host to host ----------

  /** What is sent: getSize() bytes from getBytes(). */
  function Sent(m: State): seq<Byte>
    requires Ok(m)
  {
    m.bytes[..HEADER + m.size]
  }

  /** The frame of a completed message announces its data size modulo 65536: the true one exactly when the
      data are shorter than that. */
  lemma FrameLengthIff(big: bool, m: State)
    requires Ok(m)
    ensures var c := Completed(m);
            && FrameLength(big, Sent(c)) == c.size % 0x1_0000
            && (FrameLength(big, Sent(c)) == c.size <==> c.size < 0x1_0000)
  {
    var c := Completed(m);
    var field := Sent(c)[LENGTH_FIELD..LENGTH_FIELD + 2];
    SplicedHas(m.bytes, LENGTH_FIELD, Wire16(m.offset % 0x1_0000));
    assert field == c.bytes[LENGTH_FIELD..LENGTH_FIELD + 2];
    SwapIsWire16(big, field, 0);
    WireIsInjective16(FrameLength(big, Sent(c)), c.size % 0x1_0000);
  }

  /** A block field by field: command, length, session handle, status, context, options, and the data. */
  predicate HasFields(block: seq<Byte>, command: seq<Byte>, length: seq<Byte>, handle: seq<Byte>, status: seq<Byte>,
                      context: seq<Byte>, options: seq<Byte>, data: seq<Byte>)
  {
    && |command| == |length| == 2 && |handle| == |status| == |options| == 4 && |context| == 8
    && block == command + length + handle + status + context + options + data
  }

  /** Completing a message changes its length field and no other. */
  lemma CompletedFields(m: State, command: seq<Byte>, length: seq<Byte>, handle: seq<Byte>, status: seq<Byte>,
                        context: seq<Byte>, options: seq<Byte>, data: seq<Byte>)
    requires Ok(m) && HasFields(m.bytes, command, length, handle, status, context, options, data)
    ensures HasFields(Completed(m).bytes, command, Wire16(m.offset % 0x1_0000), handle, status, context, options, data)
  {
    var tail := handle + status + context + options + data;
    assert m.bytes == command + length + tail;
    assert Completed(m).bytes == command + Wire16(m.offset % 0x1_0000) + tail;
  }

  /** The data size of a received message is what its length field says, on both kinds of host. */
  lemma LengthIsInItsField(big: bool, block: seq<Byte>, command: seq<Byte>, length: seq<Byte>, handle: seq<Byte>,
                           status: seq<Byte>, context: seq<Byte>, options: seq<Byte>, data: seq<Byte>)
    requires HasFields(block, command, length, handle, status, context, options, data)
    ensures |block| == HEADER + |data| && Wire16(FrameLength(big, block)) == length
  {
    assert block[LENGTH_FIELD..LENGTH_FIELD + 2] == length;
    SwapIsWire16(big, length, 0);
  }

  /** A message after a run of writes to a new one, completed: every field is in its place, and the data are
      the accepted writes. */
  lemma WrittenFields(command: seq<Byte>, handle: seq<Byte>, context: seq<Byte>, size: nat, ops: seq<Op>)
    requires |command| == 2 && |handle| == 4 && |context| == 8 && HEADER + size < SIZE_LIMIT
    ensures var m := State(NewBlock(command, handle, context, size), size, 0);
            && Ok(m)
            && HasFields(Sent(Completed(Run(m, ops))), command, Wire16(|Written(m, ops)| % 0x1_0000), handle, Zeros(4),
                         context, Zeros(4), Written(m, ops))
  {
    var m := State(NewBlock(command, handle, context, size), size, 0);
    var data := Written(m, ops);
    RunWrites(m, ops);
    var after := Run(m, ops);
    var rest := Zeros(size)[|data|..];
    NewBlockSpliced(command, handle, context, size, data);
    CompletedFields(after, command, Zeros(2), handle, Zeros(4), context, Zeros(4), data + rest);
    SentFields(Completed(after), command, Wire16(|data| % 0x1_0000), handle, Zeros(4), context, Zeros(4), data, rest);
  }

  lemma NewBlockSpliced(command: seq<Byte>, handle: seq<Byte>, context: seq<Byte>, size: nat, data: seq<Byte>)
    requires |command| == 2 && |handle| == 4 && |context| == 8 && |data| <= size
    ensures var block := NewBlock(command, handle, context, size);
            |block| == HEADER + size
            && HasFields(Spliced(block, HEADER, data), command, Zeros(2), handle, Zeros(4), context, Zeros(4),
                         data + Zeros(size)[|data|..])
  {
    var head := command + Zeros(2) + handle + Zeros(4) + context + Zeros(4);
    assert NewBlock(command, handle, context, size) == head + Zeros(size);
    assert Spliced(head + Zeros(size), HEADER, data) == head + (data + Zeros(size)[|data|..]);
  }

  lemma SentFields(c: State, command: seq<Byte>, length: seq<Byte>, handle: seq<Byte>, status: seq<Byte>,
                   context: seq<Byte>, options: seq<Byte>, data: seq<Byte>, rest: seq<Byte>)
    requires Ok(c) && c.size == |data|
    requires HasFields(c.bytes, command, length, handle, status, context, options, data + rest)
    ensures HasFields(Sent(c), command, length, handle, status, context, options, data)
  {
    var head := command + length + handle + status + context + options;
    assert c.bytes == head + data + rest;
    assert Sent(c) == head + data;
  }

  /** For example data of exactly 65536 bytes are announced as none. */
  lemma LongFrameLooksEmpty(big: bool)
    ensures var m := State(Zeros(HEADER + 0x1_0000), 0x1_0000, 0x1_0000);
            Ok(m) && FrameLength(big, Sent(Completed(m))) == 0
  {
    FrameLengthIff(big, State(Zeros(HEADER + 0x1_0000), 0x1_0000, 0x1_0000));
  }

  lemma SentKeepsData(m: State, at: nat, n: nat)
    requires Ok(m) && at + n <= m.offset
    ensures Sent(Completed(m))[HEADER + at..HEADER + at + n] == Data(m, at, n)
  {
    var c, from, to := Completed(m), HEADER + at, HEADER + at + n;
    SplicedKeeps(m.bytes, LENGTH_FIELD, Wire16(m.offset % 0x1_0000), from, to);
    assert Sent(c)[from..to] == c.bytes[from..to];
  }

  lemma ReceivedIsWhole(big: bool, m: State)
    requires Ok(m) && m.offset < 0x1_0000
    ensures var sent := Sent(Completed(m));
            var received := State(sent, FrameLength(big, sent), 0);
            Ok(received) && HEADER + received.size == |sent| && received.size == m.offset
  {
    FrameLengthIff(big, m);
  }

  /** A message written by a run on one host, completed, sent, and received by a host of either byte order
      (the constructor FromNetwork) has the same data size there, and every accepted write reads back. */
  lemma ReceivedReadsBack(big: bool, m: State, ops: seq<Op>, i: nat)
    requires Ok(m) && Run(m, ops).offset < 0x1_0000
    requires i < |ops| && Fits(Run(m, ops[..i]), ops[i])
    ensures var before, sent := Run(m, ops[..i]), Sent(Completed(Run(m, ops)));
            var received := State(sent, FrameLength(big, sent), 0);
            && Ok(received) && HEADER + received.size == |sent| && received.size == Run(m, ops).offset
            && before.offset + Width(ops[i]) <= received.size
            && ReadsAs(big, received, before.offset, ops[i])
  {
    WriteIsFound(m, ops, i);
    var before, after := Run(m, ops[..i]), Run(m, ops);
    var sent := Sent(Completed(after));
    ReceivedIsWhole(big, after);
    var received := State(sent, FrameLength(big, sent), 0);
    SentKeepsData(after, before.offset, Width(ops[i]));
    FoundReadsAs(big, before, received, ops[i]);
  }

  /** The session handle is stored without a swap, though it is read with one: it is in wire format exactly
      on little-endian hosts, and for handles that read the same in both byte orders. */
  lemma HandleOnWireIff(big: bool, handle: Word32)
    ensures Store32(big, handle) == Wire32(handle) <==>
            (big ==> handle % 0x100 == handle / 0x100_0000 && handle / 0x100 % 0x100 == handle / 0x1_0000 % 0x100)
  {
    var a, b := Store32(big, handle), Wire32(handle);
    assert a == b <==> a[0] == b[0] && a[1] == b[1] && a[2] == b[2] && a[3] == b[3];
  }

  /** For example handle 1 leaves a big-endian host the wrong way round. */
  lemma HandleOneIsReversed()
    ensures Store32(true, 1) == [0, 0, 0, 1] && Wire32(1) == [1, 0, 0, 0]
  {
  }

  /** A run of writes on a message object is the run of their meanings. */
  method WriteAll(message: Message, ops: seq<Op>)
    requires message.Valid()
    requires forall i :: 0 <= i < |ops| ==> message.bytes.Length + Width(ops[i]) < SIZE_LIMIT
    modifies message`writeOffset, message.bytes
    ensures message.Valid() && message.View() == Run(old(message.View()), ops)
  {
    ghost var start := message.View();
    for i := 0 to |ops|
      invariant message.Valid() && message.View() == Run(start, ops[..i])
    {
      match ops[i] {
        case Bytes(value) => message.WriteData(value);
        case U8(b) => message.WriteDataAsUInt8(b);
        case U16(v) => message.WriteDataAsUInt16(v);
        case U32(w) => message.WriteDataAsUInt32(w);
        case Skip(n) => var _ := message.AdvanceWritePosition(n);
      }
      RunSplits(start, ops[..i + 1], i);
      assert ops[..i + 1][..i] == ops[..i] && ops[..i + 1][i..] == [ops[i]];
    }
    assert ops[..|ops|] == ops;
  }
}

/** `EIP_MessageReceiver`: cutting the byte stream of a TCP connection into messages, whatever the pieces in
    which the bytes arrive. */
module EipReceiver {
  import opened EipMessage

  // ---------- Streams and their frames ----------

  /** Size of the message at the start of `s`, by its header. */
  function FrameSize(big: bool, s: seq<Byte>): nat
    requires |s| >= HEADER
  {
    FrameLength(big, s) + HEADER
  }

  /** A whole message is at the start of `s`. */
  predicate HasFrame(big: bool, s: seq<Byte>) { |s| >= HEADER && FrameSize(big, s) <= |s| }

  /** Exactly one message. */
  predicate IsFrame(big: bool, f: seq<Byte>) { |f| >= HEADER && FrameSize(big, f) == |f| }

  /** The whole messages of a stream, in order. */
  function Frames(big: bool, s: seq<Byte>): seq<seq<Byte>>
    decreases |s|
  {
    if HasFrame(big, s) then [s[..FrameSize(big, s)]] + Frames(big, s[FrameSize(big, s)..]) else []
  }

  /** What is left of a stream after its whole messages. */
  function Rest(big: bool, s: seq<Byte>): seq<Byte>
    decreases |s|
  {
    if HasFrame(big, s) then Rest(big, s[FrameSize(big, s)..]) else s
  }

  function Joined(frames: seq<seq<Byte>>): seq<Byte> {
    if frames == [] then [] else frames[0] + Joined(frames[1..])
  }

  lemma FirstFrame(big: bool, f: seq<Byte>, more: seq<Byte>)
    requires IsFrame(big, f)
    ensures HasFrame(big, f + more) && FrameSize(big, f + more) == |f|
    ensures (f + more)[..|f|] == f && (f + more)[|f|..] == more
  {
    assert (f + more)[LENGTH_FIELD..LENGTH_FIELD + 2] == f[LENGTH_FIELD..LENGTH_FIELD + 2];
  }

  /** Messages sent one after the other are the frames of the stream: framing is unambiguous. */
  lemma {:induction false} FramesOfJoined(big: bool, frames: seq<seq<Byte>>, tail: seq<Byte>)
    requires forall i :: 0 <= i < |frames| ==> IsFrame(big, frames[i])
    requires !HasFrame(big, tail)
    ensures Frames(big, Joined(frames) + tail) == frames && Rest(big, Joined(frames) + tail) == tail
    decreases |frames|
  {
    if frames == [] {
      assert Joined(frames) + tail == tail;
    } else {
      var more := Joined(frames[1..]) + tail;
      assert Joined(frames) + tail == frames[0] + more;
      FirstFrame(big, frames[0], more);
      FramesOfJoined(big, frames[1..], tail);
    }
  }

  /** What a host sends after completing a message is one frame, for hosts of either byte order, exactly when
      its data are shorter than 65536 bytes. */
  lemma SentIsFrameIff(big: bool, m: State)
    requires Ok(m)
    ensures IsFrame(big, Sent(Completed(m))) <==> m.offset < 0x1_0000
  {
    FrameLengthIff(big, m);
  }

  /** Cutting the first message off a stream. */
  lemma CutFrame(big: bool, s: seq<Byte>)
    requires HasFrame(big, s)
    ensures var f := s[..FrameSize(big, s)];
            IsFrame(big, f) && s == f + s[|f|..] && FrameLength(big, f) == FrameLength(big, s)
  {
    var f := s[..FrameSize(big, s)];
    assert f[LENGTH_FIELD..LENGTH_FIELD + 2] == s[LENGTH_FIELD..LENGTH_FIELD + 2];
  }

  // ---------- The connection ----------

  /** The receiving end of a connection: the bytes still to come.  A steady one never times out or fails
      while there are any. */
  class Socket {
    const steady: bool
    var unread: seq<Byte>

    constructor (steady: bool, unread: seq<Byte>)
      ensures this.steady == steady && this.unread == unread
    {
      this.steady := steady;
      this.unread := unread;
    }

    /** RecvEx: some of the next bytes, at most `len`; none on a timeout, an error or the end. */
    method Receive(len: nat) returns (data: seq<Byte>)
      modifies this
      ensures |data| <= len && old(unread) == data + unread
      ensures steady && len > 0 && old(unread) != [] ==> data != []
    {
      var n: nat :| n <= len && n <= |unread| && (steady && len > 0 && unread != [] ==> n > 0) by {
        var least: nat := if steady && len > 0 && unread != [] then 1 else 0;
        assert least <= len && least <= |unread|;
      }
      data := unread[..n];
      unread := unread[n..];
    }
  }

  // ---------- The receiver ----------

  const CAPACITY := 8192
  const LOW_SPACE := 2048

  /** memmove of `n` bytes to the start of the buffer. */
  method MoveDown(a: array<Byte>, from: nat, n: nat)
    requires from + n <= a.Length
    modifies a
    ensures a[..n] == old(a[from..from + n])
  {
    for i := 0 to n
      invariant forall k :: 0 <= k < i ==> a[k] == old(a[..])[from + k]
      invariant forall k :: i <= k < a.Length ==> a[k] == old(a[..])[k]
    {
      a[i] := a[from + i];
    }
  }

  class MessageReceiver {
    const big: bool
    const socket: Socket
    const buffer: array<Byte>
    var dataSize: nat
    var readPos: nat

    ghost predicate Valid()
      reads this
    {
      buffer.Length == CAPACITY && readPos + dataSize <= CAPACITY
    }

    /** Bytes received and not yet delivered. */
    ghost function Window(): seq<Byte>
      requires Valid()
      reads this, buffer
    {
      buffer[readPos..readPos + dataSize]
    }

    /** All bytes not yet delivered. */
    ghost function Stream(): seq<Byte>
      requires Valid()
      reads this, buffer, socket
    {
      Window() + socket.unread
    }

    constructor (big: bool, socket: Socket)
      ensures Valid() && this.big == big && this.socket == socket && fresh(buffer)
      ensures Stream() == socket.unread
    {
      this.big := big;
      this.socket := socket;
      dataSize := 0;
      readPos := 0;
      buffer := new Byte[CAPACITY];
    }

    /** `m` holds one whole message, ready to be read. */
    ghost predicate Holds(m: Message)
      reads m, m.bytes
    {
      m.Valid() && m.big == big && m.writeOffset == 0 && HEADER + m.dataSize == m.bytes.Length && IsFrame(big, m.bytes[..])
    }

    /** Delivers the message at the start of the window if it is there as a whole. */
    method ReadMessageFromBuffer() returns (m: Message?)
      requires Valid()
      modifies this
      ensures Valid()
      ensures m != null <==> HasFrame(big, old(Window()))
      ensures m == null ==> dataSize == old(dataSize) && readPos == old(readPos)
      ensures m != null ==> fresh(m) && fresh(m.bytes) && Holds(m) && old(Window()) == m.bytes[..] + Window()
    {
      if dataSize < HEADER {
        return null;
      }
      var window := buffer[readPos..readPos + dataSize];
      var msgSize := FrameSize(big, window);
      if dataSize < msgSize {
        return null;
      }
      CutFrame(big, window);
      m := CopyFrame(window[..msgSize]);
      Drop(msgSize);
    }

    method CopyFrame(frame: seq<Byte>) returns (m: Message)
      requires IsFrame(big, frame) && |frame| <= CAPACITY
      ensures fresh(m) && fresh(m.bytes) && Holds(m) && m.bytes[..] == frame
    {
      m := new Message.FromNetwork(big, frame);
    }

    /** Takes `n` bytes off the window. */
    method Drop(n: nat)
      requires Valid() && n <= dataSize
      modifies this
      ensures Valid() && Window() == old(Window())[n..]
    {
      dataSize := dataSize - n;
      if dataSize > 0 {
        readPos := readPos + n;
      } else {
        readPos := 0;
      }
    }

    /** Moves the window to the start of the buffer: memmove, then the new position. */
    method Compact()
      requires Valid()
      modifies this`readPos, buffer
      ensures Valid() && readPos == 0 && Window() == old(Window())
    {
      MoveDown(buffer, readPos, dataSize);
      readPos := 0;
    }

    /** Puts received bytes behind the window. */
    method Append(data: seq<Byte>)
      requires Valid() && readPos + dataSize + |data| <= CAPACITY
      modifies this`dataSize, buffer
      ensures Valid() && Window() == old(Window()) + data
    {
      ghost var block, end := buffer[..], readPos + dataSize;
      CopyIn(buffer, readPos + dataSize, data);
      SplicedHas(block, end, data);
      SplicedKeeps(block, end, data, readPos, end);
      dataSize := dataSize + |data|;
      assert Window() == buffer[..][readPos..end] + buffer[..][end..end + |data|];
    }

    /** One reception into the free space behind the window; false if nothing came. */
    method Fill() returns (more: bool)
      requires Valid()
      modifies this, buffer, socket
      ensures Valid() && Stream() == old(Stream())
      ensures more <==> |socket.unread| < |old(socket.unread)|
      ensures !more ==> Window() == old(Window())
      ensures socket.steady && old(dataSize) < CAPACITY && old(socket.unread) != [] ==> more
    {
      if readPos > 0 && readPos + dataSize > CAPACITY - LOW_SPACE {
        Compact();
      }
      var data := socket.Receive(CAPACITY - readPos - dataSize);
      Append(data);
      assert Window() == old(Window()) + data;
      assert old(Window()) + data + socket.unread == old(Window()) + (data + socket.unread);
      more := |data| > 0;
    }

    /** Delivers the next message of the stream.  Nothing is lost, doubled or reordered; over a steady
        connection a message is delivered exactly when the stream starts with a whole one that fits the
        buffer. */
    method ReadMessage() returns (m: Message?)
      requires Valid()
      modifies this, buffer, socket
      ensures Valid()
      ensures m != null ==> fresh(m) && fresh(m.bytes) && Holds(m)
      ensures old(Stream()) == (if m != null then m.bytes[..] else []) + Stream()
      ensures m != null ==> HasFrame(big, old(Stream())) && FrameSize(big, old(Stream())) <= CAPACITY
      ensures socket.steady && m == null ==> !(HasFrame(big, Stream()) && FrameSize(big, Stream()) <= CAPACITY)
    {
      ghost var stream := Stream();
      while true
        invariant Valid() && Stream() == stream
        decreases |socket.unread|
      {
        ghost var window := Window();
        m := ReadMessageFromBuffer();
        if m != null {
          Delivers(big, window, socket.unread, m.bytes[..], Window());
          return;
        }
        var more := Fill();
        if !more {
          if |window| == CAPACITY || socket.unread == [] {
            NothingToDeliver(big, window, socket.unread);
          }
          return;
        }
      }
    }
  }

  lemma Associative(a: seq<Byte>, b: seq<Byte>, c: seq<Byte>)
    ensures a + b + c == a + (b + c)
  {
  }

  lemma Delivers(big: bool, window: seq<Byte>, unread: seq<Byte>, f: seq<Byte>, rest: seq<Byte>)
    requires IsFrame(big, f) && window == f + rest && |window| <= CAPACITY
    ensures window + unread == f + (rest + unread)
    ensures HasFrame(big, window + unread) && FrameSize(big, window + unread) <= CAPACITY
  {
    Associative(f, rest, unread);
    FirstFrame(big, f, rest + unread);
  }

  /** When the window holds no whole message though it is full, or has got the last of the stream, then the
      stream does not start with a whole message that fits the buffer. */
  lemma NothingToDeliver(big: bool, window: seq<Byte>, unread: seq<Byte>)
    requires !HasFrame(big, window) && (|window| == CAPACITY || unread == [])
    ensures !(HasFrame(big, window + unread) && FrameSize(big, window + unread) <= CAPACITY)
  {
    if unread == [] {
      assert window + unread == window;
    } else {
      assert (window + unread)[LENGTH_FIELD..LENGTH_FIELD + 2] == window[LENGTH_FIELD..LENGTH_FIELD + 2];
    }
  }

  /** `messages` have been delivered of `stream`, and `now` is left. */
  predicate Delivered(big: bool, stream: seq<Byte>, messages: seq<seq<Byte>>, now: seq<Byte>) {
    && Frames(big, stream) == messages + Frames(big, now)
    && Rest(big, stream) == Rest(big, now)
    && forall i :: 0 <= i < |messages| ==> |messages[i]| <= CAPACITY
  }

  lemma FramesStep(big: bool, f: seq<Byte>, more: seq<Byte>)
    requires IsFrame(big, f)
    ensures Frames(big, f + more) == [f] + Frames(big, more) && Rest(big, f + more) == Rest(big, more)
  {
    FirstFrame(big, f, more);
  }

  lemma Regroup(a: seq<seq<Byte>>, f: seq<Byte>, b: seq<seq<Byte>>)
    ensures a + ([f] + b) == (a + [f]) + b
  {
  }

  lemma DeliveredNext(big: bool, stream: seq<Byte>, messages: seq<seq<Byte>>, f: seq<Byte>, more: seq<Byte>)
    requires Delivered(big, stream, messages, f + more) && IsFrame(big, f) && |f| <= CAPACITY
    ensures Delivered(big, stream, messages + [f], more)
  {
    FramesStep(big, f, more);
    Regroup(messages, f, Frames(big, more));
  }

  /** Reading until nothing comes delivers messages of the stream in order; over a steady connection all of
      them, up to the first that is larger than the buffer if there is one. */
  method ReceiveAll(receiver: MessageReceiver) returns (messages: seq<seq<Byte>>)
    requires receiver.Valid()
    modifies receiver, receiver.buffer, receiver.socket
    ensures receiver.Valid()
    ensures Delivered(receiver.big, old(receiver.Stream()), messages, receiver.Stream())
    ensures receiver.socket.steady && HasFrame(receiver.big, receiver.Stream()) ==>
              FrameSize(receiver.big, receiver.Stream()) > CAPACITY
  {
    messages := [];
    var more := true;
    while more
      invariant receiver.Valid()
      invariant Delivered(receiver.big, old(receiver.Stream()), messages, receiver.Stream())
      invariant !more && receiver.socket.steady && HasFrame(receiver.big, receiver.Stream()) ==>
                  FrameSize(receiver.big, receiver.Stream()) > CAPACITY
      decreases more, |receiver.Stream()|
    {
      ghost var stream := receiver.Stream();
      var m := receiver.ReadMessage();
      if m == null {
        assert receiver.Stream() == stream;
        more := false;
      } else {
        FirstFrame(receiver.big, m.bytes[..], receiver.Stream());
        DeliveredNext(receiver.big, old(receiver.Stream()), messages, m.bytes[..], receiver.Stream());
        messages := messages + [m.bytes[..]];
      }
    }
  }

  lemma NextIsLarge(big: bool, sent: seq<seq<Byte>>, messages: seq<seq<Byte>>, now: seq<Byte>)
    requires sent == messages + Frames(big, now)
    requires HasFrame(big, now) && FrameSize(big, now) > CAPACITY
    ensures |messages| < |sent| && |sent[|messages|]| > CAPACITY
  {
    assert sent[|messages|] == Frames(big, now)[0];
  }

  /** Whatever the pieces they arrive in, messages sent one after the other over a steady connection are
      delivered one by one, unchanged, if none is larger than the buffer. */
  lemma AllDelivered(big: bool, sent: seq<seq<Byte>>, messages: seq<seq<Byte>>, now: seq<Byte>)
    requires forall i :: 0 <= i < |sent| ==> IsFrame(big, sent[i]) && |sent[i]| <= CAPACITY
    requires Delivered(big, Joined(sent), messages, now)
    requires HasFrame(big, now) ==> FrameSize(big, now) > CAPACITY
    ensures messages == sent && now == []
  {
    FramesOfJoined(big, sent, []);
    assert Joined(sent) + [] == Joined(sent);
    if HasFrame(big, now) {
      NextIsLarge(big, sent, messages, now);
      assert false;
    }
  }

  /** A frame with `size` data bytes arrives, all of it: is it delivered? */
  method ReceiveOne(big: bool, size: nat) returns (frame: seq<Byte>, m: Message?)
    requires size < 0x1_0000
    ensures |frame| == HEADER + size && IsFrame(big, frame) && (m != null <==> |frame| <= CAPACITY)
  {
    var state := State(Zeros(HEADER + size), size, size);
    frame := Sent(Completed(state));
    SentIsFrameIff(big, state);
    var socket := new Socket(true, frame);
    var receiver := new MessageReceiver(big, socket);
    m := receiver.ReadMessage();
    FirstFrame(big, frame, []);
    assert frame + [] == frame;
  }

  /** For example a frame of 8192 bytes is delivered, and one a byte longer never is. */
  method LargeMessageIsStuck(big: bool) returns (delivered: bool, stuck: bool)
    ensures delivered && stuck
  {
    var fits, m := ReceiveOne(big, 8192 - 24);
    var large, n := ReceiveOne(big, 8193 - 24);
    delivered, stuck := |fits| == 8192 && m != null, |large| == 8193 && n == null;
  }

  // ---------- From writer to reader ----------

  /** A message to be sent: what its constructor is given, and the writes. */
  datatype Draft = Draft(command: Word16, size: nat, handle: Word32, context: seq<Byte>, ops: seq<Op>)

  /** The message fits the receiver's buffer, and no size given to a write is near the largest size_t. */
  predicate Sendable(d: Draft) {
    && |d.context| == 8 && HEADER + d.size <= CAPACITY
    && forall i :: 0 <= i < |d.ops| ==> Width(d.ops[i]) < SIZE_LIMIT - CAPACITY
  }

  function Blank(big: bool, d: Draft): (m: State)
    requires Sendable(d)
    ensures Ok(m)
  {
    State(NewBlock(Wire16(d.command), Store32(big, d.handle), d.context, d.size), d.size, 0)
  }

  /** The frame a host sends for a draft. */
  function Frame(big: bool, d: Draft): seq<Byte>
    requires Sendable(d)
  {
    Sent(Completed(Run(Blank(big, d), d.ops)))
  }

  method Compose(big: bool, d: Draft) returns (frame: seq<Byte>)
    requires Sendable(d)
    ensures frame == Frame(big, d)
  {
    var m := new Message(big, d.command, d.size, d.handle, d.context);
    WriteAll(m, d.ops);
    m.CompleteDataWrite();
    frame := m.bytes[..HEADER + m.dataSize];
  }

  lemma FrameIsDelivered(sender: bool, reader: bool, d: Draft)
    requires Sendable(d)
    ensures IsFrame(reader, Frame(sender, d)) && |Frame(sender, d)| <= CAPACITY
  {
    RunWrites(Blank(sender, d), d.ops);
    SentIsFrameIff(reader, Run(Blank(sender, d), d.ops));
  }

  /** Write `i` of draft `d` is accepted, and reads back from `received` on the receiving host. */
  ghost predicate ReadsBack(sender: bool, reader: bool, d: Draft, i: nat, received: seq<Byte>)
    requires Sendable(d) && i < |d.ops| && |received| >= HEADER
  {
    var before, m := Run(Blank(sender, d), d.ops[..i]), State(received, |received| - HEADER, 0);
    Fits(before, d.ops[i]) ==> Ok(m) && before.offset + Width(d.ops[i]) <= m.size && ReadsAs(reader, m, before.offset, d.ops[i])
  }

  lemma FrameReadsBack(sender: bool, reader: bool, d: Draft, i: nat)
    requires Sendable(d) && i < |d.ops|
    ensures |Frame(sender, d)| >= HEADER && ReadsBack(sender, reader, d, i, Frame(sender, d))
  {
    RunWrites(Blank(sender, d), d.ops);
    if Fits(Run(Blank(sender, d), d.ops[..i]), d.ops[i]) {
      ReceivedReadsBack(reader, Blank(sender, d), d.ops, i);
    }
  }

  /** Messages written on a host of one byte order, sent one after the other over a steady connection, and
      received on a host of another: they arrive one by one, and every accepted write of each reads back. */
  method Converse(sender: bool, reader: bool, drafts: seq<Draft>) returns (received: seq<seq<Byte>>)
    requires forall j :: 0 <= j < |drafts| ==> Sendable(drafts[j])
    ensures |received| == |drafts|
    ensures forall j :: 0 <= j < |drafts| ==> received[j] == Frame(sender, drafts[j])
    ensures forall j, i :: 0 <= j < |drafts| && 0 <= i < |drafts[j].ops| ==>
              |received[j]| >= HEADER && ReadsBack(sender, reader, drafts[j], i, received[j])
  {
    var frames := [];
    for j := 0 to |drafts|
      invariant |frames| == j && forall k :: 0 <= k < j ==> frames[k] == Frame(sender, drafts[k])
    {
      var frame := Compose(sender, drafts[j]);
      frames := frames + [frame];
    }
    var socket := new Socket(true, Joined(frames));
    var receiver := new MessageReceiver(reader, socket);
    received := ReceiveAll(receiver);
    forall j | 0 <= j < |frames| ensures IsFrame(reader, frames[j]) && |frames[j]| <= CAPACITY {
      FrameIsDelivered(sender, reader, drafts[j]);
    }
    AllDelivered(reader, frames, received, receiver.Stream());
    forall j, i | 0 <= j < |drafts| && 0 <= i < |drafts[j].ops|
      ensures |received[j]| >= HEADER && ReadsBack(sender, reader, drafts[j], i, received[j])
    {
      FrameReadsBack(sender, reader, drafts[j], i);
    }
  }
}

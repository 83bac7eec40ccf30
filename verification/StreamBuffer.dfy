/** The byte ring of FreeRTOS/Source/stream_buffer.c, used as a stream of bytes or as a buffer of
    messages.  size_t is 64 bits wide. */
module StreamBuffer {
  import opened Bits
  import opened MessageQueue

  const SIZE_MAX: nat := 0xFFFF_FFFF_FFFF_FFFF

  // ---------- Reading round the ring ----------

  /** The place of the i-th byte from `start` on. */
  function Place(length: nat, start: nat, i: nat): (p: nat)
    requires start < length && i <= length
    ensures p < length
  {
    if start + i < length then start + i else start + i - length
  }

  /** The n bytes from position `tail` on. */
  function Ring(store: seq<Byte>, tail: nat, n: nat): (r: seq<Byte>)
    requires tail < |store| && n <= |store|
    ensures |r| == n
  {
    seq(n, i requires 0 <= i < n => store[Place(|store|, tail, i)])
  }

  /** How far `head` is ahead of `tail`. */
  function Distance(length: nat, tail: nat, head: nat): (n: nat)
    requires tail < length && head < length
    ensures n < length && Place(length, tail, n) == head
  {
    if head >= tail then head - tail else length + head - tail
  }

  /** A write of `data` just after the ring's contents shows up at their end. */
  lemma Appended(was: seq<Byte>, now: seq<Byte>, tail: nat, n: nat, data: seq<Byte>)
    requires tail < |was| == |now| && n + |data| < |was|
    requires var head := Place(|was|, tail, n);
             && (forall i | 0 <= i < |data| :: now[Place(|now|, head, i)] == data[i])
             && (forall i | |data| <= i < |now| :: now[Place(|now|, head, i)] == was[Place(|now|, head, i)])
    ensures Ring(now, tail, n + |data|) == Ring(was, tail, n) + data
  {
    var length, head := |was|, Place(|was|, tail, n);
    forall i | 0 <= i < n + |data|
      ensures now[Place(length, tail, i)] == if i < n then was[Place(length, tail, i)] else data[i - n]
    {
      var j := if i < n then length - n + i else i - n;
      assert Place(length, head, j) == Place(length, tail, i);
    }
  }

  /** Reading from further on skips the bytes before. */
  lemma Skipped(store: seq<Byte>, tail: nat, n: nat, k: nat)
    requires tail < |store| && k <= n < |store|
    ensures Ring(store, Place(|store|, tail, k), n - k) == Ring(store, tail, n)[k..]
    ensures Ring(store, tail, k) == Ring(store, tail, n)[..k]
  {}

  function Receives(rooms: seq<nat>): seq<Op> { seq(|rooms|, i requires 0 <= i < |rooms| => Op.Receive(rooms[i])) }

  function Sends(sends: seq<seq<Byte>>): seq<Op> { seq(|sends|, i requires 0 <= i < |sends| => Op.Send(sends[i])) }

  class Buffer {
    const buffer: array<Byte>
    const isMessageBuffer: bool
    var head: nat
    var tail: nat
    ghost var messages: seq<Message>

    ghost predicate Placed()
      reads this, buffer
    {
      0 < buffer.Length <= 0x8000_0000_0000_0000 && head < buffer.Length && tail < buffer.Length
    }

    /** The bytes stored, oldest first. */
    ghost function Contents(): seq<Byte>
      requires Placed()
      reads this, buffer
    {
      Ring(buffer[..], tail, Distance(buffer.Length, tail, head))
    }

    /** A message buffer stores the frames of its messages, none of them empty. */
    ghost predicate Valid()
      reads this, buffer
    {
      Placed() && (isMessageBuffer ==> Contents() == Frames(messages) && forall m | m in messages :: m != [])
    }

    /** prvInitialiseNewStreamBuffer; the buffer has one byte more than can be stored. */
    constructor (size: nat, isMessageBuffer: bool)
      requires 0 < size < 0x8000_0000_0000_0000 && (isMessageBuffer ==> size > LENGTH_BYTES)
      ensures Valid() && Contents() == [] && messages == [] && fresh(buffer) && buffer.Length == size + 1
      ensures this.isMessageBuffer == isMessageBuffer
    {
      buffer := new Byte[size + 1];
      this.isMessageBuffer := isMessageBuffer;
      head, tail := 0, 0;
      messages := [];
    }

    /** prvBytesInBuffer */
    method BytesInBuffer() returns (count: nat)
      requires Placed()
      ensures count == |Contents()|
    {
      var c := buffer.Length + head;
      assert c <= SIZE_MAX;
      c := c - tail;
      if c >= buffer.Length {
        c := c - buffer.Length;
      }
      count := c;
    }

    /** xStreamBufferSpacesAvailable: what is stored and what is free make up all but one byte. */
    method SpacesAvailable() returns (space: nat)
      requires Placed()
      ensures |Contents()| + space == buffer.Length - 1
    {
      var s := buffer.Length + tail;
      assert s <= SIZE_MAX;
      s := s - head;
      s := s - 1;
      if s >= buffer.Length {
        s := s - buffer.Length;
      }
      space := s;
    }

    /** prvWriteBytesToBuffer */
    method WriteBytes(data: seq<Byte>, at: nat) returns (next: nat)
      requires buffer.Length <= 0x8000_0000_0000_0000 && at < buffer.Length && 0 < |data| < buffer.Length
      modifies buffer
      ensures next == Place(buffer.Length, at, |data|)
      ensures forall i | 0 <= i < |data| :: buffer[Place(buffer.Length, at, i)] == data[i]
      ensures forall i | |data| <= i < buffer.Length ::
                buffer[Place(buffer.Length, at, i)] == old(buffer[Place(buffer.Length, at, i)])
    {
      var first := if buffer.Length - at < |data| then buffer.Length - at else |data|;
      assert at + first <= buffer.Length;
      forall i | 0 <= i < first {
        buffer[at + i] := data[i];
      }
      if |data| > first {
        assert |data| - first <= buffer.Length;
        forall i | 0 <= i < |data| - first {
          buffer[i] := data[first + i];
        }
      }
      next := at + |data|;
      if next >= buffer.Length {
        next := next - buffer.Length;
      }
    }

    /** prvReadBytesFromBuffer */
    method ReadBytes(count: nat, at: nat) returns (data: seq<Byte>, next: nat)
      requires at < buffer.Length && 0 < count < buffer.Length
      ensures data == Ring(buffer[..], at, count) && next == Place(buffer.Length, at, count)
    {
      var first := if buffer.Length - at < count then buffer.Length - at else count;
      assert first <= count && at + first <= buffer.Length;
      data := buffer[at..at + first];
      if count > first {
        data := data + buffer[..count - first];
      }
      assert data == Ring(buffer[..], at, count) by {
        forall i | 0 <= i < count ensures data[i] == buffer[Place(buffer.Length, at, i)] {}
      }
      next := at + count;
      if next >= buffer.Length {
        next := next - buffer.Length;
      }
    }

    /** These bytes are written ahead of the head, where the reader does not look. */
    ghost predicate Ahead(bytes: seq<Byte>)
      reads this, buffer
    {
      Placed() && |Contents()| + |bytes| < buffer.Length && Ring(buffer[..], head, |bytes|) == bytes
    }

    /** The bytes written ahead are the reader's as soon as the head moves. */
    method MoveHead(nextHead: nat, ghost bytes: seq<Byte>)
      requires Ahead(bytes) && nextHead == Place(buffer.Length, head, |bytes|)
      modifies `head
      ensures Placed() && Contents() == old(Contents()) + bytes
    {
      ghost var n := |Contents()|;
      RingSplit(buffer[..], tail, n, |bytes|);
      PlaceOn(buffer.Length, tail, n, |bytes|);
      DistanceOf(buffer.Length, tail, n + |bytes|);
      head := nextHead;
    }

    /** The bytes up to `newTail` are the writer's again as soon as the tail moves. */
    method MoveTail(newTail: nat, ghost k: nat)
      requires Placed() && k <= |Contents()| && newTail == Place(buffer.Length, tail, k)
      modifies `tail
      ensures Placed() && Contents() == old(Contents())[k..]
    {
      Skipped(buffer[..], tail, |Contents()|, k);
      PlaceAhead(buffer.Length, tail, k, |Contents()|);
      tail := newTail;
    }

    /** prvWriteMessageToBuffer for a message, up to the move of the head.  The space was measured
        before, and the reader may have made more since. */
    method StageMessage(data: seq<Byte>, space: nat, requiredSpace: nat) returns (written: nat, nextHead: nat)
      requires Valid() && isMessageBuffer && |Contents()| + space <= buffer.Length - 1
      requires requiredSpace == |data| + LENGTH_BYTES <= SIZE_MAX
      modifies buffer
      ensures Valid() && Contents() == old(Contents())
      ensures written == if space >= requiredSpace then |data| else 0
      ensures written != 0 ==> Ahead(Frame(data)) && nextHead == Place(buffer.Length, head, |Frame(data)|)
    {
      hide Place, Distance, Ring, Frames, ToLittleEndian;
      ghost var was, n := buffer[..], |Contents()|;
      nextHead := head;
      written := |data|;
      if space >= requiredSpace {
        var prefix := ToLittleEndian(|data|, LENGTH_BYTES);
        nextHead := WriteBytes(prefix, nextHead);
        Appended(was, buffer[..], tail, n, prefix);
        Skipped(buffer[..], tail, n + LENGTH_BYTES, n);
        PlaceOn(buffer.Length, tail, n, LENGTH_BYTES);
      } else {
        written := 0;
      }
      if written != 0 {
        ghost var mid := buffer[..];
        nextHead := WriteBytes(data, nextHead);
        Appended(mid, buffer[..], tail, n + LENGTH_BYTES, data);
        Skipped(buffer[..], tail, n + LENGTH_BYTES + |data|, n);
        PlaceOn(buffer.Length, tail, n, LENGTH_BYTES + |data|);
        PlaceOn(buffer.Length, tail, n + LENGTH_BYTES, |data|);
      }
    }

    /** prvWriteMessageToBuffer for a message: it is stored whole if it fits, and otherwise, or when
        it is empty, nothing changes to the reader. */
    method WriteMessage(data: seq<Byte>, space: nat, requiredSpace: nat) returns (written: nat)
      requires Valid() && isMessageBuffer && |Contents()| + space == buffer.Length - 1
      requires requiredSpace == |data| + LENGTH_BYTES <= SIZE_MAX
      modifies `head, `messages, buffer
      ensures Valid() && messages == Apply(old(messages), buffer.Length - 1, Op.Send(data))
      ensures written == if Fits(old(messages), buffer.Length - 1, data) then |data| else 0
    {
      hide Place, Distance, Ring, Frames, Frame;
      var nextHead;
      written, nextHead := StageMessage(data, space, requiredSpace);
      if written != 0 {
        MoveHead(nextHead, Frame(data));
        FramesAppend(messages, data);
        messages := messages + [data];
      }
    }

    /** prvWriteMessageToBuffer for a stream, up to the move of the head. */
    method StageStream(data: seq<Byte>, space: nat) returns (written: nat, nextHead: nat)
      requires Placed() && |Contents()| + space <= buffer.Length - 1
      modifies buffer
      ensures Placed() && Contents() == old(Contents())
      ensures written == if |data| < space then |data| else space
      ensures written != 0 ==> Ahead(data[..written]) && nextHead == Place(buffer.Length, head, written)
    {
      hide Place, Distance, Ring;
      ghost var was, n := buffer[..], |Contents()|;
      written := if |data| < space then |data| else space;
      nextHead := head;
      if written != 0 {
        nextHead := WriteBytes(data[..written], head);
        Appended(was, buffer[..], tail, n, data[..written]);
        Skipped(buffer[..], tail, n + written, n);
      }
    }

    /** prvWriteMessageToBuffer for a stream: as many bytes as there is space for. */
    method WriteStream(data: seq<Byte>, space: nat) returns (written: nat)
      requires Placed() && !isMessageBuffer && |Contents()| + space == buffer.Length - 1
      modifies `head, buffer
      ensures Valid() && written == (if |data| < space then |data| else space)
      ensures Contents() == old(Contents()) + data[..written]
    {
      hide Place, Distance, Ring;
      var nextHead;
      written, nextHead := StageStream(data, space);
      if written != 0 {
        MoveHead(nextHead, data[..written]);
      }
    }

    /** xStreamBufferSend with no block time */
    method Send(data: seq<Byte>) returns (written: nat)
      requires Valid() && |data| + LENGTH_BYTES <= SIZE_MAX
      modifies `head, `messages, buffer
      ensures Valid()
      ensures isMessageBuffer ==>
                && messages == Apply(old(messages), buffer.Length - 1, Op.Send(data))
                && written == if Fits(old(messages), buffer.Length - 1, data) then |data| else 0
      ensures written <= |data|
      ensures !isMessageBuffer ==>
                && Contents() == old(Contents()) + data[..written]
                && (written == |data| || |Contents()| == buffer.Length - 1)
    {
      hide Place, Distance, Ring, Frames;
      var requiredSpace := |data|;
      if isMessageBuffer {
        requiredSpace := requiredSpace + LENGTH_BYTES;
        assert requiredSpace > |data|;
        var space := SpacesAvailable();
        written := WriteMessage(data, space, requiredSpace);
      } else {
        var space := SpacesAvailable();
        written := WriteStream(data, space);
      }
    }

    /** prvReadMessageFromBuffer for a message, up to the move of the tail: the oldest one, whole, or
        nothing if it is longer than the room the reader offers. */
    method FetchMessage(room: nat, bytesAvailable: nat) returns (data: seq<Byte>, newTail: nat)
      requires Valid() && isMessageBuffer && bytesAvailable == |Contents()| > LENGTH_BYTES
      ensures messages != [] && LENGTH_BYTES + |messages[0]| <= |Contents()|
      ensures data == if Deliverable(messages, room) then messages[0] else []
      ensures newTail == Place(buffer.Length, tail, if Deliverable(messages, room) then LENGTH_BYTES + |messages[0]| else 0)
    {
      hide Place, Distance, Ring, Frames, ToLittleEndian, LittleEndian;
      SomeFrame(messages);
      FirstFrame(messages);
      assert messages[0] in messages;
      ghost var store, stored := buffer[..], Contents();
      var prefix, nextTail := ReadBytes(LENGTH_BYTES, tail);
      Skipped(store, tail, bytesAvailable, LENGTH_BYTES);
      DecodedLength(messages[0], buffer.Length);
      PlaceAhead(buffer.Length, tail, LENGTH_BYTES, bytesAvailable);
      var nextMessageLength := LittleEndian(prefix);
      if nextMessageLength > room {
        nextMessageLength := 0;
      }
      var available := bytesAvailable - LENGTH_BYTES;
      var count := if nextMessageLength < available then nextMessageLength else available;
      data, newTail := [], tail;
      PlaceHere(buffer.Length, tail);
      if count != 0 {
        Skipped(store, nextTail, available, count);
        data, newTail := ReadBytes(count, nextTail);
        PlaceOn(buffer.Length, tail, LENGTH_BYTES, count);
      }
    }

    /** prvReadMessageFromBuffer for a message */
    method ReadMessage(room: nat, bytesAvailable: nat) returns (data: seq<Byte>)
      requires Valid() && isMessageBuffer && bytesAvailable == |Contents()| > LENGTH_BYTES
      modifies `tail, `messages
      ensures Valid() && messages == Apply(old(messages), buffer.Length - 1, Op.Receive(room))
      ensures old(messages) != [] && |Contents()| <= |old(Contents())|
      ensures data == if Deliverable(old(messages), room) then old(messages)[0] else []
    {
      var newTail;
      data, newTail := FetchMessage(room, bytesAvailable);
      TakeFirst(room, newTail);
    }

    /** The tail moves behind the first message, if that was delivered. */
    method TakeFirst(room: nat, newTail: nat)
      requires Valid() && isMessageBuffer && messages != [] && LENGTH_BYTES + |messages[0]| <= |Contents()|
      requires newTail ==
                 Place(buffer.Length, tail, if Deliverable(messages, room) then LENGTH_BYTES + |messages[0]| else 0)
      modifies `tail, `messages
      ensures Valid() && messages == Apply(old(messages), buffer.Length - 1, Op.Receive(room))
      ensures |Contents()| <= |old(Contents())|
    {
      hide Place, Distance, Ring, Frames, ToLittleEndian;
      ghost var stored, k := Contents(), if Deliverable(messages, room) then LENGTH_BYTES + |messages[0]| else 0;
      FirstFrame(messages);
      MoveTail(newTail, k);
      if k > 0 {
        assert stored[k..] == stored[LENGTH_BYTES..][|messages[0]|..];
        assert forall m | m in messages[1..] :: m in messages;
        messages := messages[1..];
      }
    }

    /** prvReadMessageFromBuffer for a stream, up to the move of the tail */
    method FetchStream(room: nat, bytesAvailable: nat) returns (data: seq<Byte>, newTail: nat)
      requires Placed() && bytesAvailable == |Contents()| > 0
      ensures |data| == if room < bytesAvailable then room else bytesAvailable
      ensures data == Contents()[..|data|] && newTail == Place(buffer.Length, tail, |data|)
    {
      hide Place, Distance, Ring;
      var count := if room < bytesAvailable then room else bytesAvailable;
      data, newTail := [], tail;
      PlaceHere(buffer.Length, tail);
      if count != 0 {
        Skipped(buffer[..], tail, bytesAvailable, count);
        data, newTail := ReadBytes(count, tail);
      }
    }

    /** prvReadMessageFromBuffer for a stream */
    method ReadStream(room: nat, bytesAvailable: nat) returns (data: seq<Byte>)
      requires Placed() && !isMessageBuffer && bytesAvailable == |Contents()| > 0
      modifies `tail
      ensures Valid() && old(Contents()) == data + Contents()
      ensures |data| == if room < bytesAvailable then room else bytesAvailable
    {
      hide Place, Distance, Ring;
      var newTail;
      data, newTail := FetchStream(room, bytesAvailable);
      MoveTail(newTail, |data|);
    }

    /** xStreamBufferReceive with no block time */
    method Receive(room: nat) returns (data: seq<Byte>)
      requires Valid()
      modifies `tail, `messages
      ensures Valid()
      ensures isMessageBuffer ==>
                && messages == Apply(old(messages), buffer.Length - 1, Op.Receive(room))
                && data == if Deliverable(old(messages), room) then old(messages)[0] else []
      ensures !isMessageBuffer ==> old(Contents()) == data + Contents() && (|data| == room || Contents() == [])
      ensures |Contents()| <= |old(Contents())|
    {
      hide Place, Distance, Ring, Frames;
      data := [];
      var bytesToStoreMessageLength := if isMessageBuffer then LENGTH_BYTES else 0;
      var bytesAvailable := BytesInBuffer();
      if isMessageBuffer { StoredLengths(messages); }
      if bytesAvailable > bytesToStoreMessageLength {
        if isMessageBuffer {
          data := ReadMessage(room, bytesAvailable);
        } else {
          data := ReadStream(room, bytesAvailable);
        }
      }
    }

    // ---------- One writer and one reader at the same time ----------

    /** The reader receives once for each of these rooms. */
    method ReceiveAll(rooms: seq<nat>) returns (ghost taken: seq<Byte>)
      requires Valid()
      modifies `tail, `messages
      ensures Valid() && |Contents()| <= |old(Contents())|
      ensures isMessageBuffer ==> messages == Run(old(messages), buffer.Length - 1, Receives(rooms))
      ensures !isMessageBuffer ==> old(Contents()) == taken + Contents()
    {
      hide Place, Distance, Ring, Frames;
      taken := [];
      if rooms != [] {
        assert Receives(rooms)[1..] == Receives(rooms[1..]);
        var data := Receive(rooms[0]);
        ghost var rest := ReceiveAll(rooms[1..]);
        taken := data + rest;
      }
    }

    /** The writer sends each of these. */
    method SendAll(sends: seq<seq<Byte>>) returns (ghost sent: seq<Byte>)
      requires Valid() && forall i | 0 <= i < |sends| :: |sends[i]| + LENGTH_BYTES <= SIZE_MAX
      modifies `head, `messages, buffer
      ensures Valid() && Contents() == old(Contents()) + sent
      ensures isMessageBuffer ==>
                && messages == Run(old(messages), buffer.Length - 1, Sends(sends)) && old(messages) <= messages
    {
      hide Place, Distance, Ring, Frames;
      sent := [];
      if sends != [] {
        assert Sends(sends)[1..] == Sends(sends[1..]);
        ghost var start, kept := Contents(), messages;
        var written := Send(sends[0]);
        if isMessageBuffer { FramesGrow(kept, messages, sends[0]); }
        assert start <= Contents();
        hide Apply, Fits;
        ghost var rest := SendAll(sends[1..]);
        sent := Contents()[|start|..];
      }
    }

    /** What a send of `data` writes ahead. */
    ghost function Encoded(data: seq<Byte>, written: nat): seq<Byte>
      requires written <= |data|
    {
      if isMessageBuffer then Frame(data) else data[..written]
    }

    /** prvWriteMessageToBuffer up to the move of the head */
    method Stage(data: seq<Byte>, space: nat) returns (written: nat, nextHead: nat)
      requires Valid() && |Contents()| + space <= buffer.Length - 1 && |data| + LENGTH_BYTES <= SIZE_MAX
      modifies buffer
      ensures Valid() && Contents() == old(Contents()) && written <= |data|
      ensures isMessageBuffer ==> written == if space >= |data| + LENGTH_BYTES then |data| else 0
      ensures written != 0 ==>
                Ahead(Encoded(data, written)) && nextHead == Place(buffer.Length, head, |Encoded(data, written)|)
    {
      hide Place, Distance, Ring, Frames, Frame;
      if isMessageBuffer {
        written, nextHead := StageMessage(data, space, |data| + LENGTH_BYTES);
      } else {
        written, nextHead := StageStream(data, space);
      }
    }

    /** The move of the head, if anything was written. */
    method Publish(data: seq<Byte>, written: nat, nextHead: nat)
      requires Valid() && written <= |data| && (isMessageBuffer ==> written == 0 || written == |data|)
      requires written != 0 ==>
                 Ahead(Encoded(data, written)) && nextHead == Place(buffer.Length, head, |Encoded(data, written)|)
      modifies `head, `messages
      ensures Valid()
      ensures isMessageBuffer ==> messages == old(messages) + if written != 0 then [data] else []
      ensures !isMessageBuffer ==> Contents() == old(Contents()) + data[..written]
    {
      hide Place, Distance, Ring, Frames, Frame;
      if written != 0 {
        MoveHead(nextHead, Encoded(data, written));
        if isMessageBuffer {
          FramesAppend(messages, data);
          messages := messages + [data];
        }
      }
    }

    /** A send, with what the reader receives after the space was measured and after the bytes were
        written but before the head moved.  It is as if all of that came first, except that the
        message is taken if it fits at the start. */
    method SendWhileReading(data: seq<Byte>, early: seq<nat>, late: seq<nat>)
      returns (written: nat, ghost taken: seq<Byte>)
      requires Valid() && |data| + LENGTH_BYTES <= SIZE_MAX
      modifies `head, `tail, `messages, buffer
      ensures Valid() && written <= |data|
      ensures isMessageBuffer ==>
                && written == (if Fits(old(messages), buffer.Length - 1, data) then |data| else 0)
                && messages == Run(old(messages), buffer.Length - 1, Receives(early + late))
                               + if written != 0 then [data] else []
      ensures !isMessageBuffer ==> old(Contents()) + data[..written] == taken + Contents()
    {
      hide Place, Distance, Ring, Frames, Frame, Encoded;
      RunConcat(messages, buffer.Length - 1, Receives(early), Receives(late));
      assert Receives(early) + Receives(late) == Receives(early + late);
      var space := SpacesAvailable();
      ghost var first := ReceiveAll(early);
      var nextHead;
      written, nextHead := Stage(data, space);
      ghost var rest := ReceiveAll(late);
      Publish(data, written, nextHead);
      taken := first + rest;
    }

    /** A receive, with what the writer sends after the message was read but before the tail moved: as
        if it came before them, except for the space they find. */
    method ReceiveWhileWriting(room: nat, sends: seq<seq<Byte>>) returns (data: seq<Byte>, ghost sent: seq<Byte>)
      requires Valid() && forall i | 0 <= i < |sends| :: |sends[i]| + LENGTH_BYTES <= SIZE_MAX
      modifies `head, `tail, `messages, buffer
      ensures Valid()
      ensures isMessageBuffer ==>
                && data == (if Deliverable(old(messages), room) then old(messages)[0] else [])
                && var all := Run(old(messages), buffer.Length - 1, Sends(sends));
                   old(messages) <= all && messages == if Deliverable(old(messages), room) then all[1..] else all
      ensures !isMessageBuffer ==> old(Contents()) + sent == data + Contents()
    {
      hide Place, Distance, Ring, Frames;
      data := [];
      var newTail := tail;
      var bytesToStoreMessageLength := if isMessageBuffer then LENGTH_BYTES else 0;
      var bytesAvailable := BytesInBuffer();
      if isMessageBuffer { StoredLengths(messages); }
      var fetched := bytesAvailable > bytesToStoreMessageLength;
      ghost var start := messages;
      if fetched {
        if isMessageBuffer {
          data, newTail := FetchMessage(room, bytesAvailable);
        } else {
          data, newTail := FetchStream(room, bytesAvailable);
        }
      }
      sent := SendAll(sends);
      if fetched {
        if isMessageBuffer {
          assert start[0] == messages[0];
          TakeFirst(room, newTail);
        } else {
          MoveTail(newTail, |data|);
        }
      }
    }

    /** xStreamBufferNextMessageLengthBytes */
    method NextMessageLength() returns (length: nat)
      requires Valid()
      ensures length == if isMessageBuffer && messages != [] then |messages[0]| else 0
    {
      hide Place, Distance, Ring, Frames, ToLittleEndian, LittleEndian;
      length := 0;
      if isMessageBuffer {
        var bytesAvailable := BytesInBuffer();
        StoredLengths(messages);
        if bytesAvailable > LENGTH_BYTES {
          FirstFrame(messages);
          var prefix, next := ReadBytes(LENGTH_BYTES, tail);
          Skipped(buffer[..], tail, bytesAvailable, LENGTH_BYTES);
          DecodedLength(messages[0], buffer.Length);
          length := LittleEndian(prefix);
        } else {
          assert bytesAvailable == 0;
        }
      }
    }
  }

  // ---------- Round the ring ----------

  /** A send only adds to what is stored. */
  lemma FramesGrow(was: seq<Message>, now: seq<Message>, m: Message)
    requires now == was || now == was + [m]
    ensures Frames(was) <= Frames(now) && was <= now
  {
    FramesAppend(was, m);
  }

  lemma RingSplit(store: seq<Byte>, tail: nat, n: nat, k: nat)
    requires tail < |store| && n + k < |store|
    ensures Ring(store, tail, n + k) == Ring(store, tail, n) + Ring(store, Place(|store|, tail, n), k)
  {}

  lemma PlaceHere(length: nat, tail: nat)
    requires tail < length
    ensures Place(length, tail, 0) == tail
  {}

  lemma PlaceOn(length: nat, tail: nat, n: nat, k: nat)
    requires tail < length && n + k < length
    ensures Place(length, Place(length, tail, n), k) == Place(length, tail, n + k)
  {}

  lemma DistanceOf(length: nat, tail: nat, n: nat)
    requires tail < length && n < length
    ensures Distance(length, tail, Place(length, tail, n)) == n
  {}

  /** Moving the tail k bytes on brings the head k bytes nearer. */
  lemma PlaceAhead(length: nat, tail: nat, k: nat, n: nat)
    requires tail < length && k <= n < length
    ensures Place(length, Place(length, tail, k), n - k) == Place(length, tail, n)
    ensures Distance(length, Place(length, tail, k), Place(length, tail, n)) == n - k
  {}

  /** The stored length of a message reads back as its length. */
  lemma DecodedLength(m: Message, bound: nat)
    requires |m| < bound <= 0x8000_0000_0000_0000
    ensures LittleEndian(ToLittleEndian(|m|, LENGTH_BYTES)) == |m|
  {
    Widths();
    LittleEndianRoundTrip(|m|, LENGTH_BYTES);
  }

  /** A message buffer holds nothing or more than a length. */
  lemma StoredLengths(ms: seq<Message>)
    requires forall m | m in ms :: m != []
    ensures if ms == [] then Frames(ms) == [] else |Frames(ms)| > LENGTH_BYTES
  {
    if ms != [] { assert ms[0] in ms; }
  }
}

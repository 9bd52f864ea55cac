/** The closed MIDI track subset as timed messages, and its byte code. */
module MidiMessages {
  import opened Wrappers
  import opened Bits
  import opened Vlq
  import opened NotePairing

  datatype Message =
    | Tempo(microseconds: nat)
    | Program(number: byte)
    | Sound(on: bool, pitch: byte, velocity: byte)
    | EndOfTrack

  datatype Timed = Timed(delta: nat, message: Message)

  /** Every delta has a quantity, and a tempo has three bytes. */
  predicate Representable(t: Timed) {
    t.delta < VLQ_LIMIT && (t.message.Tempo? ==> t.message.microseconds < 0x100_0000)
  }

  function MessageBytes(m: Message): seq<byte>
    requires m.Tempo? ==> m.microseconds < 0x100_0000
  {
    match m
    case Tempo(value) => [0xff, 0x51, 3, value / 0x1_0000, value / 0x100 % 0x100, value % 0x100]
    case Program(number) => [0xc0, number]
    case Sound(on, pitch, velocity) => [if on then 0x90 else 0x80, pitch, velocity]
    case EndOfTrack => [0xff, 0x2f, 0]
  }

  function TimedBytes(t: Timed): seq<byte>
    requires Representable(t)
  {
    Quantity(t.delta) + MessageBytes(t.message)
  }

  predicate AllRepresentable(messages: seq<Timed>) {
    forall i :: 0 <= i < |messages| ==> Representable(messages[i])
  }

  function TrackBytes(messages: seq<Timed>): seq<byte>
    requires AllRepresentable(messages)
  {
    if messages == [] then [] else TimedBytes(messages[0]) + TrackBytes(messages[1..])
  }

  lemma {:induction false} TrackBytesJoin(front: seq<Timed>, back: seq<Timed>)
    requires AllRepresentable(front) && AllRepresentable(back)
    ensures AllRepresentable(front + back)
    ensures TrackBytes(front + back) == TrackBytes(front) + TrackBytes(back)
    decreases |front|
  {
    hide TimedBytes, Representable;
    if front == [] {
      assert front + back == back;
    } else {
      assert (front + back)[1..] == front[1..] + back;
      TrackBytesJoin(front[1..], back);
    }
  }

  // -------------------------------------------------------------------- decoding

  datatype Read<T> = Read(value: T, size: nat)

  /** A message at the front of the bytes. A meta event's length is itself a quantity. */
  function NextMessage(bytes: seq<byte>): Option<Read<Message>> {
    if bytes == [] then None
    else if bytes[0] == 0xff then
      if |bytes| < 2 then None
      else
        var length := Decode(bytes[2..]);
        if length.None? then None
        else
          var start, size := 2 + length.value.size, length.value.value;
          if start + size > |bytes| then None
          else if bytes[1] == 0x51 then
            if size != 3 then None
            else
              var b0: int, b1: int, b2: int := bytes[start], bytes[start + 1], bytes[start + 2];
              Some(Read(Tempo(0x1_0000 * b0 + 0x100 * b1 + b2), start + size))
          else if bytes[1] == 0x2f && size == 0 then Some(Read(EndOfTrack, start + size))
          else None
    else if bytes[0] == 0xc0 then
      if |bytes| < 2 then None else Some(Read(Program(bytes[1]), 2))
    else if bytes[0] in {0x80, 0x90} && |bytes| >= 3 then
      Some(Read(Sound(bytes[0] == 0x90, bytes[1], bytes[2]), 3))
    else None
  }

  function NextTimed(bytes: seq<byte>): Option<Read<Timed>> {
    var delta := Decode(bytes);
    if delta.None? || delta.value.size > |bytes| then None
    else
      var message := NextMessage(bytes[delta.value.size..]);
      if message.None? then None
      else Some(Read(Timed(delta.value.value, message.value.value), delta.value.size + message.value.size))
  }

  lemma SmallQuantities()
    ensures Quantity(0) == [0] && Quantity(3) == [3]
  {
    QuantityShape(0);
    QuantityShape(3);
  }

  lemma NextMessageOfBytes(m: Message, rest: seq<byte>)
    requires m.Tempo? ==> m.microseconds < 0x100_0000
    ensures NextMessage(MessageBytes(m) + rest) == Some(Read(m, |MessageBytes(m)|))
  {
    hide Decode, Quantity;
    var bytes := MessageBytes(m) + rest;
    SmallQuantities();
    match m
    case Tempo(value) =>
      assert bytes[2..] == Quantity(3) + bytes[3..];
      DecodeOfQuantity(3, bytes[3..]);
    case EndOfTrack =>
      assert bytes[2..] == Quantity(0) + rest;
      DecodeOfQuantity(0, rest);
    case _ =>
  }

  lemma BytesOfNextMessage(bytes: seq<byte>)
    requires NextMessage(bytes).Some?
    ensures var Read(m, size) := NextMessage(bytes).value;
      && (m.Tempo? ==> m.microseconds < 0x100_0000)
      && size == |MessageBytes(m)| <= |bytes|
      && bytes[..size] == MessageBytes(m)
  {
    hide Decode, Quantity;
    if bytes[0] == 0xff {
      LengthByte(bytes[2..]);
      if bytes[1] == 0x51 {
        ThreeBytes(bytes[3], bytes[4], bytes[5]);
      }
    }
  }

  lemma ThreeBytes(b0: byte, b1: byte, b2: byte)
    ensures var value := 0x1_0000 * (b0 as int) + 0x100 * (b1 as int) + b2 as int;
      value / 0x1_0000 == b0 && value / 0x100 % 0x100 == b1 && value % 0x100 == b2
  {
  }

  /** The two meta lengths in use take one byte. */
  lemma LengthByte(bytes: seq<byte>)
    requires Decode(bytes).Some? && Decode(bytes).value.value in {0, 3}
    ensures bytes != [] && Decode(bytes).value == Decoded(bytes[0], 1)
  {
    hide Decode, Quantity;
    SmallQuantities();
    QuantityOfDecode(bytes);
    assert bytes[..1] == [bytes[0]];
  }

  /** The code is self-delimiting: a timed message is read at the front of the bytes
      exactly when its bytes are that front. */
  lemma TimedCode(bytes: seq<byte>, t: Timed, size: nat)
    ensures NextTimed(bytes) == Some(Read(t, size)) <==>
      Representable(t) && size == |TimedBytes(t)| <= |bytes| && bytes[..size] == TimedBytes(t)
  {
    hide Decode, Quantity, NextMessage, MessageBytes;
    if NextTimed(bytes) == Some(Read(t, size)) {
      QuantityOfDecode(bytes);
      var n := Decode(bytes).value.size;
      BytesOfNextMessage(bytes[n..]);
      assert bytes[..size] == bytes[..n] + bytes[n..][..size - n];
    }
    if Representable(t) && size == |TimedBytes(t)| <= |bytes| && bytes[..size] == TimedBytes(t) {
      var rest := bytes[size..];
      assert bytes == Quantity(t.delta) + (MessageBytes(t.message) + rest);
      DecodeOfQuantity(t.delta, MessageBytes(t.message) + rest);
      assert bytes[|Quantity(t.delta)|..] == MessageBytes(t.message) + rest;
      NextMessageOfBytes(t.message, rest);
    }
  }

  /** Reading always moves forward. */
  lemma NextTimedAdvances(bytes: seq<byte>)
    requires NextTimed(bytes).Some?
    ensures 0 < NextTimed(bytes).value.size <= |bytes|
    ensures Representable(NextTimed(bytes).value.value)
    ensures bytes == TimedBytes(NextTimed(bytes).value.value) + bytes[NextTimed(bytes).value.size..]
  {
    hide NextTimed, Decode, Quantity;
    var Read(t, size) := NextTimed(bytes).value;
    TimedCode(bytes, t, size);
    QuantityIsNonempty(t.delta);
  }

  lemma QuantityIsNonempty(value: nat)
    ensures |Quantity(value)| > 0
  {
  }

  /** The first message of a track is read at its front. */
  lemma NextOfTrack(messages: seq<Timed>, rest: seq<byte>)
    requires messages != [] && AllRepresentable(messages)
    ensures NextTimed(TrackBytes(messages) + rest) == Some(Read(messages[0], |TimedBytes(messages[0])|))
    ensures (TrackBytes(messages) + rest)[|TimedBytes(messages[0])|..] == TrackBytes(messages[1..]) + rest
  {
    hide NextTimed, TimedBytes, Representable;
    var head, tail := TimedBytes(messages[0]), TrackBytes(messages[1..]) + rest;
    assert TrackBytes(messages) + rest == head + tail;
    TimedCode(head + tail, messages[0], |head|);
  }

  // --------------------------------------------------------------- absolute ticks

  /** The note events among timed messages, at absolute ticks. */
  function NoteEvents(messages: seq<Timed>, tick: nat): seq<Event>
    decreases |messages|
  {
    if messages == [] then []
    else
      var now := tick + messages[0].delta;
      match messages[0].message
      case Sound(on, pitch, velocity) => [Event(now, on, pitch, velocity)] + NoteEvents(messages[1..], now)
      case _ => NoteEvents(messages[1..], now)
  }

  predicate InBytes(e: Event) {
    e.pitch < 0x100 && e.velocity < 0x100
  }

  predicate FollowTicks(events: seq<Event>, tick: nat) {
    && (forall i :: 0 <= i < |events| ==> InBytes(events[i]) && tick <= events[i].tick)
    && TicksOrdered(events)
  }

  /** Events written as deltas from the tick before. */
  function Deltas(events: seq<Event>, tick: nat): (messages: seq<Timed>)
    requires FollowTicks(events, tick)
    ensures |messages| == |events|
    decreases |events|
  {
    if events == [] then []
    else
      var e := events[0];
      [Timed(e.tick - tick, Sound(e.on, e.pitch, e.velocity))] + Deltas(events[1..], e.tick)
  }

  /** Every gap between neighbouring events has a quantity. */
  predicate SmallGaps(events: seq<Event>, tick: nat)
    decreases |events|
  {
    events == [] || (events[0].tick - tick < VLQ_LIMIT && SmallGaps(events[1..], events[0].tick))
  }

  lemma {:induction false} SmallGapsBelow(events: seq<Event>, tick: nat, bound: nat)
    requires bound <= VLQ_LIMIT
    requires forall i :: 0 <= i < |events| ==> events[i].tick < bound
    ensures SmallGaps(events, tick)
    decreases |events|
  {
    if events != [] {
      SmallGapsBelow(events[1..], events[0].tick, bound);
    }
  }

  lemma {:induction false} DeltasRepresentable(events: seq<Event>, tick: nat)
    requires FollowTicks(events, tick) && SmallGaps(events, tick)
    ensures AllRepresentable(Deltas(events, tick))
    decreases |events|
  {
    if events != [] {
      DeltasRepresentable(events[1..], events[0].tick);
    }
  }

  lemma {:induction false} NoteEventsFollow(messages: seq<Timed>, tick: nat)
    ensures FollowTicks(NoteEvents(messages, tick), tick)
    decreases |messages|
  {
    if messages != [] {
      var now := tick + messages[0].delta;
      NoteEventsFollow(messages[1..], now);
      match messages[0].message
      case Sound(on, pitch, velocity) =>
        FollowOneMore(Event(now, on, pitch, velocity), NoteEvents(messages[1..], now), tick);
      case _ =>
    }
  }

  lemma FollowOneMore(e: Event, rest: seq<Event>, tick: nat)
    requires FollowTicks(rest, e.tick) && InBytes(e) && tick <= e.tick
    ensures FollowTicks([e] + rest, tick)
  {
    var events := [e] + rest;
    forall i | 0 <= i < |events| ensures InBytes(events[i]) && e.tick <= events[i].tick {
      if i > 0 {
        assert events[i] == rest[i - 1];
      }
    }
    forall i, j | 0 <= i < j < |events| ensures events[i].tick <= events[j].tick {
      if i > 0 {
        assert events[i] == rest[i - 1] && events[j] == rest[j - 1];
      }
    }
  }
}

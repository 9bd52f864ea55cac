/** MIDI variable-length quantities: the writer of src/audio_midi/midi.rs and the
    decoder that both readers share. */
module Vlq {
  import opened Wrappers
  import opened Bits

  const VLQ_LIMIT := 0x1000_0000

  /** Seven-bit groups above the last one, each marked as continued. */
  function Continued(value: nat): seq<byte> {
    if value == 0 then [] else Continued(value / 128) + [value % 128 + 128]
  }

  /** The shortest quantity for a value. */
  function Quantity(value: nat): seq<byte> {
    Continued(value / 128) + [value % 128]
  }

  datatype Decoded = Decoded(value: nat, size: nat)

  /** The decoder's state after `size` continued groups worth `value`. */
  function DecodeFrom(bytes: seq<byte>, size: nat, value: nat): Option<Decoded>
    requires size <= 4
    decreases 4 - size
  {
    if size == 4 || size >= |bytes| then None
    else
      var b := bytes[size];
      if size == 0 && b == 0x80 then None
      else
        var next := value * 128 + b % 128;
        if b < 0x80 then Some(Decoded(next, size + 1)) else DecodeFrom(bytes, size + 1, next)
  }

  /** A quantity at the front of the bytes: its value and how many bytes it takes. */
  function Decode(bytes: seq<byte>): Option<Decoded> {
    DecodeFrom(bytes, 0, 0)
  }

  /** `write_vlq`: groups are placed from the back of a four-byte buffer. */
  method WriteVlq(number: nat, output: seq<byte>) returns (extended: seq<byte>)
    requires number < VLQ_LIMIT
    ensures extended == output + Quantity(number)
  {
    var buffer := new byte[4](_ => 0);
    var index: int := 3;
    var value: nat := number;
    buffer[index] := value % 128;
    value := value / 128;
    while value != 0
      invariant 0 <= index <= 3
      invariant value <
        if index == 3 then 0x20_0000 else if index == 2 then 0x4000 else if index == 1 then 0x80 else 1
      invariant Continued(value) + buffer[index..] == Quantity(number)
      decreases index
    {
      index := index - 1;
      buffer[index] := value % 128 + 128;
      assert buffer[index..] == [buffer[index]] + buffer[index + 1..];
      value := value / 128;
    }
    assert Continued(value) == [];
    extended := output + buffer[index..];
  }

  /** `read_vlq` and `variable_length`: advance a cursor over one quantity. */
  method ReadVlq(bytes: seq<byte>, cursor: nat) returns (value: nat, next: nat, ok: bool)
    requires cursor <= |bytes|
    ensures ok <==> Decode(bytes[cursor..]).Some?
    ensures ok ==> cursor < next <= |bytes| && Decode(bytes[cursor..]) == Some(Decoded(value, next - cursor))
  {
    ghost var rest := bytes[cursor..];
    value, next, ok := 0, cursor, false;
    for index := 0 to 4
      invariant next == cursor + index <= |bytes|
      invariant Decode(rest) == DecodeFrom(rest, index, value)
    {
      if next >= |bytes| {
        return;
      }
      var b := bytes[next];
      next := next + 1;
      if index == 0 && b == 0x80 {
        return;
      }
      value := value * 128 + b % 128;
      if b < 0x80 {
        ok := true;
        return;
      }
    }
  }

  // ------------------------------------------------------------------- bijection

  /** The four shapes of a quantity below the limit. */
  lemma QuantityShape(value: nat)
    requires value < VLQ_LIMIT
    ensures Quantity(value) ==
      if value < 0x80 then [value]
      else if value < 0x4000 then [value / 0x80 + 128, value % 128]
      else if value < 0x20_0000 then [value / 0x4000 + 128, value / 0x80 % 128 + 128, value % 128]
      else [value / 0x20_0000 + 128, value / 0x4000 % 128 + 128, value / 0x80 % 128 + 128, value % 128]
  {
    var v1, v2, v3 := value / 128, value / 128 / 128, value / 128 / 128 / 128;
    assert v2 == value / 0x4000 && v3 == value / 0x20_0000;
    assert Continued(v3 / 128) == [];
    assert Continued(v3) == if v3 == 0 then [] else [v3 % 128 + 128];
    assert Continued(v2) == if v2 == 0 then [] else Continued(v3) + [v2 % 128 + 128];
    assert Continued(v1) == if v1 == 0 then [] else Continued(v2) + [v1 % 128 + 128];
  }

  /** One turn of the decoder's loop. */
  lemma DecodeTurn(bytes: seq<byte>, size: nat, value: nat)
    requires size < 4 && size < |bytes|
    requires size == 0 ==> bytes[0] != 0x80
    ensures bytes[size] < 0x80 ==>
      DecodeFrom(bytes, size, value) == Some(Decoded(value * 128 + bytes[size], size + 1))
    ensures bytes[size] >= 0x80 ==>
      DecodeFrom(bytes, size, value) == DecodeFrom(bytes, size + 1, value * 128 + (bytes[size] - 128))
  {
  }

  lemma TopGroup(value: nat)
    ensures value == value / 128 * 128 + value % 128
    ensures value / 0x4000 == value / 0x80 / 128 && value / 0x20_0000 == value / 0x4000 / 128
  {
  }

  /** Decoding inverts encoding, whatever follows. */
  lemma DecodeOfQuantity(value: nat, rest: seq<byte>)
    requires value < VLQ_LIMIT
    ensures 1 <= |Quantity(value)| <= 4
    ensures Decode(Quantity(value) + rest) == Some(Decoded(value, |Quantity(value)|))
  {
    hide DecodeFrom, Quantity;
    QuantityShape(value);
    var bytes := Quantity(value) + rest;
    var low, middle, high := value / 0x80, value / 0x4000, value / 0x20_0000;
    TopGroup(value);
    TopGroup(low);
    TopGroup(middle);
    DecodeTurn(bytes, 0, 0);
    if value >= 0x80 {
      var top := if value < 0x4000 then low else if value < 0x20_0000 then middle else high;
      DecodeTurn(bytes, 1, top);
      if value >= 0x4000 {
        var next := if value < 0x20_0000 then low else middle;
        assert top * 128 + (bytes[1] - 128) == next;
        DecodeTurn(bytes, 2, next);
        if value >= 0x20_0000 {
          assert next * 128 + (bytes[2] - 128) == low;
          DecodeTurn(bytes, 3, low);
        }
      }
    }
  }

  lemma GroupAppends(value: nat, group: nat)
    requires group < 128
    ensures value > 0 || group > 0 ==> Continued(value * 128 + group) == Continued(value) + [group + 128]
    ensures Quantity(value * 128 + group) == Continued(value) + [group]
  {
    assert (value * 128 + group) / 128 == value;
  }

  /** What the decoder has read so far are the continued groups of its value. */
  lemma {:induction false} DecodeReadsQuantity(bytes: seq<byte>, size: nat, value: nat)
    requires size <= 4 && size <= |bytes| && bytes[..size] == Continued(value)
    requires value < (match size case 0 => 1 case 1 => 0x80 case 2 => 0x4000 case 3 => 0x20_0000 case _ => VLQ_LIMIT)
    requires size > 0 ==> value > 0
    requires DecodeFrom(bytes, size, value).Some?
    ensures var d := DecodeFrom(bytes, size, value).value;
      d.value < VLQ_LIMIT && d.size == |Quantity(d.value)| <= |bytes| && bytes[..d.size] == Quantity(d.value)
    decreases 4 - size
  {
    hide Continued, Quantity;
    var group := bytes[size] % 128;
    GroupAppends(value, group);
    assert bytes[..size + 1] == bytes[..size] + [bytes[size]];
    if bytes[size] >= 0x80 {
      DecodeReadsQuantity(bytes, size + 1, value * 128 + group);
    }
  }

  /** Whatever decodes is the shortest quantity of its value. */
  lemma QuantityOfDecode(bytes: seq<byte>)
    requires Decode(bytes).Some?
    ensures var d := Decode(bytes).value;
      d.value < VLQ_LIMIT && d.size == |Quantity(d.value)| <= |bytes| && bytes[..d.size] == Quantity(d.value)
  {
    DecodeReadsQuantity(bytes, 0, 0);
  }

  /** The decoder is a bijection between the quantities it accepts and [0, 2^28). */
  lemma DecodeIsBijective(bytes: seq<byte>, value: nat, size: nat)
    ensures Decode(bytes) == Some(Decoded(value, size)) <==>
      value < VLQ_LIMIT && size == |Quantity(value)| <= |bytes| && bytes[..size] == Quantity(value)
  {
    if Decode(bytes) == Some(Decoded(value, size)) {
      QuantityOfDecode(bytes);
    }
    if value < VLQ_LIMIT && size == |Quantity(value)| <= |bytes| && bytes[..size] == Quantity(value) {
      DecodeOfQuantity(value, bytes[size..]);
      assert bytes == bytes[..size] + bytes[size..];
    }
  }

  /** Two values never share an encoding. */
  lemma QuantityIsInjective(left: nat, right: nat)
    requires left < VLQ_LIMIT && right < VLQ_LIMIT && Quantity(left) == Quantity(right)
    ensures left == right
  {
    DecodeOfQuantity(left, []);
    DecodeOfQuantity(right, []);
  }
}

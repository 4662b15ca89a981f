/** The encoder of cborencoder.c: it writes into a fixed buffer and, once that has overflowed, only counts. */
module CborEncoder {
  import opened Wrappers
  import opened ByteSeqs
  import opened CborFormat
  import opened CborGrammar
  import opened CborEncoding

  const SIZE_MAX: nat := 0xffff_ffff_ffff_ffff
  const INDEFINITE_LENGTH: nat := SIZE_MAX

  type size_t = x: int | 0 <= x <= SIZE_MAX

  lemma {:induction false} LowOrderBytes(v: nat, n: nat, m: nat)
    requires n <= m
    ensures ToBigEndian(v, m)[m - n..] == ToBigEndian(v, n)
  {
    if n > 0 {
      LowOrderBytes(v / 256, n - 1, m - 1);
      var s := ToBigEndian(v / 256, m - 1);
      assert (s + [v % 256])[m - n..] == s[m - n..] + [v % 256];
    }
  }

  /** Lays out the head of an item: the number is written big-endian at the end of the array, and the initial
      byte goes right before the bytes of it that are needed, or into the last one. */
  method LayOutHead(ui: nat, major: nat) returns (buf: array<byte>, bufstart: nat)
    requires ui < UINT64_LIMIT && major < 8
    ensures fresh(buf) && bufstart <= buf.Length && buf[bufstart..] == HeadBytes(major, ui)
  {
    hide ToBigEndian;
    hide HeadBytes;
    hide ShortestInfo;
    hide ArgBytes;
    hide Power2;
    HeadParts(ui, major);
    buf := new byte[16](_ => 0);
    Put64(buf, ui);
    bufstart := 15;
    if ui < VALUE_8_BIT {
      LastByte(ui);
      assert buf[15] == buf[8..][7] == ui;
      buf[bufstart] := buf[bufstart] + major * 32;
      assert buf[bufstart..] == [major * 32 + ui];
    } else {
      var more := SizeBits(ui);
      LowOrderBytes(ui, Power2(more), 8);
      bufstart := bufstart - Power2(more);
      assert buf[bufstart + 1..] == buf[8..][8 - Power2(more)..];
      buf[bufstart] := major * 32 + VALUE_8_BIT + more;
      assert buf[bufstart..] == [buf[bufstart]] + buf[bufstart + 1..];
    }
  }

  lemma HeadParts(ui: nat, major: nat)
    requires ui < UINT64_LIMIT && major < 8
    ensures var info := ShortestInfo(ui);
            && HeadBytes(major, ui) == [major * 32 + info] + ToBigEndian(ui, ArgBytes(info))
            && (ui < VALUE_8_BIT ==> HeadBytes(major, ui) == [major * 32 + ui])
  {
    hide ToBigEndian;
  }

  /** The base-2 logarithm of how many bytes a number needs. */
  method SizeBits(ui: nat) returns (more: nat)
    requires VALUE_8_BIT <= ui < UINT64_LIMIT
    ensures VALUE_8_BIT + more == ShortestInfo(ui) && Power2(more) == ArgBytes(ShortestInfo(ui)) <= 8
  {
    more := 0;
    if ui > 0xff { more := more + 1; }
    if ui > 0xffff { more := more + 1; }
    if ui > 0xffff_ffff { more := more + 1; }
  }

  lemma LastByte(v: nat)
    requires v < 256
    ensures ToBigEndian(v, 8)[7] == v && ToBigEndian(v, 0) == []
  {
  }

  /** Stores a number big-endian in the second half of the array. */
  method Put64(buf: array<byte>, v: nat)
    requires buf.Length == 16
    modifies buf
    ensures buf[8..] == ToBigEndian(v, 8) && buf[..8] == old(buf[..8])
  {
    var number := ToBigEndian(v, 8);
    forall i | 0 <= i < 8 { buf[8 + i] := number[i]; }
  }

  /** Only the length that stands for an indefinite one wraps around. */
  lemma CounterDoesNotWrap(length: size_t)
    ensures length != INDEFINITE_LENGTH ==> (length + 1) % (SIZE_MAX + 1) == length + 1
  {
  }

  lemma StringIs(text: bool, data: seq<byte>)
    requires |data| < UINT64_LIMIT
    ensures Encodable(Str(text, data))
    ensures Encode(Str(text, data)) == HeadBytes(if text then TEXT_STRING else BYTE_STRING, |data|) + data
  {
  }

  lemma NegativeIs(absoluteValue: nat)
    requires absoluteValue < UINT64_LIMIT
    ensures var x := IntegerOf(0 - (if absoluteValue == 0 then UINT64_LIMIT else absoluteValue));
            Encodable(x) && Encode(x) == HeadBytes(NEGATIVE, (absoluteValue - 1) % UINT64_LIMIT)
  {
    hide HeadBytes;
  }

  /** Complementing the bits of a negative number gives the argument of its encoding. */
  lemma ComplementIs(value: int)
    requires -0x8000_0000_0000_0000 <= value < 0x8000_0000_0000_0000
    ensures Encodable(IntegerOf(value))
    ensures Encode(IntegerOf(value)) ==
            if value < 0 then HeadBytes(NEGATIVE, UINT64_LIMIT - 1 - value % UINT64_LIMIT)
            else HeadBytes(UNSIGNED, value)
  {
    hide HeadBytes;
    if value < 0 { assert value % UINT64_LIMIT == value + UINT64_LIMIT; }
  }

  /** A buffer before and after: of its first `to` bytes those from `from` on have been written, and no others. */
  ghost predicate Grown(before: seq<byte>, from: nat, after: seq<byte>, to: nat) {
    && from <= to <= |before| == |after|
    && after[..from] == before[..from] && after[to..] == before[to..]
  }

  lemma GrownTwice(before: seq<byte>, from: nat, between: seq<byte>, mid: nat, after: seq<byte>, to: nat)
    requires Grown(before, from, between, mid) && Grown(between, mid, after, to)
    ensures Grown(before, from, after, to)
  {
    assert after[..from] == after[..mid][..from] == between[..mid][..from];
    assert between[to..] == between[mid..][to - mid..] == before[mid..][to - mid..];
  }

  lemma NothingGrown(b: seq<byte>, n: nat)
    requires n <= |b|
    ensures Grown(b, n, b, n)
  {
  }

  class CborEncoder {
    var buffer: array<byte>
    var data: nat            // where to write next; once `end` is NULL, how many bytes are lacking
    var end: Option<nat>     // one past the last byte of the buffer; None is NULL
    var remaining: size_t    // one more than the items still expected, down to 0
    var containerIsMap: bool
    var unknownLength: bool

    ghost var capacity: nat    // the size of the buffer
    ghost var log: seq<byte>   // all bytes appended, also those that did not fit
    ghost var written: nat     // how many bytes of the log are in the buffer
    ghost var items: nat       // items appended
    ghost var expected: nat    // items announced

    ghost predicate Valid()
      reads this, buffer
    {
      && written <= capacity <= buffer.Length && written <= |log|
      && buffer[..written] == log[..written]
      && (match end
          case Some(e) => e == capacity && data == written == |log|
          case None => |log| == capacity + data && (data == 0 ==> capacity == 0))
      && Counts()
    }

    /** The saturating counter: one more than the items still expected, 0 once there are too many. */
    ghost predicate Counts()
      reads this
    {
      !unknownLength ==> remaining == if items <= expected then expected + 1 - items else 0
    }

    /** Everything that was appended is in the buffer. */
    ghost predicate Fits()
      reads this
    {
      |log| <= capacity
    }

    constructor (buffer: array<byte>)
      ensures Valid() && this.buffer == buffer && capacity == buffer.Length
      ensures log == [] && items == 0 && expected == 1 && !unknownLength
    {
      this.buffer, data, end, remaining := buffer, 0, Some(buffer.Length), 2;
      containerIsMap, unknownLength := false, false;
      capacity, log, written, items, expected := buffer.Length, [], 0, 0, 1;
    }

    /** An encoder over the NULL buffer of size 0, which only measures. */
    constructor Measure()
      ensures Valid() && fresh(buffer) && capacity == 0
      ensures log == [] && items == 0 && expected == 1 && !unknownLength
    {
      buffer := new byte[0];
      data, end, remaining := 0, None, 2;
      containerIsMap, unknownLength := false, false;
      capacity, log, written, items, expected := 0, [], 0, 0, 1;
    }

    method GetBufferSize() returns (size: nat)
      requires Valid() && Fits()
      ensures size == |log|
    {
      size := data;
    }

    /** How much larger the buffer would have to be. */
    method GetExtraBytesNeeded() returns (extra: nat)
      requires Valid()
      ensures extra == if Fits() then 0 else |log| - capacity
    {
      extra := if end.Some? then 0 else data;
    }

    method AppendToBuffer(bytes: seq<byte>) returns (err: CborError)
      requires Valid()
      modifies this`data, this`end, this`log, this`written, buffer
      ensures Valid() && log == old(log) + bytes
      ensures err == if Fits() then NoError else OutOfMemory
      ensures Grown(old(buffer[..]), old(written), buffer[..], written)
      ensures Fits() ==> written == |log|
      ensures !Fits() ==> written == old(written) && buffer[..] == old(buffer[..])
    {
      var len := |bytes|;
      var room: int := (if end.Some? then end.value else 0) - data;
      log := log + bytes;
      if room - len < 0 {
        if end.Some? {
          len := len - (end.value - data);
          end := None;
          data := 0;
        }
        data := data + len;
        assert log[..written] == old(log)[..written];
        return OutOfMemory;
      }
      forall i | 0 <= i < len { buffer[data + i] := bytes[i]; }
      assert buffer[..data + len] == old(buffer[..data]) + bytes;
      assert len > 0 ==> log[..data + len] == log;
      data := data + len;
      written := written + len;
      err := NoError;
    }

    /** The same encoder over the same buffer. */
    twostate predicate Kept()
      reads this
    {
      && buffer == old(buffer) && capacity == old(capacity) && expected == old(expected)
      && containerIsMap == old(containerIsMap) && unknownLength == old(unknownLength)
    }

    /** An append: these bytes follow those appended before, and an item has been counted or not. */
    twostate predicate Appended(bytes: seq<byte>, count: nat, err: CborError)
      reads this, buffer
    {
      && Valid() && Kept() && log == old(log) + bytes && items == old(items) + count
      && (err == if Fits() then NoError else OutOfMemory)
      && Grown(old(buffer[..]), old(written), buffer[..], written) && (Fits() ==> written == |log|)
    }

    method EncodeNumberNoUpdate(ui: nat, major: nat) returns (err: CborError)
      requires Valid() && ui < UINT64_LIMIT && major < 8
      modifies this, buffer
      ensures Appended(HeadBytes(major, ui), 0, err)
    {
      var buf, bufstart := LayOutHead(ui, major);
      err := AppendToBuffer(buf[bufstart..]);
    }

    method SaturatedDecrement()
      requires Valid()
      modifies this`remaining, this`items
      ensures Valid() && items == old(items) + 1
      ensures remaining == if old(remaining) > 0 then old(remaining) - 1 else 0
    {
      if remaining > 0 {
        remaining := remaining - 1;
      }
      items := items + 1;
    }

    method EncodeNumber(ui: nat, major: nat) returns (err: CborError)
      requires Valid() && ui < UINT64_LIMIT && major < 8
      modifies this, buffer
      ensures Appended(HeadBytes(major, ui), 1, err)
    {
      SaturatedDecrement();
      err := EncodeNumberNoUpdate(ui, major);
    }

    method EncodeUint(value: nat) returns (err: CborError)
      requires Valid() && value < UINT64_LIMIT
      modifies this, buffer
      ensures Appended(Encode(Integer(false, value)), 1, err)
    {
      err := EncodeNumber(value, UNSIGNED);
    }

    /** Appends the negative integer of this absolute value; 0 stands for 2^64. */
    method EncodeNegativeInt(absoluteValue: nat) returns (err: CborError)
      requires Valid() && absoluteValue < UINT64_LIMIT
      modifies this, buffer
      ensures Appended(Encode(IntegerOf(0 - (if absoluteValue == 0 then UINT64_LIMIT else absoluteValue))), 1, err)
    {
      hide Encode;
      hide HeadBytes;
      hide IntegerOf;
      NegativeIs(absoluteValue);
      err := EncodeNumber((absoluteValue - 1) % UINT64_LIMIT, NEGATIVE);
    }

    /** Appends a 64-bit signed integer: the sign selects the major type and complements the bits. */
    method EncodeInt(value: int) returns (err: CborError)
      requires Valid() && -0x8000_0000_0000_0000 <= value < 0x8000_0000_0000_0000
      modifies this, buffer
      ensures Appended(Encode(IntegerOf(value)), 1, err)
    {
      hide Encode;
      hide HeadBytes;
      hide IntegerOf;
      ComplementIs(value);
      var signs := if value < 0 then UINT64_LIMIT - 1 else 0;
      var major := if signs > 0 then NEGATIVE else UNSIGNED;
      var ui := if signs > 0 then signs - value % UINT64_LIMIT else value;
      err := EncodeNumber(ui, major);
    }

    method EncodeSimpleValue(value: byte) returns (err: CborError)
      requires Valid()
      modifies this, buffer
      ensures VALUE_16_BIT <= value <= INDEFINITE ==>
                err == IllegalSimpleType && Appended([], 0, if Fits() then NoError else OutOfMemory)
      ensures !(VALUE_16_BIT <= value <= INDEFINITE) ==> Appended(HeadBytes(SIMPLE, value), 1, err)
    {
      if VALUE_16_BIT <= value <= INDEFINITE {
        assert log == log + [];
        return IllegalSimpleType;
      }
      err := EncodeNumber(value, SIMPLE);
    }

    /** Appends the bits of a half, single or double precision number. */
    method EncodeFloatingPoint(info: nat, bits: nat) returns (err: CborError)
      requires Valid() && Encodable(Float(info, bits))
      modifies this, buffer
      ensures Appended(Encode(Float(info, bits)), 1, err)
    {
      var buf := [SIMPLE * 32 + info] + ToBigEndian(bits, ArgBytes(info));
      SaturatedDecrement();
      err := AppendToBuffer(buf);
    }

    /** A tag does not count as an item. */
    method EncodeTag(tag: nat) returns (err: CborError)
      requires Valid() && tag < UINT64_LIMIT
      modifies this, buffer
      ensures Appended(HeadBytes(TAG, tag), 0, err)
    {
      err := EncodeNumberNoUpdate(tag, TAG);
    }

    /** Appends a string; an overflow by its head does not keep its content from being counted. */
    method EncodeString(text: bool, data: seq<byte>) returns (err: CborError)
      requires Valid() && |data| < UINT64_LIMIT
      modifies this, buffer
      ensures Appended(Encode(Str(text, data)), 1, err)
    {
      hide Encode;
      hide HeadBytes;
      hide Valid;
      hide Grown;
      ghost var before, from := buffer[..], written;
      var major := if text then TEXT_STRING else BYTE_STRING;
      StringIs(text, data);
      err := EncodeNumber(|data|, major);
      ghost var between, mid := buffer[..], written;
      assert log + data == old(log) + (HeadBytes(major, |data|) + data);
      err := AppendToBuffer(data);
      GrownTwice(before, from, between, mid, buffer[..], written);
    }

    /** Opens an array or map of `length` items or pairs; what is appended to `container` goes into it. */
    method CreateContainer(container: CborEncoder, length: size_t, isMap: bool) returns (err: CborError)
      requires Valid() && container != this
      requires isMap && length != INDEFINITE_LENGTH ==> length <= SIZE_MAX / 2
      modifies this`remaining, this`items, container, buffer
      ensures container.Valid() && items == old(items) + 1
      ensures container.buffer == buffer && container.capacity == capacity
      ensures container.log == log + Opening(if isMap then MAP else ARRAY, length == INDEFINITE_LENGTH, length)
      ensures container.unknownLength == (length == INDEFINITE_LENGTH) && container.containerIsMap == isMap
      ensures container.items == 0
      ensures length != INDEFINITE_LENGTH ==> container.expected == if isMap then 2 * length else length
      ensures err == if container.Fits() then NoError else OutOfMemory
      ensures Grown(old(buffer[..]), written, buffer[..], container.written)
      ensures Counts()
    {
      hide HeadBytes;
      hide Grown;
      container.TakeOver(this, length, isMap);
      SaturatedDecrement();
      var major := if isMap then MAP else ARRAY;
      if container.unknownLength {
        err := container.AppendToBuffer([major * 32 + INDEFINITE]);
      } else {
        err := container.EncodeNumberNoUpdate(length, major);
      }
    }

    /** Continues where another encoder is, for the content of a new container. */
    method TakeOver(encoder: CborEncoder, length: size_t, isMap: bool)
      requires encoder.Valid() && encoder != this
      requires isMap && length != INDEFINITE_LENGTH ==> length <= SIZE_MAX / 2
      modifies this
      ensures Valid() && buffer == encoder.buffer && capacity == encoder.capacity && log == encoder.log
      ensures written == encoder.written
      ensures unknownLength == (length == INDEFINITE_LENGTH) && containerIsMap == isMap && items == 0
      ensures length != INDEFINITE_LENGTH ==> expected == if isMap then 2 * length else length
    {
      buffer, data, end := encoder.buffer, encoder.data, encoder.end;
      capacity, log, written := encoder.capacity, encoder.log, encoder.written;
      CounterDoesNotWrap(length);
      remaining := (length + 1) % (SIZE_MAX + 1);
      containerIsMap := isMap;
      unknownLength := length == INDEFINITE_LENGTH;
      if !unknownLength && isMap {
        remaining := remaining + length;
      }
      items := 0;
      expected := if isMap then 2 * length else length;
    }

    method CreateArray(container: CborEncoder, length: size_t) returns (err: CborError)
      requires Valid() && container != this
      modifies this`remaining, this`items, container, buffer
      ensures container.Valid() && items == old(items) + 1
      ensures container.buffer == buffer && container.capacity == capacity
      ensures container.log == log + Opening(ARRAY, length == INDEFINITE_LENGTH, length)
      ensures container.unknownLength == (length == INDEFINITE_LENGTH) && !container.containerIsMap
      ensures container.items == 0
      ensures length != INDEFINITE_LENGTH ==> container.expected == length
      ensures err == if container.Fits() then NoError else OutOfMemory
      ensures Grown(old(buffer[..]), written, buffer[..], container.written)
      ensures Counts()
    {
      hide Grown;
      err := CreateContainer(container, length, false);
    }

    method CreateMap(container: CborEncoder, length: size_t) returns (err: CborError)
      requires Valid() && container != this
      modifies this`remaining, this`items, container, buffer
      ensures err == DataTooLarge <==> length != INDEFINITE_LENGTH && length > SIZE_MAX / 2
      ensures err == DataTooLarge ==> Valid() && items == old(items) && buffer[..] == old(buffer[..])
      ensures err != DataTooLarge ==>
                && container.Valid() && items == old(items) + 1
                && container.buffer == buffer && container.capacity == capacity
                && container.log == log + Opening(MAP, length == INDEFINITE_LENGTH, length)
                && container.unknownLength == (length == INDEFINITE_LENGTH) && container.containerIsMap
                && container.items == 0
                && (length != INDEFINITE_LENGTH ==> container.expected == 2 * length)
                && err == (if container.Fits() then NoError else OutOfMemory)
                && Grown(old(buffer[..]), written, buffer[..], container.written)
                && Counts()
    {
      hide Grown;
      if length != INDEFINITE_LENGTH && length > SIZE_MAX / 2 {
        return DataTooLarge;
      }
      err := CreateContainer(container, length, true);
    }

    /** Closes a container. Without an error, everything fits and, if its length was announced, exactly that many
        items have been appended; otherwise the error says whether there were too many or too few. */
    method CloseContainer(container: CborEncoder) returns (err: CborError)
      requires container.Valid() && |container.log| > 0
      requires container != this && container.buffer == buffer && container.capacity == capacity
      requires Counts()
      modifies this`data, this`end, this`log, this`written, buffer
      ensures Valid()
      ensures log == old(container.log) + Closing(container.unknownLength)
      ensures Grown(old(buffer[..]), old(container.written), buffer[..], written) && (Fits() ==> written == |log|)
      ensures err == TooManyItems <==> !container.unknownLength && container.items > container.expected
      ensures err == TooFewItems <==> !container.unknownLength && container.items < container.expected
      ensures err == NoError <==>
              Fits() && (container.unknownLength || container.items == container.expected)
      ensures err == OutOfMemory <==>
              !Fits() && (container.unknownLength || container.items == container.expected)
    {
      end := container.end;
      data := container.data;
      log, written := container.log, container.written;
      if container.unknownLength {
        err := AppendToBuffer([BREAK]);
        return;
      }
      assert log + [] == log;
      if container.remaining != 1 {
        return if container.remaining == 0 then TooManyItems else TooFewItems;
      }
      if end.None? {
        return OutOfMemory;
      }
      err := NoError;
    }
  }
}

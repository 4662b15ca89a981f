/** Reading out what an iterator points to: the cached numbers, whole strings, and values of maps. */
module CborAccess {
  import opened Wrappers
  import opened ByteSeqs
  import opened CborFormat
  import opened CborGrammar
  import opened CborStrings
  import opened CborIterator
  import opened CborParser

  // ----- numbers: the cache against the slow decode -----

  /** The heads whose argument the 64-bit helper gives: every definite one but booleans and half floats. */
  predicate HasNumber(h: Head) {
    h.info != INDEFINITE && !(h.major == SIMPLE && (h.info == 20 || h.info == 21 || h.info == VALUE_16_BIT))
  }

  /** Decodes a 32- or 64-bit number from the buffer. */
  method DecodeInt64Internal(value: CborValue) returns (v: nat)
    requires value.Ready() && value.flags.integerValueTooLarge
    ensures v == HeadAt(value.buf, value.ptr).value.arg
  {
    if value.buf[value.ptr] % 2 == 0 {
      v := BigEndian(value.buf[value.ptr + 1..value.ptr + 5]);
    } else {
      v := BigEndian(value.buf[value.ptr + 1..value.ptr + 9]);
    }
  }

  /** The cached number is the one that reading the head again would give. */
  method ExtractInt64(value: CborValue) returns (v: nat)
    requires value.Ready() && HasNumber(HeadAt(value.buf, value.ptr).value)
    ensures v == HeadAt(value.buf, value.ptr).value.arg
  {
    if value.flags.integerValueTooLarge {
      v := DecodeInt64Internal(value);
    } else {
      v := value.extra;
    }
  }

  method GetBoolean(value: CborValue) returns (result: bool)
    requires value.Ready() && value.typ == BOOLEAN_TYPE
    ensures Decode(value.buf, value.ptr) == Some((Simple(if result then 21 else 20), value.ptr + 1))
  {
    result := value.extra != 0;
  }

  method GetSimpleType(value: CborValue) returns (result: nat)
    requires value.Ready() && value.typ == SIMPLE_TYPE
    ensures Decode(value.buf, value.ptr).Some? && Decode(value.buf, value.ptr).value.0 == Simple(result)
    ensures result < 20 || 32 <= result < 256
  {
    ShortArguments(value.buf, value.ptr);
    result := value.extra % 256;
  }

  /** The bits of a half, single or double precision number. */
  method GetFloatBits(value: CborValue) returns (bits: nat)
    requires value.Ready() && (value.typ == HALF_FLOAT_TYPE || value.typ == FLOAT_TYPE || value.typ == DOUBLE_TYPE)
    ensures Decode(value.buf, value.ptr).Some?
    ensures Decode(value.buf, value.ptr).value.0 == Float(value.typ - SIMPLE_TYPE, bits)
  {
    if value.typ == HALF_FLOAT_TYPE {
      ShortArguments(value.buf, value.ptr);
      bits := BigEndian(value.buf[value.ptr + 1..value.ptr + 3]);
    } else {
      bits := DecodeInt64Internal(value);
    }
  }

  method GetRawInteger(value: CborValue) returns (result: nat, negative: bool)
    requires value.Ready() && value.typ == INTEGER_TYPE
    ensures Decode(value.buf, value.ptr).Some?
    ensures Decode(value.buf, value.ptr).value.0 == Integer(negative, result)
  {
    result := ExtractInt64(value);
    negative := value.flags.negativeOrIterating;
  }

  /** The integer fits 64 bits, two's complement, or there is an error. */
  method GetInt64Checked(value: CborValue) returns (err: CborError, result: int)
    requires value.Ready() && value.typ == INTEGER_TYPE
    ensures Decode(value.buf, value.ptr).Some? && Decode(value.buf, value.ptr).value.0.Integer?
    ensures var n := IntegerValue(Decode(value.buf, value.ptr).value.0);
            && (err == NoError <==> -0x8000_0000_0000_0000 <= n < 0x8000_0000_0000_0000)
            && (err == NoError ==> result == n)
            && (err != NoError ==> err == DataTooLarge)
  {
    var v := ExtractInt64(value);
    if v > 0x7fff_ffff_ffff_ffff {
      return DataTooLarge, 0;
    }
    result := v;
    if value.flags.negativeOrIterating {
      result := -result - 1;
    }
    err := NoError;
  }

  /** As GetInt64Checked, for a 32-bit int. */
  method GetIntChecked(value: CborValue) returns (err: CborError, result: int)
    requires value.Ready() && value.typ == INTEGER_TYPE
    ensures Decode(value.buf, value.ptr).Some? && Decode(value.buf, value.ptr).value.0.Integer?
    ensures var n := IntegerValue(Decode(value.buf, value.ptr).value.0);
            && (err == NoError <==> -0x8000_0000 <= n < 0x8000_0000)
            && (err == NoError ==> result == n)
            && (err != NoError ==> err == DataTooLarge)
  {
    var v := ExtractInt64(value);
    if value.flags.negativeOrIterating {
      if v > 0x7fff_ffff {
        return DataTooLarge, 0;
      }
      result := v;
      result := -result - 1;
    } else {
      if v > 0x7fff_ffff {
        return DataTooLarge, 0;
      }
      result := v;
    }
    err := NoError;
  }

  method GetTag(value: CborValue) returns (tag: nat)
    requires value.Ready() && value.typ == TAG_TYPE
    ensures TagHeadAt(value.buf, value.ptr) && tag == HeadAt(value.buf, value.ptr).value.arg
  {
    tag := ExtractInt64(value);
  }

  /** The length a string, array or map announces: of the content, in items or in pairs. */
  method GetLength(value: CborValue) returns (err: CborError, length: nat)
    requires value.Ready() && (IsString(value.typ) || IsContainer(value.typ))
    ensures err == UnknownLength <==> HeadAt(value.buf, value.ptr).value.info == INDEFINITE
    ensures err != UnknownLength ==> err == NoError && length == HeadAt(value.buf, value.ptr).value.arg
  {
    if value.flags.unknownLength {
      return UnknownLength, 0;
    }
    length := ExtractInt64(value);
    err := NoError;
  }

  // ----- strings -----

  /** A string item can be read and left behind: its content, then whatever follows it in the container. */
  ghost predicate CanRead(b: seq<byte>, it: Iter) {
    match StringAt(b, it.ptr)
    case None => false
    case Some((_, e)) => CanLand(b, it, e)
  }

  /** The length of a string, chunked or not. */
  method CalculateStringLength(value: CborValue) returns (err: CborError, len: nat)
    requires value.Ready() && IsString(value.typ)
    ensures err == NoError <==> CanRead(value.buf, value.State())
    ensures err == NoError ==> len == |StringAt(value.buf, value.ptr).value.0|
  {
    hide Landed;
    hide CanLand;
    hide StringAt;
    ContentFits(value.buf, value.ptr);
    var next := new CborValue();
    err, len := CopyString(value, Noop, SIZE_MAX, next);
    if StringAt(value.buf, value.ptr).Some? {
      LandingError(value.buf, value.State(), StringAt(value.buf, value.ptr).value.1, err, next.State());
    }
  }

  /** Copies a string to memory of its own, NUL-terminated. What the first pass has measured, the second pass fits:
      the only errors are those of the first pass, and they leave `next` as it was. */
  method DupString(value: CborValue, next: CborValue)
    returns (err: CborError, buffer: array<byte>, buflen: nat)
    requires value.Ready() && IsString(value.typ)
    modifies next
    ensures fresh(buffer)
    ensures err == NoError <==> CanRead(old(value.buf), old(value.State()))
    ensures err == NoError ==>
              var (data, e) := StringAt(old(value.buf), old(value.ptr)).value;
              && buflen == |data| && buffer[..] == data + [0]
              && next.buf == old(value.buf) && next.Valid()
              && Landed(next.buf, old(value.State()), e, err, next.State())
    ensures err != NoError ==> next.State() == old(next.State()) && next.buf == old(next.buf)
  {
    hide Landed;
    hide CanLand;
    hide StringAt;
    buffer := new byte[0];
    err, buflen := CalculateStringLength(value);
    if err != NoError {
      return;
    }
    buflen := buflen + 1;
    buffer := new byte[buflen];
    ghost var b, was := value.buf, value.State();
    err, buflen := CopyString(value, Copy(buffer), buflen, next);
    LandingError(b, was, StringAt(b, was.ptr).value.1, err, next.State());
  }

  /** The content of the text string at `p`, tagged or not. */
  function TextAt(b: seq<byte>, p: nat): Option<seq<byte>> {
    var r := Decode(b, p);
    if r.Some? then TextOf(r.value.0) else None
  }

  function TextOf(x: Item): Option<seq<byte>> {
    var y := Untagged(x);
    if (y.Str? || y.Chunked?) && y.text then Some(Content(y)) else None
  }

  /** No text string stands under the tags of the item at `it`, or it can be read and left behind. */
  ghost predicate CanCompare(b: seq<byte>, it: Iter) {
    var q := TagsEnd(b, it.ptr);
    && StartsAt(b, q)
    && (HeadAt(b, q).value.major == TEXT_STRING ==> CanRead(b, it.(ptr := q, typ := TEXT_STRING_TYPE)))
  }

  /** Compares with a C string: equal exactly when the entry is a text string with this content, however it is
      tagged or chunked. */
  method TextStringEquals(value: CborValue, text: seq<byte>) returns (err: CborError, result: bool)
    requires value.Ready() && 0 !in text
    ensures err == NoError <==> CanCompare(value.buf, value.State())
    ensures err == NoError ==> (result <==> TextAt(value.buf, value.ptr) == Some(text))
  {
    hide Landed;
    hide CanLand;
    hide CanRead;
    hide StringAt;
    var copy := new CborValue();
    copy.Assign(value);
    PastTags(value.buf, value.ptr, 0);
    err := copy.SkipTag();
    if err != NoError {
      return err, false;
    }
    TextUnderTags(value.buf, value.ptr, copy.State());
    MajorUnderTags(value.buf, copy.State());
    if copy.typ != TEXT_STRING_TYPE {
      return NoError, false;
    }
    ghost var was := copy.State();
    SamePlaceRead(value.buf, value.State(), was);
    var tmp := new CborValue();
    var len;
    err, len, result := IterateStringChunks(copy, Compare(text), |text|, tmp);
    ReadingError(value.buf, was, err, tmp.State());
  }

  lemma MajorUnderTags(b: seq<byte>, it: Iter)
    requires AtItem(b, it)
    ensures it.typ == TEXT_STRING_TYPE <==> HeadAt(b, it.ptr).value.major == TEXT_STRING
  {
  }

  lemma SamePlaceRead(b: seq<byte>, was: Iter, now: Iter)
    requires SamePlace(was, now) && now.typ == TEXT_STRING_TYPE
    ensures CanRead(b, now) <==> CanRead(b, was.(ptr := now.ptr, typ := TEXT_STRING_TYPE))
  {
    hide StringAt;
  }

  lemma ReadingError(b: seq<byte>, was: Iter, err: CborError, now: Iter)
    requires was.remaining > 0
    requires match StringAt(b, was.ptr) case None => err != NoError case Some((_, e)) => Landed(b, was, e, err, now)
    ensures err == NoError <==> CanRead(b, was)
  {
    hide StringAt;
    hide Landed;
    hide CanLand;
    if StringAt(b, was.ptr).Some? { LandingError(b, was, StringAt(b, was.ptr).value.1, err, now); }
  }

  /** The text string at `p` is the string under the tags there, if that is a text string. */
  lemma TextUnderTags(b: seq<byte>, p: nat, it: Iter)
    requires AtItem(b, it) && it.ptr == TagsEnd(b, p)
    ensures it.typ != TEXT_STRING_TYPE ==> TextAt(b, p).None?
    ensures it.typ == TEXT_STRING_TYPE ==>
              TextAt(b, p) == match StringAt(b, it.ptr) case None => None case Some((data, _)) => Some(data)
  {
    PastTags(b, p, 0);
  }
}

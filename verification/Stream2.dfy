/** The parts of the stream decoder that hand out slices of the message and check the shape of image data. */
module Stream2 {
  import opened Wrappers
  import opened ByteSeqs
  import opened CborFormat
  import opened CborJumpTable
  import opened CborGrammar
  import opened CborStrings
  import opened CborIterator
  import opened CborParser
  import opened CborAccess
  import opened CborEncoding
  import opened CborRoundTrip

  datatype Result = Ok | ErrorOutOfMemory | ErrorDecode | ErrorParse | ErrorNotImplemented

  const ROW_MAJOR: nat := 40
  const DECTRIS_COMPRESSION: nat := 56500
  const LZ4: seq<byte> := [108, 122, 52]
  const BSLZ4: seq<byte> := [98, 115, 108, 122, 52]

  function CborResult(e: CborError): Result {
    match e
    case NoError => Ok
    case UnknownLength => ErrorParse
    case DataTooLarge => ErrorParse
    case OutOfMemory => ErrorOutOfMemory
    case _ => ErrorDecode
  }

  datatype Compression = Compression(algorithm: seq<byte>, elemSize: nat, origSize: nat)

  /** A slice of the message, and how it is compressed, if it is. */
  datatype Blob = Blob(ptr: nat, len: nat, compression: Option<Compression>)

  datatype TypedArray = TypedArray(tag: nat, data: Blob)

  datatype MultidimArray = MultidimArray(dim0: nat, dim1: nat, typed: TypedArray)

  /** The bytes of the data once decompressed. */
  function DataSize(data: Blob): nat {
    if data.compression.None? then data.len else data.compression.value.origSize
  }

  function Slice(b: seq<byte>, data: Blob): seq<byte>
    requires data.ptr + data.len <= |b|
  {
    b[data.ptr..data.ptr + data.len]
  }

  // ----- what has been read -----

  /** The item at `was` is `x`, it ends at `e`, and the iterator has moved past it. */
  ghost predicate Consumed(b: seq<byte>, was: Iter, x: Item, e: nat, now: Iter) {
    Decode(b, was.ptr) == Some((x, e)) && Landed(b, AsItem(was), e, NoError, now)
  }

  /** The item at `p`, if there is one. */
  function ItemAt(b: seq<byte>, p: nat): Item {
    var r := Decode(b, p);
    if r.None? then Simple(0) else r.value.0
  }

  /** A well-formed item stands here and can be left behind. */
  ghost predicate Leaves(b: seq<byte>, it: Iter) {
    it.remaining > 0 && Decode(b, it.ptr).Some? && CanLand(b, AsItem(it), Decode(b, it.ptr).value.1)
  }

  lemma ConsumedLeaves(b: seq<byte>, was: Iter, x: Item, e: nat, now: Iter)
    requires Consumed(b, was, x, e, now) && was.remaining > 0
    ensures Leaves(b, was) && ItemAt(b, was.ptr) == x
  {
    LandingError(b, AsItem(was), e, NoError, now);
  }

  /** The type that the iterator announces is that of the item. */
  lemma TypeOfItem(b: seq<byte>, it: Iter)
    requires AtItem(b, it) && Decode(b, it.ptr).Some?
    ensures var x := ItemAt(b, it.ptr);
            && (x.Integer? <==> it.typ == INTEGER_TYPE) && (x.Integer? ==> x.negative == it.flags.negativeOrIterating)
            && (x.Tagged? <==> it.typ == TAG_TYPE)
            && (x.Array? <==> it.typ == ARRAY_TYPE) && (x.Array? ==> x.indefinite == it.flags.unknownLength)
            && (x.Str? || x.Chunked? <==> IsString(it.typ))
            && (x.Str? || x.Chunked? ==> x.text == (it.typ == TEXT_STRING_TYPE) && x.Chunked? == it.flags.unknownLength)
  {
  }

  /** Each of several items of a counted container can be left behind: the next one starts there. */
  lemma NextLeaves(b: seq<byte>, it: Iter)
    requires 0 < it.remaining < UINT32_MAX && DecodeItems(b, it.ptr, it.remaining).Some?
    ensures Leaves(b, it) && StartsAt(b, it.ptr)
    ensures var (xs, e) := DecodeItems(b, it.ptr, it.remaining).value;
            && xs.Cons? && ItemAt(b, it.ptr) == xs.head
            && DecodeItems(b, Decode(b, it.ptr).value.1, it.remaining - 1) == Some((xs.tail, e))
  {
    DecodeStarts(b, it.ptr);
    var e := Decode(b, it.ptr).value.1;
    if it.remaining > 1 {
      DecodeStarts(b, e);
      assert Decode(b, e).Some?;
    }
  }

  lemma ConsumedUntagged(b: seq<byte>, was: Iter, x: Item, e: nat, now: Iter)
    requires was.typ != TAG_TYPE && was.remaining > 0
    requires Decode(b, was.ptr) == Some((x, e)) && Landed(b, was, e, NoError, now)
    ensures Consumed(b, was, x, e, now)
  {
    LandedAsItem(b, was, was, e, NoError, now);
  }

  /** A tag and what it applies to have been consumed together. */
  lemma ConsumedTagged(b: seq<byte>, was: Iter, here: Iter, x: Item, e: nat, now: Iter)
    requires TagHeadAt(b, was.ptr) && here.ptr == HeadEnd(b, was.ptr) && SamePlace(was, here) && was.remaining > 0
    requires Consumed(b, here, x, e, now)
    ensures Consumed(b, was, Tagged(HeadAt(b, was.ptr).value.arg, x), e, now)
  {
    DecodeTagged(b, was.ptr);
    SamePlaceLands(b, here, was, NoError, now);
  }

  /** A tag can be left behind together with what it applies to. */
  lemma LeavesUnderTag(b: seq<byte>, was: Iter, here: Iter)
    requires TagHeadAt(b, was.ptr) && here.ptr == HeadEnd(b, was.ptr) && SamePlace(was, here)
    ensures Leaves(b, was) <==> Leaves(b, here)
    ensures Decode(b, was.ptr).Some? ==>
              ItemAt(b, was.ptr) == Tagged(HeadAt(b, was.ptr).value.arg, ItemAt(b, here.ptr))
  {
    DecodeTagged(b, was.ptr);
    if was.remaining > 0 && Decode(b, here.ptr).Some? {
      LandedAsItem(b, AsItem(here), was, Decode(b, here.ptr).value.1, NoError, here);
    }
  }

  /** What a tag applies to starts behind its head. */
  lemma TagLeaves(b: seq<byte>, was: Iter)
    requires AtItem(b, was) && Leaves(b, was) && ItemAt(b, was.ptr).Tagged?
    ensures was.typ == TAG_TYPE && TagHeadAt(b, was.ptr) && StartsAt(b, HeadEnd(b, was.ptr))
  {
    TypeOfItem(b, was);
    DecodeTagged(b, was.ptr);
    DecodeStarts(b, HeadEnd(b, was.ptr));
  }

  /** An array of known length and its items. */
  lemma ArrayLeaves(b: seq<byte>, was: Iter)
    requires AtItem(b, was) && Leaves(b, was) && ItemAt(b, was.ptr).Array? && !ItemAt(b, was.ptr).indefinite
    ensures was.typ == ARRAY_TYPE && !was.flags.unknownLength
    ensures var n := HeadAt(b, was.ptr).value.arg;
            var e := Decode(b, was.ptr).value.1;
            && n == Len(ItemAt(b, was.ptr).items)
            && DecodeItems(b, HeadEnd(b, was.ptr), n) == Some((ItemAt(b, was.ptr).items, e))
            && CanLand(b, was, e)
  {
    TypeOfItem(b, was);
    DecodeContainer(b, was.ptr);
    LandedAsItem(b, was, was, Decode(b, was.ptr).value.1, NoError, was);
  }

  /** In a counted container, past one of its items. */
  lemma ElementConsumed(b: seq<byte>, was: Iter, x: Item, e: nat, now: Iter)
    requires Consumed(b, was, x, e, now) && 0 < was.remaining < UINT32_MAX
    ensures now.ptr == e && now.remaining == was.remaining - 1 && Standing(b, now) && Decode(b, was.ptr) == Some((x, e))
    ensures DecodeItems(b, was.ptr, was.remaining) ==
            match DecodeItems(b, e, was.remaining - 1)
            case None => None
            case Some((xs, f)) => Some((Cons(x, xs), f))
  {
  }

  lemma NoItems(b: seq<byte>, p: nat)
    ensures DecodeItems(b, p, 0) == Some((Nil, p))
  {
  }

  /** A definite-length array of `n` items, entered and left. */
  lemma ArrayConsumed(b: seq<byte>, was: Iter, xs: Items, e: nat, now: Iter)
    requires AtItem(b, was) && was.typ == ARRAY_TYPE && !was.flags.unknownLength
    requires DecodeItems(b, HeadEnd(b, was.ptr), HeadAt(b, was.ptr).value.arg) == Some((xs, e))
    requires Landed(b, was, e, NoError, now)
    ensures Consumed(b, was, Array(false, xs), e, now)
  {
    DecodeContainer(b, was.ptr);
    ConsumedUntagged(b, was, Array(false, xs), e, now);
  }

  lemma ArrayOpens(b: seq<byte>, it: Iter, err: CborError, now: Iter)
    requires AtItem(b, it) && it.typ == ARRAY_TYPE && !it.flags.unknownLength && Entered(b, it, err, now)
    requires 0 < HeadAt(b, it.ptr).value.arg < UINT32_MAX
    ensures err == NoError <==> StartsAt(b, HeadEnd(b, it.ptr))
  {
  }

  /** The iterator over a definite-length array that has just been entered. */
  lemma ArrayEntered(b: seq<byte>, it: Iter, now: Iter)
    requires AtItem(b, it) && it.typ == ARRAY_TYPE && !it.flags.unknownLength && Entered(b, it, NoError, now)
    ensures now.ptr == HeadEnd(b, it.ptr) && now.remaining == HeadAt(b, it.ptr).value.arg < UINT32_MAX
    ensures Standing(b, now)
  {
  }

  // ----- strings without copying -----

  /** The initial byte of a byte string tells how long the head is. */
  predicate HeadOfString(b: seq<byte>, p: nat, size: nat) {
    && p < |b| && 0x40 <= b[p] <= 0x5b
    && size == if b[p] == 0x58 then 2 else if b[p] == 0x59 then 3 else if b[p] == 0x5a then 5
               else if b[p] == 0x5b then 9 else 1
  }

  lemma StringHead(b: seq<byte>, it: Iter)
    requires AtItem(b, it) && it.typ == BYTE_STRING_TYPE && !it.flags.unknownLength
    ensures var h := HeadAt(b, it.ptr).value;
            h.major == BYTE_STRING && h.info != INDEFINITE && HeadOfString(b, it.ptr, h.size)
  {
  }

  lemma StringDecoded(b: seq<byte>, p: nat)
    requires HeadAt(b, p).Some? && HeadAt(b, p).value.major == BYTE_STRING && HeadAt(b, p).value.info != INDEFINITE
    ensures var h := HeadAt(b, p).value;
            var q := p + h.size;
            Decode(b, p) == if q + h.arg <= |b| then Some((Str(false, b[q..q + h.arg]), q + h.arg)) else None
  {
    hide HeadAt;
  }

  /** A byte string of definite length. */
  lemma DefiniteString(b: seq<byte>, it: Iter)
    requires AtItem(b, it) && it.typ == BYTE_STRING_TYPE && !it.flags.unknownLength
    ensures var h := HeadAt(b, it.ptr).value;
            var q := it.ptr + h.size;
            && HeadOfString(b, it.ptr, h.size) && q == HeadEnd(b, it.ptr) <= |b|
            && StringAt(b, it.ptr) == (if q + h.arg <= |b| then Some((b[q..q + h.arg], q + h.arg)) else None)
            && (q + h.arg <= |b| ==> Decode(b, it.ptr) == Some((Str(false, b[q..q + h.arg]), q + h.arg)))
  {
    hide StringAt;
    hide Decode;
    hide HeadAt;
    hide HeadOfString;
    StringHead(b, it);
    StringDecoded(b, it.ptr);
    StringAtHead(b, it.ptr);
  }

  /** Advancing over a string. */
  lemma StringStepped(b: seq<byte>, was: Iter, err: CborError, now: Iter)
    requires AtItem(b, was) && IsString(was.typ) && Stepped(b, was, MAX_RECURSIONS, err, now)
    ensures match StringAt(b, was.ptr)
            case None => err != NoError
            case Some((_, e)) => Landed(b, was, e, err, now) && (err == NoError <==> CanLand(b, was, e))
  {
    hide Landed;
    hide CanLand;
    hide StringAt;
    StringEnd(b, was, MAX_RECURSIONS);
    if StringAt(b, was.ptr).Some? { LandingError(b, was, StringAt(b, was.ptr).value.1, err, now); }
  }

  /** The content of a byte string as a slice of the message. With `next`, the slice lies within the message and
      holds what copying the string would give; without, it has not been looked at. */
  method ConsumeByteStringNoCopy(it: CborValue, next: CborValue?) returns (r: Result, bstr: nat, len: nat)
    requires it.Ready() && it.typ == BYTE_STRING_TYPE
    modifies next
    ensures r == Ok ==> !old(it.flags.unknownLength) && bstr == HeadEnd(old(it.buf), old(it.ptr))
    ensures next == null ==> (r == Ok <==> !old(it.flags.unknownLength))
    ensures next != null && r == Ok ==>
              && next.buf == old(it.buf) && next.Valid() && bstr + len <= |next.buf|
              && StringAt(next.buf, old(it.ptr)) == Some((next.buf[bstr..bstr + len], bstr + len))
              && Consumed(next.buf, old(it.State()), Str(false, next.buf[bstr..bstr + len]), bstr + len, next.State())
    ensures next != null && !old(it.flags.unknownLength) ==>
              (r == Ok <==> CanRead(old(it.buf), old(it.State())))
  {
    hide Landed;
    hide CanLand;
    hide StringAt;
    hide Stepped;
    hide Consumed;
    hide HeadEnd;
    ghost var b, was := it.buf, it.State();
    bstr := 0;
    var e;
    e, len := GetLength(it);
    if CborResult(e) != Ok {
      return CborResult(e), bstr, len;
    }
    DefiniteString(b, was);
    assert 0x40 <= it.buf[it.ptr] <= 0x5b;
    var initial := it.buf[it.ptr];
    bstr := it.ptr + 1;
    if initial == 0x58 {
      bstr := bstr + 1;
    } else if initial == 0x59 {
      bstr := bstr + 2;
    } else if initial == 0x5a {
      bstr := bstr + 4;
    } else if initial == 0x5b {
      bstr := bstr + 8;
    }
    if next != null {
      next.Assign(it);
      e := next.Advance();
      StringStepped(b, was, e, next.State());
      if CborResult(e) != Ok {
        return CborResult(e), bstr, len;
      }
      ConsumedUntagged(b, was, Str(false, b[bstr..bstr + len]), bstr + len, next.State());
    }
    r := Ok;
  }

  // ----- small items -----

  method ParseTag(it: CborValue) returns (r: Result, tag: nat)
    requires Standing(it.buf, it.State())
    modifies it
    ensures it.buf == old(it.buf) && it.Valid()
    ensures r == Ok ==>
              && it.Ready() && it.ptr == HeadEnd(it.buf, old(it.ptr)) && SamePlace(old(it.State()), it.State())
              && TagHeadAt(it.buf, old(it.ptr)) && tag == HeadAt(it.buf, old(it.ptr)).value.arg
              && old(it.typ) == TAG_TYPE
    ensures r == Ok <==> old(it.typ) == TAG_TYPE && StartsAt(it.buf, HeadEnd(it.buf, old(it.ptr)))
  {
    hide Landed;
    tag := 0;
    if it.typ != TAG_TYPE {
      return ErrorParse, tag;
    }
    ghost var was := it.State();
    tag := GetTag(it);
    var e := it.AdvanceFixed();
    TagLanding(it.buf, was, e, it.State());
    r := CborResult(e);
  }

  method ParseUint64(it: CborValue) returns (r: Result, value: nat)
    requires Standing(it.buf, it.State())
    modifies it
    ensures it.buf == old(it.buf) && it.Valid()
    ensures r == Ok ==> old(it.remaining) > 0 && value < UINT64_LIMIT
    ensures r == Ok ==>
              Consumed(it.buf, old(it.State()), Integer(false, value), HeadEnd(it.buf, old(it.ptr)), it.State())
    ensures r == Ok <==> Leaves(it.buf, old(it.State())) && IsUint(ItemAt(it.buf, old(it.ptr)))
  {
    hide Landed;
    hide CanLand;
    value := 0;
    if it.remaining > 0 { UintLeaves(it.buf, it.State()); }
    if !(it.typ == INTEGER_TYPE && !it.flags.negativeOrIterating) {
      return ErrorParse, value;
    }
    ghost var was := it.State();
    var negative;
    value, negative := GetRawInteger(it);
    var e := it.AdvanceFixed();
    LandingError(it.buf, was, HeadEnd(it.buf, was.ptr), e, it.State());
    if e == NoError {
      IntegerAt(it.buf, was);
      ConsumedUntagged(it.buf, was, Integer(false, value), HeadEnd(it.buf, was.ptr), it.State());
    }
    r := CborResult(e);
  }

  predicate IsUint(x: Item) { x.Integer? && !x.negative }

  lemma UintLeaves(b: seq<byte>, it: Iter)
    requires AtItem(b, it)
    ensures Leaves(b, it) && IsUint(ItemAt(b, it.ptr)) <==>
            it.typ == INTEGER_TYPE && !it.flags.negativeOrIterating && CanLand(b, it, HeadEnd(b, it.ptr))
  {
    if it.typ == INTEGER_TYPE {
      IntegerAt(b, it);
      LandedAsItem(b, it, it, HeadEnd(b, it.ptr), NoError, it);
    } else if Decode(b, it.ptr).Some? {
      TypeOfItem(b, it);
    }
  }

  lemma IntegerAt(b: seq<byte>, it: Iter)
    requires AtItem(b, it) && it.typ == INTEGER_TYPE
    ensures var h := HeadAt(b, it.ptr).value;
            Decode(b, it.ptr) == Some((Integer(it.flags.negativeOrIterating, h.arg), HeadEnd(b, it.ptr)))
            && h.arg < UINT64_LIMIT
  {
  }

  /** Two unsigned integers in an array. */
  function Pair(first: nat, second: nat): Item {
    Array(false, Cons(Integer(false, first), Cons(Integer(false, second), Nil)))
  }

  predicate IsPair(x: Item) {
    x.Array? && !x.indefinite && AreTwo(x.items) && IsUint(x.items.head) && IsUint(x.items.tail.head)
  }

  predicate AreTwo(xs: Items) { xs.Cons? && xs.tail.Cons? && xs.tail.tail.Nil? }

  predicate AreThree(xs: Items) { xs.Cons? && AreTwo(xs.tail) }

  lemma Lengths(xs: Items)
    ensures AreTwo(xs) ==> Len(xs) == 2
    ensures AreThree(xs) ==> Len(xs) == 3
  {
    if AreTwo(xs) { assert Len(xs.tail) == 1; }
    if AreThree(xs) { assert Len(xs.tail.tail) == 1 && Len(xs.tail) == 2; }
  }

  /** A definite-length array of these items stands here, and can be left behind. */
  ghost predicate ArrayAhead(b: seq<byte>, was: Iter, xs: Items, count: nat) {
    && was.typ == ARRAY_TYPE && !was.flags.unknownLength && HeadAt(b, was.ptr).Some?
    && HeadAt(b, was.ptr).value.arg == count && StartsAt(b, HeadEnd(b, was.ptr))
    && var r := DecodeItems(b, HeadEnd(b, was.ptr), count);
    r.Some? && r.value.0 == xs && CanLand(b, was, r.value.1)
  }

  lemma ArrayStands(b: seq<byte>, was: Iter, count: nat)
    requires AtItem(b, was) && Leaves(b, was) && ItemAt(b, was.ptr).Array? && !ItemAt(b, was.ptr).indefinite
    requires Len(ItemAt(b, was.ptr).items) == count && 0 < count < UINT32_MAX
    ensures ArrayAhead(b, was, ItemAt(b, was.ptr).items, count)
  {
    hide Leaves;
    ArrayLeaves(b, was);
    NextLeaves(b, Iter(HeadEnd(b, was.ptr), count, 0, 0, NO_FLAGS));
  }

  lemma NothingLeaves(b: seq<byte>, it: Iter)
    ensures Leaves(b, it) ==> it.remaining > 0
  {
  }

  /** Enters an array that must announce `count` items. */
  method EnterArray(it: CborValue, elt: CborValue, count: nat) returns (r: Result)
    requires Standing(it.buf, it.State()) && it != elt && 0 < count < UINT32_MAX
    modifies elt
    ensures elt.buf == it.buf
    ensures r == Ok <==>
              && it.typ == ARRAY_TYPE && !it.flags.unknownLength && HeadAt(it.buf, it.ptr).value.arg == count
              && StartsAt(it.buf, HeadEnd(it.buf, it.ptr))
    ensures r == Ok ==>
              && it.Ready() && it.typ == ARRAY_TYPE && !it.flags.unknownLength
              && HeadAt(it.buf, it.ptr).value.arg == count
              && Standing(elt.buf, elt.State()) && elt.ptr == HeadEnd(it.buf, it.ptr) && elt.remaining == count
  {
    hide Entered;
    elt.Assign(it);
    if it.typ != ARRAY_TYPE {
      return ErrorParse;
    }
    var e, len := GetLength(it);
    if CborResult(e) != Ok {
      return CborResult(e);
    }
    if len != count {
      return ErrorParse;
    }
    e := it.EnterContainer(elt);
    ArrayOpens(it.buf, it.State(), e, elt.State());
    if e == NoError { ArrayEntered(it.buf, it.State(), elt.State()); }
    r := CborResult(e);
  }

  lemma PairItems(x: Item)
    requires IsPair(x)
    ensures x.Array? && !x.indefinite && Len(x.items) == 2
    ensures x.items.Cons? && x.items.tail.Cons? && IsUint(x.items.head) && IsUint(x.items.tail.head)
  {
    Lengths(x.items);
  }

  lemma PairIsPair(first: nat, second: nat)
    ensures IsPair(Pair(first, second))
  {
  }

  method ParseArray2Uint64(it: CborValue) returns (r: Result, first: nat, second: nat, ghost end: nat)
    requires Standing(it.buf, it.State())
    modifies it
    ensures it.buf == old(it.buf) && it.Valid()
    ensures r == Ok ==> old(it.remaining) > 0 && first < UINT64_LIMIT && second < UINT64_LIMIT
    ensures r == Ok ==> Consumed(it.buf, old(it.State()), Pair(first, second), end, it.State())
    ensures r == Ok <==> Leaves(it.buf, old(it.State())) && IsPair(ItemAt(it.buf, old(it.ptr)))
  {
    hide Landed;
    hide CanLand;
    hide Leaves;
    hide Consumed;
    hide Standing;
    hide Decode;
    hide DecodeItems;
    hide IsPair;
    hide ItemAt;
    first, second, end := 0, 0, 0;
    ghost var b, was := it.buf, it.State();
    StandingValid(it);
    NothingLeaves(b, was);
    ghost var ok := Leaves(b, was) && IsPair(ItemAt(b, was.ptr));
    if ok {
      PairItems(ItemAt(b, was.ptr));
      ArrayStands(b, was, 2);
    }
    var elt := new CborValue();
    r := EnterArray(it, elt, 2);
    if r != Ok {
      return;
    }
    ghost var i0 := elt.State();
    if ok { NextLeaves(b, i0); }
    r, first := ParseUint64(elt);
    if r != Ok {
      return;
    }
    ghost var i1 := elt.State();
    ElementConsumed(b, i0, Integer(false, first), HeadEnd(b, i0.ptr), i1);
    if ok { NextLeaves(b, i1); }
    r, second := ParseUint64(elt);
    if r != Ok {
      return;
    }
    ghost var i2 := elt.State();
    ElementConsumed(b, i1, Integer(false, second), HeadEnd(b, i1.ptr), i2);
    end := i2.ptr;
    NoItems(b, end);
    StandingEnds(b, i2);
    var e := it.LeaveContainer(elt);
    LandingError(b, was, end, e, it.State());
    if e == NoError {
      ArrayConsumed(b, was, Pair(first, second).items, end, it.State());
      ConsumedLeaves(b, was, Pair(first, second), end, it.State());
      PairIsPair(first, second);
    }
    r := CborResult(e);
  }

  lemma StandingValid(it: CborValue)
    requires Standing(it.buf, it.State())
    ensures it.Valid() && (it.remaining > 0 ==> it.Ready()) && (it.remaining == 0 ==> it.typ == INVALID_TYPE)
  {
  }

  lemma StandingEnds(b: seq<byte>, it: Iter)
    requires Standing(b, it) && it.remaining == 0
    ensures it.typ == INVALID_TYPE && it.ptr <= |b|
  {
  }

  // ----- data, compressed or not -----

  predicate IsText(x: Item) { (x.Str? || x.Chunked?) && x.text }

  predicate IsBlob(x: Item) { x.Str? && !x.text }

  lemma TextLeaves(b: seq<byte>, it: Iter)
    requires AtItem(b, it)
    ensures Leaves(b, it) && IsText(ItemAt(b, it.ptr)) <==> it.typ == TEXT_STRING_TYPE && CanRead(b, it)
    ensures Leaves(b, it) && IsBlob(ItemAt(b, it.ptr)) <==>
            it.typ == BYTE_STRING_TYPE && !it.flags.unknownLength && CanRead(b, it)
  {
    hide CanLand;
    if Decode(b, it.ptr).Some? {
      TypeOfItem(b, it);
      if IsString(it.typ) { LandedAsItem(b, it, it, Decode(b, it.ptr).value.1, NoError, it); }
    }
  }

  method ParseTextString(it: CborValue) returns (r: Result, text: seq<byte>, ghost end: nat)
    requires Standing(it.buf, it.State())
    modifies it
    ensures it.Valid() && (r == Ok ==> it.buf == old(it.buf))
    ensures r == Ok ==>
              && old(it.remaining) > 0 && Decode(it.buf, old(it.ptr)).Some?
              && var x := Decode(it.buf, old(it.ptr)).value.0;
              IsText(x) && Content(x) == text && Consumed(it.buf, old(it.State()), x, end, it.State())
    ensures r == Ok <==> Leaves(old(it.buf), old(it.State())) && IsText(ItemAt(old(it.buf), old(it.ptr)))
  {
    hide Landed;
    hide CanLand;
    if it.remaining > 0 { TextLeaves(it.buf, it.State()); }
    text, end := [], 0;
    ghost var b, was := it.buf, it.State();
    if it.typ != TEXT_STRING_TYPE {
      return ErrorParse, text, end;
    }
    var e, buffer, buflen := DupString(it, it);
    if e == NoError {
      text := buffer[..buflen];
      end := StringAt(b, was.ptr).value.1;
      TextUnderNoTags(b, was);
      ConsumedUntagged(b, was, Decode(b, was.ptr).value.0, end, it.State());
    }
    r := CborResult(e);
  }

  lemma TextUnderNoTags(b: seq<byte>, it: Iter)
    requires AtItem(b, it) && it.typ == TEXT_STRING_TYPE && StringAt(b, it.ptr).Some?
    ensures var x := Decode(b, it.ptr).value.0; IsText(x) && Content(x) == StringAt(b, it.ptr).value.0
  {
  }

  /** A C string ends at its first NUL. */
  function CString(s: seq<byte>): seq<byte> {
    if s == [] || s[0] == 0 then [] else [s[0]] + CString(s[1..])
  }

  lemma {:induction false} CStringIs(s: seq<byte>)
    ensures CString(s) <= s && 0 !in CString(s)
    ensures CString(s) == s || s[|CString(s)|] == 0
  {
    if s != [] && s[0] != 0 {
      CStringIs(s[1..]);
      assert s == [s[0]] + s[1..];
    }
  }

  function CompressedItem(algorithm: Item, elemSize: nat, data: seq<byte>): Item {
    Tagged(DECTRIS_COMPRESSION,
           Array(false, Cons(algorithm, Cons(Integer(false, elemSize), Cons(Str(false, data), Nil)))))
  }

  predicate KnownAlgorithm(name: seq<byte>) {
    CString(name) == LZ4 || CString(name) == BSLZ4
  }

  /** Algorithm, element size and data under the compression tag. */
  predicate AreCompressed(xs: Items) {
    && AreThree(xs) && IsText(xs.head) && IsUint(xs.tail.head) && IsBlob(xs.tail.tail.head)
    && KnownAlgorithm(Content(xs.head)) && |xs.tail.tail.head.data| >= 12
  }

  predicate IsCompressed(x: Item) {
    x.Tagged? && x.tag == DECTRIS_COMPRESSION && x.content.Array? && !x.content.indefinite
    && AreCompressed(x.content.items)
  }

  predicate IsData(x: Item) { IsBlob(x) || IsCompressed(x) }

  /** How many bytes the data has once decompressed. */
  function SizeOf(x: Item): nat
    requires IsData(x)
  {
    if x.Str? then |x.data| else BigEndian(x.content.items.tail.tail.head.data[..8])
  }

  /** `data` is what the item `x` describes: a byte string, or one under the compression tag whose first eight bytes
      say how large it really is. */
  ghost predicate Describes(b: seq<byte>, x: Item, data: Blob) {
    && data.ptr + data.len <= |b|
    && match data.compression
       case None => x == Str(false, Slice(b, data))
       case Some(c) =>
         && (exists t: Item :: IsText(t) && Content(t) == c.algorithm
                               && x == CompressedItem(t, c.elemSize, Slice(b, data)))
         && KnownAlgorithm(c.algorithm)
         && data.len >= 12 && c.origSize == BigEndian(b[data.ptr..data.ptr + 8]) < UINT64_LIMIT
  }

  method ReadU64BE(b: seq<byte>, p: nat) returns (v: nat)
    requires p + 8 <= |b|
    ensures v == BigEndian(b[p..p + 8]) < UINT64_LIMIT
  {
    Pow256Values();
    v := BigEndian(b[p..p + 8]);
  }

  /** The three items under the compression tag. */
  method ParseCompressed(elt: CborValue) returns (r: Result, data: Blob, ghost text: Item, ghost end: nat)
    requires Standing(elt.buf, elt.State()) && elt.remaining == 3
    modifies elt
    ensures r == Ok ==> elt.Valid() && elt.buf == old(elt.buf) && elt.typ == INVALID_TYPE && elt.ptr == end
    ensures r == Ok ==>
              && data.ptr + data.len <= |elt.buf| && data.compression.Some?
              && var x := CompressedItem(text, data.compression.value.elemSize, Slice(elt.buf, data));
              && Describes(elt.buf, x, data)
              && DecodeItems(elt.buf, old(elt.ptr), 3) == Some((x.content.items, end))
    ensures var xs := DecodeItems(old(elt.buf), old(elt.ptr), 3);
            r == Ok <==> xs.Some? && AreCompressed(xs.value.0)
  {
    hide Landed;
    hide Consumed;
    hide Standing;
    hide Describes;
    hide KnownAlgorithm;
    hide CString;
    hide Content;
    hide AreCompressed;
    hide IsText;
    hide IsUint;
    hide IsBlob;
    hide ItemAt;
    hide Leaves;
    hide Decode;
    hide DecodeItems;
    hide StringAt;
    hide HeadEnd;
    hide BigEndian;
    hide CanRead;
    ghost var b, i0 := elt.buf, elt.State();
    data, text, end := Blob(0, 0, None), Simple(0), 0;
    ghost var xs := DecodeItems(b, i0.ptr, 3);
    ghost var ok := xs.Some? && AreCompressed(xs.value.0);
    if ok {
      CompressedParts(xs.value.0);
      NextLeaves(b, i0);
    }
    var algorithm;
    ghost var e1;
    r, algorithm, e1 := ParseTextString(elt);
    if r != Ok {
      return;
    }
    ghost var i1 := elt.State();
    text := Decode(b, i0.ptr).value.0;
    ElementConsumed(b, i0, text, e1, i1);
    if ok { NextLeaves(b, i1); }
    var elemSize;
    r, elemSize := ParseUint64(elt);
    if r != Ok {
      return;
    }
    ghost var i2 := elt.State();
    ElementConsumed(b, i1, Integer(false, elemSize), HeadEnd(b, i1.ptr), i2);
    if ok { NextLeaves(b, i2); }
    ghost var e3;
    r, data, e3 := ParseCompressedData(elt, algorithm, elemSize);
    if r != Ok {
      return;
    }
    ghost var i3 := elt.State();
    ElementConsumed(b, i2, Str(false, Slice(b, data)), e3, i3);
    CompressedIff(text, elemSize, Slice(b, data));
    NoItems(b, i3.ptr);
    StandingEnds(b, i3);
    end := i3.ptr;
    CompressedDescribes(b, text, data);
  }

  /** The last of the three items, which is read according to the algorithm that the first one names. */
  method ParseCompressedData(elt: CborValue, algorithm: seq<byte>, elemSize: nat)
    returns (r: Result, data: Blob, ghost end: nat)
    requires Standing(elt.buf, elt.State()) && elt.remaining == 1
    modifies elt
    ensures r == Ok ==> elt.Valid() && elt.buf == old(elt.buf) && data.ptr + data.len <= |elt.buf|
    ensures r == Ok ==>
              && Consumed(elt.buf, old(elt.State()), Str(false, Slice(elt.buf, data)), end, elt.State())
              && data.len >= 12 && KnownAlgorithm(algorithm)
              && BigEndian(elt.buf[data.ptr..data.ptr + 8]) < UINT64_LIMIT
              && data.compression
                 == Some(Compression(algorithm, elemSize, BigEndian(elt.buf[data.ptr..data.ptr + 8])))
    ensures var x := ItemAt(old(elt.buf), old(elt.ptr));
            r == Ok <==>
            Leaves(old(elt.buf), old(elt.State())) && IsBlob(x) && KnownAlgorithm(algorithm) && |x.data| >= 12
  {
    hide Consumed;
    hide Standing;
    hide Leaves;
    hide Decode;
    hide ItemAt;
    hide CString;
    hide BigEndian;
    hide CanRead;
    hide HeadEnd;
    ghost var b, was := elt.buf, elt.State();
    data, end := Blob(0, 0, None), 0;
    StandingText(elt);
    if elt.typ != BYTE_STRING_TYPE {
      r := ErrorParse;
      return;
    }
    StandingValid(elt);
    var bstr, len;
    r, bstr, len := ConsumeByteStringNoCopy(elt, elt);
    if r != Ok {
      return;
    }
    end := bstr + len;
    ConsumedLeaves(b, was, Str(false, b[bstr..end]), end, elt.State());
    var origSize;
    if CString(algorithm) == BSLZ4 || CString(algorithm) == LZ4 {
      if len < 12 {
        r := ErrorDecode;
        return;
      }
      origSize := ReadU64BE(elt.buf, bstr);
    } else {
      r := ErrorNotImplemented;
      return;
    }
    data := Blob(bstr, len, Some(Compression(algorithm, elemSize, origSize)));
  }

  method ParseDectrisCompression(it: CborValue) returns (r: Result, data: Blob, ghost x: Item, ghost end: nat)
    requires Standing(it.buf, it.State())
    modifies it
    ensures r == Ok ==> it.Valid() && it.buf == old(it.buf) && old(it.remaining) > 0
    ensures r == Ok ==> Describes(it.buf, x, data) && Consumed(it.buf, old(it.State()), x, end, it.State())
    ensures r == Ok <==> Leaves(old(it.buf), old(it.State())) && IsCompressed(ItemAt(old(it.buf), old(it.ptr)))
  {
    hide Landed;
    hide CanLand;
    hide Consumed;
    hide Standing;
    hide Describes;
    hide Leaves;
    hide ItemAt;
    hide AreCompressed;
    ghost var b, was := it.buf, it.State();
    data, x, end := Blob(0, 0, None), Simple(0), 0;
    StandingValid(it);
    NothingLeaves(b, was);
    ghost var ok := Leaves(b, was) && IsCompressed(ItemAt(b, was.ptr));
    if ok { TagLeaves(b, was); }
    var tag;
    r, tag := ParseTag(it);
    if r != Ok {
      return;
    }
    ghost var here := it.State();
    LeavesUnderTag(b, was, here);
    LeavesDecode(b, was);
    if tag != DECTRIS_COMPRESSION {
      return ErrorParse, data, x, end;
    }
    ReadyStands(it);
    if ok {
      CompressedLengths(ItemAt(b, here.ptr).items);
      ArrayStands(b, here, 3);
    }
    var elt := new CborValue();
    r := EnterArray(it, elt, 3);
    if r != Ok {
      return;
    }
    ghost var text;
    r, data, text, end := ParseCompressed(elt);
    if r != Ok {
      return;
    }
    var e := it.LeaveContainer(elt);
    LandingError(b, here, end, e, it.State());
    if e == NoError {
      x := CompressedItem(text, data.compression.value.elemSize, Slice(b, data));
      ArrayConsumed(b, here, x.content.items, end, it.State());
      ConsumedTagged(b, was, here, x.content, end, it.State());
      ConsumedLeaves(b, was, x, end, it.State());
    }
    r := CborResult(e);
  }

  lemma CompressedParts(xs: Items)
    requires AreCompressed(xs)
    ensures AreThree(xs) && IsText(xs.head) && IsUint(xs.tail.head) && IsBlob(xs.tail.tail.head)
    ensures KnownAlgorithm(Content(xs.head)) && |xs.tail.tail.head.data| >= 12
  {
  }

  lemma CompressedIff(text: Item, elemSize: nat, data: seq<byte>)
    requires IsText(text)
    ensures AreCompressed(CompressedItem(text, elemSize, data).content.items) <==>
            KnownAlgorithm(Content(text)) && |data| >= 12
  {
  }

  lemma LeavesDecode(b: seq<byte>, it: Iter)
    ensures Leaves(b, it) ==> Decode(b, it.ptr).Some?
  {
  }

  lemma CompressedLengths(xs: Items)
    ensures AreCompressed(xs) ==> Len(xs) == 3
  {
    Lengths(xs);
  }

  lemma StandingText(it: CborValue)
    requires Standing(it.buf, it.State()) && it.remaining > 0
    ensures Leaves(it.buf, it.State()) && IsText(ItemAt(it.buf, it.ptr)) <==>
            it.typ == TEXT_STRING_TYPE && CanRead(it.buf, it.State())
    ensures Leaves(it.buf, it.State()) && IsBlob(ItemAt(it.buf, it.ptr)) <==>
            it.typ == BYTE_STRING_TYPE && !it.flags.unknownLength && CanRead(it.buf, it.State())
  {
    TextLeaves(it.buf, it.State());
  }

  lemma ReadyStands(it: CborValue)
    requires it.Ready()
    ensures Standing(it.buf, it.State())
  {
  }

  lemma CompressedDescribes(b: seq<byte>, text: Item, data: Blob)
    requires data.ptr + data.len <= |b| && data.len >= 12 && data.compression.Some?
    requires var c := data.compression.value;
             && IsText(text) && Content(text) == c.algorithm && KnownAlgorithm(c.algorithm)
             && c.origSize == BigEndian(b[data.ptr..data.ptr + 8]) < UINT64_LIMIT
    ensures Describes(b, CompressedItem(text, data.compression.value.elemSize, Slice(b, data)), data)
  {
    hide CString;
    hide BigEndian;
    hide TextOf;
  }

  method ParseBytes(it: CborValue) returns (r: Result, data: Blob, ghost x: Item, ghost end: nat)
    requires Standing(it.buf, it.State())
    modifies it
    ensures r == Ok ==> it.Valid() && it.buf == old(it.buf) && old(it.remaining) > 0
    ensures r == Ok ==> Describes(it.buf, x, data) && Consumed(it.buf, old(it.State()), x, end, it.State())
    ensures r == Ok <==> Leaves(old(it.buf), old(it.State())) && IsData(ItemAt(old(it.buf), old(it.ptr)))
  {
    hide Consumed;
    hide Leaves;
    hide ItemAt;
    hide CanRead;
    hide IsCompressed;
    hide IsBlob;
    data, x, end := Blob(0, 0, None), Simple(0), 0;
    StandingValid(it);
    NothingLeaves(it.buf, it.State());
    if it.remaining > 0 { DataLeaves(it.buf, it.State()); }
    if it.typ == TAG_TYPE {
      var tag := GetTag(it);
      if tag == DECTRIS_COMPRESSION {
        r, data, x, end := ParseDectrisCompression(it);
        return;
      } else {
        return ErrorParse, data, x, end;
      }
    }
    if it.typ != BYTE_STRING_TYPE {
      return ErrorParse, data, x, end;
    }
    var bstr, len;
    r, bstr, len := ConsumeByteStringNoCopy(it, it);
    if r == Ok {
      data, end := Blob(bstr, len, None), bstr + len;
      x := Str(false, Slice(it.buf, data));
    }
  }

  lemma DataLeaves(b: seq<byte>, it: Iter)
    requires AtItem(b, it)
    ensures Leaves(b, it) && IsBlob(ItemAt(b, it.ptr)) <==>
            it.typ == BYTE_STRING_TYPE && !it.flags.unknownLength && CanRead(b, it)
    ensures Leaves(b, it) && IsCompressed(ItemAt(b, it.ptr)) ==>
              it.typ == TAG_TYPE && HeadAt(b, it.ptr).value.arg == DECTRIS_COMPRESSION
  {
    TextLeaves(b, it);
    if Decode(b, it.ptr).Some? && ItemAt(b, it.ptr).Tagged? {
      TypeOfItem(b, it);
      DecodeTagged(b, it.ptr);
    }
  }

  // ----- shapes -----

  /** The bits of an element of a typed array, by its tag: table 1 of section 2.1 of RFC 8746. Tag 76 is reserved there;
      it is taken for the clamped form of signed 8-bit integers. */
  function ElementBits(tag: nat): (bits: nat)
    requires 64 <= tag <= 87
  {
    match tag
    case 64 => 8 case 65 => 16 case 66 => 32 case 67 => 64   // unsigned, big-endian
    case 68 => 8 case 69 => 16 case 70 => 32 case 71 => 64   // unsigned: 8 bits clamped, the others little-endian
    case 72 => 8 case 73 => 16 case 74 => 32 case 75 => 64   // signed, big-endian
    case 76 => 8 case 77 => 16 case 78 => 32 case 79 => 64   // signed, little-endian
    case 80 => 16 case 81 => 32 case 82 => 64 case 83 => 128 // floating point, big-endian
    case 84 => 16 case 85 => 32 case 86 => 64 case _ => 128  // floating point, little-endian
  }

  function ElemSize(tag: nat): (size: nat)
    requires 64 <= tag <= 87
    ensures size == 1 || size == 2 || size == 4 || size == 8 || size == 16
    ensures size * 8 == ElementBits(tag)
  {
    ElementBits(tag) / 8
  }

  /** Bit 4 of the tag says whether the elements are floating point, and the last two bits are the logarithm of their
      length for integers, and one less than it for floating point. */
  lemma TagBits(tag: nat)
    requires 64 <= tag <= 87
    ensures Power2(tag / 16 % 2 + tag % 4) == ElemSize(tag)
  {
    assert Power2(0) == 1 && Power2(1) == 2 && Power2(2) == 4 && Power2(3) == 8 && Power2(4) == 16;
    hide Power2;
    if tag < 80 { assert tag / 16 == 4; } else { assert tag / 16 == 5; }
  }

  method TypedArrayElemSize(typed: TypedArray) returns (r: Result, elemSize: nat)
    ensures r == if 64 <= typed.tag <= 87 then Ok else ErrorNotImplemented
    ensures r == Ok ==> elemSize == ElemSize(typed.tag) && elemSize * 8 == ElementBits(typed.tag)
  {
    if typed.tag >= 64 && typed.tag <= 87 {
      var f := typed.tag / 16 % 2;
      var ll := typed.tag % 4;
      TagBits(typed.tag);
      return Ok, Power2(f + ll);
    }
    return ErrorNotImplemented, 0;
  }

  /** A typed array has a whole number of elements. */
  predicate WholeElements(typed: TypedArray, len: nat) {
    && 64 <= typed.tag <= 87
    && len * ElemSize(typed.tag) == DataSize(typed.data) < UINT64_LIMIT
  }

  predicate IsTyped(x: Item) {
    x.Tagged? && 64 <= x.tag <= 87 && IsData(x.content) && SizeOf(x.content) % ElemSize(x.tag) == 0
  }

  lemma DescribesSize(b: seq<byte>, x: Item, data: Blob)
    requires Describes(b, x, data)
    ensures IsData(x) && SizeOf(x) == DataSize(data)
  {
    if data.compression.Some? {
      assert Slice(b, data)[..8] == b[data.ptr..data.ptr + 8];
    }
  }

  method ParseTypedArray(it: CborValue)
    returns (r: Result, typed: TypedArray, len: nat, ghost x: Item, ghost end: nat)
    requires Standing(it.buf, it.State())
    modifies it
    ensures r == Ok ==> it.Valid() && it.buf == old(it.buf) && old(it.remaining) > 0
    ensures r == Ok ==>
              && WholeElements(typed, len) && Describes(it.buf, x, typed.data)
              && Consumed(it.buf, old(it.State()), Tagged(typed.tag, x), end, it.State())
    ensures r == Ok <==> Leaves(old(it.buf), old(it.State())) && IsTyped(ItemAt(old(it.buf), old(it.ptr)))
  {
    hide Leaves;
    hide ItemAt;
    hide IsData;
    hide SizeOf;
    hide Consumed;
    hide Standing;
    hide Describes;
    hide Landed;
    hide ElemSize;
    ghost var b, was := it.buf, it.State();
    typed, len, x, end := TypedArray(0, Blob(0, 0, None)), 0, Simple(0), 0;
    StandingValid(it);
    NothingLeaves(b, was);
    if Leaves(b, was) && IsTyped(ItemAt(b, was.ptr)) { TagLeaves(b, was); }
    var tag;
    r, tag := ParseTag(it);
    if r != Ok {
      return;
    }
    ghost var here := it.State();
    LeavesUnderTag(b, was, here);
    LeavesDecode(b, was);
    ReadyStands(it);
    var data;
    r, data, x, end := ParseBytes(it);
    if r != Ok {
      return;
    }
    ConsumedTagged(b, was, here, x, end, it.State());
    ConsumedLeaves(b, was, Tagged(tag, x), end, it.State());
    DescribesSize(b, x, data);
    typed := TypedArray(tag, data);
    var elemSize;
    r, elemSize := TypedArrayElemSize(typed);
    if r != Ok {
      return;
    }
    DataSizeFits(it.buf, x, data);
    var size := if data.compression.None? then data.len else data.compression.value.origSize;
    if size % elemSize != 0 {
      return ErrorParse, typed, len, x, end;
    }
    len := size / elemSize;
    WholeNumber(size, elemSize);
  }

  lemma DataSizeFits(b: Buffer, x: Item, data: Blob)
    requires Describes(b, x, data)
    ensures DataSize(data) < UINT64_LIMIT
  {
  }

  lemma WholeNumber(size: nat, elemSize: nat)
    requires elemSize > 0 && size % elemSize == 0
    ensures size / elemSize * elemSize == size
  {
  }

  /** What the dimensions of an accepted array satisfy: their product is compared modulo 2^64. */
  predicate ShapeAccepted(d0: nat, d1: nat, typed: TypedArray) {
    d0 < UINT64_LIMIT && d1 < UINT64_LIMIT && WholeElements(typed, d0 * d1 % UINT64_LIMIT)
  }

  /** An accepted array has as much data as its dimensions say if and only if their product does not overflow. */
  lemma ShapeExactIff(d0: nat, d1: nat, typed: TypedArray)
    requires ShapeAccepted(d0, d1, typed)
    ensures d0 * d1 * ElemSize(typed.tag) == DataSize(typed.data) <==> d0 * d1 < UINT64_LIMIT
  {
    hide ElemSize;
    var n, size := d0 * d1, ElemSize(typed.tag);
    if n >= UINT64_LIMIT { AtLeast(n, size); }
  }

  lemma AtLeast(n: nat, size: nat)
    requires size > 0
    ensures n * size >= n
  {
  }

  /** The dimensions of an image and its pixels, as many as the dimensions say, modulo 2^64. */
  predicate AreImage(xs: Items) {
    && AreTwo(xs) && IsPair(xs.head) && IsTyped(xs.tail.head)
    && var dims, typed := xs.head.items, xs.tail.head;
    dims.head.arg * dims.tail.head.arg % UINT64_LIMIT == SizeOf(typed.content) / ElemSize(typed.tag)
  }

  predicate IsImage(x: Item) {
    x.Tagged? && x.tag == ROW_MAJOR && x.content.Array? && !x.content.indefinite && AreImage(x.content.items)
  }

  lemma ImageLengths(xs: Items)
    ensures AreImage(xs) ==> Len(xs) == 2
  {
    Lengths(xs);
  }

  /** A message that holds this image and nothing else is accepted. */
  lemma ImageMessage(x: Item, it: Iter)
    requires Encodable(x) && IsImage(x) && it.ptr == 0 && it.remaining == 1
    ensures var b := Encode(x); Leaves(b, it) && ItemAt(b, it.ptr) == x
  {
    hide Encode;
    hide Decode;
    hide IsImage;
    var b := Encode(x);
    assert b[0..|b|] == b;
    DecodeEncoded(b, 0, x);
  }

  /** An image whose pixels are not compressed, with the tag numbers of RFC 8746. */
  function PlainImage(width: nat, height: nat, tag: nat, data: seq<byte>): Item {
    Tagged(40, Array(false, Cons(Array(false, Cons(Integer(false, width), Cons(Integer(false, height), Nil))),
                                 Cons(Tagged(tag, Str(false, data)), Nil))))
  }

  /** Which plain images are accepted: those with whole elements, as many as the dimensions say, modulo 2^64. */
  lemma PlainImageIff(width: nat, height: nat, tag: nat, data: seq<byte>)
    ensures IsImage(PlainImage(width, height, tag, data)) <==>
            && 64 <= tag <= 87 && |data| % (ElementBits(tag) / 8) == 0
            && width * height % UINT64_LIMIT == |data| / (ElementBits(tag) / 8)
  {
    var xs := PlainImage(width, height, tag, data).content.items;
    assert AreTwo(xs) && IsPair(xs.head);
    assert AreImage(xs) <==>
           IsTyped(xs.tail.head) && width * height % UINT64_LIMIT == SizeOf(Str(false, data)) / ElemSize(tag);
    hide ElementBits;
  }

  /** Compressed data: the tag that Dectris has registered, the name of the algorithm, the element size and the data. */
  function CompressedData(name: seq<byte>, elemSize: nat, data: seq<byte>): Item {
    Tagged(56500, Array(false, Cons(Str(true, name), Cons(Integer(false, elemSize), Cons(Str(false, data), Nil)))))
  }

  /** It is accepted if the algorithm is lz4 or bslz4 and the data has the 12 bytes of its header; the first eight of
      them are the size of the original, most significant byte first. */
  lemma CompressedDataIff(name: seq<byte>, elemSize: nat, data: seq<byte>)
    ensures var x := CompressedData(name, elemSize, data);
            var c := CString(name);
            && (IsData(x) <==> (c == [0x6c, 0x7a, 0x34] || c == [0x62, 0x73, 0x6c, 0x7a, 0x34]) && |data| >= 12)
            && (IsData(x) ==> SizeOf(x) == Wide8(data, 0))
  {
    hide CString;
    hide BigEndian;
    var xs := CompressedData(name, elemSize, data).content.items;
    assert AreThree(xs);
    if |data| >= 8 {
      Bytes8(data, 0);
      assert data[..8] == data[0..8];
    }
  }

  /** The message of 2^32 rows of 2^32 pixels, and no data at all, is accepted. */
  lemma WrappedImageAccepted(it: Iter)
    requires it.ptr == 0 && it.remaining == 1
    ensures var d := 0x1_0000_0000;
            var x := PlainImage(d, d, 64, []);
            && Encodable(x) && Leaves(Encode(x), it) && IsImage(ItemAt(Encode(x), 0)) && ItemAt(Encode(x), 0) == x
            && d * d * ElemSize(64) != SizeOf(Str(false, []))
  {
    hide Encode;
    hide Leaves;
    hide ItemAt;
    var d := 0x1_0000_0000;
    var x := PlainImage(d, d, 64, []);
    PlainImageIff(d, d, 64, []);
    var xs := x.content.items;
    assert Encodable(xs.head) && Encodable(xs.tail.head);
    assert Len(xs) == 1 + Len(xs.tail) == 2;
    ImageMessage(x, it);
  }

  /** The dimensions and the pixels. */
  method ParseImage(elt: CborValue) returns (r: Result, multidim: MultidimArray, ghost x: Item, ghost end: nat)
    requires Standing(elt.buf, elt.State()) && elt.remaining == 2
    modifies elt
    ensures r == Ok ==> elt.Valid() && elt.buf == old(elt.buf) && elt.typ == INVALID_TYPE && elt.ptr == end
    ensures r == Ok ==>
              && ShapeAccepted(multidim.dim0, multidim.dim1, multidim.typed)
              && Describes(elt.buf, x, multidim.typed.data)
              && DecodeItems(elt.buf, old(elt.ptr), 2) == Some((ImageOf(multidim, x), end))
    ensures var xs := DecodeItems(old(elt.buf), old(elt.ptr), 2);
            r == Ok <==> xs.Some? && AreImage(xs.value.0)
  {
    hide Consumed;
    hide Standing;
    hide Describes;
    hide WholeElements;
    hide Leaves;
    hide ItemAt;
    hide AreImage;
    hide IsPair;
    hide IsTyped;
    hide DecodeItems;
    hide ElemSize;
    hide SizeOf;
    ghost var b, i0 := elt.buf, elt.State();
    multidim, x, end := MultidimArray(0, 0, TypedArray(0, Blob(0, 0, None))), Simple(0), 0;
    ghost var xs := DecodeItems(b, i0.ptr, 2);
    ghost var ok := xs.Some? && AreImage(xs.value.0);
    if ok {
      ImageItems(xs.value.0);
      NextLeaves(b, i0);
    }
    var dim0, dim1;
    ghost var e1;
    r, dim0, dim1, e1 := ParseArray2Uint64(elt);
    if r != Ok {
      return;
    }
    ghost var i1 := elt.State();
    ElementConsumed(b, i0, Pair(dim0, dim1), e1, i1);
    if ok { NextLeaves(b, i1); }
    var typed, arrayLen;
    ghost var e2;
    r, typed, arrayLen, x, e2 := ParseTypedArray(elt);
    if r != Ok {
      return;
    }
    ghost var i2 := elt.State();
    ElementConsumed(b, i1, Tagged(typed.tag, x), e2, i2);
    NoItems(b, e2);
    StandingEnds(b, i2);
    end := e2;
    multidim := MultidimArray(dim0, dim1, typed);
    DescribesSize(b, x, typed.data);
    ImageIff(dim0, dim1, typed, arrayLen, x);
    if dim0 * dim1 % UINT64_LIMIT != arrayLen {
      r := ErrorParse;
    }
  }

  function ImageOf(multidim: MultidimArray, x: Item): Items {
    Cons(Pair(multidim.dim0, multidim.dim1), Cons(Tagged(multidim.typed.tag, x), Nil))
  }

  /** A two-dimensional array of section 3.1.1 of RFC 8746: the dimensions, then a typed array. */
  method ParseMultidimArray(it: CborValue) returns (r: Result, multidim: MultidimArray, ghost x: Item, ghost end: nat)
    requires Standing(it.buf, it.State())
    modifies it
    ensures r == Ok ==> it.Valid() && it.buf == old(it.buf) && old(it.remaining) > 0
    ensures r == Ok ==>
              var typed := multidim.typed;
              && ShapeAccepted(multidim.dim0, multidim.dim1, typed) && Describes(it.buf, x, typed.data)
              && var image := Tagged(ROW_MAJOR, Array(false, ImageOf(multidim, x)));
              Consumed(it.buf, old(it.State()), image, end, it.State())
    ensures r == Ok <==> Leaves(old(it.buf), old(it.State())) && IsImage(ItemAt(old(it.buf), old(it.ptr)))
  {
    hide Landed;
    hide CanLand;
    hide Leaves;
    hide ItemAt;
    hide AreImage;
    hide ImageOf;
    hide DecodeItems;
    hide Consumed;
    hide Standing;
    hide Describes;
    hide ShapeAccepted;
    ghost var b, was := it.buf, it.State();
    multidim, x, end := MultidimArray(0, 0, TypedArray(0, Blob(0, 0, None))), Simple(0), 0;
    StandingValid(it);
    NothingLeaves(b, was);
    ghost var ok := Leaves(b, was) && IsImage(ItemAt(b, was.ptr));
    if ok { TagLeaves(b, was); }
    var tag;
    r, tag := ParseTag(it);
    if r != Ok {
      return;
    }
    ghost var here := it.State();
    LeavesUnderTag(b, was, here);
    LeavesDecode(b, was);
    if tag != ROW_MAJOR {
      return ErrorParse, multidim, x, end;
    }
    ReadyStands(it);
    if ok {
      ImageLengths(ItemAt(b, here.ptr).items);
      ArrayStands(b, here, 2);
    }
    var elt := new CborValue();
    r := EnterArray(it, elt, 2);
    if r != Ok {
      return;
    }
    r, multidim, x, end := ParseImage(elt);
    if r != Ok {
      return;
    }
    var e := it.LeaveContainer(elt);
    LandingError(b, here, end, e, it.State());
    if e == NoError {
      ghost var content := ImageOf(multidim, x);
      ArrayConsumed(b, here, content, end, it.State());
      ConsumedTagged(b, was, here, Array(false, content), end, it.State());
      ConsumedLeaves(b, was, Tagged(ROW_MAJOR, Array(false, content)), end, it.State());
    }
    r := CborResult(e);
  }

  lemma ImageItems(xs: Items)
    ensures AreImage(xs) ==> AreTwo(xs) && IsPair(xs.head) && IsTyped(xs.tail.head)
  {
  }

  /** The last check is the one that is missing. */
  lemma ImageIff(d0: nat, d1: nat, typed: TypedArray, len: nat, x: Item)
    requires WholeElements(typed, len) && IsData(x) && SizeOf(x) == DataSize(typed.data)
    ensures AreImage(Cons(Pair(d0, d1), Cons(Tagged(typed.tag, x), Nil))) <==> d0 * d1 % UINT64_LIMIT == len
  {
    hide SizeOf;
    hide ElemSize;
    hide IsData;
    var size := ElemSize(typed.tag);
    ExactDivision(len, size);
  }

  lemma ExactDivision(n: nat, size: nat)
    requires size == 1 || size == 2 || size == 4 || size == 8 || size == 16
    ensures n * size % size == 0 && n * size / size == n
  {
    if size == 1 {
    } else if size == 2 {
    } else if size == 4 {
    } else if size == 8 {
    } else {
    }
  }
}

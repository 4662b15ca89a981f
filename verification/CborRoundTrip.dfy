/** Whole trees through the encoder and back through the iterator. */
module CborRoundTrip {
  import opened Wrappers
  import opened ByteSeqs
  import opened CborFormat
  import opened CborGrammar
  import opened CborStrings
  import opened CborIterator
  import opened CborParser
  import opened CborAccess
  import opened CborEncoding
  import E = CborEncoder

  // ----- writing -----

  /** Writes a tree: each container through an encoder of its own, created and closed around its content. */
  method WriteItem(encoder: E.CborEncoder, x: Item) returns (err: CborError)
    requires encoder.Valid() && Encodable(x)
    modifies encoder, encoder.buffer
    ensures encoder.Appended(Encode(x), 1, err)
    decreases x
  {
    hide HeadBytes;
    hide E.Grown;
    ghost var before, from := encoder.buffer[..], encoder.written;
    match x
    case Integer(negative, arg) =>
      if negative {
        err := encoder.EncodeNegativeInt((arg + 1) % UINT64_LIMIT);
      } else {
        err := encoder.EncodeUint(arg);
      }
    case Str(text, data) => err := encoder.EncodeString(text, data);
    case Array(indefinite, items) => err := WriteContainer(encoder, false, indefinite, Len(items), items);
    case Map(indefinite, items) => err := WriteContainer(encoder, true, indefinite, Len(items) / 2, items);
    case Tagged(tag, content) =>
      err := encoder.EncodeTag(tag);
      ghost var between, mid := encoder.buffer[..], encoder.written;
      err := WriteItem(encoder, content);
      E.GrownTwice(before, from, between, mid, encoder.buffer[..], encoder.written);
      assert encoder.log == old(encoder.log) + (HeadBytes(TAG, tag) + Encode(content));
    case Simple(value) => err := encoder.EncodeSimpleValue(value);
    case Float(info, bits) => err := encoder.EncodeFloatingPoint(info, bits);
  }

  method WriteContainer(encoder: E.CborEncoder, isMap: bool, indefinite: bool, count: nat, items: Items)
    returns (err: CborError)
    requires encoder.Valid() && EncodableAll(items)
    requires Len(items) == if isMap then 2 * count else count
    requires !indefinite ==> if isMap then count <= E.SIZE_MAX / 2 else count < E.SIZE_MAX
    modifies encoder, encoder.buffer
    ensures var opening := Opening(if isMap then MAP else ARRAY, indefinite, count);
            encoder.Appended(opening + EncodeAll(items) + Closing(indefinite), 1, err)
    decreases items, 1
  {
    hide HeadBytes;
    hide EncodeAll;
    hide Opening;
    hide E.CborEncoder.Valid;
    hide Closing;
    hide E.Grown;
    ghost var start, before, from := encoder.log, encoder.buffer[..], encoder.written;
    ghost var opening := Opening(if isMap then MAP else ARRAY, indefinite, count);
    var container := new E.CborEncoder(encoder.buffer);
    OpenContainer(encoder, container, isMap, indefinite, count);
    ghost var begun, first := encoder.buffer[..], container.written;
    WriteItems(container, items);
    ghost var filled, second := encoder.buffer[..], container.written;
    E.GrownTwice(before, from, begun, first, filled, second);
    err := encoder.CloseContainer(container);
    E.GrownTwice(before, from, filled, second, encoder.buffer[..], encoder.written);
    Regroup(start, opening, EncodeAll(items), Closing(indefinite));
  }

  lemma Regroup(s: seq<byte>, t: seq<byte>, u: seq<byte>, v: seq<byte>)
    ensures s + t + u + v == s + (t + u + v)
  {
  }

  method OpenContainer(encoder: E.CborEncoder, container: E.CborEncoder, isMap: bool, indefinite: bool, count: nat)
    requires encoder.Valid() && container != encoder
    requires !indefinite ==> if isMap then count <= E.SIZE_MAX / 2 else count < E.SIZE_MAX
    modifies encoder`remaining, encoder`items, container, encoder.buffer
    ensures container.Valid() && encoder.items == old(encoder.items) + 1 && encoder.Counts()
    ensures container.buffer == encoder.buffer && container.capacity == encoder.capacity && container.items == 0
    ensures container.log == encoder.log + Opening(if isMap then MAP else ARRAY, indefinite, count)
    ensures |container.log| > 0
    ensures container.unknownLength == indefinite
    ensures !indefinite ==> container.expected == if isMap then 2 * count else count
    ensures E.Grown(old(encoder.buffer[..]), encoder.written, encoder.buffer[..], container.written)
  {
    hide HeadBytes;
    hide E.Grown;
    var length := if indefinite then E.INDEFINITE_LENGTH else count;
    var err;
    if isMap {
      err := encoder.CreateMap(container, length);
    } else {
      err := encoder.CreateArray(container, length);
    }
  }

  method WriteItems(encoder: E.CborEncoder, xs: Items)
    requires encoder.Valid() && EncodableAll(xs)
    modifies encoder, encoder.buffer
    ensures encoder.Valid() && encoder.Kept()
    ensures encoder.log == old(encoder.log) + EncodeAll(xs) && encoder.items == old(encoder.items) + Len(xs)
    ensures E.Grown(old(encoder.buffer[..]), old(encoder.written), encoder.buffer[..], encoder.written)
    decreases xs, 0
  {
    hide E.Grown;
    hide Encode;
    ghost var before, from := encoder.buffer[..], encoder.written;
    E.NothingGrown(before, from);
    if xs.Cons? {
      var err := WriteItem(encoder, xs.head);
      ghost var between, mid := encoder.buffer[..], encoder.written;
      WriteItems(encoder, xs.tail);
      E.GrownTwice(before, from, between, mid, encoder.buffer[..], encoder.written);
      assert encoder.log == old(encoder.log) + (Encode(xs.head) + EncodeAll(xs.tail));
    } else {
      assert encoder.log == old(encoder.log) + [];
    }
  }

  /** Encodes a tree, growing the buffer once if the first one is too small: the second attempt cannot fail, and it
      fills the buffer exactly. */
  method EncodeToFit(x: Item, size: nat) returns (buffer: array<byte>, len: nat)
    requires Encodable(x)
    ensures fresh(buffer) && len == |Encode(x)| <= buffer.Length && buffer[..len] == Encode(x)
    ensures buffer.Length == if |Encode(x)| <= size then size else |Encode(x)|
  {
    hide Encode;
    buffer := new byte[size];
    var encoder := new E.CborEncoder(buffer);
    var err := WriteItem(encoder, x);
    assert encoder.log == Encode(x);
    var extra := encoder.GetExtraBytesNeeded();
    if extra > 0 {
      buffer := new byte[size + extra];
      encoder := new E.CborEncoder(buffer);
      err := WriteItem(encoder, x);
      assert encoder.log == Encode(x);
    }
    len := encoder.GetBufferSize();
  }

  /** Measuring over no buffer at all gives the size of a buffer that the encoding fills. */
  method MeasureItem(x: Item) returns (size: nat)
    requires Encodable(x)
    ensures size == |Encode(x)|
  {
    hide Encode;
    var encoder := new E.CborEncoder.Measure();
    var err := WriteItem(encoder, x);
    assert encoder.log == Encode(x);
    size := encoder.GetExtraBytesNeeded();
  }

  // ----- reading -----

  /** The tree with every chunked string made whole: what a reader that copies strings sees. */
  function Whole(x: Item): Item {
    match x
    case Chunked(text, chunks) => Str(text, Flatten(chunks))
    case Array(indefinite, items) => Array(indefinite, WholeAll(items))
    case Map(indefinite, items) => Map(indefinite, WholeAll(items))
    case Tagged(tag, content) => Tagged(tag, Whole(content))
    case _ => x
  }

  function WholeAll(xs: Items): Items {
    if xs.Nil? then Nil else Cons(Whole(xs.head), WholeAll(xs.tail))
  }

  /** What the encoder writes has no chunks. */
  lemma {:induction false} EncodableIsWhole(x: Item)
    requires Encodable(x)
    ensures Whole(x) == x
    decreases x
  {
    match x
    case Array(_, items) => EncodableAllAreWhole(items);
    case Map(_, items) => EncodableAllAreWhole(items);
    case Tagged(_, content) => EncodableIsWhole(content);
    case _ =>
  }

  lemma {:induction false} EncodableAllAreWhole(xs: Items)
    requires EncodableAll(xs)
    ensures WholeAll(xs) == xs
    decreases xs
  {
    if xs.Cons? {
      EncodableIsWhole(xs.head);
      EncodableAllAreWhole(xs.tail);
    }
  }

  /** The tree at `p` with its end, if its counts fit. */
  ghost function TreeAt(b: seq<byte>, p: nat): Option<(Item, nat)> {
    var r := Decode(b, p);
    if r.Some? && Countable(r.value.0) then Some((Whole(r.value.0), r.value.1)) else None
  }

  ghost function CountedTrees(b: seq<byte>, p: nat, n: nat): Option<(Items, nat)> {
    var r := DecodeItems(b, p, n);
    if r.Some? && CountableAll(r.value.0) then Some((WholeAll(r.value.0), r.value.1)) else None
  }

  ghost function TreesToBreak(b: seq<byte>, p: nat, isMap: bool, valueDue: bool): Option<(Items, nat)> {
    var r := DecodeToBreak(b, p, isMap, valueDue);
    if r.Some? && CountableAll(r.value.0) then Some((WholeAll(r.value.0), r.value.1)) else None
  }

  /** The trees still to come in the container that `it` walks, with its end. */
  ghost function TreesFrom(b: seq<byte>, it: Iter): Option<(Items, nat)> {
    if it.remaining == 0 then Some((Nil, it.ptr))
    else if it.remaining == UINT32_MAX then
      TreesToBreak(b, it.ptr, it.flags.containerIsMap, it.flags.nextIsMapKey)
    else CountedTrees(b, it.ptr, it.remaining)
  }

  ghost function PutFirst(x: Item, xs: Option<(Items, nat)>): Option<(Items, nat)> {
    if xs.None? then None else Some((Cons(x, xs.value.0), xs.value.1))
  }

  /** The outcome of reading the item at `was` and moving past it. */
  ghost predicate ReadPast(b: seq<byte>, was: Iter, err: CborError, x: Item, now: Iter) {
    match TreeAt(b, was.ptr)
    case None => err != NoError
    case Some((y, e)) =>
      && (err == NoError <==> CanLand(b, AsItem(was), e))
      && (err == NoError ==> x == y && Landed(b, AsItem(was), e, err, now))
  }

  /** The iterator with any tags counted to the item they stand before. */
  function AsItem(it: Iter): Iter {
    it.(typ := INVALID_TYPE)
  }

  lemma CountedTreesStep(b: seq<byte>, p: nat, n: nat)
    requires n > 0
    ensures CountedTrees(b, p, n) ==
            match TreeAt(b, p)
            case None => None
            case Some((x, e)) => PutFirst(x, CountedTrees(b, e, n - 1))
  {
  }

  lemma TreesToBreakStep(b: seq<byte>, p: nat, isMap: bool, valueDue: bool)
    requires !(p < |b| && b[p] == BREAK)
    ensures TreesToBreak(b, p, isMap, valueDue) ==
            match TreeAt(b, p)
            case None => None
            case Some((x, e)) => PutFirst(x, TreesToBreak(b, e, isMap, !valueDue))
  {
  }

  lemma TreesStep(b: seq<byte>, it: Iter)
    requires it.remaining > 0 && !(it.ptr < |b| && b[it.ptr] == BREAK)
    ensures TreesFrom(b, it) ==
            match TreeAt(b, it.ptr)
            case None => None
            case Some((x, e)) => PutFirst(x, TreesFrom(b, Following(it, e)))
  {
    hide TreeAt;
    if it.remaining == UINT32_MAX {
      TreesToBreakStep(b, it.ptr, it.flags.containerIsMap, it.flags.nextIsMapKey);
    } else {
      CountedTreesStep(b, it.ptr, it.remaining);
      if it.remaining == 1 && TreeAt(b, it.ptr).Some? {
        NoTrees(b, TreeAt(b, it.ptr).value.1);
      }
    }
  }

  lemma NoTrees(b: seq<byte>, p: nat)
    ensures CountedTrees(b, p, 0) == Some((Nil, p))
  {
  }

  /** The iterator past an item that ended at `e`, before the next one has been looked for. */
  function Following(it: Iter, e: nat): Iter
    requires it.remaining > 0
  {
    it.(ptr := e, remaining := if it.remaining == UINT32_MAX then UINT32_MAX else it.remaining - 1,
        flags := it.flags.(nextIsMapKey := !it.flags.nextIsMapKey))
  }

  lemma TreesOnArrival(b: seq<byte>, was: Iter, err: CborError, now: Iter)
    requires was.remaining > 0 && was.typ != TAG_TYPE && Arrived(b, was, err, now)
    ensures TreesFrom(b, was) == if err == NoError then TreesFrom(b, now) else None
  {
    NoTreeNoStart(b, was.ptr);
    if was.remaining < UINT32_MAX {
      CountedTreesStep(b, was.ptr, was.remaining);
    } else if !(was.ptr < |b| && b[was.ptr] == BREAK) {
      TreesToBreakStep(b, was.ptr, was.flags.containerIsMap, was.flags.nextIsMapKey);
    }
  }

  lemma NoTreeNoStart(b: seq<byte>, p: nat)
    ensures !StartsAt(b, p) ==> TreeAt(b, p).None?
  {
    DecodeStarts(b, p);
  }

  /** Reading one item and then the others is reading all of them. */
  lemma TreesRead(b: seq<byte>, was: Iter, err: CborError, x: Item, now: Iter)
    requires AtItem(b, was) && ReadPast(b, was, err, x, now)
    ensures TreesFrom(b, was) == if err == NoError then PutFirst(x, TreesFrom(b, now)) else None
    ensures err == NoError ==> Standing(b, now) && now.ptr > was.ptr
  {
    hide TreesFrom;
    TreesStartWithItem(b, was);
    if TreeAt(b, was.ptr).Some? {
      var e := TreeAt(b, was.ptr).value.1;
      if err == NoError {
        TreesAfterLanding(b, was, e, now);
      } else {
        NoLandingNoTrees(b, was, e);
      }
    }
  }

  lemma TreesStartWithItem(b: seq<byte>, was: Iter)
    requires AtItem(b, was)
    ensures TreesFrom(b, was) ==
            match TreeAt(b, was.ptr)
            case None => None
            case Some((x, e)) => PutFirst(x, TreesFrom(b, Following(was, e)))
  {
    if was.ptr < |b| && b[was.ptr] == BREAK { BreakStartsNothing(b, was.ptr); }
    TreesStep(b, was);
  }

  lemma TreesAfterLanding(b: seq<byte>, was: Iter, e: nat, now: Iter)
    requires was.remaining > 0 && Landed(b, AsItem(was), e, NoError, now)
    ensures TreesFrom(b, Following(was, e)) == TreesFrom(b, now)
  {
    if Following(was, e).remaining > 0 {
      hide TreesToBreak;
      hide CountedTrees;
      TreesOnArrival(b, AsItem(Following(was, e)), NoError, now);
    }
  }

  lemma NoLandingNoTrees(b: seq<byte>, was: Iter, e: nat)
    requires was.remaining > 0 && !CanLand(b, AsItem(was), e)
    ensures TreesFrom(b, Following(was, e)).None?
  {
    NoTreeNoStart(b, e);
    if was.remaining < UINT32_MAX {
      CountedTreesStep(b, e, was.remaining - 1);
    } else if !(e < |b| && b[e] == BREAK) {
      TreesToBreakStep(b, e, was.flags.containerIsMap, !was.flags.nextIsMapKey);
    }
  }

  lemma LandedAsItem(b: seq<byte>, was: Iter, same: Iter, e: nat, err: CborError, now: Iter)
    requires was.typ != TAG_TYPE && SamePlace(was, same) && was.remaining > 0
    ensures Landed(b, was, e, err, now) <==> Landed(b, AsItem(same), e, err, now)
    ensures CanLand(b, was, e) <==> CanLand(b, AsItem(same), e)
  {
  }

  /** The tree under a tag is what stands after the head of the tag. */
  lemma TreeUnderTag(b: seq<byte>, p: nat)
    requires TagHeadAt(b, p)
    ensures TreeAt(b, p) ==
            match TreeAt(b, HeadEnd(b, p))
            case None => None
            case Some((x, e)) => Some((Tagged(HeadAt(b, p).value.arg, x), e))
  {
  }

  /** The tree of a string has its content, whole. */
  lemma TreeOfString(b: seq<byte>, it: Iter)
    requires AtItem(b, it) && IsString(it.typ)
    ensures TreeAt(b, it.ptr) ==
            match StringAt(b, it.ptr)
            case None => None
            case Some((data, e)) => Some((Str(it.typ == TEXT_STRING_TYPE, data), e))
  {
  }

  function Wrap(typ: byte, indefinite: bool, xs: Option<(Items, nat)>): Option<(Item, nat)> {
    if xs.None? then None
    else Some((ContainerItem(if typ == MAP_TYPE then MAP else ARRAY, indefinite, xs.value.0), xs.value.1))
  }

  /** The tree of a container has the trees that the iterator over its content will read. */
  lemma TreeOfContainer(b: seq<byte>, it: Iter, err: CborError, now: Iter)
    requires AtItem(b, it) && IsContainer(it.typ) && Entered(b, it, err, now)
    ensures TreeAt(b, it.ptr) ==
            if err == NoError then Wrap(it.typ, it.flags.unknownLength, TreesFrom(b, now)) else None
  {
    hide TreesFrom;
    hide TreeAt;
    var h := HeadAt(b, it.ptr).value;
    TreeInside(b, it);
    if h.info == INDEFINITE || (CountFits(h) && h.arg > 0) {
      TreesOnArrival(b, Inside(it, h), err, now);
    } else if CountFits(h) {
      NoTreesLeft(b, now);
      NoTreesLeft(b, Inside(it, h));
    }
  }

  lemma NoTreesLeft(b: seq<byte>, it: Iter)
    requires it.remaining == 0
    ensures TreesFrom(b, it) == Some((Nil, it.ptr))
  {
  }

  lemma TreeInside(b: seq<byte>, it: Iter)
    requires AtItem(b, it) && IsContainer(it.typ)
    ensures var h := HeadAt(b, it.ptr).value;
            TreeAt(b, it.ptr) ==
            if h.info == INDEFINITE || CountFits(h)
            then Wrap(it.typ, it.flags.unknownLength, TreesFrom(b, Inside(it, h))) else None
  {
    hide Decode;
    DecodeContainer(b, it.ptr);
  }

  /** Reads a tree by entering, advancing and leaving. There is no error exactly when a well-formed item with counts
      that fit stands here and whatever follows can follow it; then the tree is the one these bytes denote. */
  method ReadItem(it: CborValue) returns (err: CborError, x: Item)
    requires it.Ready()
    modifies it
    ensures it.buf == old(it.buf) && it.Valid()
    ensures ReadPast(it.buf, old(it.State()), err, x, it.State())
    decreases |it.buf| - it.ptr, 1
  {
    hide TreeAt;
    hide Landed;
    hide CanLand;
    x := Simple(0);
    ghost var b, was := it.buf, it.State();
    if it.typ == TAG_TYPE {
      var tag := GetTag(it);
      TreeUnderTag(b, was.ptr);
      err := it.AdvanceFixed();
      TagLanding(b, was, err, it.State());
      NoTreeNoStart(b, HeadEnd(b, was.ptr));
      if err != NoError {
        return;
      }
      ghost var here := it.State();
      err, x := ReadItem(it);
      x := Tagged(tag, x);
      SamePlaceLands(b, here, was, err, it.State());
    } else if IsString(it.typ) {
      TreeOfString(b, was);
      var text := it.typ == TEXT_STRING_TYPE;
      err, x := ReadString(it, text);
    } else if IsContainer(it.typ) {
      err, x := ReadContainer(it);
    } else {
      x := ReadLeaf(it);
      err := it.AdvanceFixed();
      LeafRead(b, was, err, x, it.State());
    }
  }

  lemma SamePlaceLands(b: seq<byte>, was: Iter, same: Iter, err: CborError, now: Iter)
    requires SamePlace(was, same) && was.remaining > 0
    ensures forall e: nat :: Landed(b, AsItem(was), e, err, now) <==> Landed(b, AsItem(same), e, err, now)
    ensures forall e: nat :: CanLand(b, AsItem(was), e) <==> CanLand(b, AsItem(same), e)
  {
    forall e: nat
      ensures Landed(b, AsItem(was), e, err, now) <==> Landed(b, AsItem(same), e, err, now)
      ensures CanLand(b, AsItem(was), e) <==> CanLand(b, AsItem(same), e)
    {
      LandedAsItem(b, AsItem(was), same, e, err, now);
    }
  }

  method ReadString(it: CborValue, text: bool) returns (err: CborError, x: Item)
    requires it.Ready() && IsString(it.typ) && text == (it.typ == TEXT_STRING_TYPE)
    modifies it
    ensures it.buf == old(it.buf) && it.Valid()
    ensures ReadPast(it.buf, old(it.State()), err, x, it.State())
  {
    hide TreeAt;
    hide StringAt;
    hide Landed;
    hide CanLand;
    x := Simple(0);
    ghost var b, was := it.buf, it.State();
    TreeOfString(b, was);
    var buffer, buflen;
    err, buffer, buflen := DupString(it, it);
    if StringAt(b, was.ptr).Some? {
      LandedAsItem(b, was, was, StringAt(b, was.ptr).value.1, err, it.State());
    }
    if err == NoError {
      x := Str(text, buffer[..buflen]);
    }
  }

  /** The value of an item without content. */
  method ReadLeaf(it: CborValue) returns (x: Item)
    requires it.Ready() && !IsString(it.typ) && !IsContainer(it.typ) && it.typ != TAG_TYPE
    ensures Decode(it.buf, it.ptr) == Some((x, HeadEnd(it.buf, it.ptr)))
  {
    if it.typ == INTEGER_TYPE {
      var arg, negative := GetRawInteger(it);
      x := Integer(negative, arg);
    } else if it.typ == BOOLEAN_TYPE {
      var value := GetBoolean(it);
      x := Simple(if value then 21 else 20);
    } else if it.typ == NULL_TYPE || it.typ == UNDEFINED_TYPE {
      x := Simple(if it.typ == NULL_TYPE then 22 else 23);
    } else if it.typ == SIMPLE_TYPE {
      var value := GetSimpleType(it);
      x := Simple(value);
    } else {
      var bits := GetFloatBits(it);
      x := Float(it.typ - SIMPLE_TYPE, bits);
    }
  }

  lemma LeafRead(b: seq<byte>, was: Iter, err: CborError, x: Item, now: Iter)
    requires AtItem(b, was) && !IsString(was.typ) && !IsContainer(was.typ) && was.typ != TAG_TYPE
    requires Decode(b, was.ptr) == Some((x, HeadEnd(b, was.ptr)))
    requires Landed(b, was, HeadEnd(b, was.ptr), err, now)
    ensures ReadPast(b, was, err, x, now)
  {
    LeafIsWhole(b, was.ptr);
    LandingError(b, was, HeadEnd(b, was.ptr), err, now);
    LandedAsItem(b, was, was, HeadEnd(b, was.ptr), err, now);
  }

  lemma LeafIsWhole(b: seq<byte>, p: nat)
    requires Decode(b, p).Some?
    requires !Decode(b, p).value.0.Array? && !Decode(b, p).value.0.Map? && !Decode(b, p).value.0.Tagged?
    ensures !Decode(b, p).value.0.Chunked? ==> TreeAt(b, p) == Decode(b, p)
  {
  }

  method ReadContainer(it: CborValue) returns (err: CborError, x: Item)
    requires it.Ready() && IsContainer(it.typ)
    modifies it
    ensures it.buf == old(it.buf) && it.Valid()
    ensures ReadPast(it.buf, old(it.State()), err, x, it.State())
    decreases |it.buf| - it.ptr, 0
  {
    hide TreeAt;
    hide TreesFrom;
    hide Landed;
    hide CanLand;
    hide Entered;
    x := Simple(0);
    ghost var b, was := it.buf, it.State();
    var recursed := new CborValue();
    err := it.EnterContainer(recursed);
    TreeOfContainer(b, was, err, recursed.State());
    if err != NoError {
      return;
    }
    EnteredStands(b, was, recursed.State());
    var xs;
    err, xs := ReadItems(recursed);
    if err != NoError {
      return;
    }
    x := if it.typ == MAP_TYPE then Map(it.flags.unknownLength, xs) else Array(it.flags.unknownLength, xs);
    ghost var e := recursed.ptr;
    err := it.LeaveContainer(recursed);
    LandingError(b, was, e, err, it.State());
    LandedAsItem(b, was, was, e, err, it.State());
  }

  /** Reads the items left in a container, up to its end. */
  method ReadItems(it: CborValue) returns (err: CborError, xs: Items)
    requires Standing(it.buf, it.State())
    modifies it
    ensures it.buf == old(it.buf) && it.Valid()
    ensures match TreesFrom(it.buf, old(it.State()))
            case None => err != NoError
            case Some((ys, e)) => err == NoError && xs == ys && it.ptr == e && it.typ == INVALID_TYPE
    decreases |it.buf| - it.ptr, 2
  {
    hide TreesFrom;
    hide ReadPast;
    xs := Nil;
    ghost var b, was := it.buf, it.State();
    if it.remaining == 0 {
      NoTreesLeft(b, was);
      return NoError, Nil;
    }
    var x;
    err, x := ReadItem(it);
    TreesRead(b, was, err, x, it.State());
    if err != NoError {
      return;
    }
    err, xs := ReadItems(it);
    xs := Cons(x, xs);
  }

  // ----- whatever is read can be written -----

  lemma {:induction false} WholeLength(xs: Items)
    ensures Len(WholeAll(xs)) == Len(xs)
  {
    if xs.Cons? { WholeLength(xs.tail); }
  }

  /** Every well-formed item, its strings made whole, is one that the encoder can write; and what it writes is read as
      the same tree again. */
  lemma Rewritten(b: Buffer, p: nat)
    requires Decode(b, p).Some?
    ensures var x := Whole(Decode(b, p).value.0);
            Encodable(x) && Decode(Encode(x), 0) == Some((x, |Encode(x)|))
  {
    DecodedIsEncodable(b, p);
    hide Encode;
    hide Decode;
    hide Whole;
    var x := Whole(Decode(b, p).value.0);
    assert Encode(x)[0..|Encode(x)|] == Encode(x);
    DecodeEncoded(Encode(x), 0, x);
  }

  lemma {:induction false} DecodedIsEncodable(b: Buffer, p: nat)
    requires Decode(b, p).Some?
    ensures Encodable(Whole(Decode(b, p).value.0))
    decreases Left(b, p), 1
  {
    hide Decode;
    hide HeadAt;
    HeadOfItem(b, p);
    var x := Decode(b, p).value.0;
    var h := HeadAt(b, p).value;
    match x
    case Tagged(_, _) =>
      DecodeTagged(b, p);
      DecodedIsEncodable(b, p + h.size);
    case Array(_, items) =>
      DecodeContainer(b, p);
      ContentIsEncodable(b, p + h.size, h);
      WholeLength(items);
    case Map(_, items) =>
      DecodeContainer(b, p);
      ContentIsEncodable(b, p + h.size, h);
      WholeLength(items);
    case _ => LeafIsEncodable(b, p);
  }

  lemma LeafIsEncodable(b: Buffer, p: nat)
    requires Decode(b, p).Some?
    requires var x := Decode(b, p).value.0; !x.Array? && !x.Map? && !x.Tagged?
    ensures Encodable(Whole(Decode(b, p).value.0))
  {
    var x := Decode(b, p).value.0;
    ArgumentFits(b, p);
    if x.Chunked? {
      ContentFits(b, p);
      hide BigEndian;
    }
    ShortArguments(b, p);
    hide BigEndian;
  }

  lemma ArgumentFits(b: seq<byte>, p: nat)
    ensures HeadAt(b, p).Some? && HeadAt(b, p).value.info in [VALUE_8_BIT, VALUE_16_BIT, VALUE_32_BIT, VALUE_64_BIT] ==>
              HeadAt(b, p).value.arg < Pow256(ArgBytes(HeadAt(b, p).value.info))
  {
  }

  /** The items of a container: as many as announced, or up to a break. */
  lemma {:induction false} ContentIsEncodable(b: Buffer, q: nat, h: Head)
    requires q <= |b| && ARRAY <= h.major <= MAP
    requires var isMap := h.major == MAP;
             if h.info == INDEFINITE then DecodeToBreak(b, q, isMap, false).Some?
             else DecodeItems(b, q, if isMap then 2 * h.arg else h.arg).Some?
    ensures var isMap := h.major == MAP;
            var xs := if h.info == INDEFINITE then DecodeToBreak(b, q, isMap, false).value.0
                      else DecodeItems(b, q, if isMap then 2 * h.arg else h.arg).value.0;
            EncodableAll(WholeAll(xs)) && Len(xs) <= |b| && (isMap ==> Len(xs) % 2 == 0)
    decreases Left(b, q), 4
  {
    hide DecodeToBreak;
    hide DecodeItems;
    hide WholeAll;
    if h.info == INDEFINITE {
      OpenItemsAreEncodable(b, q, h.major == MAP, false);
    } else {
      ItemsAreEncodable(b, q, if h.major == MAP then 2 * h.arg else h.arg);
    }
  }

  lemma {:induction false} ItemsAreEncodable(b: Buffer, p: nat, n: nat)
    requires p <= |b| && DecodeItems(b, p, n).Some?
    ensures var (xs, e) := DecodeItems(b, p, n).value; EncodableAll(WholeAll(xs)) && p + Len(xs) <= e
    decreases Left(b, p), 3
  {
    hide Decode;
    hide Whole;
    hide Encodable;
    if n > 0 {
      DecodedIsEncodable(b, p);
      ItemsAreEncodable(b, Decode(b, p).value.1, n - 1);
    }
  }

  lemma {:induction false} OpenItemsAreEncodable(b: Buffer, p: nat, isMap: bool, valueDue: bool)
    requires DecodeToBreak(b, p, isMap, valueDue).Some?
    ensures var (xs, e) := DecodeToBreak(b, p, isMap, valueDue).value;
            && EncodableAll(WholeAll(xs)) && p + Len(xs) < e
            && (isMap ==> (Len(xs) % 2 == 0 <==> !valueDue))
    decreases Left(b, p), 3
  {
    hide Decode;
    hide Whole;
    hide Encodable;
    if !(p < |b| && b[p] == BREAK) {
      DecodedIsEncodable(b, p);
      OpenItemsAreEncodable(b, Decode(b, p).value.1, isMap, !valueDue);
    }
  }

  // ----- both -----

  /** A tree that is written and then read from the buffer is the same tree; it must only have counts that the
      reader's 32-bit counter can hold. */
  method WriteThenRead(x: Item, size: nat) returns (err: CborError, y: Item)
    requires Encodable(x) && |Encode(x)| <= PTRDIFF_MAX
    ensures Countable(x) ==> err == NoError && y == x
    ensures !Countable(x) ==> err != NoError
  {
    hide Encode;
    hide Decode;
    var buffer, len := EncodeToFit(x, size);
    var b: Buffer := buffer[..len];
    assert b[0..len] == Encode(x);
    DecodeEncoded(b, 0, x);
    EncodableIsWhole(x);
    var it := new CborValue();
    HeadErrorMeaning(b, 0);
    NoTreeNoStart(b, 0);
    err := it.ParserInit(b);
    y := Simple(0);
    DecodeStarts(b, 0);
    ghost var was := it.State();
    err, y := ReadItem(it);
  }
}

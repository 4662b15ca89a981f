/** The state of a StAX iterator over a CBOR buffer, and what each state promises about the bytes ahead. */
module CborIterator {
  import opened Wrappers
  import opened ByteSeqs
  import opened CborFormat
  import opened CborGrammar
  import opened CborStrings

  const PTRDIFF_MAX: nat := 0x7fff_ffff_ffff_ffff
  const SIZE_MAX: nat := 0xffff_ffff_ffff_ffff

  /** No object in memory is larger than PTRDIFF_MAX bytes. */
  type Buffer = s: seq<byte> | |s| <= PTRDIFF_MAX
  type uint16 = x: int | 0 <= x < 0x1_0000
  type uint32 = x: int | 0 <= x <= UINT32_MAX

  // CborType
  const INTEGER_TYPE := 0x00
  const BYTE_STRING_TYPE := 0x40
  const TEXT_STRING_TYPE := 0x60
  const ARRAY_TYPE := 0x80
  const MAP_TYPE := 0xa0
  const TAG_TYPE := 0xc0
  const SIMPLE_TYPE := 0xe0
  const BOOLEAN_TYPE := 0xf5
  const NULL_TYPE := 0xf6
  const UNDEFINED_TYPE := 0xf7
  const HALF_FLOAT_TYPE := 0xf9
  const FLOAT_TYPE := 0xfa
  const DOUBLE_TYPE := 0xfb
  const INVALID_TYPE := 0xff

  /** The flag byte. One bit (0x02) means "negative integer" on integers and "iterating chunks" on strings. */
  datatype Flags = Flags(integerValueTooLarge: bool, negativeOrIterating: bool, unknownLength: bool,
                         containerIsMap: bool, nextIsMapKey: bool)

  const NO_FLAGS := Flags(false, false, false, false, false)

  /** `remaining` is the number of items left in the container, or UINT32_MAX up to a break. */
  datatype Iter = Iter(ptr: nat, remaining: uint32, extra: uint16, typ: byte, flags: Flags)

  predicate IsString(typ: byte) { typ == BYTE_STRING_TYPE || typ == TEXT_STRING_TYPE }

  predicate IsContainer(typ: byte) { typ == ARRAY_TYPE || typ == MAP_TYPE }

  /** The iterator type that announces a head. */
  function TypeOf(h: Head): byte
    requires h.major < 8
  {
    if h.major <= NEGATIVE then INTEGER_TYPE
    else if h.major < SIMPLE then h.major * 32
    else if h.info == 20 || h.info == 21 then BOOLEAN_TYPE
    else if h.info == 22 then NULL_TYPE
    else if h.info == 23 then UNDEFINED_TYPE
    else if h.info == VALUE_16_BIT then HALF_FLOAT_TYPE
    else if h.info == VALUE_32_BIT then FLOAT_TYPE
    else if h.info == VALUE_64_BIT then DOUBLE_TYPE
    else SIMPLE_TYPE
  }

  /** The heads whose argument is kept in `extra`. */
  predicate CachesArgument(h: Head) {
    && h.info != VALUE_32_BIT && h.info != VALUE_64_BIT && h.info != INDEFINITE
    && !(h.major == SIMPLE && (h.info == 20 || h.info == 21 || h.info == VALUE_16_BIT))
  }

  /** The iterator's cache agrees with the bytes: an item may start at `ptr`, `typ` and `flags` describe its head,
      and `extra` holds its argument whenever that fits (for a boolean, its truth value). */
  ghost predicate Cached(b: seq<byte>, it: Iter) {
    && StartsAt(b, it.ptr)
    && var h := HeadAt(b, it.ptr).value;
    && it.typ == TypeOf(h)
    && it.flags.unknownLength == (h.info == INDEFINITE)
    && it.flags.negativeOrIterating == (h.major == NEGATIVE)
    && it.flags.integerValueTooLarge == (h.info == VALUE_32_BIT || h.info == VALUE_64_BIT)
    && (it.typ == BOOLEAN_TYPE ==> (it.extra != 0) == (h.info == 21))
    && (CachesArgument(h) ==> it.extra == h.arg)
  }

  /** The type that a caller is told for an item (the enumeration CborType). */
  function PublicType(x: Item): int {
    match x
    case Integer(_, _) => 0x00
    case Str(text, _) => if text then 0x60 else 0x40
    case Chunked(text, _) => if text then 0x60 else 0x40
    case Array(_, _) => 0x80
    case Map(_, _) => 0xa0
    case Tagged(_, _) => 0xc0
    case Simple(value) =>
      if value == 20 || value == 21 then 0xf5 else if value == 22 then 0xf6 else if value == 23 then 0xf7 else 0xe0
    case Float(info, _) => if info == 25 then 0xf9 else if info == 26 then 0xfa else 0xfb
  }

  /** The cached type is that of the item that stands here. */
  lemma TypeIsPublic(b: seq<byte>, it: Iter)
    requires AtItem(b, it) && Decode(b, it.ptr).Some?
    ensures it.typ == PublicType(Decode(b, it.ptr).value.0)
  {
    ShortArguments(b, it.ptr);
    hide BigEndian;
  }

  /** At an item of the container: not at its end, and the cache is good. */
  ghost predicate AtItem(b: seq<byte>, it: Iter) {
    it.remaining > 0 && Cached(b, it)
  }

  /** What must hold after looking for an item where `was` points: either the break that ends an indefinite
      container has been consumed, or an item starts here, or `err` says that neither is possible. */
  ghost predicate Arrived(b: seq<byte>, was: Iter, err: CborError, now: Iter) {
    if was.remaining == UINT32_MAX && was.ptr < |b| && b[was.ptr] == BREAK then
      if (was.flags.containerIsMap && was.flags.nextIsMapKey) || was.typ == TAG_TYPE then err == UnexpectedBreak
      else err == NoError && now.ptr == was.ptr + 1 && now.remaining == 0 && now.typ == INVALID_TYPE
    else
      && err == HeadError(b, was.ptr) && (err == NoError <==> StartsAt(b, was.ptr))
      && (err == NoError ==>
            && now.ptr == was.ptr && now.remaining == was.remaining && Cached(b, now)
            && now.flags.containerIsMap == was.flags.containerIsMap
            && now.flags.nextIsMapKey == was.flags.nextIsMapKey)
  }

  /** What must hold after the iterator `was` has moved past the bytes up to `e`: a tag is not an item of its own, the
      last item of a counted container leaves the iterator at its end, and otherwise the next item is looked for. */
  ghost predicate Landed(b: seq<byte>, was: Iter, e: nat, err: CborError, now: Iter) {
    var counts := was.typ != TAG_TYPE;
    var left: int := if was.remaining == UINT32_MAX || !counts then was.remaining else was.remaining - 1;
    if left <= 0 then err == NoError && now.ptr == e && now.remaining == 0 && now.typ == INVALID_TYPE
    else
      var key := if counts then !was.flags.nextIsMapKey else was.flags.nextIsMapKey;
      Arrived(b, was.(ptr := e, remaining := left, flags := was.flags.(nextIsMapKey := key)), err, now)
  }

  /** The same item of the same container. */
  predicate SameItem(was: Iter, now: Iter) {
    && now.typ == was.typ && now.remaining == was.remaining
    && now.flags.unknownLength == was.flags.unknownLength
    && now.flags.containerIsMap == was.flags.containerIsMap && now.flags.nextIsMapKey == was.flags.nextIsMapKey
  }

  /** What a landing owes depends on the item left behind only through its type and its place in the container. */
  lemma LandedSame(b: seq<byte>, was: Iter, same: Iter, e: nat, err: CborError, now: Iter)
    requires SameItem(was, same)
    ensures Landed(b, was, e, err, now) <==> Landed(b, same, e, err, now)
  {
  }

  /** Whether moving past the bytes up to `e` meets no error. */
  ghost predicate CanLand(b: seq<byte>, was: Iter, e: nat) {
    if was.typ != TAG_TYPE && was.remaining <= 1 then true
    else if was.remaining == UINT32_MAX && e < |b| && b[e] == BREAK then
      was.typ != TAG_TYPE && !(was.flags.containerIsMap && !was.flags.nextIsMapKey)
    else StartsAt(b, e)
  }

  lemma LandingError(b: seq<byte>, was: Iter, e: nat, err: CborError, now: Iter)
    requires was.remaining > 0 && Landed(b, was, e, err, now)
    ensures err == NoError <==> CanLand(b, was, e)
    ensures err == NoError || err == UnexpectedBreak || err == HeadError(b, e)
  {
  }

  /** Where the container that `it` walks ends, when all its remaining items are well-formed and within the limits. */
  ghost function Pending(b: seq<byte>, it: Iter, depth: nat): Option<nat> {
    if it.remaining == 0 then Some(it.ptr)
    else if it.remaining == UINT32_MAX then
      ToBreakEnd(b, it.ptr, it.flags.containerIsMap, it.flags.nextIsMapKey, depth)
    else ItemsEnd(b, it.ptr, it.remaining, depth)
  }

  /** Why no item starts at `p`, if none does. */
  function HeadError(b: seq<byte>, p: nat): CborError {
    if p >= |b| then UnexpectedEOF
    else
      var major, info := b[p] / 32, b[p] % 32;
      if 28 <= info <= 30 then if major == SIMPLE then UnknownType else IllegalNumber
      else if info == INDEFINITE then
        if BYTE_STRING <= major <= MAP then NoError else if b[p] == BREAK then UnexpectedBreak else IllegalNumber
      else if p + 1 + ArgBytes(info) > |b| then UnexpectedEOF
      else if major == SIMPLE && info == VALUE_8_BIT && b[p + 1] < 32 then IllegalSimpleType
      else NoError
  }

  lemma HeadErrorMeaning(b: seq<byte>, p: nat)
    ensures HeadError(b, p) == NoError <==> StartsAt(b, p)
  {
    if HeadAt(b, p).Some? { ShortArguments(b, p); }
  }

  /** The errors by the first two bytes, in plain numbers. */
  lemma HeadErrorRows(b: seq<byte>, p: nat)
    ensures HeadError(b, p) == UnknownType <==> p < |b| && 0xfc <= b[p] <= 0xfe
    ensures HeadError(b, p) == UnexpectedBreak <==> p < |b| && b[p] == 0xff
    ensures HeadError(b, p) == IllegalNumber <==>
            p < |b| && b[p] < 0xfc && (28 <= b[p] % 32 <= 30 || b[p] in [0x1f, 0x3f, 0xdf])
    ensures HeadError(b, p) == IllegalSimpleType <==> p + 1 < |b| && b[p] == 0xf8 && b[p + 1] < 32
    ensures HeadError(b, p) in
            [NoError, UnknownType, UnexpectedBreak, IllegalNumber, IllegalSimpleType, UnexpectedEOF]
  {
  }

  /** An unexpected end is the one error that more bytes can mend. */
  lemma HeadErrorMore(b: seq<byte>, p: nat)
    requires p <= |b|
    ensures forall more :: HeadError(b, p) != UnexpectedEOF ==> HeadError(b + more, p) == HeadError(b, p)
    ensures HeadError(b, p) == UnexpectedEOF <==>
            HeadError(b, p) != NoError && exists more :: HeadError(b + more, p) == NoError
  {
    if HeadError(b, p) == UnexpectedEOF {
      var more: seq<byte> := seq(9, i => if i == 0 && p == |b| then 0 else 0xff);
      assert p < |b| ==> (b + more)[p] == b[p];
      assert HeadError(b + more, p) == NoError;
    }
  }

  /** A break byte starts no item. */
  lemma BreakStartsNothing(b: seq<byte>, p: nat)
    requires p < |b| && b[p] == BREAK
    ensures !StartsAt(b, p) && Decode(b, p).None?
  {
  }

  /** Every item starts with a head that may start one. */
  lemma DecodeStarts(b: seq<byte>, p: nat)
    ensures Decode(b, p).Some? ==> StartsAt(b, p)
  {
  }

  lemma PendingAtEnd(b: seq<byte>, it: Iter, depth: nat)
    requires it.remaining == 0
    ensures Pending(b, it, depth) == Some(it.ptr)
  {
  }

  /** Looking for the next item does not change where the container ends; it has no end when the look fails. */
  lemma PendingOnArrival(b: seq<byte>, was: Iter, err: CborError, now: Iter, depth: nat)
    requires was.remaining > 0 && Arrived(b, was, err, now)
    requires was.typ == TAG_TYPE ==> !(was.ptr < |b| && b[was.ptr] == BREAK)
    ensures Pending(b, was, depth) == if err == NoError then Pending(b, now, depth) else None
  {
    DecodeStarts(b, was.ptr);
    if was.remaining < UINT32_MAX {
      ItemsEndStep(b, was.ptr, was.remaining, depth);
    } else if !(was.ptr < |b| && b[was.ptr] == BREAK) {
      ToBreakEndStep(b, was.ptr, was.flags.containerIsMap, was.flags.nextIsMapKey, depth);
    }
  }

  /** Past a tag head, the end of the container is still the same: the tag and its content are one item. */
  lemma PendingPastTag(b: seq<byte>, was: Iter, err: CborError, now: Iter, depth: nat)
    requires AtItem(b, was) && was.typ == TAG_TYPE
    requires Landed(b, was, was.ptr + HeadAt(b, was.ptr).value.size, err, now)
    ensures Pending(b, was, depth) == if err == NoError then Pending(b, now, depth) else None
  {
    var e := was.ptr + HeadAt(b, was.ptr).value.size;
    PendingAcrossTag(b, was, depth);
    if !(e < |b| && b[e] == BREAK) {
      PendingOnArrival(b, was.(ptr := e), err, now, depth);
    }
  }

  lemma PendingAcrossTag(b: seq<byte>, it: Iter, depth: nat)
    requires AtItem(b, it) && it.typ == TAG_TYPE
    ensures var e := it.ptr + HeadAt(b, it.ptr).value.size;
            Pending(b, it, depth) ==
            if e < |b| && b[e] == BREAK then None else Pending(b, it.(ptr := e), depth)
  {
    var e := it.ptr + HeadAt(b, it.ptr).value.size;
    TagEnd(b, it.ptr, depth);
    PendingStep(b, it, depth);
    if e < |b| && b[e] == BREAK {
      BreakStartsNothing(b, e);
    } else {
      PendingStep(b, it.(ptr := e), depth);
    }
  }

  /** Unless a break comes next, the container ends where it does after its next item. */
  lemma PendingStep(b: seq<byte>, it: Iter, depth: nat)
    requires it.remaining > 0 && !(it.ptr < |b| && b[it.ptr] == BREAK)
    ensures Pending(b, it, depth) ==
            match ItemEnd(b, it.ptr, depth)
            case None => None
            case Some(e) =>
              if it.remaining == UINT32_MAX then
                ToBreakEnd(b, e, it.flags.containerIsMap, !it.flags.nextIsMapKey, depth)
              else ItemsEnd(b, e, it.remaining - 1, depth)
  {
    if it.remaining == UINT32_MAX {
      ToBreakEndStep(b, it.ptr, it.flags.containerIsMap, it.flags.nextIsMapKey, depth);
    } else {
      ItemsEndStep(b, it.ptr, it.remaining, depth);
    }
  }

  /** One item further, the end of the container is still the same; and it has no end if the next look fails. */
  lemma PendingPastItem(b: seq<byte>, was: Iter, e: nat, err: CborError, now: Iter, depth: nat)
    requires AtItem(b, was) && was.typ != TAG_TYPE
    requires ItemEnd(b, was.ptr, depth) == Some(e)
    requires Landed(b, was, e, err, now)
    ensures Pending(b, was, depth) == if err == NoError then Pending(b, now, depth) else None
  {
    var flags := was.flags.(nextIsMapKey := !was.flags.nextIsMapKey);
    if was.remaining == UINT32_MAX {
      ToBreakEndStep(b, was.ptr, was.flags.containerIsMap, was.flags.nextIsMapKey, depth);
      PendingOnArrival(b, was.(ptr := e, flags := flags), err, now, depth);
    } else {
      ItemsEndStep(b, was.ptr, was.remaining, depth);
      if was.remaining > 1 {
        PendingOnArrival(b, was.(ptr := e, remaining := was.remaining - 1, flags := flags), err, now, depth);
      }
    }
  }

  /** A container whose next item is not well-formed, or beyond the limits, has no end. */
  lemma PendingNone(b: seq<byte>, was: Iter, depth: nat)
    requires AtItem(b, was) && ItemEnd(b, was.ptr, depth).None?
    ensures Pending(b, was, depth).None?
  {
  }

  /** Whether the count of a definite-length container fits the 32-bit counter of the iterator. */
  predicate CountFits(h: Head) {
    h.arg < UINT32_MAX && (h.major == MAP ==> h.arg <= 0x7fff_ffff)
  }

  /** The iterator over the content of the container at `it`, before its first item has been looked for. */
  function Inside(it: Iter, h: Head): Iter
    requires h.info != INDEFINITE ==> CountFits(h)
  {
    Iter(it.ptr + h.size,
         if h.info == INDEFINITE then UINT32_MAX else if h.major == MAP then 2 * h.arg else h.arg,
         it.extra, it.typ, NO_FLAGS.(containerIsMap := h.major == MAP))
  }

  /** What is cached of the head of a container. */
  lemma ContainerHead(b: seq<byte>, it: Iter)
    requires AtItem(b, it) && IsContainer(it.typ)
    ensures it.ptr < |b| && HeadAt(b, it.ptr).Some?
    ensures var h := HeadAt(b, it.ptr).value;
            && (it.flags.unknownLength <==> h.info == INDEFINITE) && (h.info == INDEFINITE ==> h.size == 1)
            && (it.typ == MAP_TYPE <==> h.major == MAP)
  {
  }

  /** What must hold after entering the container at `it`. */
  ghost predicate Entered(b: seq<byte>, it: Iter, err: CborError, now: Iter)
    requires Cached(b, it) && IsContainer(it.typ)
  {
    var h := HeadAt(b, it.ptr).value;
    if h.info != INDEFINITE && !CountFits(h) then err == DataTooLarge && now.ptr == it.ptr
    else if h.info != INDEFINITE && h.arg == 0 then
      err == NoError && now.ptr == it.ptr + h.size && now.remaining == 0 && now.typ == INVALID_TYPE
    else Arrived(b, Inside(it, h), err, now)
  }

  /** A container item ends where the iterator over its content says, one level down. */
  lemma ContainerEnd(b: seq<byte>, it: Iter, err: CborError, now: Iter, depth: nat)
    requires AtItem(b, it) && IsContainer(it.typ)
    requires Entered(b, it, err, now)
    ensures ItemEnd(b, it.ptr, depth) == if err == NoError && depth > 0 then Pending(b, now, depth - 1) else None
  {
    var h := HeadAt(b, it.ptr).value;
    ContainerOpens(b, it, depth);
    if depth > 0 && (h.info == INDEFINITE || (CountFits(h) && h.arg > 0)) {
      PendingOnArrival(b, Inside(it, h), err, now, depth - 1);
    }
  }

  lemma ContainerOpens(b: seq<byte>, it: Iter, depth: nat)
    requires AtItem(b, it) && IsContainer(it.typ)
    ensures var h := HeadAt(b, it.ptr).value;
            ItemEnd(b, it.ptr, depth) ==
            if depth > 0 && (h.info == INDEFINITE || CountFits(h)) then Pending(b, Inside(it, h), depth - 1) else None
  {
    if HeadAt(b, it.ptr).value.info == INDEFINITE {
      OpenContainerEnd(b, it.ptr, depth);
    } else {
      CountedContainerEnd(b, it.ptr, depth);
    }
  }

  /** An iterator just entered stands at the first item, or at the end of an empty container. */
  lemma EnteredStands(b: seq<byte>, it: Iter, now: Iter)
    requires AtItem(b, it) && IsContainer(it.typ) && Entered(b, it, NoError, now)
    ensures Standing(b, now) && now.ptr > it.ptr
  {
  }

  lemma ContainerNeedsLevel(b: seq<byte>, it: Iter)
    requires AtItem(b, it) && IsContainer(it.typ)
    ensures ItemEnd(b, it.ptr, 0).None?
  {
    ContainerOpens(b, it, 0);
  }

  lemma CountedContainerEnd(b: seq<byte>, p: nat, depth: nat)
    requires HeadAt(b, p).Some? && HeadAt(b, p).value.info != INDEFINITE && ARRAY <= HeadAt(b, p).value.major <= MAP
    ensures var h := HeadAt(b, p).value;
            ItemEnd(b, p, depth) ==
            if CountFits(h) && depth > 0
            then ItemsEnd(b, p + h.size, if h.major == MAP then 2 * h.arg else h.arg, depth - 1)
            else None
  {
  }

  lemma OpenContainerEnd(b: seq<byte>, p: nat, depth: nat)
    requires HeadAt(b, p).Some? && HeadAt(b, p).value.info == INDEFINITE && ARRAY <= HeadAt(b, p).value.major <= MAP
    ensures var h := HeadAt(b, p).value;
            ItemEnd(b, p, depth) ==
            if depth > 0 then ToBreakEnd(b, p + h.size, h.major == MAP, false, depth - 1) else None
  {
  }

  /** Between items: at one that can be read, or at the end of the container. */
  ghost predicate Standing(b: seq<byte>, it: Iter) {
    it.ptr <= |b| && if it.remaining == 0 then it.typ == INVALID_TYPE else Cached(b, it)
  }

  /** Where one step of iteration ends: a tag is stepped over by itself, any other item as a whole. */
  ghost function StepEnd(b: seq<byte>, it: Iter, depth: nat): Option<nat> {
    if it.typ == TAG_TYPE then Some(HeadEnd(b, it.ptr)) else ItemEnd(b, it.ptr, depth)
  }

  /** The outcome of a step from `was`. */
  ghost predicate Stepped(b: seq<byte>, was: Iter, depth: nat, err: CborError, now: Iter) {
    match StepEnd(b, was, depth)
    case None => err != NoError
    case Some(e) => Landed(b, was, e, err, now)
  }

  /** A step keeps track of the end of the container, and moves forward. */
  lemma StepKeepsPending(b: seq<byte>, was: Iter, depth: nat, err: CborError, now: Iter)
    requires AtItem(b, was) && Stepped(b, was, depth, err, now)
    ensures Pending(b, was, depth) == if err == NoError then Pending(b, now, depth) else None
    ensures err == NoError ==> Standing(b, now) && now.ptr > was.ptr
  {
    if was.typ == TAG_TYPE {
      PendingPastTag(b, was, err, now, depth);
    } else if ItemEnd(b, was.ptr, depth).None? {
      PendingNone(b, was, depth);
    } else {
      PendingPastItem(b, was, ItemEnd(b, was.ptr, depth).value, err, now, depth);
    }
  }

  /** Items without content end with their head. */
  lemma FixedEnd(b: seq<byte>, it: Iter, depth: nat)
    requires AtItem(b, it) && !IsString(it.typ) && !IsContainer(it.typ)
    ensures StepEnd(b, it, depth) == Some(HeadEnd(b, it.ptr))
  {
  }

  /** Strings end after their content, whatever the nesting allowed. */
  lemma StringEnd(b: seq<byte>, it: Iter, depth: nat)
    requires AtItem(b, it) && IsString(it.typ)
    ensures StepEnd(b, it, depth) ==
            match StringAt(b, it.ptr) case None => None case Some((_, e)) => Some(e)
  {
  }

  /** The same place in the container. */
  predicate SamePlace(was: Iter, now: Iter) {
    && now.remaining == was.remaining
    && now.flags.containerIsMap == was.flags.containerIsMap && now.flags.nextIsMapKey == was.flags.nextIsMapKey
  }

  /** Past the head of a tag: still at the same place, on what the tag applies to. */
  lemma TagLanding(b: seq<byte>, was: Iter, err: CborError, now: Iter)
    requires AtItem(b, was) && was.typ == TAG_TYPE
    requires Landed(b, was, HeadEnd(b, was.ptr), err, now)
    ensures TagHeadAt(b, was.ptr)
    ensures err == NoError <==> StartsAt(b, HeadEnd(b, was.ptr))
    ensures err == NoError ==> AtItem(b, now) && now.ptr == HeadEnd(b, was.ptr) && SamePlace(was, now)
    ensures err != NoError ==> !StartsAt(b, TagsEnd(b, was.ptr))
  {
    if HeadEnd(b, was.ptr) < |b| && b[HeadEnd(b, was.ptr)] == BREAK {
      BreakStartsNothing(b, HeadEnd(b, was.ptr));
    }
  }

  /** Skipping tags keeps the item, its place in the container, and the end of the container. */
  lemma PendingPastTags(b: seq<byte>, it: Iter, depth: nat)
    requires AtItem(b, it)
    ensures var q := TagsEnd(b, it.ptr);
            Pending(b, it, depth) == if StartsAt(b, q) then Pending(b, it.(ptr := q), depth) else None
  {
    hide ToBreakEnd;
    hide ItemsEnd;
    hide ItemEnd;
    var q := TagsEnd(b, it.ptr);
    PastTags(b, it.ptr, depth);
    DecodeStarts(b, q);
    PendingStep(b, it, depth);
    NoItemNoEnd(b, q, depth);
    if StartsAt(b, q) { PendingStep(b, it.(ptr := q), depth); }
  }

  lemma PendingSamePlace(b: seq<byte>, it: Iter, same: Iter, depth: nat)
    requires SamePlace(it, same) && it.ptr == same.ptr
    ensures Pending(b, it, depth) == Pending(b, same, depth)
  {
  }

  lemma NoItemNoEnd(b: seq<byte>, p: nat, depth: nat)
    ensures !StartsAt(b, p) ==> ItemEnd(b, p, depth).None?
  {
    DecodeStarts(b, p);
  }

  /** Outside any container, one item ends the iteration. */
  lemma LastLanding(b: seq<byte>, was: Iter, e: nat, err: CborError, now: Iter)
    requires was.remaining == 1 && was.typ != TAG_TYPE && Landed(b, was, e, err, now)
    ensures err == NoError && now.ptr == e && now.remaining == 0
  {
  }

  // ----- strings -----

  /** Reading a string: before it (with a good cache), or between its chunks. */
  ghost predicate InString(b: seq<byte>, it: Iter) {
    && it.ptr <= |b| && it.remaining > 0 && IsString(it.typ)
    && (!it.flags.negativeOrIterating ==> Cached(b, it))
  }

  /** What of the string is still to be read, and where the string ends. */
  ghost function Rest(b: seq<byte>, it: Iter): Option<(seq<byte>, nat)> {
    if !it.flags.negativeOrIterating then StringAt(b, it.ptr)
    else if !it.flags.unknownLength then Some(([], it.ptr))
    else ChunksAt(b, it.ptr, it.typ / 32)
  }

  /** Putting a chunk before what is still to be read. */
  function Prepend(chunk: seq<byte>, rest: Option<(seq<byte>, nat)>): Option<(seq<byte>, nat)> {
    if rest.None? then None else Some((chunk + rest.value.0, rest.value.1))
  }

  lemma PrependNil(rest: Option<(seq<byte>, nat)>)
    ensures Prepend([], rest) == rest
  {
    if rest.Some? { assert [] + rest.value.0 == rest.value.0; }
  }

  lemma PrependTwice(first: seq<byte>, second: seq<byte>, rest: Option<(seq<byte>, nat)>)
    ensures Prepend(first, Prepend(second, rest)) == Prepend(first + second, rest)
  {
    if rest.Some? { assert first + (second + rest.value.0) == first + second + rest.value.0; }
  }

  /** What is to be read when the iterator stands before a string. */
  lemma RestBefore(b: seq<byte>, it: Iter)
    requires InString(b, it) && !it.flags.negativeOrIterating
    ensures it.ptr < |b| && b[it.ptr] / 32 * 32 == it.typ && b[it.ptr] != BREAK
    ensures it.flags.unknownLength ==> Rest(b, it) == ChunksAt(b, it.ptr + 1, it.typ / 32)
    ensures !it.flags.unknownLength ==>
              && HeadAt(b, it.ptr).Some? && HeadAt(b, it.ptr).value.info != INDEFINITE
              && var h := HeadAt(b, it.ptr).value;
              var q := it.ptr + h.size;
              Rest(b, it) == if q + h.arg <= |b| then Some((b[q..q + h.arg], q + h.arg)) else None
  {
    StringAtHead(b, it.ptr);
  }

  /** Where the next chunk, or the break after the last one, is expected. */
  function ChunkStart(it: Iter): nat {
    if it.flags.unknownLength && !it.flags.negativeOrIterating then it.ptr + 1 else it.ptr
  }

  /** An unchunked string has been read. */
  predicate StringRead(it: Iter) {
    it.flags.negativeOrIterating && !it.flags.unknownLength
  }

  /** The definite-length string of iterator type `typ` at `p`: where its content starts, and how long it is. */
  function ChunkAt(b: seq<byte>, p: nat, typ: byte): (r: Option<(nat, nat)>)
    ensures r.Some? ==> p < r.value.0 && r.value.0 + r.value.1 <= |b|
  {
    if HeadAt(b, p).None? then None
    else
      var h := HeadAt(b, p).value;
      if h.major * 32 != typ || h.info == INDEFINITE || p + h.size + h.arg > |b| then None
      else Some((p + h.size, h.arg))
  }

  function AfterChunk(it: Iter, p: nat): Iter {
    it.(ptr := p, flags := it.flags.(negativeOrIterating := true))
  }

  lemma RestAfter(b: seq<byte>, it: Iter)
    requires StringRead(it)
    ensures Rest(b, it) == Some(([], it.ptr))
  {
  }

  /** The next chunk comes before what is to be read after it. */
  lemma RestStep(b: seq<byte>, it: Iter)
    requires InString(b, it) && !StringRead(it)
    ensures var p := ChunkStart(it);
            Rest(b, it) ==
            if p < |b| && b[p] == BREAK then Some(([], p + 1))
            else
              var c := ChunkAt(b, p, it.typ);
              if c.None? then None
              else
                var q := c.value.0 + c.value.1;
                Prepend(b[c.value.0..q], Rest(b, AfterChunk(it, q)))
  {
    hide StringAt;
    hide ChunksAt;
    hide Cached;
    var p := ChunkStart(it);
    if !it.flags.negativeOrIterating { RestBefore(b, it); }
    if it.flags.unknownLength {
      ChunksAtStep(b, p, it.typ / 32);
    } else if ChunkAt(b, p, it.typ).Some? {
      var c := ChunkAt(b, p, it.typ).value;
      assert b[c.0..c.0 + c.1] + [] == b[c.0..c.0 + c.1];
    }
  }

  /** There was no further chunk: the string has been left behind, or something else stood in its place. */
  ghost predicate NoChunk(b: seq<byte>, was: Iter, err: CborError, now: Iter) {
    var p := ChunkStart(was);
    if StringRead(was) then Landed(b, was, p, err, now)
    else if p < |b| && b[p] == BREAK then Landed(b, was, p + 1, err, now)
    else err == ChunkError(b, p, was.typ) && ChunkAt(b, p, was.typ).None?
  }

  /** Why no chunk of a string of iterator type `typ` stands at `p`, if none does. */
  function ChunkError(b: seq<byte>, p: nat, typ: byte): (err: CborError)
    ensures err == UnexpectedEOF || err == IllegalType || err == IllegalNumber
  {
    if p >= |b| then UnexpectedEOF
    else if b[p] / 32 * 32 != typ then IllegalType
    else if b[p] % 32 > VALUE_64_BIT then IllegalNumber
    else UnexpectedEOF
  }

  /** What is wrong with the first chunk from `p` on that is none. */
  function ErrorFrom(b: seq<byte>, p: nat, typ: byte, chunked: bool): (err: CborError)
    ensures err == NoError || err == UnexpectedEOF || err == IllegalType || err == IllegalNumber
    decreases Left(b, p)
  {
    if chunked && p < |b| && b[p] == BREAK then NoError
    else if ChunkAt(b, p, typ).None? then ChunkError(b, p, typ)
    else if !chunked then NoError
    else
      var c := ChunkAt(b, p, typ).value;
      ErrorFrom(b, c.0 + c.1, typ, chunked)
  }

  /** What is wrong with the string at `it`. */
  function StringError(b: seq<byte>, it: Iter): CborError {
    if StringRead(it) then NoError else ErrorFrom(b, ChunkStart(it), it.typ, it.flags.unknownLength)
  }

  lemma ErrorAfterChunk(b: seq<byte>, here: Iter, chunk: (nat, nat))
    requires !StringRead(here) && ChunkAt(b, ChunkStart(here), here.typ) == Some(chunk)
    ensures StringError(b, AfterChunk(here, chunk.0 + chunk.1)) == StringError(b, here)
  {
    hide ChunkAt;
    ChunkIsNoBreak(b, ChunkStart(here), here.typ);
  }

  lemma ChunkIsNoBreak(b: seq<byte>, p: nat, typ: byte)
    ensures ChunkAt(b, p, typ).Some? ==> p < |b| && b[p] != BREAK
  {
  }

  lemma StringStarts(b: seq<byte>, was: Iter)
    requires was.ptr <= |b| && AtItem(b, was) && IsString(was.typ)
    ensures InString(b, was) && SameItem(was, was)
    ensures StringAt(b, was.ptr) == Prepend([], Rest(b, was))
  {
    PrependNil(Rest(b, was));
  }

  lemma StringGoesOn(b: seq<byte>, was: Iter, here: Iter, done: seq<byte>, chunk: (nat, nat))
    requires InString(b, here) && SameItem(was, here) && !StringRead(here)
    requires StringAt(b, was.ptr) == Prepend(done, Rest(b, here))
    requires ChunkAt(b, ChunkStart(here), here.typ) == Some(chunk)
    ensures var q := chunk.0 + chunk.1;
            && here.ptr < q <= |b|
            && InString(b, AfterChunk(here, q)) && SameItem(was, AfterChunk(here, q))
            && StringAt(b, was.ptr) == Prepend(done + b[chunk.0..q], Rest(b, AfterChunk(here, q)))
  {
    hide Rest;
    hide StringAt;
    var q := chunk.0 + chunk.1;
    RestStep(b, here);
    PrependTwice(done, b[chunk.0..q], Rest(b, AfterChunk(here, q)));
  }

  lemma StringEnds(b: seq<byte>, was: Iter, here: Iter, done: seq<byte>, err: CborError, now: Iter)
    requires InString(b, here) && SameItem(was, here) && NoChunk(b, here, err, now)
    requires StringAt(b, was.ptr) == Prepend(done, Rest(b, here))
    ensures match StringAt(b, was.ptr)
            case None => err == StringError(b, here) != NoError
            case Some((data, e)) => data == done && Landed(b, was, e, err, now)
  {
    hide Landed;
    hide Rest;
    hide StringAt;
    if !StringRead(here) { RestStep(b, here); } else { RestAfter(b, here); }
    forall e: nat { LandedSame(b, here, was, e, err, now); }
  }
}

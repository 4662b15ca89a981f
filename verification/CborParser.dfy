/** The pull parser of cborparser.c: an iterator over a buffer that is entered, advanced and left item by item. */
module CborParser {
  import opened Wrappers
  import opened ByteSeqs
  import opened CborFormat
  import opened CborGrammar
  import opened CborIterator
  import opened CborStrings

  const MAX_RECURSIONS: nat := 1024

  /** Reads the number that follows an initial byte, straight from the buffer. */
  method ExtractNumber(b: seq<byte>, p: nat) returns (err: CborError, next: nat, len: nat)
    requires p < |b|
    ensures err == NoError <==> HeadAt(b, p).Some? && HeadAt(b, p).value.info != INDEFINITE
    ensures err == IllegalNumber <==> b[p] % 32 > VALUE_64_BIT
    ensures err == NoError || err == IllegalNumber || err == UnexpectedEOF
    ensures err == NoError ==> next == p + HeadAt(b, p).value.size && len == HeadAt(b, p).value.arg
    ensures err != NoError ==> next == p + 1
  {
    len := 0;
    var info := b[p] % 32;
    next := p + 1;
    if info < VALUE_8_BIT {
      return NoError, next, info;
    }
    if info > VALUE_64_BIT {
      return IllegalNumber, next, len;
    }
    var bytesNeeded := ArgBytes(info);
    if bytesNeeded > |b| - next {
      return UnexpectedEOF, next, len;
    }
    len := BigEndian(b[next..next + bytesNeeded]);
    return NoError, next + bytesNeeded, len;
  }

  /** Reads the definite-length string of iterator type `typ` that must stand at `p`. */
  method ReadChunk(b: seq<byte>, p: nat, typ: byte) returns (err: CborError, next: nat, chunk: Option<(nat, nat)>)
    requires p < |b| && IsString(typ)
    ensures chunk == ChunkAt(b, p, typ)
    ensures err == NoError <==> chunk.Some?
    ensures p <= next <= |b|
    ensures chunk.Some? ==> next == chunk.value.0 + chunk.value.1
    ensures chunk.None? ==> err == ChunkError(b, p, typ)
  {
    if b[p] / 32 * 32 != typ {
      return IllegalType, p, None;
    }
    var len;
    err, next, len := ExtractNumber(b, p);
    if err != NoError {
      return err, next, None;
    }
    if len > |b| - next {
      return UnexpectedEOF, next, None;
    }
    return NoError, next + len, Some((next, len));
  }

  /** The 32-bit count of items in a container that announces `len` items, or pairs of them. */
  method CountItems(len: nat, isMap: bool) returns (tooLarge: bool, items: uint32)
    ensures tooLarge <==> len >= 0xffff_ffff || (isMap && len > 0x7fff_ffff)
    ensures !tooLarge ==> items == (if isMap then 2 * len else len) < UINT32_MAX
  {
    items := len % 0x1_0000_0000;
    if items != len || len == UINT32_MAX {
      return true, items;
    }
    if isMap {
      if items > UINT32_MAX / 2 {
        return true, items;
      }
      items := 2 * items;
    }
    tooLarge := false;
  }

  class CborValue {
    var buf: Buffer       // what parser->end delimits
    var ptr: nat
    var remaining: uint32
    var extra: uint16
    var typ: byte
    var flags: Flags

    constructor ()
      ensures buf == [] && ptr == 0
    {
      buf, ptr, remaining, extra, typ, flags := [], 0, 0, 0, INVALID_TYPE, NO_FLAGS;
    }

    ghost function State(): Iter
      reads this
    {
      Iter(ptr, remaining, extra, typ, flags)
    }

    ghost predicate Valid()
      reads this
    {
      ptr <= |buf|
    }

    /** Standing on an item that can be read. */
    ghost predicate Ready()
      reads this
    {
      Valid() && AtItem(buf, State())
    }

    /** Structure assignment. */
    method Assign(value: CborValue)
      modifies this
      ensures buf == old(value.buf) && State() == old(value.State())
    {
      buf, ptr, remaining, extra, typ, flags :=
        value.buf, value.ptr, value.remaining, value.extra, value.typ, value.flags;
    }

    /** Looks at the head under the iterator and caches what it says. */
    method PreparseValue() returns (err: CborError)
      requires Valid()
      modifies this
      ensures buf == old(buf) && ptr == old(ptr) && remaining == old(remaining)
      ensures flags.containerIsMap == old(flags.containerIsMap) && flags.nextIsMapKey == old(flags.nextIsMapKey)
      ensures err == HeadError(buf, ptr)
      ensures err == NoError <==> StartsAt(buf, ptr)
      ensures err == NoError ==> Cached(buf, State())
      ensures err != NoError ==>
                typ == if ptr == |buf| || err == IllegalSimpleType then INVALID_TYPE else buf[ptr] / 32 * 32
    {
      hide BigEndian;
      hide Pow256;
      HeadErrorMeaning(buf, ptr);
      typ := INVALID_TYPE;
      if ptr == |buf| {
        return UnexpectedEOF;
      }
      var major, descriptor := buf[ptr] / 32, buf[ptr] % 32;
      typ := major * 32;
      flags := NO_FLAGS.(containerIsMap := flags.containerIsMap, nextIsMapKey := flags.nextIsMapKey);
      extra := descriptor;
      if descriptor > VALUE_64_BIT {
        if descriptor != INDEFINITE {
          return if major == SIMPLE then UnknownType else IllegalNumber;
        }
        if IsString(typ) || IsContainer(typ) {
          flags := flags.(unknownLength := true);
          return NoError;
        }
        return if major == SIMPLE then UnexpectedBreak else IllegalNumber;
      }
      var bytesNeeded := ArgBytes(descriptor);
      if bytesNeeded + 1 > |buf| - ptr {
        return UnexpectedEOF;
      }
      if major == SIMPLE {
        err := PreparseSimple();
        return;
      }
      ShortArguments(buf, ptr);
      if major == NEGATIVE {
        flags := flags.(negativeOrIterating := true);
        typ := INTEGER_TYPE;
      }
      if descriptor < VALUE_8_BIT {
        return NoError;
      }
      if descriptor == VALUE_8_BIT {
        extra := buf[ptr + 1];
      } else if descriptor == VALUE_16_BIT {
        extra := BigEndian(buf[ptr + 1..ptr + 3]);
      } else {
        flags := flags.(integerValueTooLarge := true);
      }
      return NoError;
    }

    /** The part of PreparseValue for simple values and floating point. */
    method PreparseSimple() returns (err: CborError)
      requires HeadAt(buf, ptr).Some? && HeadAt(buf, ptr).value.major == SIMPLE
      requires HeadAt(buf, ptr).value.info == extra < INDEFINITE && typ == SIMPLE_TYPE
      requires flags == NO_FLAGS.(containerIsMap := flags.containerIsMap, nextIsMapKey := flags.nextIsMapKey)
      modifies `typ, `extra, `flags
      ensures flags.containerIsMap == old(flags.containerIsMap) && flags.nextIsMapKey == old(flags.nextIsMapKey)
      ensures err == HeadError(buf, ptr)
      ensures err == NoError ==> Cached(buf, State())
      ensures err != NoError ==> typ == INVALID_TYPE
    {
      ghost var h := HeadAt(buf, ptr).value;
      assert h.info < 24 ==> h.arg == h.info;
      ShortArguments(buf, ptr);
      if extra == 20 {
        extra := 0;
        typ := BOOLEAN_TYPE;
      } else if extra == VALUE_32_BIT || extra == VALUE_64_BIT {
        flags := flags.(integerValueTooLarge := true);
        typ := buf[ptr];
      } else if 21 <= extra <= 23 || extra == VALUE_16_BIT {
        typ := buf[ptr];
      } else if extra == VALUE_8_BIT {
        extra := buf[ptr + 1];
        if extra < 32 {
          typ := INVALID_TYPE;
          return IllegalSimpleType;
        }
      }
      return NoError;
    }

    method PreparseNextValueNoDecrement() returns (err: CborError)
      requires Valid()
      modifies this
      ensures buf == old(buf) && Valid()
      ensures Arrived(buf, old(State()), err, State())
    {
      if remaining == UINT32_MAX && ptr != |buf| && buf[ptr] == BREAK {
        if (flags.containerIsMap && flags.nextIsMapKey) || typ == TAG_TYPE {
          return UnexpectedBreak;
        }
        ptr := ptr + 1;
        typ := INVALID_TYPE;
        remaining := 0;
        return NoError;
      }
      err := PreparseValue();
    }

    method PreparseNextValue() returns (err: CborError)
      requires Valid() && remaining > 0
      modifies this
      ensures buf == old(buf) && Valid()
      ensures Landed(buf, old(State()), old(ptr), err, State())
    {
      var itemCounts := typ != TAG_TYPE;
      if remaining != UINT32_MAX {
        if itemCounts {
          remaining := remaining - 1;
          if remaining == 0 {
            typ := INVALID_TYPE;
            return NoError;
          }
        }
      }
      if itemCounts {
        flags := flags.(nextIsMapKey := !flags.nextIsMapKey);
      }
      err := PreparseNextValueNoDecrement();
    }

    /** Moves past a head and, for a string, past its content. */
    method AdvanceInternal() returns (err: CborError)
      requires Ready() && !IsContainer(typ) && !flags.unknownLength
      requires IsString(typ) ==> HeadEnd(buf, ptr) + HeadAt(buf, ptr).value.arg <= |buf|
      modifies this
      ensures buf == old(buf) && Valid()
      ensures var h := HeadAt(buf, old(ptr)).value;
              Landed(buf, old(State()), old(ptr) + h.size + (if IsString(old(typ)) then h.arg else 0), err, State())
    {
      var e, next, length := ExtractNumber(buf, ptr);
      ptr := next;
      if IsString(typ) {
        ptr := ptr + length;
      }
      err := PreparseNextValue();
    }

    method AdvanceFixed() returns (err: CborError)
      requires Valid() && Cached(buf, State()) && !IsContainer(typ) && !IsString(typ)
      modifies this
      ensures buf == old(buf) && Valid()
      ensures old(remaining) == 0 ==> err == AdvancePastEOF && State() == old(State())
      ensures old(remaining) > 0 ==> Landed(buf, old(State()), HeadEnd(buf, old(ptr)), err, State())
    {
      if remaining == 0 {
        return AdvancePastEOF;
      }
      err := AdvanceInternal();
    }

    /** Advances until the iterator no longer points to a tag. */
    method SkipTag() returns (err: CborError)
      requires Ready()
      modifies this
      ensures buf == old(buf) && Valid()
      ensures var q := TagsEnd(buf, old(ptr));
              && (err == NoError <==> StartsAt(buf, q))
              && (err == NoError ==> Ready() && ptr == q && typ != TAG_TYPE && SamePlace(old(State()), State()))
    {
      ghost var was := State();
      while typ == TAG_TYPE
        invariant buf == old(buf) && Ready() && SamePlace(was, State())
        invariant TagsEnd(buf, ptr) == TagsEnd(buf, was.ptr)
        decreases |buf| - ptr
      {
        ghost var here := State();
        err := AdvanceFixed();
        TagLanding(buf, here, err, State());
        if err != NoError {
          return;
        }
      }
      err := NoError;
    }

    // ----- strings -----

    /** Reads the next chunk of a string (the whole of it, if it is not chunked); after the last one, moves past
        the string. The chunk is given by its start and length. */
    method GetStringChunk() returns (err: CborError, chunk: Option<(nat, nat)>)
      requires Valid() && InString(buf, State())
      modifies this
      ensures buf == old(buf) && Valid()
      ensures chunk.Some? ==>
                && err == NoError && !StringRead(old(State()))
                && chunk == ChunkAt(buf, ChunkStart(old(State())), old(typ))
                && State() == AfterChunk(old(State()), chunk.value.0 + chunk.value.1)
      ensures chunk.None? ==> NoChunk(buf, old(State()), err, State())
    {
      hide Landed;
      hide ChunkAt;
      chunk := None;
      ghost var was := State();
      if flags.negativeOrIterating && !flags.unknownLength {
        err := PreparseNextValue();
        return;
      }
      if !flags.negativeOrIterating && flags.unknownLength {
        ptr := ptr + 1;
        flags := flags.(negativeOrIterating := true);
      }
      if ptr == |buf| {
        return UnexpectedEOF, None;
      }
      if buf[ptr] == BREAK {
        ptr := ptr + 1;
        ghost var here := State();
        err := PreparseNextValue();
        LandedSame(buf, here, was, here.ptr, err, State());
        return;
      }
      err, ptr, chunk := ReadChunk(buf, ptr, typ);
      if err == NoError {
        flags := flags.(negativeOrIterating := true);
      }
    }

    // ----- containers -----

    /** Makes `recursed` an iterator over the content of this container. */
    method EnterContainer(recursed: CborValue) returns (err: CborError)
      requires Ready() && IsContainer(typ) && recursed != this
      modifies recursed
      ensures recursed.buf == buf && recursed.Valid()
      ensures Entered(buf, State(), err, recursed.State())
    {
      hide Arrived;
      hide Cached;
      hide HeadAt;
      ContainerHead(buf, State());
      recursed.Assign(this);
      if flags.unknownLength {
        recursed.remaining := UINT32_MAX;
        recursed.ptr := recursed.ptr + 1;
      } else {
        var e, next, len := ExtractNumber(buf, ptr);
        recursed.ptr := next;
        var tooLarge, items := CountItems(len, recursed.typ == MAP_TYPE);
        if tooLarge {
          recursed.ptr := ptr;
          return DataTooLarge;
        }
        recursed.remaining := items;
        if len == 0 {
          recursed.typ := INVALID_TYPE;
          return NoError;
        }
      }
      recursed.flags := NO_FLAGS.(containerIsMap := recursed.typ == MAP_TYPE);
      err := recursed.PreparseNextValueNoDecrement();
    }

    /** Moves past this container, whose content `recursed` has been read to its end. */
    method LeaveContainer(recursed: CborValue) returns (err: CborError)
      requires Ready() && IsContainer(typ)
      requires recursed.buf == buf && recursed.Valid() && recursed.typ == INVALID_TYPE
      modifies this
      ensures buf == old(buf) && Valid()
      ensures Landed(buf, old(State()), old(recursed.ptr), err, State())
    {
      ptr := recursed.ptr;
      err := PreparseNextValue();
    }

    method AdvanceRecursive(nestingLevel: nat) returns (err: CborError)
      requires Ready()
      modifies this
      ensures buf == old(buf) && Valid()
      ensures Stepped(buf, old(State()), nestingLevel, err, State())
      decreases nestingLevel
    {
      hide Landed;
      hide CanLand;
      hide Holds;
      hide Untouched;
      hide ItemEnd;
      hide Entered;
      hide StringAt;
      hide Pending;
      ghost var was := State();
      if !IsString(typ) && !IsContainer(typ) {
        FixedEnd(buf, was, nestingLevel);
        err := AdvanceInternal();
        return;
      }
      if !IsContainer(typ) {
        StringEnd(buf, was, nestingLevel);
        ContentFits(buf, was.ptr);
        var len;
        err, len := CopyString(this, Noop, SIZE_MAX, this);
        return;
      }
      if nestingLevel == 0 {
        ContainerNeedsLevel(buf, was);
        return NestingTooDeep;
      }
      var recursed := new CborValue();
      err := EnterContainer(recursed);
      ContainerEnd(buf, was, err, recursed.State(), nestingLevel);
      if err != NoError {
        return;
      }
      EnteredStands(buf, was, recursed.State());
      while recursed.remaining != 0
        invariant fresh(recursed) && State() == was && buf == old(buf)
        invariant recursed.buf == buf && Standing(buf, recursed.State())
        invariant Pending(buf, recursed.State(), nestingLevel - 1) == ItemEnd(buf, was.ptr, nestingLevel)
        decreases |buf| - recursed.ptr
      {
        ghost var here := recursed.State();
        err := recursed.AdvanceRecursive(nestingLevel - 1);
        StepKeepsPending(buf, here, nestingLevel - 1, err, recursed.State());
        if err != NoError {
          return;
        }
      }
      PendingAtEnd(buf, recursed.State(), nestingLevel - 1);
      err := LeaveContainer(recursed);
    }

    /** Advances by one element, skipping over containers. */
    method Advance() returns (err: CborError)
      requires Valid() && Cached(buf, State())
      modifies this
      ensures buf == old(buf) && Valid()
      ensures old(remaining) == 0 ==> err == AdvancePastEOF && State() == old(State())
      ensures old(remaining) > 0 ==> Stepped(buf, old(State()), MAX_RECURSIONS, err, State())
    {
      if remaining == 0 {
        return AdvancePastEOF;
      }
      err := AdvanceRecursive(MAX_RECURSIONS);
    }

    /** Starts at the beginning of a buffer that should hold one item. */
    method ParserInit(buffer: Buffer) returns (err: CborError)
      modifies this
      ensures buf == buffer && Valid() && ptr == 0 && remaining == 1
      ensures err == HeadError(buffer, 0)
      ensures !flags.containerIsMap && !flags.nextIsMapKey
      ensures err == NoError ==> Ready()
    {
      buf := buffer;
      ptr := 0;
      remaining := 1;
      flags := NO_FLAGS;
      HeadErrorMeaning(buffer, 0);
      err := PreparseValue();
    }
  }

  /** Applies the sink to every chunk of the string at `value`, and leaves in `next` what follows the string. */
  method IterateStringChunks(value: CborValue, sink: Sink, room: nat, next: CborValue)
    returns (err: CborError, total: nat, result: bool)
    requires value.Ready() && IsString(value.typ) && HasRoom(sink, room)
    modifies next, Memory(sink)
    ensures next.buf == old(value.buf) && next.Valid()
    ensures match StringAt(next.buf, old(value.ptr))
            case None => err == StringError(next.buf, old(value.State())) != NoError
            case Some((data, e)) =>
              && Landed(next.buf, old(value.State()), e, err, next.State())
              && (err == NoError ==> total == |data| && result == Accepts(sink, room, data))
              && (err == NoError && result ==> Holds(sink, old(Bytes(sink)), Bytes(sink), room, data))
    ensures Untouched(sink, old(Bytes(sink)), Bytes(sink), room)
  {
    hide Landed;
    hide Rest;
    hide StringAt;
    hide Fed;
    hide Holds;
    hide Accepts;
    hide InString;
    hide SameItem;
    hide Untouched;
    hide ChunkAt;
    hide StringError;
    ghost var was := value.State();
    ghost var before := Bytes(sink);
    next.Assign(value);
    StringStarts(next.buf, was);
    FeedNothing(sink, room, before);
    total := 0;
    result := true;
    ghost var done: seq<byte> := [];
    while true
      invariant next.buf == old(value.buf) && next.Valid() && InString(next.buf, next.State())
      invariant SameItem(was, next.State())
      invariant StringAt(next.buf, was.ptr) == Prepend(done, Rest(next.buf, next.State()))
      invariant total == |done| && StringError(next.buf, was) == StringError(next.buf, next.State())
      invariant Fed(sink, room, before, Bytes(sink), done, result)
      decreases |next.buf| - next.ptr
    {
      ghost var here := next.State();
      var chunk;
      err, chunk := next.GetStringChunk();
      if chunk.None? {
        StringEnds(next.buf, was, here, done, err, next.State());
      }
      FedUntouched(sink, room, before, Bytes(sink), done, result);
      if err != NoError {
        return;
      }
      if chunk.None? {
        break;
      }
      StringGoesOn(next.buf, was, here, done, chunk.value);
      ErrorAfterChunk(next.buf, here, chunk.value);
      var data := next.buf[chunk.value.0..chunk.value.0 + chunk.value.1];
      result := FeedChunk(sink, room, total, data, result, before, done);
      done := done + data;
      total := total + chunk.value.1;
    }
    result := FeedNul(sink, room, total, result, before, done);
  }

  /** Copies a string to a buffer, or only measures it; what follows the string is left in `next`. */
  method CopyString(value: CborValue, sink: Sink, buflen: nat, next: CborValue)
    returns (err: CborError, len: nat)
    requires value.Ready() && IsString(value.typ) && HasRoom(sink, buflen) && !sink.Compare?
    modifies next, Memory(sink)
    ensures next.buf == old(value.buf) && next.Valid()
    ensures match StringAt(next.buf, old(value.ptr))
            case None => err == StringError(next.buf, old(value.State())) != NoError
            case Some((data, e)) =>
              && (|data| <= buflen ==> Landed(next.buf, old(value.State()), e, err, next.State()))
              && (|data| > buflen && CanLand(next.buf, old(value.State()), e) ==>
                    err == OutOfMemory && len == |data|
                    && Landed(next.buf, old(value.State()), e, NoError, next.State()))
              && (|data| > buflen ==> err != NoError)
              && (err == NoError ==> len == |data|)
              && (err == NoError ==> Holds(sink, old(Bytes(sink)), Bytes(sink), buflen, data))
    ensures err == OutOfMemory <==>
              match StringAt(next.buf, old(value.ptr))
              case None => false
              case Some((data, e)) => |data| > buflen && CanLand(next.buf, old(value.State()), e)
    ensures Untouched(sink, old(Bytes(sink)), Bytes(sink), buflen)
  {
    hide Landed;
    hide CanLand;
    hide StringAt;
    hide ErrorFrom;
    hide Holds;
    hide Untouched;
    ghost var was := value.State();
    var copiedAll;
    err, len, copiedAll := IterateStringChunks(value, sink, buflen, next);
    if StringAt(next.buf, was.ptr).Some? {
      LandingError(next.buf, was, StringAt(next.buf, was.ptr).value.1, err, next.State());
    }
    if err == NoError && !copiedAll {
      err := OutOfMemory;
    }
  }

  /** A basic validation: there is no error exactly when there is a well-formed item within the limits and what
      follows it in its container can be stood on. */
  method ValidateBasic(it: CborValue) returns (err: CborError)
    requires it.Valid() && Cached(it.buf, it.State())
    ensures it.remaining == 0 ==> err == AdvancePastEOF
    ensures it.remaining > 0 ==>
              (err == NoError <==>
               match StepEnd(it.buf, it.State(), MAX_RECURSIONS)
               case None => false
               case Some(e) => CanLand(it.buf, it.State(), e))
    ensures it.remaining == 1 && it.typ != TAG_TYPE ==>
              (err == NoError <==> ItemEnd(it.buf, it.ptr, MAX_RECURSIONS).Some?)
  {
    var value := new CborValue();
    value.Assign(it);
    err := value.Advance();
    if it.remaining > 0 && StepEnd(it.buf, it.State(), MAX_RECURSIONS).Some? {
      LandingError(it.buf, it.State(), StepEnd(it.buf, it.State(), MAX_RECURSIONS).value, err, value.State());
    }
  }

  /** Skips the one item a buffer should start with. There is no error exactly when the buffer starts with a
      well-formed item nested at most 1024 levels deep whose counts fit; then the iterator is left at its end. */
  method SkipOneItem(buffer: Buffer) returns (err: CborError, it: CborValue)
    ensures fresh(it) && it.buf == buffer
    ensures err == NoError <==> ItemEnd(buffer, 0, 1024).Some?
    ensures err == NoError ==> it.remaining == 0 && it.ptr == ItemEnd(buffer, 0, 1024).value
  {
    hide ItemEnd;
    it := new CborValue();
    err := it.ParserInit(buffer);
    HeadErrorMeaning(buffer, 0);
    NoItemNoEnd(buffer, 0, MAX_RECURSIONS);
    PastTags(buffer, 0, MAX_RECURSIONS);
    NoItemNoEnd(buffer, TagsEnd(buffer, 0), MAX_RECURSIONS);
    if err != NoError {
      return;
    }
    err := it.SkipTag();
    if err != NoError {
      return;
    }
    ghost var was := it.State();
    err := it.Advance();
    if ItemEnd(buffer, was.ptr, MAX_RECURSIONS).Some? {
      LastLanding(buffer, was, ItemEnd(buffer, was.ptr, MAX_RECURSIONS).value, err, it.State());
    }
  }
}

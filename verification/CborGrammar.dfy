/** Well-formed CBOR data items as in Appendix C of RFC 8949, with the tree each one denotes. */
module CborGrammar {
  import opened Wrappers
  import opened ByteSeqs
  import opened CborFormat

  datatype Item =
    | Integer(negative: bool, arg: nat)                     // denotes arg, or -1 - arg
    | Str(text: bool, data: seq<byte>)
    | Chunked(text: bool, chunks: seq<seq<byte>>)
    | Array(indefinite: bool, items: Items)
    | Map(indefinite: bool, items: Items)                   // key, value, key, value, ...
    | Tagged(tag: nat, content: Item)
    | Simple(value: nat)
    | Float(info: nat, bits: nat)

  datatype Items = Nil | Cons(head: Item, tail: Items)

  function Len(items: Items): nat {
    if items.Nil? then 0 else 1 + Len(items.tail)
  }

  /** Where a reading starts and what is left of the buffer from there. */
  function Left(b: seq<byte>, p: nat): nat {
    if p <= |b| then |b| - p else 0
  }

  function Decode(b: seq<byte>, p: nat): (r: Option<(Item, nat)>)
    ensures r.Some? ==> p < r.value.1 <= |b|
    decreases Left(b, p), 1
  {
    if HeadAt(b, p).None? then None
    else
      var h := HeadAt(b, p).value;
      var q := p + h.size;
      if h.info == INDEFINITE then
        if h.major == BYTE_STRING || h.major == TEXT_STRING then
          var r := DecodeChunks(b, q, h.major);
          if r.None? then None else Some((Chunked(h.major == TEXT_STRING, r.value.0), r.value.1))
        else if h.major == ARRAY || h.major == MAP then
          var r := DecodeToBreak(b, q, h.major == MAP, false);
          if r.None? then None
          else if h.major == ARRAY then Some((Array(true, r.value.0), r.value.1))
          else Some((Map(true, r.value.0), r.value.1))
        else None
      else if h.major <= NEGATIVE then Some((Integer(h.major == NEGATIVE, h.arg), q))
      else if h.major <= TEXT_STRING then
        if q + h.arg > |b| then None else Some((Str(h.major == TEXT_STRING, b[q..q + h.arg]), q + h.arg))
      else if h.major <= MAP then
        var r := DecodeItems(b, q, if h.major == MAP then 2 * h.arg else h.arg);
        if r.None? then None
        else if h.major == ARRAY then Some((Array(false, r.value.0), r.value.1))
        else Some((Map(false, r.value.0), r.value.1))
      else if h.major == TAG then
        var r := Decode(b, q);
        if r.None? then None else Some((Tagged(h.arg, r.value.0), r.value.1))
      else if h.info > VALUE_8_BIT then Some((Float(h.info, h.arg), q))
      else if h.info == VALUE_8_BIT && h.arg < 32 then None
      else Some((Simple(h.arg), q))
  }

  /** Exactly `n` items. */
  function DecodeItems(b: seq<byte>, p: nat, n: nat): (r: Option<(Items, nat)>)
    ensures r.Some? ==> p <= r.value.1 && (p <= |b| ==> r.value.1 <= |b|) && Len(r.value.0) == n
    decreases Left(b, p), 2
  {
    if n == 0 then Some((Nil, p))
    else
      var x := Decode(b, p);
      if x.None? then None
      else
        var xs := DecodeItems(b, x.value.1, n - 1);
        if xs.None? then None else Some((Cons(x.value.0, xs.value.0), xs.value.1))
  }

  /** Items up to a break; in a map the break must not come where a value is due. */
  function DecodeToBreak(b: seq<byte>, p: nat, isMap: bool, valueDue: bool): (r: Option<(Items, nat)>)
    ensures r.Some? ==> p < r.value.1 <= |b|
    decreases Left(b, p), 2
  {
    if p < |b| && b[p] == BREAK then
      if isMap && valueDue then None else Some((Nil, p + 1))
    else
      var x := Decode(b, p);
      if x.None? then None
      else
        var xs := DecodeToBreak(b, x.value.1, isMap, !valueDue);
        if xs.None? then None else Some((Cons(x.value.0, xs.value.0), xs.value.1))
  }

  /** Definite-length strings of the given major type up to a break. */
  function DecodeChunks(b: seq<byte>, p: nat, major: nat): (r: Option<(seq<seq<byte>>, nat)>)
    ensures r.Some? ==> p < r.value.1 <= |b|
    decreases Left(b, p), 0
  {
    if p < |b| && b[p] == BREAK then Some(([], p + 1))
    else if HeadAt(b, p).None? then None
    else
      var h := HeadAt(b, p).value;
      var q := p + h.size;
      if h.major != major || h.info == INDEFINITE || q + h.arg > |b| then None
      else
        var xs := DecodeChunks(b, q + h.arg, major);
        if xs.None? then None else Some(([b[q..q + h.arg]] + xs.value.0, xs.value.1))
  }

  // ----- limits of this implementation -----

  function Max(x: nat, y: nat): nat { if x < y then y else x }

  /** Levels of nested arrays and maps. */
  function Depth(x: Item): nat {
    match x
    case Array(_, items) => 1 + DepthAll(items)
    case Map(_, items) => 1 + DepthAll(items)
    case Tagged(_, content) => Depth(content)
    case _ => 0
  }

  function DepthAll(xs: Items): nat {
    if xs.Nil? then 0 else Max(Depth(xs.head), DepthAll(xs.tail))
  }

  /** Every definite-length array has fewer than 2^32 - 1 items and every definite-length map at most 2^31 - 1 pairs. */
  predicate Countable(x: Item) {
    match x
    case Array(indefinite, items) => (indefinite || Len(items) < UINT32_MAX) && CountableAll(items)
    case Map(indefinite, items) => (indefinite || Len(items) <= 2 * 0x7fff_ffff) && CountableAll(items)
    case Tagged(_, content) => Countable(content)
    case _ => true
  }

  predicate CountableAll(xs: Items) {
    xs.Cons? ==> Countable(xs.head) && CountableAll(xs.tail)
  }

  /** The end of the well-formed item at `p`, if there is one within the limits. */
  function ItemEnd(b: seq<byte>, p: nat, depth: nat): (r: Option<nat>)
    ensures r.Some? ==> p < r.value <= |b|
  {
    var r := Decode(b, p);
    if r.Some? && Countable(r.value.0) && Depth(r.value.0) <= depth then Some(r.value.1) else None
  }

  function ItemsEnd(b: seq<byte>, p: nat, n: nat, depth: nat): Option<nat> {
    var r := DecodeItems(b, p, n);
    if r.Some? && CountableAll(r.value.0) && DepthAll(r.value.0) <= depth then Some(r.value.1) else None
  }

  function ToBreakEnd(b: seq<byte>, p: nat, isMap: bool, valueDue: bool, depth: nat): Option<nat> {
    var r := DecodeToBreak(b, p, isMap, valueDue);
    if r.Some? && CountableAll(r.value.0) && DepthAll(r.value.0) <= depth then Some(r.value.1) else None
  }

  // ----- how the ends of items follow from one another -----

  lemma ItemsEndStep(b: seq<byte>, p: nat, n: nat, depth: nat)
    requires n > 0
    ensures ItemsEnd(b, p, n, depth) ==
            match ItemEnd(b, p, depth) case None => None case Some(e) => ItemsEnd(b, e, n - 1, depth)
  {
  }

  lemma ToBreakEndStep(b: seq<byte>, p: nat, isMap: bool, valueDue: bool, depth: nat)
    requires !(p < |b| && b[p] == BREAK)
    ensures ToBreakEnd(b, p, isMap, valueDue, depth) ==
            match ItemEnd(b, p, depth) case None => None case Some(e) => ToBreakEnd(b, e, isMap, !valueDue, depth)
  {
  }

  /** A tag and its content end together. */
  lemma TagEnd(b: seq<byte>, p: nat, depth: nat)
    requires HeadAt(b, p).Some? && HeadAt(b, p).value.major == TAG && HeadAt(b, p).value.info != INDEFINITE
    ensures ItemEnd(b, p, depth) == ItemEnd(b, p + HeadAt(b, p).value.size, depth)
  {
  }

  // ----- tags, integers and map keys -----

  predicate TagHeadAt(b: seq<byte>, p: nat) {
    HeadAt(b, p).Some? && HeadAt(b, p).value.major == TAG && HeadAt(b, p).value.info != INDEFINITE
  }

  /** Where the tags that stand at `p`, if any, are over. */
  function TagsEnd(b: seq<byte>, p: nat): (q: nat)
    ensures q >= p && !TagHeadAt(b, q)
    decreases Left(b, p)
  {
    if TagHeadAt(b, p) then TagsEnd(b, p + HeadAt(b, p).value.size) else p
  }

  function Untagged(x: Item): Item {
    if x.Tagged? then Untagged(x.content) else x
  }

  /** Tags do not move the end of an item, nor change what is under them. */
  lemma {:induction false} PastTags(b: seq<byte>, p: nat, depth: nat)
    ensures ItemEnd(b, p, depth) == ItemEnd(b, TagsEnd(b, p), depth)
    ensures Decode(b, p).Some? <==> Decode(b, TagsEnd(b, p)).Some?
    ensures Decode(b, p).Some? ==>
              var x := Decode(b, p).value;
              var y := Decode(b, TagsEnd(b, p)).value;
              Untagged(x.0) == y.0 && x.1 == y.1
    decreases Left(b, p)
  {
    if TagHeadAt(b, p) {
      TagEnd(b, p, depth);
      PastTags(b, p + HeadAt(b, p).value.size, depth);
    }
  }

  /** The number an integer item stands for. */
  function IntegerValue(x: Item): int
    requires x.Integer?
  {
    if x.negative then -1 - x.arg else x.arg
  }

  function IntegerOf(n: int): (x: Item)
    ensures x.Integer? && IntegerValue(x) == n
  {
    if n < 0 then Integer(true, -1 - n) else Integer(false, n)
  }
}

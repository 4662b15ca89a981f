/** The bytes the encoder writes for a tree of data items, and reading them back. */
module CborEncoding {
  import opened Wrappers
  import opened ByteSeqs
  import opened CborFormat
  import opened CborGrammar

  function Encode(x: Item): seq<byte>
    requires Encodable(x)
  {
    match x
    case Integer(negative, arg) => HeadBytes(if negative then NEGATIVE else UNSIGNED, arg)
    case Str(text, data) => HeadBytes(if text then TEXT_STRING else BYTE_STRING, |data|) + data
    case Array(indefinite, items) => Opening(ARRAY, indefinite, Len(items)) + EncodeAll(items) + Closing(indefinite)
    case Map(indefinite, items) => Opening(MAP, indefinite, Len(items) / 2) + EncodeAll(items) + Closing(indefinite)
    case Tagged(tag, content) => HeadBytes(TAG, tag) + Encode(content)
    case Simple(value) => HeadBytes(SIMPLE, value)
    case Float(info, bits) => [SIMPLE * 32 + info] + ToBigEndian(bits, ArgBytes(info))
  }

  function EncodeAll(xs: Items): seq<byte>
    requires EncodableAll(xs)
  {
    if xs.Nil? then [] else Encode(xs.head) + EncodeAll(xs.tail)
  }

  function Opening(major: nat, indefinite: bool, count: nat): seq<byte>
    requires ARRAY <= major <= MAP
  {
    if indefinite then [major * 32 + INDEFINITE] else HeadBytes(major, count)
  }

  function Closing(indefinite: bool): seq<byte> {
    if indefinite then [BREAK] else []
  }

  /** The trees the encoder can be asked to write: numbers of 64 bits, counts other than the one that stands for
      an indefinite length, whole strings, and simple values that have an encoding of their own. */
  predicate Encodable(x: Item) {
    match x
    case Integer(_, arg) => arg < UINT64_LIMIT
    case Str(_, data) => |data| < UINT64_LIMIT
    case Chunked(_, _) => false
    case Array(indefinite, items) => (indefinite || Len(items) < UINT64_LIMIT - 1) && EncodableAll(items)
    case Map(indefinite, items) =>
      Len(items) % 2 == 0 && (indefinite || Len(items) < UINT64_LIMIT) && EncodableAll(items)
    case Tagged(tag, content) => tag < UINT64_LIMIT && Encodable(content)
    case Simple(value) => value < 24 || 32 <= value < 256
    case Float(info, bits) => VALUE_16_BIT <= info <= VALUE_64_BIT && bits < Pow256(ArgBytes(info))
  }

  predicate EncodableAll(xs: Items) {
    xs.Cons? ==> Encodable(xs.head) && EncodableAll(xs.tail)
  }

  // ----- round trip -----

  /** Wherever the encoding of a tree stands, the tree is what is read there, and its end is where reading ends. */
  lemma {:induction false} DecodeEncoded(b: seq<byte>, p: nat, x: Item)
    requires Encodable(x) && At(b, p, Encode(x))
    ensures Decode(b, p) == Some((x, p + |Encode(x)|))
    decreases x
  {
    hide Decode;
    hide HeadBytes;
    hide HeadAt;
    hide At;
    hide Opening;
    hide Closing;
    hide EncodeAll;
    match x
    case Array(indefinite, items) =>
      AtSplit(b, p, Opening(ARRAY, indefinite, Len(items)) + EncodeAll(items), Closing(indefinite));
      AtSplit(b, p, Opening(ARRAY, indefinite, Len(items)), EncodeAll(items));
      DecodeContent(b, p, ARRAY, indefinite, Len(items), items);
    case Map(indefinite, items) =>
      AtSplit(b, p, Opening(MAP, indefinite, Len(items) / 2) + EncodeAll(items), Closing(indefinite));
      AtSplit(b, p, Opening(MAP, indefinite, Len(items) / 2), EncodeAll(items));
      DecodeContent(b, p, MAP, indefinite, Len(items) / 2, items);
    case Tagged(tag, content) =>
      AtSplit(b, p, HeadBytes(TAG, tag), Encode(content));
      HeadReadsBack(b, p, TAG, tag);
      DecodeEncoded(b, p + |HeadBytes(TAG, tag)|, content);
      DecodeTagged(b, p);
    case _ => DecodeLeaf(b, p, x);
  }

  lemma DecodeLeaf(b: seq<byte>, p: nat, x: Item)
    requires Encodable(x) && !x.Array? && !x.Map? && !x.Tagged? && At(b, p, Encode(x))
    ensures Decode(b, p) == Some((x, p + |Encode(x)|))
  {
    hide HeadBytes;
    hide HeadAt;
    match x
    case Integer(negative, arg) => HeadReadsBack(b, p, if negative then NEGATIVE else UNSIGNED, arg);
    case Str(text, data) =>
      var major := if text then TEXT_STRING else BYTE_STRING;
      AtSplit(b, p, HeadBytes(major, |data|), data);
      HeadReadsBack(b, p, major, |data|);
    case Simple(value) => HeadReadsBack(b, p, SIMPLE, value);
    case Float(info, bits) =>
      AtSplit(b, p, [SIMPLE * 32 + info], ToBigEndian(bits, ArgBytes(info)));
      HeadFromParts(b, p, SIMPLE, info, ToBigEndian(bits, ArgBytes(info)));
      BigEndianInverts(bits, ArgBytes(info));
  }

  /** Of the simple values that the encoder lets through, 24 alone is written in a form that cannot be read back. */
  lemma SimpleReadsBackIff(b: seq<byte>, p: nat, value: byte)
    requires !(VALUE_16_BIT <= value <= INDEFINITE) && At(b, p, HeadBytes(SIMPLE, value))
    ensures value != 24 <==> Decode(b, p) == Some((Simple(value), p + |HeadBytes(SIMPLE, value)|))
    ensures value == 24 <==> Decode(b, p).None?
  {
    HeadReadsBack(b, p, SIMPLE, value);
    hide HeadBytes;
    hide HeadAt;
  }

  lemma DecodeTagged(b: seq<byte>, p: nat)
    requires TagHeadAt(b, p)
    ensures var h := HeadAt(b, p).value;
            var r := Decode(b, p + h.size);
            Decode(b, p) == if r.None? then None else Some((Tagged(h.arg, r.value.0), r.value.1))
  {
  }

  lemma DecodeContainer(b: seq<byte>, p: nat)
    requires HeadAt(b, p).Some? && ARRAY <= HeadAt(b, p).value.major <= MAP
    ensures var h := HeadAt(b, p).value;
            var q := p + h.size;
            var r := if h.info == INDEFINITE then DecodeToBreak(b, q, h.major == MAP, false)
                     else DecodeItems(b, q, if h.major == MAP then 2 * h.arg else h.arg);
            Decode(b, p) ==
            if r.None? then None
            else Some((ContainerItem(h.major, h.info == INDEFINITE, r.value.0), r.value.1))
  {
  }

  function ContainerItem(major: nat, indefinite: bool, items: Items): Item {
    if major == ARRAY then Array(indefinite, items) else Map(indefinite, items)
  }

  lemma {:induction false} DecodeContent(b: seq<byte>, p: nat, major: nat, indefinite: bool, count: nat, items: Items)
    requires ARRAY <= major <= MAP && EncodableAll(items)
    requires !indefinite ==> count < UINT64_LIMIT
    requires Len(items) == if major == MAP then 2 * count else count
    requires At(b, p, Opening(major, indefinite, count))
    requires At(b, p + |Opening(major, indefinite, count)|, EncodeAll(items))
    requires At(b, p + |Opening(major, indefinite, count)| + |EncodeAll(items)|, Closing(indefinite))
    ensures var e := p + |Opening(major, indefinite, count)| + |EncodeAll(items)| + |Closing(indefinite)|;
            Decode(b, p) == Some((ContainerItem(major, indefinite, items), e))
    decreases items, 2
  {
    hide At;
    hide Decode;
    hide HeadAt;
    hide DecodeItems;
    hide DecodeToBreak;
    hide Opening;
    hide Closing;
    hide EncodeAll;
    OpeningRead(b, p, major, indefinite, count);
    ItemsRead(b, p + |Opening(major, indefinite, count)|, major == MAP, indefinite, items);
    DecodeContainer(b, p);
  }

  lemma OpeningRead(b: seq<byte>, p: nat, major: nat, indefinite: bool, count: nat)
    requires ARRAY <= major <= MAP && (!indefinite ==> count < UINT64_LIMIT)
    requires At(b, p, Opening(major, indefinite, count))
    ensures HeadAt(b, p).Some?
    ensures var h := HeadAt(b, p).value;
            && h.major == major && h.size == |Opening(major, indefinite, count)|
            && (h.info == INDEFINITE <==> indefinite) && (!indefinite ==> h.arg == count)
  {
    hide HeadBytes;
    hide HeadAt;
    if indefinite { IndefiniteHead(b, p, major); } else { HeadReadsBack(b, p, major, count); }
  }

  lemma {:induction false} ItemsRead(b: seq<byte>, q: nat, isMap: bool, indefinite: bool, items: Items)
    requires EncodableAll(items) && (isMap ==> Len(items) % 2 == 0)
    requires At(b, q, EncodeAll(items)) && At(b, q + |EncodeAll(items)|, Closing(indefinite))
    ensures (if indefinite then DecodeToBreak(b, q, isMap, false) else DecodeItems(b, q, Len(items)))
            == Some((items, q + |EncodeAll(items)| + |Closing(indefinite)|))
    decreases items, 1
  {
    hide DecodeItems;
    hide DecodeToBreak;
    hide EncodeAll;
    if indefinite {
      BreakAt(b, q + |EncodeAll(items)|);
      DecodeToBreakEncoded(b, q, items, isMap, false);
    } else {
      DecodeItemsEncoded(b, q, items);
    }
  }

  lemma BreakAt(b: seq<byte>, p: nat)
    requires At(b, p, [BREAK])
    ensures p < |b| && b[p] == BREAK
  {
    assert b[p] == b[p..p + 1][0];
  }

  lemma IndefiniteHead(b: seq<byte>, p: nat, major: nat)
    requires major < 8 && At(b, p, [major * 32 + INDEFINITE])
    ensures HeadAt(b, p) == Some(Head(major, INDEFINITE, 0, 1))
  {
    assert b[p] == b[p..p + 1][0];
  }

  lemma {:induction false} DecodeItemsEncoded(b: seq<byte>, p: nat, xs: Items)
    requires EncodableAll(xs) && At(b, p, EncodeAll(xs))
    ensures DecodeItems(b, p, Len(xs)) == Some((xs, p + |EncodeAll(xs)|))
    decreases xs, 0
  {
    hide Decode;
    hide Encode;
    hide At;
    if xs.Cons? {
      AtSplit(b, p, Encode(xs.head), EncodeAll(xs.tail));
      DecodeEncoded(b, p, xs.head);
      DecodeItemsEncoded(b, p + |Encode(xs.head)|, xs.tail);
    }
  }

  lemma {:induction false} DecodeToBreakEncoded(b: seq<byte>, p: nat, xs: Items, isMap: bool, valueDue: bool)
    requires EncodableAll(xs) && At(b, p, EncodeAll(xs))
    requires p + |EncodeAll(xs)| < |b| && b[p + |EncodeAll(xs)|] == BREAK
    requires isMap ==> (Len(xs) % 2 == 0 <==> !valueDue)
    ensures DecodeToBreak(b, p, isMap, valueDue) == Some((xs, p + |EncodeAll(xs)| + 1))
    decreases xs, 0
  {
    hide Decode;
    hide Encode;
    hide At;
    if xs.Cons? {
      AtSplit(b, p, Encode(xs.head), EncodeAll(xs.tail));
      DecodeEncoded(b, p, xs.head);
      DecodeToBreakEncoded(b, p + |Encode(xs.head)|, xs.tail, isMap, !valueDue);
      ItemIsNoBreak(b, p);
    }
  }

  lemma ItemIsNoBreak(b: seq<byte>, p: nat)
    requires Decode(b, p).Some?
    ensures p < |b| && b[p] != BREAK
  {
  }

  // ----- preferred serialization (section 4.1 of RFC 8949) -----

  /** Whatever bytes denote a tree, the encoder needs no more of them. */
  lemma {:induction false} EncodeIsShortest(b: seq<byte>, p: nat)
    requires Decode(b, p).Some? && Encodable(Decode(b, p).value.0)
    ensures p + |Encode(Decode(b, p).value.0)| <= Decode(b, p).value.1
    decreases Left(b, p), 1
  {
    hide Decode;
    hide HeadBytes;
    var x := Decode(b, p).value.0;
    HeadOfItem(b, p);
    var h := HeadAt(b, p).value;
    if x.Tagged? {
      DecodeTagged(b, p);
      HeadIsShortest(b, p);
      EncodeIsShortest(b, p + h.size);
    } else if x.Array? || x.Map? {
      DecodeContainer(b, p);
      if h.info == INDEFINITE {
        OpenContentIsShortest(b, p + h.size, h.major == MAP, false);
      } else {
        HeadIsShortest(b, p);
        var n := if h.major == MAP then 2 * h.arg else h.arg;
        CountedContentIsShortest(b, p + h.size, n);
      }
    } else {
      LeafIsShortest(b, p);
    }
  }

  lemma HeadOfItem(b: seq<byte>, p: nat)
    requires Decode(b, p).Some?
    ensures HeadAt(b, p).Some?
    ensures var x := Decode(b, p).value.0;
            var h := HeadAt(b, p).value;
            && (x.Tagged? ==> TagHeadAt(b, p))
            && (x.Array? ==> h.major == ARRAY)
            && (x.Map? ==> h.major == MAP)
  {
  }

  lemma LeafIsShortest(b: seq<byte>, p: nat)
    requires Decode(b, p).Some? && Encodable(Decode(b, p).value.0)
    requires var x := Decode(b, p).value.0; !x.Array? && !x.Map? && !x.Tagged?
    ensures p + |Encode(Decode(b, p).value.0)| <= Decode(b, p).value.1
  {
    hide HeadBytes;
    if HeadAt(b, p).value.info != INDEFINITE { HeadIsShortest(b, p); }
  }

  lemma {:induction false} CountedContentIsShortest(b: seq<byte>, p: nat, n: nat)
    requires DecodeItems(b, p, n).Some? && EncodableAll(DecodeItems(b, p, n).value.0)
    ensures p + |EncodeAll(DecodeItems(b, p, n).value.0)| <= DecodeItems(b, p, n).value.1
    decreases Left(b, p), 2
  {
    hide Decode;
    hide Encode;
    if n > 0 {
      EncodeIsShortest(b, p);
      CountedContentIsShortest(b, Decode(b, p).value.1, n - 1);
    }
  }

  lemma {:induction false} OpenContentIsShortest(b: seq<byte>, p: nat, isMap: bool, valueDue: bool)
    requires DecodeToBreak(b, p, isMap, valueDue).Some?
    requires EncodableAll(DecodeToBreak(b, p, isMap, valueDue).value.0)
    ensures p + |EncodeAll(DecodeToBreak(b, p, isMap, valueDue).value.0)| + 1
            <= DecodeToBreak(b, p, isMap, valueDue).value.1
    decreases Left(b, p), 2
  {
    hide Decode;
    hide Encode;
    if !(p < |b| && b[p] == BREAK) {
      EncodeIsShortest(b, p);
      OpenContentIsShortest(b, Decode(b, p).value.1, isMap, !valueDue);
    }
  }
}

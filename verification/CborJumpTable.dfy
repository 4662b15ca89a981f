/** The jump table of appendix B of RFC 8949: what each initial byte says, in plain numbers. */
module CborJumpTable {
  import opened Wrappers
  import opened ByteSeqs
  import opened CborFormat
  import opened CborGrammar

  // ----- arguments -----

  function Wide2(b: seq<byte>, p: nat): nat
    requires p + 2 <= |b|
  {
    b[p] as int * 0x100 + b[p + 1]
  }

  function Wide4(b: seq<byte>, p: nat): nat
    requires p + 4 <= |b|
  {
    b[p] as int * 0x100_0000 + b[p + 1] as int * 0x1_0000 + b[p + 2] as int * 0x100 + b[p + 3]
  }

  function Wide8(b: seq<byte>, p: nat): nat
    requires p + 8 <= |b|
  {
    Wide4(b, p) * 0x1_0000_0000 + Wide4(b, p + 4)
  }

  lemma NextByte(b: seq<byte>, p: nat, n: nat)
    requires p + n < |b|
    ensures BigEndian(b[p..p + n + 1]) == BigEndian(b[p..p + n]) * 256 + b[p + n]
  {
    var s := b[p..p + n + 1];
    assert s[..|s| - 1] == b[p..p + n];
  }

  lemma Bytes2(b: seq<byte>, p: nat)
    requires p + 2 <= |b|
    ensures BigEndian(b[p..p + 1]) == b[p] && BigEndian(b[p..p + 2]) == Wide2(b, p)
  {
    assert BigEndian(b[p..p]) == 0;
    NextByte(b, p, 0);
    NextByte(b, p, 1);
    hide BigEndian;
  }

  lemma Bytes4(b: seq<byte>, p: nat)
    requires p + 4 <= |b|
    ensures BigEndian(b[p..p + 4]) == Wide4(b, p)
  {
    hide BigEndian;
    Bytes2(b, p);
    NextByte(b, p, 2);
    NextByte(b, p, 3);
  }

  lemma Bytes8(b: seq<byte>, p: nat)
    requires p + 8 <= |b|
    ensures BigEndian(b[p..p + 8]) == Wide8(b, p)
  {
    hide BigEndian;
    Bytes4(b, p);
    NextByte(b, p, 4);
    NextByte(b, p, 5);
    NextByte(b, p, 6);
    NextByte(b, p, 7);
  }

  /** The argument of the initial byte at `p`, by its low five bits, and where it ends. */
  function Argument(b: seq<byte>, p: nat): (r: Option<(nat, nat)>)
    requires p < |b|
    ensures r.Some? ==> b[p] % 32 <= 27 && p < r.value.1 <= |b|
  {
    var low, left := b[p] % 32, |b| - p - 1;
    if low <= 23 then Some((low, p + 1))
    else if low == 24 && left >= 1 then Some((b[p + 1], p + 2))
    else if low == 25 && left >= 2 then Some((Wide2(b, p + 1), p + 3))
    else if low == 26 && left >= 4 then Some((Wide4(b, p + 1), p + 5))
    else if low == 27 && left >= 8 then Some((Wide8(b, p + 1), p + 9))
    else None
  }

  lemma HeadIs(b: seq<byte>, p: nat)
    requires p < |b|
    ensures var a := Argument(b, p);
            HeadAt(b, p) ==
            if a.Some? then Some(Head(b[p] / 32, b[p] % 32, a.value.0, a.value.1 - p))
            else if b[p] % 32 == 31 then Some(Head(b[p] / 32, 31, 0, 1))
            else None
  {
    var left := |b| - p - 1;
    assert left >= 1 ==> BigEndian(b[p + 1..p + 2]) == b[p + 1] by {
      if left >= 1 {
        assert BigEndian(b[p + 1..p + 1]) == 0;
        NextByte(b, p + 1, 0);
      }
    }
    if left >= 2 { Bytes2(b, p + 1); }
    if left >= 4 { Bytes4(b, p + 1); }
    if left >= 8 { Bytes8(b, p + 1); }
    hide BigEndian;
    hide Wide2;
    hide Wide4;
    hide Wide8;
  }

  // ----- the table -----

  lemma IntegerHead(b: seq<byte>, p: nat)
    ensures HeadAt(b, p).Some? && HeadAt(b, p).value.major <= 1 ==>
              var h := HeadAt(b, p).value;
              Decode(b, p) == if h.info == 31 then None else Some((Integer(h.major == 1, h.arg), p + h.size))
    ensures HeadAt(b, p).None? ==> Decode(b, p).None?
  {
    hide HeadAt;
  }

  lemma StringHead(b: seq<byte>, p: nat)
    ensures HeadAt(b, p).Some? && 2 <= HeadAt(b, p).value.major <= 3 ==>
              var h := HeadAt(b, p).value;
              var q, e := p + h.size, p + h.size + h.arg;
              var r := DecodeChunks(b, q, h.major);
              Decode(b, p) ==
              if h.info == 31 then if r.None? then None else Some((Chunked(h.major == 3, r.value.0), r.value.1))
              else if e > |b| then None
              else Some((Str(h.major == 3, b[q..e]), e))
    ensures HeadAt(b, p).None? ==> Decode(b, p).None?
  {
    hide HeadAt;
    hide DecodeChunks;
  }

  lemma ContainerHead(b: seq<byte>, p: nat)
    ensures HeadAt(b, p).Some? && 4 <= HeadAt(b, p).value.major <= 5 ==>
              var h := HeadAt(b, p).value;
              var q, isMap := p + h.size, h.major == 5;
              var r := if h.info == 31 then DecodeToBreak(b, q, isMap, false)
                       else DecodeItems(b, q, if isMap then 2 * h.arg else h.arg);
              Decode(b, p) ==
              if r.None? then None
              else if isMap then Some((Map(h.info == 31, r.value.0), r.value.1))
              else Some((Array(h.info == 31, r.value.0), r.value.1))
    ensures HeadAt(b, p).None? ==> Decode(b, p).None?
  {
    hide HeadAt;
    hide DecodeItems;
    hide DecodeToBreak;
  }

  lemma TagHead(b: seq<byte>, p: nat)
    ensures HeadAt(b, p).Some? && HeadAt(b, p).value.major == 6 ==>
              var h := HeadAt(b, p).value;
              var r := Decode(b, p + h.size);
              Decode(b, p) ==
              if h.info == 31 || r.None? then None else Some((Tagged(h.arg, r.value.0), r.value.1))
    ensures HeadAt(b, p).None? ==> Decode(b, p).None?
  {
    hide HeadAt;
  }

  lemma SimpleHead(b: seq<byte>, p: nat)
    ensures HeadAt(b, p).Some? && HeadAt(b, p).value.major == 7 ==>
              var h := HeadAt(b, p).value;
              var e := p + h.size;
              Decode(b, p) ==
              if h.info == 31 then None
              else if h.info > 24 then Some((Float(h.info, h.arg), e))
              else if h.info == 24 && h.arg < 32 then None
              else Some((Simple(h.arg), e))
    ensures HeadAt(b, p).None? ==> Decode(b, p).None?
  {
    hide HeadAt;
  }

  /** 0x00 to 0x1b: unsigned integers. 0x20 to 0x3b: -1 minus an integer. */
  lemma IntegerRows(b: seq<byte>, p: nat)
    requires p < |b| && b[p] <= 0x3f
    ensures var a := Argument(b, p);
            Decode(b, p) ==
            if a.None? then None else Some((IntegerOf(if b[p] <= 0x1f then a.value.0 else -1 - a.value.0), a.value.1))
  {
    hide Decode;
    hide HeadAt;
    hide Argument;
    hide DecodeChunks;
    hide DecodeItems;
    hide DecodeToBreak;
    HeadIs(b, p);
    IntegerHead(b, p);
  }

  /** 0x40 to 0x5b: byte strings. 0x60 to 0x7b: text strings. 0x5f and 0x7f: chunks of the same kind up to a break. */
  lemma StringRows(b: seq<byte>, p: nat)
    requires p < |b| && 0x40 <= b[p] <= 0x7f
    ensures var a := Argument(b, p);
            var text := b[p] >= 0x60;
            Decode(b, p) ==
            if b[p] % 32 == 31 then
              var r := DecodeChunks(b, p + 1, if text then 3 else 2);
              if r.None? then None else Some((Chunked(text, r.value.0), r.value.1))
            else if a.None? || a.value.1 + a.value.0 > |b| then None
            else
              var e := a.value.1 + a.value.0;
              Some((Str(text, b[a.value.1..e]), e))
  {
    hide Decode;
    hide HeadAt;
    hide Argument;
    hide DecodeChunks;
    hide DecodeItems;
    hide DecodeToBreak;
    HeadIs(b, p);
    StringHead(b, p);
  }

  /** 0x80 to 0x9b: arrays. 0xa0 to 0xbb: maps, with two items for each pair. 0x9f and 0xbf: items up to a break. */
  lemma ContainerRows(b: seq<byte>, p: nat)
    requires p < |b| && 0x80 <= b[p] <= 0xbf
    ensures var a := Argument(b, p);
            var isMap := b[p] >= 0xa0;
            var r := if b[p] % 32 == 31 then DecodeToBreak(b, p + 1, isMap, false)
                     else if a.None? then None
                     else DecodeItems(b, a.value.1, if isMap then 2 * a.value.0 else a.value.0);
            Decode(b, p) ==
            if r.None? then None
            else if isMap then Some((Map(b[p] == 0xbf, r.value.0), r.value.1))
            else Some((Array(b[p] == 0x9f, r.value.0), r.value.1))
  {
    hide Decode;
    hide HeadAt;
    hide Argument;
    hide DecodeChunks;
    hide DecodeItems;
    hide DecodeToBreak;
    HeadIs(b, p);
    ContainerHead(b, p);
  }

  /** 0xc0 to 0xdb: a tag and one item. */
  lemma TagRows(b: seq<byte>, p: nat)
    requires p < |b| && 0xc0 <= b[p] <= 0xdf
    ensures var a := Argument(b, p);
            var r := if a.None? then None else Decode(b, a.value.1);
            Decode(b, p) == if r.None? then None else Some((Tagged(a.value.0, r.value.0), r.value.1))
  {
    hide Decode;
    hide HeadAt;
    hide Argument;
    hide DecodeChunks;
    hide DecodeItems;
    hide DecodeToBreak;
    HeadIs(b, p);
    TagHead(b, p);
  }

  /** 0xe0 to 0xf7: simple values, of which 0xf4 is false and 0xf5 true. 0xf8: the others. 0xf9 to 0xfb: floating point.
      0xfc to 0xff: no item. */
  lemma SimpleRows(b: seq<byte>, p: nat)
    requires p < |b| && 0xe0 <= b[p]
    ensures var a := Argument(b, p);
            Decode(b, p) ==
            if a.None? then None
            else if b[p] <= 0xf7 then Some((Simple(b[p] - 0xe0), p + 1))
            else if b[p] == 0xf8 then if b[p + 1] < 32 then None else Some((Simple(b[p + 1]), p + 2))
            else Some((Float(b[p] - 0xe0, a.value.0), a.value.1))
  {
    hide Decode;
    hide HeadAt;
    hide Wide2;
    hide Wide4;
    hide Wide8;
    HeadIs(b, p);
    SimpleHead(b, p);
  }

  /** Chunks and items end with the byte 0xff, which in a map must not come in place of a value. */
  lemma BreakRow(b: seq<byte>, p: nat)
    requires p < |b|
    ensures b[p] == 0xff ==>
              && (forall major | 2 <= major <= 3 :: DecodeChunks(b, p, major) == Some(([], p + 1)))
              && (forall isMap, valueDue ::
                    DecodeToBreak(b, p, isMap, valueDue) == if isMap && valueDue then None else Some((Nil, p + 1)))
    ensures forall major | 2 <= major <= 3 ::
              b[p] != 0xff && (b[p] / 32 != major || b[p] % 32 > 27) ==> DecodeChunks(b, p, major).None?
  {
    HeadIs(b, p);
    hide HeadAt;
    hide Argument;
  }
}

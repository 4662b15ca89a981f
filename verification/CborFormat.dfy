/** Big-endian numbers and the head of a CBOR data item (section 3 of RFC 8949). */
module CborFormat {
  import opened ByteSeqs
  import opened Wrappers

  const BREAK: byte := 0xff
  const UINT32_MAX: nat := 0xffff_ffff
  const UINT64_LIMIT: nat := 0x1_0000_0000_0000_0000

  // Major types (the high three bits of the initial byte).
  const UNSIGNED := 0
  const NEGATIVE := 1
  const BYTE_STRING := 2
  const TEXT_STRING := 3
  const ARRAY := 4
  const MAP := 5
  const TAG := 6
  const SIMPLE := 7

  // Additional information (the low five bits).
  const VALUE_8_BIT := 24
  const VALUE_16_BIT := 25
  const VALUE_32_BIT := 26
  const VALUE_64_BIT := 27
  const INDEFINITE := 31

  datatype CborError =
    | NoError
    | UnknownLength
    | AdvancePastEOF
    | UnexpectedEOF
    | UnexpectedBreak
    | UnknownType
    | IllegalType
    | IllegalNumber
    | IllegalSimpleType
    | InvalidUtf8TextString
    | TooManyItems
    | TooFewItems
    | DataTooLarge
    | NestingTooDeep
    | OutOfMemory

  // ----- big-endian numbers -----

  function Pow256(n: nat): (r: nat)
    ensures r > 0
  {
    if n == 0 then 1 else 256 * Pow256(n - 1)
  }

  function Power2(n: nat): nat {
    if n == 0 then 1 else 2 * Power2(n - 1)
  }

  function BigEndian(s: seq<byte>): (v: nat)
    ensures v < Pow256(|s|)
  {
    if s == [] then 0 else BigEndian(s[..|s| - 1]) * 256 + s[|s| - 1]
  }

  function ToBigEndian(v: nat, n: nat): (s: seq<byte>)
    ensures |s| == n
  {
    if n == 0 then [] else ToBigEndian(v / 256, n - 1) + [v % 256]
  }

  lemma {:induction false} BigEndianInverts(v: nat, n: nat)
    requires v < Pow256(n)
    ensures BigEndian(ToBigEndian(v, n)) == v
  {
    if n > 0 {
      BigEndianInverts(v / 256, n - 1);
      var s := ToBigEndian(v, n);
      assert s[..n - 1] == ToBigEndian(v / 256, n - 1);
    }
  }

  lemma Pow256Values()
    ensures Pow256(1) == 0x100 && Pow256(2) == 0x1_0000
    ensures Pow256(4) == 0x1_0000_0000 && Pow256(8) == UINT64_LIMIT
  {
    assert Pow256(3) == 0x100_0000;
    assert Pow256(5) == 0x100_0000_0000;
    assert Pow256(6) == 0x1_0000_0000_0000;
    assert Pow256(7) == 0x100_0000_0000_0000;
  }

  // ----- heads -----

  /** An initial byte with its argument: `arg` is 0 when the additional information is 31. */
  datatype Head = Head(major: nat, info: nat, arg: nat, size: nat)

  /** How many bytes follow the initial byte to hold the argument. */
  function ArgBytes(info: nat): nat {
    if info == VALUE_8_BIT then 1
    else if info == VALUE_16_BIT then 2
    else if info == VALUE_32_BIT then 4
    else if info == VALUE_64_BIT then 8
    else 0
  }

  /** The head at `p`; None when it is cut short or its additional information is reserved (28 to 30). */
  function HeadAt(b: seq<byte>, p: nat): (r: Option<Head>)
    ensures r.Some? ==> p + r.value.size <= |b| && r.value.size > 0 && r.value.major < 8 && r.value.arg < UINT64_LIMIT
  {
    if p >= |b| then None
    else
      var info := b[p] % 32;
      var n := ArgBytes(info);
      if 28 <= info <= 30 || p + 1 + n > |b| then None
      else
        Pow256Values();
        var arg := if info < 24 then info else if info == INDEFINITE then 0 else BigEndian(b[p + 1..p + 1 + n]);
        Some(Head(b[p] / 32, info, arg, 1 + n))
  }

  /** The additional information of the preferred (shortest) serialization of `arg` (section 4.1 of RFC 8949). */
  function ShortestInfo(arg: nat): (info: nat)
    ensures info <= VALUE_64_BIT
  {
    if arg < 24 then arg
    else if arg <= 0xff then VALUE_8_BIT
    else if arg <= 0xffff then VALUE_16_BIT
    else if arg <= 0xffff_ffff then VALUE_32_BIT
    else VALUE_64_BIT
  }

  function HeadBytes(major: nat, arg: nat): (s: seq<byte>)
    requires major < 8
    ensures |s| == 1 + ArgBytes(ShortestInfo(arg))
  {
    var info := ShortestInfo(arg);
    [major * 32 + info] + ToBigEndian(arg, ArgBytes(info))
  }

  /** Reading back a head written in shortest form gives the same major type and argument. */
  lemma HeadReadsBack(b: seq<byte>, p: nat, major: nat, arg: nat)
    requires major < 8 && arg < UINT64_LIMIT
    requires At(b, p, HeadBytes(major, arg))
    ensures HeadAt(b, p) == Some(Head(major, ShortestInfo(arg), arg, |HeadBytes(major, arg)|))
  {
    var info := ShortestInfo(arg);
    ShortestInfoHolds(arg);
    AtSplit(b, p, [major * 32 + info], ToBigEndian(arg, ArgBytes(info)));
    HeadFromParts(b, p, major, info, ToBigEndian(arg, ArgBytes(info)));
  }

  lemma HeadFromParts(b: seq<byte>, p: nat, major: nat, info: nat, rest: seq<byte>)
    requires major < 8 && info < 28 && |rest| == ArgBytes(info)
    requires At(b, p, [major * 32 + info]) && At(b, p + 1, rest)
    ensures HeadAt(b, p) == Some(Head(major, info, if info < 24 then info else BigEndian(rest), 1 + |rest|))
  {
    hide BigEndian;
    hide Pow256;
    assert b[p] == b[p..p + 1][0];
  }

  /** The argument bytes of the shortest form hold the argument. */
  lemma ShortestInfoHolds(arg: nat)
    requires arg < UINT64_LIMIT
    ensures var info := ShortestInfo(arg);
            var n := ArgBytes(info);
            if info < 24 then info == arg && n == 0 else n > 0 && BigEndian(ToBigEndian(arg, n)) == arg
  {
    Pow256Values();
    var n := ArgBytes(ShortestInfo(arg));
    if n > 0 { BigEndianInverts(arg, n); }
  }

  /** No head with the same argument is shorter than the one the encoder writes. */
  lemma HeadIsShortest(b: seq<byte>, p: nat)
    requires HeadAt(b, p).Some? && HeadAt(b, p).value.info != INDEFINITE
    ensures var h := HeadAt(b, p).value; |HeadBytes(h.major, h.arg)| <= h.size
  {
    Pow256Values();
  }

  /** One- and two-byte arguments, as the iterator's cache reads them. */
  lemma ShortArguments(b: seq<byte>, p: nat)
    requires HeadAt(b, p).Some?
    ensures HeadAt(b, p).value.info == VALUE_8_BIT ==> HeadAt(b, p).value.arg == b[p + 1]
    ensures HeadAt(b, p).value.info == VALUE_16_BIT ==>
              HeadAt(b, p).value.arg == BigEndian(b[p + 1..p + 3]) < 0x1_0000
  {
    Pow256Values();
    if HeadAt(b, p).value.info == VALUE_8_BIT {
      assert b[p + 1..p + 2] == [b[p + 1]];
      assert BigEndian([]) == 0;
      assert [b[p + 1]][..0] == [];
    }
  }

  /** Whether a data item may begin with this head: only strings, arrays and maps can be indefinite, and a
      two-byte simple value below 32 is not well-formed. */
  predicate Starts(h: Head) {
    && (h.info == INDEFINITE ==> BYTE_STRING <= h.major <= MAP)
    && !(h.major == SIMPLE && h.info == VALUE_8_BIT && h.arg < 32)
  }

  predicate StartsAt(b: seq<byte>, p: nat) {
    HeadAt(b, p).Some? && Starts(HeadAt(b, p).value)
  }
}

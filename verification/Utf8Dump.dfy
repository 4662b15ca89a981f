/** The dump of UTF-8 text as escaped UTF-16, and undoing it. */
module Utf8Dump {
  import opened Wrappers
  import opened ByteSeqs
  import opened CborFormat
  import opened Utf8

  const QUOTE: byte := 34
  const BACKSLASH: byte := 92
  const LETTER_U: byte := 117

  function HexDigit(d: nat): byte
    requires d < 16
  {
    if d < 10 then 48 + d else 55 + d
  }

  function HexValue(x: byte): (d: Option<nat>)
    ensures d.Some? ==> d.value < 16
  {
    if 48 <= x <= 57 then Some(x - 48)
    else if 65 <= x <= 70 then Some(x - 55)
    else if 97 <= x <= 102 then Some(x - 87)
    else None
  }

  /** Four upper-case hexadecimal digits. */
  function Hex4(u: nat): (s: seq<byte>)
    requires u < 0x1_0000
    ensures |s| == 4
  {
    [HexDigit(u / 16 / 16 / 16), HexDigit(u / 16 / 16 % 16), HexDigit(u / 16 % 16), HexDigit(u % 16)]
  }

  /** A UTF-16 code unit as an escape. */
  function Unit(u: nat): (s: seq<byte>)
    requires u < 0x1_0000
    ensures |s| == 6
  {
    [BACKSLASH, LETTER_U] + Hex4(u)
  }

  /** The letter of the short escape of a character, if it has one. */
  function ShortEscape(cp: nat): Option<byte> {
    if cp == 34 || cp == 92 then Some(cp)
    else if cp == 8 then Some(98)
    else if cp == 12 then Some(102)
    else if cp == 10 then Some(110)
    else if cp == 13 then Some(114)
    else if cp == 9 then Some(116)
    else None
  }

  function HighSurrogate(cp: nat): nat
    requires 0x1_0000 <= cp <= 0x10ffff
  {
    cp / 1024 + 0xd7c0
  }

  function LowSurrogate(cp: nat): nat {
    cp % 1024 + 0xdc00
  }

  function Escape(cp: nat): (s: seq<byte>)
    requires IsScalar(cp)
    ensures |s| > 0
  {
    if ShortEscape(cp).Some? then [BACKSLASH, ShortEscape(cp).value]
    else if 0x20 <= cp < 0x7f then [cp]
    else if cp <= 0xffff then Unit(cp)
    else Unit(HighSurrogate(cp)) + Unit(LowSurrogate(cp))
  }

  function EscapeAll(cps: seq<nat>): seq<byte>
    requires AllScalars(cps)
  {
    if cps == [] then [] else Escape(cps[0]) + EscapeAll(cps[1..])
  }

  lemma {:induction false} EscapeAllSnoc(cps: seq<nat>, cp: nat)
    requires AllScalars(cps) && IsScalar(cp)
    ensures EscapeAll(cps + [cp]) == EscapeAll(cps) + Escape(cp)
  {
    hide Escape;
    if cps == [] {
      assert cps + [cp] == [cp];
      assert EscapeAll([cp][1..]) == [];
    } else {
      assert (cps + [cp])[1..] == cps[1..] + [cp];
      EscapeAllSnoc(cps[1..], cp);
    }
  }

  // ----- reading the escapes back (section 7 of RFC 8259, section 2.1 of RFC 2781) -----

  function UnitAt(s: seq<byte>, p: nat): (u: Option<nat>)
    ensures u.Some? ==> u.value < 0x1_0000 && p + 6 <= |s|
  {
    if p + 6 > |s| || s[p] != BACKSLASH || s[p + 1] != LETTER_U then None
    else
      var a, b, c, d := HexValue(s[p + 2]), HexValue(s[p + 3]), HexValue(s[p + 4]), HexValue(s[p + 5]);
      if a.None? || b.None? || c.None? || d.None? then None
      else Some(((a.value * 16 + b.value) * 16 + c.value) * 16 + d.value)
  }

  function ShortValue(x: byte): Option<nat> {
    if x == 34 || x == 92 || x == 47 then Some(x)
    else if x == 98 then Some(8)
    else if x == 102 then Some(12)
    else if x == 110 then Some(10)
    else if x == 114 then Some(13)
    else if x == 116 then Some(9)
    else None
  }

  /** The character that is written at `p`, and how many bytes it takes. */
  function Unescape(s: seq<byte>, p: nat): (r: Option<(nat, nat)>)
    ensures r.Some? ==> r.value.1 > 0 && p + r.value.1 <= |s|
  {
    if p >= |s| then None
    else if s[p] != BACKSLASH then Some((s[p], 1))
    else if p + 1 >= |s| then None
    else if s[p + 1] != LETTER_U then
      var v := ShortValue(s[p + 1]);
      if v.None? then None else Some((v.value, 2))
    else
      var high := UnitAt(s, p);
      if high.None? || 0xdc00 <= high.value <= 0xdfff then None
      else if high.value < 0xd800 || high.value > 0xdbff then Some((high.value, 6))
      else
        var low := UnitAt(s, p + 6);
        if low.None? || !(0xdc00 <= low.value <= 0xdfff) then None
        else Some(((high.value - 0xd800) * 1024 + (low.value - 0xdc00) + 0x1_0000, 12))
  }

  function UnescapeAll(s: seq<byte>, p: nat): Option<seq<nat>>
    requires p <= |s|
    decreases |s| - p
  {
    if p == |s| then Some([])
    else
      var r := Unescape(s, p);
      if r.None? then None
      else
        var rest := UnescapeAll(s, p + r.value.1);
        if rest.None? then None else Some([r.value.0] + rest.value)
  }

  lemma HexReadsBack(d: nat)
    requires d < 16
    ensures HexValue(HexDigit(d)) == Some(d)
  {
  }

  lemma UnitReadsBack(s: seq<byte>, p: nat, u: nat)
    requires u < 0x1_0000 && At(s, p, Unit(u))
    ensures UnitAt(s, p) == Some(u)
    ensures s[p] == BACKSLASH && s[p + 1] == LETTER_U
  {
    var t := s[p..p + 6];
    assert t == Unit(u);
    assert s[p] == t[0] && s[p + 1] == t[1] && s[p + 2] == t[2];
    assert s[p + 3] == t[3] && s[p + 4] == t[4] && s[p + 5] == t[5];
    HexReadsBack(u / 16 / 16 / 16);
    HexReadsBack(u / 16 / 16 % 16);
    HexReadsBack(u / 16 % 16);
    HexReadsBack(u % 16);
    hide HexDigit;
    hide HexValue;
  }

  lemma EscapeReadsBack(s: seq<byte>, p: nat, cp: nat)
    requires IsScalar(cp) && At(s, p, Escape(cp))
    ensures Unescape(s, p) == Some((cp, |Escape(cp)|))
  {
    hide UnitAt;
    hide Hex4;
    var t := Escape(cp);
    assert s[p] == s[p..p + |t|][0] == t[0];
    if |t| > 1 { assert s[p + 1] == s[p..p + |t|][1] == t[1]; }
    if ShortEscape(cp).Some? || 0x20 <= cp < 0x7f {
    } else if cp <= 0xffff {
      UnitReadsBack(s, p, cp);
    } else {
      AtSplit(s, p, Unit(HighSurrogate(cp)), Unit(LowSurrogate(cp)));
      UnitReadsBack(s, p, HighSurrogate(cp));
      UnitReadsBack(s, p + 6, LowSurrogate(cp));
    }
  }

  predicate Printable(x: byte) { 0x20 <= x <= 0x7e }

  predicate UpperHex(x: byte) { 0x30 <= x <= 0x39 || 0x41 <= x <= 0x46 }

  /** A UTF-16 code unit at `p`: a backslash, a small u and four upper-case digits. */
  predicate IsUnit(s: seq<byte>, p: nat) {
    && p + 6 <= |s| && s[p] == 0x5c && s[p + 1] == 0x75
    && UpperHex(s[p + 2]) && UpperHex(s[p + 3]) && UpperHex(s[p + 4]) && UpperHex(s[p + 5])
  }

  /** Printable ASCII stands for itself, but for the quotation mark and the backslash, which are escaped by a backslash
      like the five control characters that have a letter. All others are written as one code unit, or as two outside
      the basic multilingual plane. */
  lemma EscapeForm(cp: nat)
    requires IsScalar(cp)
    ensures var s := Escape(cp);
            && (0x20 <= cp <= 0x7e && cp != 0x22 && cp != 0x5c ==> s == [cp])
            && (cp == 0x22 || cp == 0x5c ==> s == [0x5c, cp])
            && (cp == 0x08 ==> s == [0x5c, 0x62]) && (cp == 0x09 ==> s == [0x5c, 0x74])
            && (cp == 0x0a ==> s == [0x5c, 0x6e]) && (cp == 0x0c ==> s == [0x5c, 0x66])
            && (cp == 0x0d ==> s == [0x5c, 0x72])
            && (!(0x20 <= cp <= 0x7e) && cp !in [0x08, 0x09, 0x0a, 0x0c, 0x0d] ==>
                  && |s| == (if cp <= 0xffff then 6 else 12)
                  && IsUnit(s, 0) && (cp > 0xffff ==> IsUnit(s, 6)))
  {
    if ShortEscape(cp).None? && !(0x20 <= cp < 0x7f) {
      if cp <= 0xffff {
        UnitForm(cp);
      } else {
        var high, low := Unit(HighSurrogate(cp)), Unit(LowSurrogate(cp));
        UnitForm(HighSurrogate(cp));
        UnitForm(LowSurrogate(cp));
        hide Unit;
        UnitsForm(high, low);
      }
    }
  }

  lemma UnitForm(u: nat)
    requires u < 0x1_0000
    ensures IsUnit(Unit(u), 0)
  {
  }

  lemma UnitsForm(high: seq<byte>, low: seq<byte>)
    requires IsUnit(high, 0) && IsUnit(low, 0) && |high| == |low| == 6
    ensures IsUnit(high + low, 0) && IsUnit(high + low, 6)
  {
  }

  /** What is dumped is printable ASCII throughout. */
  lemma {:induction false} DumpIsPrintable(cps: seq<nat>)
    requires AllScalars(cps)
    ensures forall i :: 0 <= i < |EscapeAll(cps)| ==> Printable(EscapeAll(cps)[i])
  {
    if cps != [] {
      EscapeIsPrintable(cps[0]);
      hide Escape;
      DumpIsPrintable(cps[1..]);
    }
  }

  lemma EscapeIsPrintable(cp: nat)
    requires IsScalar(cp)
    ensures forall i :: 0 <= i < |Escape(cp)| ==> Printable(Escape(cp)[i])
  {
    EscapeForm(cp);
    hide Escape;
  }

  /** Undoing the escapes gives back the characters that were dumped. */
  lemma {:induction false} DumpReadsBack(s: seq<byte>, p: nat, cps: seq<nat>)
    requires AllScalars(cps) && p <= |s| && s[p..] == EscapeAll(cps)
    ensures UnescapeAll(s, p) == Some(cps)
    decreases |cps|
  {
    hide Escape;
    hide Unescape;
    if cps != [] {
      var t := Escape(cps[0]);
      assert s[p..p + |t|] == s[p..][..|t|] == t;
      EscapeReadsBack(s, p, cps[0]);
      assert s[p + |t|..] == s[p..][|t|..] == EscapeAll(cps[1..]);
      DumpReadsBack(s, p + |t|, cps[1..]);
      assert [cps[0]] + cps[1..] == cps;
    }
  }

  /** Dumps UTF-8 as escaped UTF-16. There is no error exactly if the bytes are UTF-8; in any case the characters up
      to the first error are dumped, in order. */
  method Utf8EscapedDump(buffer: seq<byte>) returns (err: CborError, out: seq<byte>)
    ensures err == if IsUtf8(buffer) then NoError else InvalidUtf8TextString
    ensures out == EscapeAll(Characters(buffer, 0).0)
    ensures UnescapeAll(out, 0) == Some(Characters(buffer, 0).0)
    ensures err == NoError ==> buffer == EncodeAll(Characters(buffer, 0).0)
  {
    hide Escape;
    hide CharAt;
    hide CharLength;
    hide Characters;
    hide EscapeAll;
    hide UnescapeAll;
    hide EncodeAll;
    hide IsUtf8;
    IsUtf8Iff(buffer);
    ghost var all := Characters(buffer, 0);
    Started(buffer);
    out, err := [], NoError;
    var p := 0;
    ghost var done: seq<nat> := [];
    while p < |buffer|
      invariant p <= |buffer|
      invariant Dumped(buffer, p, done, out)
    {
      var uc, next := GetUtf8(buffer, p);
      if uc == BAD {
        err := InvalidUtf8TextString;
        break;
      }
      Dumping(buffer, p, done, out);
      var escaped := EscapeCharacter(uc);
      out := out + escaped;
      done := done + [uc];
      p := next;
    }
    Finished(buffer, p, done, out);
  }

  /** So far the characters before `p` have been dumped. */
  ghost predicate Dumped(buffer: seq<byte>, p: nat, done: seq<nat>, out: seq<byte>) {
    && p <= |buffer| && AllScalars(done) && out == EscapeAll(done)
    && Characters(buffer, 0) == (done + Characters(buffer, p).0, Characters(buffer, p).1)
  }

  lemma Started(buffer: seq<byte>)
    ensures Dumped(buffer, 0, [], [])
  {
    hide Characters;
    assert [] + Characters(buffer, 0).0 == Characters(buffer, 0).0;
  }

  lemma Dumping(buffer: seq<byte>, p: nat, done: seq<nat>, out: seq<byte>)
    requires Dumped(buffer, p, done, out) && CharLength(buffer, p) > 0
    ensures var uc := CharAt(buffer, p);
            && IsScalar(uc)
            && Dumped(buffer, p + CharLength(buffer, p), done + [uc], out + Escape(uc))
  {
    hide CharAt;
    hide CharLength;
    hide Escape;
    hide EscapeAll;
    hide Encode;
    var uc := CharAt(buffer, p);
    CharIsEncoding(buffer, p);
    EscapeAllSnoc(done, uc);
    var rest := Characters(buffer, p + CharLength(buffer, p)).0;
    assert done + ([uc] + rest) == (done + [uc]) + rest;
  }

  lemma Finished(buffer: seq<byte>, p: nat, done: seq<nat>, out: seq<byte>)
    requires Dumped(buffer, p, done, out) && CharLength(buffer, p) == 0
    ensures Characters(buffer, 0) == (done, p)
    ensures UnescapeAll(out, 0) == Some(done)
  {
    hide CharLength;
    hide EscapeAll;
    hide UnescapeAll;
    assert done + [] == done;
    assert out[0..] == out;
    DumpReadsBack(out, 0, done);
  }

  /** What is printed for one character. */
  method EscapeCharacter(uc: nat) returns (text: seq<byte>)
    requires IsScalar(uc)
    ensures text == Escape(uc)
  {
    if uc < 0x80 {
      var escaped := uc;
      if uc < 0x7f && uc >= 0x20 && uc != BACKSLASH && uc != QUOTE {
        return [uc];
      }
      if uc == QUOTE || uc == BACKSLASH {
      } else if uc == 8 {
        escaped := 98;
      } else if uc == 12 {
        escaped := 102;
      } else if uc == 10 {
        escaped := 110;
      } else if uc == 13 {
        escaped := 114;
      } else if uc == 9 {
        escaped := 116;
      } else {
        return Unit(uc);
      }
      return [BACKSLASH, escaped];
    }
    if uc > 0xffff {
      text := Unit(uc / 1024 + 0xd7c0) + Unit(uc % 1024 + 0xdc00);
    } else {
      text := Unit(uc);
    }
  }
}

/** Strict UTF-8 decoding, and the dump of UTF-8 text as escaped UTF-16. */
module Utf8 {
  import opened ByteSeqs

  // ----- UTF-8 (RFC 3629) -----

  /** Code points that UTF-8 can carry: surrogates are excluded. */
  predicate IsScalar(cp: int) {
    0 <= cp <= 0x10ffff && !(0xd800 <= cp <= 0xdfff)
  }

  /** The encoding of a scalar value (section 3 of RFC 3629). */
  function Encode(cp: nat): (s: seq<byte>)
    requires IsScalar(cp)
    ensures 1 <= |s| <= 4
  {
    if cp < 0x80 then [cp]
    else if cp < 0x800 then [0xc0 + cp / 64, 0x80 + cp % 64]
    else if cp < 0x1_0000 then [0xe0 + cp / 64 / 64, 0x80 + cp / 64 % 64, 0x80 + cp % 64]
    else [0xf0 + cp / 64 / 64 / 64, 0x80 + cp / 64 / 64 % 64, 0x80 + cp / 64 % 64, 0x80 + cp % 64]
  }

  predicate Tail(x: byte) { 0x80 <= x <= 0xbf }

  /** The length of the UTF-8 character at `p`, by the syntax of section 4 of RFC 3629; 0 if there is none. */
  function CharLength(b: seq<byte>, p: nat): (n: nat)
    ensures p + n <= |b| || n == 0
    ensures n <= 4
  {
    if p >= |b| then 0
    else
      var left := |b| - p;
      var x := b[p];
      if x <= 0x7f then 1
      else if 0xc2 <= x <= 0xdf && left >= 2 && Tail(b[p + 1]) then 2
      else if 0xe0 <= x <= 0xef && left >= 3 && Tail(b[p + 1]) && Tail(b[p + 2])
              && (x == 0xe0 ==> b[p + 1] >= 0xa0) && (x == 0xed ==> b[p + 1] <= 0x9f) then 3
      else if 0xf0 <= x <= 0xf4 && left >= 4 && Tail(b[p + 1]) && Tail(b[p + 2]) && Tail(b[p + 3])
              && (x == 0xf0 ==> b[p + 1] >= 0x90) && (x == 0xf4 ==> b[p + 1] <= 0x8f) then 4
      else 0
  }

  /** The scalar value that stands at `p`: the payload bits of its bytes. */
  function CharAt(b: seq<byte>, p: nat): nat
    requires CharLength(b, p) > 0
  {
    var n := CharLength(b, p);
    var x: int := b[p];
    if n == 1 then x
    else if n == 2 then Payload(x - 0xc0, b[p + 1])
    else if n == 3 then Payload(Payload(x - 0xe0, b[p + 1]), b[p + 2])
    else Payload(Payload(Payload(x - 0xf0, b[p + 1]), b[p + 2]), b[p + 3])
  }

  /** Six more bits, from a continuation byte. */
  function Payload(bits: int, x: byte): (r: int)
    requires Tail(x)
    ensures r / 64 == bits && 0x80 + r % 64 == x
    ensures bits >= 0 ==> r >= 0
  {
    var low: int := x;
    bits * 64 + (low - 0x80)
  }

  /** The syntax admits exactly the encodings of scalar values. */
  lemma CharIsEncoding(b: seq<byte>, p: nat)
    requires CharLength(b, p) > 0
    ensures IsScalar(CharAt(b, p)) && |Encode(CharAt(b, p))| == CharLength(b, p) && At(b, p, Encode(CharAt(b, p)))
  {
    PayloadRange(b, p);
    PayloadDigits(b, p);
    hide Payload;
    hide CharAt;
    var n := CharLength(b, p);
    assert Encode(CharAt(b, p)) == if n == 1 then [b[p]] else if n == 2 then [b[p], b[p + 1]]
                                   else if n == 3 then [b[p], b[p + 1], b[p + 2]]
                                   else [b[p], b[p + 1], b[p + 2], b[p + 3]];
    hide CharLength;
    hide Encode;
  }

  /** The base-64 digits of the scalar value are the payloads of the bytes. */
  lemma PayloadDigits(b: seq<byte>, p: nat)
    requires CharLength(b, p) > 0
    ensures var cp: int := CharAt(b, p);
            var n := CharLength(b, p);
            && (n == 1 ==> cp == b[p])
            && (n > 1 ==> 0x80 + cp % 64 == b[p + n - 1])
            && (n == 2 ==> 0xc0 + cp / 64 == b[p])
            && (n > 2 ==> 0x80 + cp / 64 % 64 == b[p + n - 2])
            && (n == 3 ==> 0xe0 + cp / 64 / 64 == b[p])
            && (n == 4 ==> 0x80 + cp / 64 / 64 % 64 == b[p + 1] && 0xf0 + cp / 64 / 64 / 64 == b[p])
  {
    var n := CharLength(b, p);
    var x: int := b[p];
    hide Payload;
    if n == 4 {
      var u := Payload(x - 0xf0, b[p + 1]);
      assert CharAt(b, p) == Payload(Payload(u, b[p + 2]), b[p + 3]);
    } else if n == 3 {
      assert CharAt(b, p) == Payload(Payload(x - 0xe0, b[p + 1]), b[p + 2]);
    }
  }

  lemma PayloadRange(b: seq<byte>, p: nat)
    requires CharLength(b, p) > 0
    ensures var cp := CharAt(b, p);
            var n := CharLength(b, p);
            && IsScalar(cp)
            && (n == 1 ==> cp < 0x80) && (n == 2 ==> 0x80 <= cp < 0x800) && (n == 3 ==> 0x800 <= cp < 0x1_0000)
            && (n == 4 ==> 0x1_0000 <= cp)
  {
  }

  lemma EncodingIsChar(b: seq<byte>, p: nat, cp: nat)
    requires IsScalar(cp) && At(b, p, Encode(cp))
    ensures CharLength(b, p) == |Encode(cp)| && CharAt(b, p) == cp
  {
    var s := Encode(cp);
    assert b[p] == b[p..p + |s|][0] == s[0];
    if |s| > 1 { assert b[p + 1] == b[p..p + |s|][1] == s[1]; }
    if |s| > 2 { assert b[p + 2] == b[p..p + |s|][2] == s[2]; }
    if |s| > 3 { assert b[p + 3] == b[p..p + |s|][3] == s[3]; }
  }

  const BAD: nat := 0xffff_ffff

  /** In terms of the value rather than of the second byte: no overlong forms and no surrogates. */
  lemma ThreeByValue(b: seq<byte>, p: nat)
    requires p + 2 < |b| && 0xe0 <= b[p] <= 0xef && Tail(b[p + 1]) && Tail(b[p + 2])
    ensures var cp := Payload(Payload(b[p] % 16, b[p + 1]), b[p + 2]);
            if cp < 0x800 || 0xd800 <= cp <= 0xdfff then CharLength(b, p) == 0
            else CharLength(b, p) == 3 && cp == CharAt(b, p) <= 0x10ffff
  {
  }

  /** No overlong forms, and nothing out of range. */
  lemma FourByValue(b: seq<byte>, p: nat)
    requires p + 3 < |b| && 0xf0 <= b[p] <= 0xf4 && Tail(b[p + 1]) && Tail(b[p + 2]) && Tail(b[p + 3])
    ensures var cp := Payload(Payload(Payload(b[p] % 8, b[p + 1]), b[p + 2]), b[p + 3]);
            if cp < 0x1_0000 || cp > 0x10ffff then CharLength(b, p) == 0
            else CharLength(b, p) == 4 && cp == CharAt(b, p) >= 0x1_0000
  {
  }

  /** Decodes one character. Nothing but the encoding of a scalar value is accepted, and every one of them is. */
  method GetUtf8(buffer: seq<byte>, p: nat) returns (uc: nat, next: nat)
    requires p <= |buffer|
    ensures uc != BAD <==> CharLength(buffer, p) > 0
    ensures uc != BAD ==> uc == CharAt(buffer, p) && next == p + CharLength(buffer, p)
    ensures p <= next <= |buffer|
  {
    next := p;
    var n := |buffer| - p;
    if n == 0 {
      return BAD, next;
    }
    uc := buffer[next];
    next := next + 1;
    if uc < 0x80 {
      return;
    }
    if uc <= 0xc1 {
      return BAD, next;
    }
    var charsNeeded, minUc;
    if uc < 0xe0 {
      charsNeeded, minUc, uc := 2, 0x80, uc % 32;
    } else if uc < 0xf0 {
      charsNeeded, minUc, uc := 3, 0x800, uc % 16;
    } else if uc < 0xf5 {
      charsNeeded, minUc, uc := 4, 0x1_0000, uc % 8;
    } else {
      return BAD, next;
    }
    if n < charsNeeded {
      return BAD, next;
    }
    var b := buffer[next];
    next := next + 1;
    if b / 64 != 2 {
      return BAD, next;
    }
    uc := uc * 64 + b % 64;
    if charsNeeded > 2 {
      b := buffer[next];
      next := next + 1;
      if b / 64 != 2 {
        return BAD, next;
      }
      uc := uc * 64 + b % 64;
      if charsNeeded > 3 {
        b := buffer[next];
        next := next + 1;
        if b / 64 != 2 {
          return BAD, next;
        }
        uc := uc * 64 + b % 64;
      }
    }
    if charsNeeded == 3 { ThreeByValue(buffer, p); }
    if charsNeeded == 4 { FourByValue(buffer, p); }
    if uc < minUc || 0xd800 <= uc < 0xd800 + 2048 || uc > 0x10ffff {
      return BAD, next;
    }
  }

  // ----- whole strings -----

  predicate AllScalars(cps: seq<nat>) {
    forall i :: 0 <= i < |cps| ==> IsScalar(cps[i])
  }

  function EncodeAll(cps: seq<nat>): seq<byte>
    requires AllScalars(cps)
  {
    if cps == [] then [] else Encode(cps[0]) + EncodeAll(cps[1..])
  }

  /** The characters from `p` on, as far as they are well-formed, and where that ends. */
  function Characters(b: seq<byte>, p: nat): (r: (seq<nat>, nat))
    requires p <= |b|
    ensures AllScalars(r.0) && p <= r.1 <= |b|
    ensures r.1 < |b| ==> CharLength(b, r.1) == 0
    decreases |b| - p
  {
    var n := CharLength(b, p);
    if n == 0 then ([], p)
    else
      CharIsEncoding(b, p);
      var rest := Characters(b, p + n);
      ([CharAt(b, p)] + rest.0, rest.1)
  }

  /** A byte string is UTF-8 exactly if it is the encoding of some scalar values, and these are its characters. */
  lemma {:induction false} EncodingHasCharacters(b: seq<byte>, p: nat, cps: seq<nat>)
    requires p <= |b| && AllScalars(cps) && b[p..] == EncodeAll(cps)
    ensures Characters(b, p) == (cps, |b|)
    decreases |cps|
  {
    hide CharAt;
    hide CharLength;
    hide Encode;
    if cps != [] {
      var s := Encode(cps[0]);
      assert b[p..p + |s|] == b[p..][..|s|] == s;
      EncodingIsChar(b, p, cps[0]);
      assert b[p + |s|..] == b[p..][|s|..] == EncodeAll(cps[1..]);
      EncodingHasCharacters(b, p + |s|, cps[1..]);
      assert [cps[0]] + cps[1..] == cps;
    }
  }

  lemma {:induction false} CharactersEncode(b: seq<byte>, p: nat)
    requires p <= |b|
    ensures b[p..Characters(b, p).1] == EncodeAll(Characters(b, p).0)
    decreases |b| - p
  {
    hide CharAt;
    hide CharLength;
    hide Encode;
    var n := CharLength(b, p);
    if n > 0 {
      CharIsEncoding(b, p);
      CharactersEncode(b, p + n);
      var r := Characters(b, p);
      assert r.0[1..] == Characters(b, p + n).0;
      assert b[p..r.1] == b[p..p + n] + b[p + n..r.1];
    }
  }

  /** Valid UTF-8: the encoding of a sequence of scalar values. */
  ghost predicate IsUtf8(b: seq<byte>) {
    exists cps :: AllScalars(cps) && b == EncodeAll(cps)
  }

  lemma IsUtf8Iff(b: seq<byte>)
    ensures IsUtf8(b) <==> Characters(b, 0).1 == |b|
    ensures IsUtf8(b) ==> b == EncodeAll(Characters(b, 0).0)
  {
    CharactersEncode(b, 0);
    assert b[0..] == b && b[0..|b|] == b;
    if IsUtf8(b) {
      var cps :| AllScalars(cps) && b == EncodeAll(cps);
      EncodingHasCharacters(b, 0, cps);
    }
  }
}

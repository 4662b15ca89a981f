/** Writing a string as JSON, and reading it back. */
module JsonEmit {
  import opened Wrappers
  import opened ByteSeqs
  import opened JsonText
  import opened JsonGrammar
  import Utf8
  import Dump = Utf8Dump

  function EmittedByte(x: byte): (s: seq<byte>)
    ensures |s| > 0
  {
    if Dump.ShortEscape(x).Some? then [BACKSLASH, Dump.ShortEscape(x).value] else [x]
  }

  /** The seven characters that are escaped, and no others. */
  lemma EmittedForm(x: byte)
    ensures EmittedByte(x) ==
            if x in [0x22, 0x5c] then [0x5c, x]
            else if x == 0x08 then [0x5c, 0x62]
            else if x == 0x09 then [0x5c, 0x74]
            else if x == 0x0a then [0x5c, 0x6e]
            else if x == 0x0c then [0x5c, 0x66]
            else if x == 0x0d then [0x5c, 0x72]
            else [x]
  {
  }

  function EmittedBody(str: seq<byte>): seq<byte> {
    if str == [] then [] else EmittedByte(str[0]) + EmittedBody(str[1..])
  }

  function Emitted(str: seq<byte>): seq<byte> {
    [QUOTE] + EmittedBody(str) + [QUOTE]
  }

  lemma {:induction false} EmittedConcat(a: seq<byte>, b: seq<byte>)
    ensures EmittedBody(a + b) == EmittedBody(a) + EmittedBody(b)
  {
    hide EmittedByte;
    if a == [] {
      assert a + b == b;
    } else {
      assert (a + b)[1..] == a[1..] + b;
      EmittedConcat(a[1..], b);
    }
  }

  lemma EmittedOne(x: byte)
    ensures EmittedBody([x]) == EmittedByte(x)
  {
    assert [x][1..] == [];
    assert EmittedBody([]) == [];
  }

  // ----- the loop -----

  /** The bytes `out` have been emitted at `at`, as far as there was room before `end`. */
  predicate Holds(before: seq<byte>, after: seq<byte>, at: nat, end: int, out: seq<byte>)
    requires at <= |before|
  {
    && |after| == |before| && after[..at] == before[..at]
    && (forall i :: 0 <= i < |out| && at + i < end && at + i < |after| ==> after[at + i] == out[i])
    && (forall j :: at <= j < |after| && (j >= end || j >= at + |out|) ==> after[j] == before[j])
  }

  method Emit(s: array<byte>, pos: nat, end: int, x: byte, ghost before: seq<byte>, ghost at: nat, ghost out: seq<byte>)
    requires at <= |before| && end <= s.Length && pos == at + |out| && Holds(before, s[..], at, end, out)
    modifies s
    ensures Holds(before, s[..], at, end, out + [x])
  {
    if pos < end {
      s[pos] := x;
    }
  }

  method EmitEscaped(s: array<byte>, pos: nat, end: int, ch: byte,
                     ghost before: seq<byte>, ghost at: nat, ghost out: seq<byte>)
    returns (next: nat)
    requires at <= |before| && end <= s.Length && pos == at + |out| && Holds(before, s[..], at, end, out)
    modifies s
    ensures Holds(before, s[..], at, end, out + EmittedByte(ch)) && next == pos + |EmittedByte(ch)|
  {
    hide Holds;
    var escape := ch;
    if ch == 8 {
      escape := 98;
    } else if ch == 12 {
      escape := 102;
    } else if ch == 10 {
      escape := 110;
    } else if ch == 13 {
      escape := 114;
    } else if ch == 9 {
      escape := 116;
    } else if ch != QUOTE && ch != BACKSLASH {
      Emit(s, pos, end, ch, before, at, out);
      return pos + 1;
    }
    Emit(s, pos, end, BACKSLASH, before, at, out);
    Emit(s, pos + 1, end, escape, before, at, out + [BACKSLASH]);
    assert out + [BACKSLASH] + [escape] == out + [BACKSLASH, escape];
    next := pos + 2;
  }

  /** Emits a quoted string into `s[at..at + sLen]`. What does not fit is dropped, so that a truncated output is a
      prefix of the full one; the length returned is that of the full one. A NUL is added if there is room. */
  method JsonEmitQuotedStr(s: array<byte>, at: nat, sLen: int, str: seq<byte>) returns (n: nat)
    requires at <= s.Length && at + sLen <= s.Length
    modifies s
    ensures n == |Emitted(str)|
    ensures Holds(old(s[..]), s[..], at, at + sLen, if n < sLen then Emitted(str) + [0] else Emitted(str))
  {
    hide Holds;
    hide EmittedByte;
    ghost var before := s[..];
    HoldsNothing(before, at, at + sLen);
    var end := at + sLen;
    Emit(s, at, end, QUOTE, before, at, []);
    assert [] + [QUOTE] == [QUOTE];
    var pos := at + 1;
    var i := 0;
    ghost var out := [QUOTE];
    while i < |str|
      invariant i <= |str| && pos == at + |out| && out == [QUOTE] + EmittedBody(str[..i])
      invariant Holds(before, s[..], at, end, out)
    {
      var next := EmitEscaped(s, pos, end, str[i], before, at, out);
      out := out + EmittedByte(str[i]);
      assert str[..i + 1] == str[..i] + [str[i]];
      EmittedConcat(str[..i], [str[i]]);
      EmittedOne(str[i]);
      i := i + 1;
      pos := next;
    }
    assert str[..i] == str;
    Emit(s, pos, end, QUOTE, before, at, out);
    pos := pos + 1;
    if pos < end {
      Emit(s, pos, end, 0, before, at, Emitted(str));
    }
    n := pos - at;
  }

  lemma HoldsNothing(before: seq<byte>, at: nat, end: int)
    requires at <= |before|
    ensures Holds(before, before, at, end, [])
  {
  }

  // ----- undoing the escapes -----

  /** The bytes that a string body stands for (section 7 of RFC 8259). */
  function Unescaped(s: seq<byte>, p: nat): Option<seq<byte>>
    requires p <= |s|
    decreases |s| - p
  {
    if p == |s| then Some([])
    else
      var r := Dump.Unescape(s, p);
      if r.None? || (s[p] == BACKSLASH && !Utf8.IsScalar(r.value.0)) then None
      else
        var rest := Unescaped(s, p + r.value.1);
        if rest.None? then None
        else Some((if s[p] == BACKSLASH then Utf8.Encode(r.value.0) else [s[p]]) + rest.value)
  }

  /** For every byte string. */
  lemma {:induction false} EmittedReadsBack(s: seq<byte>, p: nat, str: seq<byte>)
    requires p <= |s| && s[p..] == EmittedBody(str)
    ensures Unescaped(s, p) == Some(str)
    decreases |str|
  {
    hide EmittedByte;
    hide Dump.Unescape;
    hide Utf8.Encode;
    hide Utf8.IsScalar;
    if str != [] {
      var t := EmittedByte(str[0]);
      assert s[p..p + |t|] == s[p..][..|t|] == t;
      assert s[p + |t|..] == s[p..][|t|..] == EmittedBody(str[1..]);
      ByteReadsBack(s, p, str[0]);
      EmittedReadsBack(s, p + |t|, str[1..]);
      assert [str[0]] + str[1..] == str;
    }
  }

  lemma ByteReadsBack(s: seq<byte>, p: nat, x: byte)
    requires At(s, p, EmittedByte(x))
    ensures var r := Dump.Unescape(s, p);
            && r.Some? && r.value.1 == |EmittedByte(x)|
            && if s[p] == BACKSLASH then Utf8.IsScalar(r.value.0) && Utf8.Encode(r.value.0) == [x] else s[p] == x
  {
    var t := EmittedByte(x);
    FirstAt(s, p, t);
    if |t| > 1 { assert s[p + 1] == s[p..p + |t|][1] == t[1]; }
  }

  // ----- reading back -----

  /** Characters that survive: control characters only if they have an escape of their own. */
  predicate Writable(cp: nat) {
    Utf8.IsScalar(cp) && (cp >= 32 || Dump.ShortEscape(cp).Some?)
  }

  function CharOf(cp: nat): (c: Char)
    requires Writable(cp)
    ensures CharOk(c)
  {
    if Dump.ShortEscape(cp).Some? then Short(Dump.ShortEscape(cp).value)
    else
      PlainOk(cp);
      Plain(Utf8.Encode(cp))
  }

  lemma PlainOk(cp: nat)
    requires Writable(cp) && Dump.ShortEscape(cp).None?
    ensures CharOk(Plain(Utf8.Encode(cp)))
  {
    var s := Utf8.Encode(cp);
    Utf8.EncodingIsChar(s, 0, cp);
  }

  function CharsOf(cps: seq<nat>): (cs: seq<Char>)
    requires forall i :: 0 <= i < |cps| ==> Writable(cps[i])
    ensures |cs| == |cps| && CharsOk(cs)
  {
    if cps == [] then [] else [CharOf(cps[0])] + CharsOf(cps[1..])
  }

  lemma {:induction false} HighBytesEmitted(s: seq<byte>)
    requires forall i :: 0 <= i < |s| ==> s[i] >= 0x80
    ensures EmittedBody(s) == s
  {
    if s != [] {
      HighBytesEmitted(s[1..]);
      assert [s[0]] + s[1..] == s;
    }
  }

  lemma CharEmitted(cp: nat)
    requires Utf8.IsScalar(cp)
    ensures Writable(cp) ==> EmittedBody(Utf8.Encode(cp)) == RenderChar(CharOf(cp))
    ensures !Writable(cp) ==> EmittedBody(Utf8.Encode(cp)) == [cp]
  {
    if cp < 0x80 {
      EmittedOne(cp);
    } else {
      HighBytesEmitted(Utf8.Encode(cp));
    }
  }

  lemma {:induction false} CharsEmitted(cps: seq<nat>)
    requires Utf8.AllScalars(cps) && forall i :: 0 <= i < |cps| ==> Writable(cps[i])
    ensures EmittedBody(Utf8.EncodeAll(cps)) == RenderChars(CharsOf(cps))
  {
    hide RenderChar;
    hide CharOf;
    hide Utf8.Encode;
    if cps != [] {
      CharEmitted(cps[0]);
      EmittedConcat(Utf8.Encode(cps[0]), Utf8.EncodeAll(cps[1..]));
      CharsEmitted(cps[1..]);
      assert CharsOf(cps)[1..] == CharsOf(cps[1..]);
    }
  }

  /** An array of one string. */
  function InArray(str: seq<byte>): seq<byte> {
    [OPEN_BRACKET] + (Emitted(str) + [CLOSE_BRACKET])
  }

  lemma TextIs(cs: seq<Char>)
    requires CharsOk(cs)
    ensures Relaxed(Text(cs)) && WellFormed(Text(cs))
    ensures Render(Text(cs)) == [QUOTE] + RenderChars(cs) + [QUOTE]
    ensures NodeOf(Text(cs), 1) == Node(String, 2, 2 + |RenderChars(cs)|, Nil)
  {
    hide RenderChars;
  }

  lemma WritableReadsBack(cps: seq<nat>)
    requires Utf8.AllScalars(cps) && forall i :: 0 <= i < |cps| ==> Writable(cps[i])
    ensures var str := Utf8.EncodeAll(cps);
            var n := |EmittedBody(str)|;
            Root(InArray(str)) == Done(Node(Array, 0, n + 4, Cons(Node(String, 2, 2 + n, Nil), Nil)), n + 4)
  {
    hide RenderChars;
    hide EmittedBody;
    hide Utf8.EncodeAll;
    hide Root;
    hide Relaxed;
    hide WellFormed;
    hide Render;
    hide NodeOf;
    hide CharsOf;
    hide CharsOk;
    var str := Utf8.EncodeAll(cps);
    CharsEmitted(cps);
    var j := Text(CharsOf(cps));
    TextIs(CharsOf(cps));
    SingleIs(j, false);
    TextAccepted([], Single(j, false), []);
    assert [] + Render(Single(j, false)) + [] == InArray(str);
  }

  /** A control character without an escape is emitted as it is, and the parser refuses it. */
  lemma {:induction false} UnwritableRefused(cps: seq<nat>, k: nat)
    requires Utf8.AllScalars(cps) && k < |cps| && !Writable(cps[k]) && forall i :: 0 <= i < k ==> Writable(cps[i])
    ensures Root(InArray(Utf8.EncodeAll(cps))) == Fail(INVALID)
  {
    hide EmittedBody;
    hide Utf8.EncodeAll;
    hide Utf8.Encode;
    hide RenderChars;
    hide CharsOf;
    hide StringFrom;
    hide Writable;
    var good, bad, rest := cps[..k], cps[k], cps[k + 1..];
    var s := InArray(Utf8.EncodeAll(cps));
    assert cps == good + ([bad] + rest);
    EncodeAllConcat(good, [bad] + rest);
    EncodeAllConcat([bad], rest);
    EncodeOne(bad);
    CharEmitted(bad);
    EmittedConcat(Utf8.EncodeAll(good), Utf8.EncodeAll([bad] + rest));
    EmittedConcat(Utf8.EncodeAll([bad]), Utf8.EncodeAll(rest));
    CharsEmitted(good);
    var body := RenderChars(CharsOf(good));
    var q := 2 + |body|;
    assert s[2..q] == body;
    assert s[q] == bad;
    CharsSkipped(s, 2, 2, CharsOf(good));
    StringFromStep(s, 2, q);
    ControlStep(s, q, bad);
    StringFails(s);
  }

  lemma ControlStep(s: seq<byte>, p: nat, x: byte)
    requires Is(s, p, x) && !Writable(x) && Utf8.IsScalar(x)
    ensures StringStep(s, p) == INVALID
  {
  }

  lemma StringFails(s: seq<byte>)
    requires |s| > 2 && s[0] == OPEN_BRACKET && s[1] == QUOTE && StringFrom(s, 2, 2) == Fail(INVALID)
    ensures Root(s) == Fail(INVALID)
  {
    hide StringFrom;
    assert SkipSpace(s, 0) == 0 && SkipSpace(s, 1) == 1;
    assert Value(s, 1) == Fail(INVALID);
    ElementIsValue(s, 1);
    assert Entry(s, 1, false) == Fail(INVALID);
    assert Entries(s, 1, false) == Fail(INVALID);
    assert Container(s, 0) == Fail(INVALID);
  }

  lemma {:induction false} EncodeAllConcat(a: seq<nat>, b: seq<nat>)
    requires Utf8.AllScalars(a) && Utf8.AllScalars(b)
    ensures Utf8.EncodeAll(a + b) == Utf8.EncodeAll(a) + Utf8.EncodeAll(b)
  {
    hide Utf8.Encode;
    if a == [] {
      assert a + b == b;
    } else {
      assert (a + b)[1..] == a[1..] + b;
      EncodeAllConcat(a[1..], b);
    }
  }

  lemma EncodeOne(cp: nat)
    requires Utf8.IsScalar(cp)
    ensures Utf8.EncodeAll([cp]) == Utf8.Encode(cp)
  {
    assert [cp][1..] == [];
    assert Utf8.EncodeAll([]) == [];
  }

  /** A UTF-8 string that is emitted into an array is read back as one string token over exactly the emitted body, if
      and only if it has no control characters but those with an escape of their own. */
  lemma ReadsBackIff(cps: seq<nat>)
    requires Utf8.AllScalars(cps)
    ensures var str := Utf8.EncodeAll(cps);
            var n := |EmittedBody(str)|;
            (forall i :: 0 <= i < |cps| ==> Writable(cps[i])) <==>
            Root(InArray(str)) == Done(Node(Array, 0, n + 4, Cons(Node(String, 2, 2 + n, Nil), Nil)), n + 4)
    ensures var str := Utf8.EncodeAll(cps);
            InArray(str)[2..2 + |EmittedBody(str)|] == EmittedBody(str)
            && Unescaped(EmittedBody(str), 0) == Some(str)
  {
    hide EmittedBody;
    hide Utf8.EncodeAll;
    hide Writable;
    hide Unescaped;
    var str := Utf8.EncodeAll(cps);
    assert EmittedBody(str)[0..] == EmittedBody(str);
    EmittedReadsBack(EmittedBody(str), 0, str);
    if forall i :: 0 <= i < |cps| ==> Writable(cps[i]) {
      WritableReadsBack(cps);
    } else {
      var k := FirstUnwritable(cps);
      UnwritableRefused(cps, k);
    }
  }

  lemma {:induction false} FirstUnwritable(cps: seq<nat>) returns (k: nat)
    requires exists i :: 0 <= i < |cps| && !Writable(cps[i])
    ensures k < |cps| && !Writable(cps[k]) && forall i :: 0 <= i < k ==> Writable(cps[i])
  {
    hide Writable;
    k := 0;
    while Writable(cps[k])
      invariant k < |cps| && forall i :: 0 <= i < k ==> Writable(cps[i])
      decreases |cps| - k
    {
      k := k + 1;
    }
  }
}

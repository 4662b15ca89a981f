/** Every text that the tokenizer accepts is written in the relaxed syntax, in one way only; so it is a text of RFC 8259
    exactly if that way is. */
module JsonSyntax {
  import opened Wrappers
  import opened ByteSeqs
  import opened JsonText
  import opened JsonGrammar

  lemma AtJoin(s: seq<byte>, p: nat, a: seq<byte>, b: seq<byte>)
    requires At(s, p, a) && At(s, p + |a|, b)
    ensures At(s, p, a + b)
  {
    assert s[p..p + |a + b|] == s[p..p + |a|] + s[p + |a|..p + |a| + |b|];
  }

  lemma AtSlice(s: seq<byte>, p: nat, q: nat)
    requires p <= q <= |s|
    ensures At(s, p, s[p..q])
  {
  }

  // ----- reading the syntax off an accepted text -----

  lemma {:induction false} SpaceIsWhite(s: seq<byte>, p: nat)
    requires p <= |s|
    ensures IsWhite(s[p..SkipSpace(s, p)])
    decreases |s| - p
  {
    if p < |s| && IsSpace(s[p]) {
      SpaceIsWhite(s, p + 1);
      assert s[p..SkipSpace(s, p)] == [s[p]] + s[p + 1..SkipSpace(s, p + 1)];
    }
  }

  lemma {:induction false} SkippedAreDigits(s: seq<byte>, p: nat)
    requires p <= |s|
    ensures var q := SkipDigits(s, p); AllDigits(s[p..q]) && (q < |s| ==> !IsDigit(s[q]))
    decreases |s| - p
  {
    if p < |s| && IsDigit(s[p]) {
      SkippedAreDigits(s, p + 1);
      assert s[p..SkipDigits(s, p)] == [s[p]] + s[p + 1..SkipDigits(s, p + 1)];
    }
  }

  lemma DigitsSyntax(s: seq<byte>, p: nat)
    requires DigitsEnd(s, p) >= 0
    ensures var q := DigitsEnd(s, p); AreDigits(s[p..q]) && (q < |s| ==> !IsDigit(s[q]))
  {
    SkippedAreDigits(s, p);
    hide SkipDigits;
  }

  lemma {:induction false} LettersAre(s: seq<byte>, p: nat)
    requires p <= |s|
    ensures var q := IdentifierEnd(s, p); forall i :: p <= i < q ==> InIdentifier(s[i])
    decreases |s| - p
  {
    if p < |s| && InIdentifier(s[p]) { LettersAre(s, p + 1); }
  }

  lemma FractionSyntax(s: seq<byte>, p: nat) returns (f: Option<seq<byte>>)
    requires p <= |s| && FractionEnd(s, p) >= 0
    ensures f.Some? ==> AreDigits(f.value)
    ensures At(s, p, RenderFraction(f)) && FractionEnd(s, p) == p + |RenderFraction(f)|
    ensures f.None? ==> !Is(s, p, DOT) && FractionEnd(s, p) == p
    ensures f.Some? ==> FractionEnd(s, p) < |s| ==> !IsDigit(s[FractionEnd(s, p)])
  {
    var q := FractionEnd(s, p);
    if Is(s, p, DOT) {
      DigitsSyntax(s, p + 1);
      hide DigitsEnd;
      f := Some(s[p + 1..q]);
      assert s[p..q] == [DOT] + s[p + 1..q];
    } else {
      f := None;
    }
  }

  lemma ExponentSyntax(s: seq<byte>, p: nat) returns (e: Option<Exponent>)
    requires p <= |s| && ExponentEnd(s, p) >= 0
    ensures e.Some? ==> ExponentFits(e.value)
    ensures At(s, p, RenderExponent(e)) && ExponentEnd(s, p) == p + |RenderExponent(e)|
    ensures e.None? ==> !Is(s, p, 101) && !Is(s, p, 69) && ExponentEnd(s, p) == p
    ensures e.Some? ==> ExponentEnd(s, p) < |s| ==> !IsDigit(s[ExponentEnd(s, p)])
  {
    hide At;
    hide DigitsEnd;
    hide AreDigits;
    var q := ExponentEnd(s, p);
    if Is(s, p, 101) || Is(s, p, 69) {
      var d := if Is(s, p + 1, PLUS) || Is(s, p + 1, MINUS) then p + 2 else p + 1;
      DigitsSyntax(s, d);
      var sign := if d == p + 2 then [s[p + 1]] else [];
      e := Some(Exponent(s[p], sign, s[d..q]));
      ByteAt(s, p);
      if d == p + 2 { ByteAt(s, p + 1); } else { NothingAt(s, p + 1); }
      AtSlice(s, d, q);
      AtJoin(s, p + 1, sign, s[d..q]);
      AtJoin(s, p, [s[p]], sign + s[d..q]);
    } else {
      NothingAt(s, p);
      e := None;
    }
  }

  lemma ByteAt(s: seq<byte>, p: nat)
    requires p < |s|
    ensures At(s, p, [s[p]])
  {
  }

  lemma NothingAt(s: seq<byte>, p: nat)
    requires p <= |s|
    ensures At(s, p, [])
  {
  }

  lemma NumberSyntax(s: seq<byte>, p: nat) returns (j: Json)
    requires p <= |s| && NumberAt(s, p).Done?
    ensures j.Num? && NumberFits(j)
    ensures At(s, p, Render(j)) && NumberAt(s, p).next == p + |Render(j)|
    ensures Followed(s, j, NumberAt(s, p).next)
  {
    hide At;
    hide Render;
    hide RenderFraction;
    hide RenderExponent;
    hide DigitsEnd;
    hide FractionEnd;
    hide ExponentEnd;
    hide AreDigits;
    hide ExponentFits;
    var a := if Is(s, p, MINUS) then p + 1 else p;
    var b := DigitsEnd(s, a);
    DigitsSyntax(s, a);
    var f := FractionSyntax(s, b);
    var c := FractionEnd(s, b);
    var e := ExponentSyntax(s, c);
    j := Num(Is(s, p, MINUS), s[a..b], f, e);
    SignAt(s, p);
    AtSlice(s, a, b);
    NumberJoins(s, p, j);
  }

  lemma SignAt(s: seq<byte>, p: nat)
    requires p <= |s|
    ensures At(s, p, Sign(Is(s, p, MINUS)))
  {
    if Is(s, p, MINUS) { assert s[p..p + 1] == [MINUS]; }
  }

  lemma NumberJoins(s: seq<byte>, p: nat, j: Json)
    requires j.Num?
    requires var a := p + |Sign(j.negative)|;
             var b := a + |j.integer|;
             var c := b + |RenderFraction(j.fraction)|;
             && At(s, p, Sign(j.negative)) && At(s, a, j.integer)
             && At(s, b, RenderFraction(j.fraction)) && At(s, c, RenderExponent(j.exponent))
    ensures At(s, p, Render(j))
    ensures |Render(j)| ==
            |Sign(j.negative)| + |j.integer| + |RenderFraction(j.fraction)| + |RenderExponent(j.exponent)|
  {
    hide At;
    hide RenderFraction;
    hide RenderExponent;
    var f, e := RenderFraction(j.fraction), RenderExponent(j.exponent);
    var a := p + |Sign(j.negative)|;
    AtJoin(s, a + |j.integer|, f, e);
    AtJoin(s, a, j.integer, f + e);
    AtJoin(s, p, Sign(j.negative), j.integer + (f + e));
  }

  lemma CharSyntax(s: seq<byte>, p: nat) returns (c: Char)
    requires StringStep(s, p) > 0
    ensures CharFits(c) && RenderChar(c) == s[p..p + StringStep(s, p)]
  {
    if s[p] != BACKSLASH {
      c := Plain(s[p..p + StringStep(s, p)]);
    } else if s[p + 1] == LETTER_U {
      c := Code(s[p + 2..p + 6]);
      assert s[p..p + 6] == [BACKSLASH, LETTER_U] + s[p + 2..p + 6];
    } else {
      c := Short(s[p + 1]);
    }
  }

  lemma {:induction false} CharsSyntax(s: seq<byte>, lo: nat, p: nat) returns (cs: seq<Char>)
    requires p <= |s| && StringFrom(s, lo, p).Done?
    ensures CharsFit(cs) && At(s, p, RenderChars(cs))
    ensures var q := p + |RenderChars(cs)|; Is(s, q, QUOTE) && StringFrom(s, lo, p).next == q + 1 < |s|
    decreases |s| - p
  {
    hide At;
    hide StringFrom;
    hide StringStep;
    hide RenderChar;
    hide CharFits;
    StringFromStep(s, lo, p);
    var n := StringStep(s, p);
    if n == 0 {
      NothingAt(s, p);
      QuoteHere(s, p);
      return [];
    }
    var c := CharSyntax(s, p);
    var rest := CharsSyntax(s, lo, p + n);
    cs := [c] + rest;
    assert cs[1..] == rest;
    AtSlice(s, p, p + n);
    AtJoin(s, p, RenderChar(c), RenderChars(rest));
  }

  lemma QuoteHere(s: seq<byte>, p: nat)
    requires p < |s| && StringStep(s, p) == 0
    ensures Is(s, p, QUOTE)
  {
  }

  lemma StringSyntax(s: seq<byte>, p: nat) returns (cs: seq<Char>)
    requires Is(s, p, QUOTE) && StringAt(s, p).Done?
    ensures CharsFit(cs) && At(s, p, RenderString(cs)) && StringAt(s, p).next == p + |RenderString(cs)| < |s|
  {
    hide StringFrom;
    hide CharsFit;
    NoSpaceSkipped(s, p);
    cs := CharsSyntax(s, p + 1, p + 1);
    var q := p + 1 + |RenderChars(cs)|;
    assert s[p..p + 1] == [QUOTE] && s[q..q + 1] == [QUOTE];
    AtJoin(s, p, [QUOTE], RenderChars(cs));
    AtJoin(s, p, [QUOTE] + RenderChars(cs), [QUOTE]);
  }

  lemma NameSyntax(s: seq<byte>, q: nat) returns (n: Name)
    requires q < |s| && !IsSpace(s[q]) && Key(s, q).Done?
    ensures NameFits(n) && At(s, q, RenderName(n)) && Key(s, q).next == q + |RenderName(n)| <= |s|
  {
    hide StringAt;
    NoSpaceSkipped(s, q);
    if IsAlpha(s[q]) {
      LettersAre(s, q);
      hide IdentifierEnd;
      n := Bare(s[q..Key(s, q).next]);
    } else {
      var cs := StringSyntax(s, q);
      n := Quoted(cs);
    }
  }

  lemma LiteralSyntax(s: seq<byte>, p: nat) returns (j: Json)
    requires p < |s| && Value(s, p).Done? && (s[p] == 110 || s[p] == 116 || s[p] == 102)
    ensures j.Literal? && Relaxed(j) && At(s, p, Render(j)) && Value(s, p).next == p + |Render(j)|
  {
    NoSpaceSkipped(s, p);
    hide Match;
    hide At;
    hide SkipSpace;
    j := Literal(if s[p] == 110 then Null else if s[p] == 116 then True else False);
  }

  /** How an accepted value is written. */
  lemma {:induction false} ValueSyntax(s: seq<byte>, p: nat) returns (j: Json)
    requires p < |s| && !IsSpace(s[p]) && Value(s, p).Done?
    ensures Relaxed(j) && At(s, p, Render(j)) && Value(s, p).next == p + |Render(j)| <= |s|
    ensures Followed(s, j, Value(s, p).next)
    decreases |s| - p, 1
  {
    hide StringAt;
    hide NumberAt;
    hide Container;
    hide Match;
    hide At;
    hide RenderString;
    hide RenderAll;
    hide RelaxedAll;
    NoSpaceSkipped(s, p);
    hide SkipSpace;
    if s[p] == QUOTE {
      var cs := StringSyntax(s, p);
      j := Text(cs);
    } else if s[p] == OPEN_BRACE || s[p] == OPEN_BRACKET {
      j := ContainerSyntax(s, p);
    } else if s[p] == MINUS || IsDigit(s[p]) {
      j := NumberSyntax(s, p);
    } else {
      j := LiteralSyntax(s, p);
    }
  }

  lemma {:induction false} ContainerSyntax(s: seq<byte>, p: nat) returns (j: Json)
    requires (Is(s, p, OPEN_BRACE) || Is(s, p, OPEN_BRACKET)) && Container(s, p).Done?
    ensures j.List? && Relaxed(j) && At(s, p, Render(j)) && Container(s, p).next == p + |Render(j)| <= |s|
    decreases |s| - p, 0
  {
    hide Entries;
    hide RenderAll;
    hide RelaxedAll;
    var isObject := s[p] == OPEN_BRACE;
    var es := EntriesSyntax(s, p + 1, isObject, false);
    j := List(isObject, es);
    var q := p + 1 + |RenderAll(es)|;
    assert s[p..p + 1] == [Opener(isObject)] && s[q..q + 1] == [Closer(isObject)];
    AtJoin(s, p + 1, RenderAll(es), [Closer(isObject)]);
    AtJoin(s, p, [Opener(isObject)], RenderAll(es) + [Closer(isObject)]);
  }

  lemma {:induction false} EntriesSyntax(s: seq<byte>, p: nat, isObject: bool, glued: bool) returns (es: Elements)
    requires p <= |s| && Entries(s, p, isObject).Done? && (glued ==> SkipSpace(s, p) == p)
    ensures RelaxedAll(es, isObject, glued) && At(s, p, RenderAll(es))
    ensures Entries(s, p, isObject).next == p + |RenderAll(es)| + 1
    ensures Is(s, p + |RenderAll(es)|, Closer(isObject))
    decreases |s| - p, 3
  {
    hide At;
    hide Entries;
    hide Entry;
    hide SkipSpace;
    hide SkipComma;
    hide RenderElement;
    hide ElementFits;
    hide Apart;
    hide IsWhite;
    var q := SkipSpace(s, p);
    SpaceIsWhite(s, p);
    AtSlice(s, p, q);
    if Is(s, q, Closer(isObject)) {
      EntriesNone(s, p, isObject);
      return End(s[p..q]);
    }
    EntriesStart(s, p, isObject);
    var v := Entry(s, p, isObject).next;
    var r := SkipComma(s, v);
    var e := ElementSyntax(s, p, isObject);
    SkipsOn(s, v);
    var rest := EntriesSyntax(s, r, isObject, !e.comma);
    AtJoin(s, p, RenderElement(e), RenderAll(rest));
    StaysApart(s, e, rest, v, r);
    es := Next(e, rest);
  }

  lemma EntriesStart(s: seq<byte>, p: nat, isObject: bool)
    requires Entries(s, p, isObject).Done? && !Is(s, SkipSpace(s, p), Closer(isObject))
    ensures var x := Entry(s, p, isObject);
            && x.Done? && Entries(s, SkipComma(s, x.next), isObject).Done?
            && Entries(s, SkipComma(s, x.next), isObject).next == Entries(s, p, isObject).next
  {
    hide Entry;
    hide SkipSpace;
    hide SkipComma;
  }

  lemma SkipsOn(s: seq<byte>, p: nat)
    ensures var r := SkipSpace(s, p);
            !Is(s, r, COMMA) ==> SkipComma(s, p) == r && SkipSpace(s, r) == r
  {
  }

  lemma StaysApart(s: seq<byte>, e: Element, rest: Elements, v: nat, r: nat)
    requires Followed(s, e.value, v) && At(s, r, RenderAll(rest)) && v + |e.after| + |Comma(e.comma)| == r
    ensures Apart(e, rest)
  {
    hide At;
    hide RenderAll;
    if RenderAll(rest) != [] { FirstAt(s, r, RenderAll(rest)); }
  }

  /** How an entry is written, with what comes before the next one. */
  lemma {:induction false} ElementSyntax(s: seq<byte>, p: nat, isObject: bool) returns (e: Element)
    requires p <= |s| && Entry(s, p, isObject).Done?
    ensures ElementFits(e, isObject) && e.before == s[p..SkipSpace(s, p)]
    ensures At(s, p, RenderElement(e))
    ensures var v := Entry(s, p, isObject).next;
            && p + |RenderElement(e)| == SkipComma(s, v) && v + |e.after| + |Comma(e.comma)| == SkipComma(s, v)
            && e.comma == Is(s, SkipSpace(s, v), COMMA) && Followed(s, e.value, v)
    decreases |s| - p, 2
  {
    hide Value;
    hide Key;
    hide At;
    hide Relaxed;
    hide Followed;
    hide Render;
    hide RenderLabel;
    hide LabelFits;
    hide RenderElement;
    hide Comma;
    hide Entry;
    hide SkipSpace;
    hide SkipComma;
    hide IsWhite;
    var v := Entry(s, p, isObject).next;
    var q := SkipSpace(s, p);
    SpaceIsWhite(s, p);
    AtSlice(s, p, q);
    AfterSyntax(s, v);
    var key, r := KeySyntax(s, p, isObject);
    var value := ValueSyntax(s, r);
    e := Element(s[p..q], key, value, s[v..SkipSpace(s, v)], Is(s, SkipSpace(s, v), COMMA));
    ElementJoins(s, p, e);
  }

  /** White space and maybe a comma after an entry. */
  lemma AfterSyntax(s: seq<byte>, v: nat)
    requires v <= |s|
    ensures var w := SkipSpace(s, v);
            var comma := Comma(Is(s, w, COMMA));
            && IsWhite(s[v..w]) && At(s, v, s[v..w] + comma) && SkipComma(s, v) == w + |comma|
  {
    hide At;
    hide SkipSpace;
    hide SkipComma;
    hide Comma;
    hide IsWhite;
    var w := SkipSpace(s, v);
    SpaceIsWhite(s, v);
    CommaAt(s, v);
    AtSlice(s, v, w);
    AtJoin(s, v, s[v..w], Comma(Is(s, w, COMMA)));
  }

  /** The name of a member, or nothing in an array, up to where the value starts. */
  lemma KeySyntax(s: seq<byte>, p: nat, isObject: bool) returns (key: Option<Label>, r: nat)
    requires p <= |s| && Entry(s, p, isObject).Done?
    ensures (isObject <==> key.Some?) && (isObject ==> LabelFits(key.value) && p < r)
    ensures At(s, SkipSpace(s, p), RenderLabel(key))
    ensures r == SkipSpace(s, p) + |RenderLabel(key)| < |s| && !IsSpace(s[r])
    ensures Value(s, r).Done? && Value(s, r).next == Entry(s, p, isObject).next
  {
    hide At;
    hide Value;
    hide Key;
    hide RenderLabel;
    hide LabelFits;
    if isObject {
      var l;
      l, r := LabelSyntax(s, p);
      key := Some(l);
    } else {
      r := SkipSpace(s, p);
      ElementIsValue(s, p);
      ValueSkips(s, p, r);
      ValueStarts(s, r);
      key := None;
      NoLabel(s, r);
    }
  }

  lemma CommaAt(s: seq<byte>, v: nat)
    requires v <= |s|
    ensures var w := SkipSpace(s, v);
            At(s, w, Comma(Is(s, w, COMMA))) && SkipComma(s, v) == w + |Comma(Is(s, w, COMMA))|
  {
  }

  lemma NoLabel(s: seq<byte>, q: nat)
    requires q <= |s|
    ensures At(s, q, RenderLabel(None)) && |RenderLabel(None)| == 0
  {
  }

  /** A value does not start at the end of the text. */
  lemma ValueStarts(s: seq<byte>, q: nat)
    requires Value(s, q).Done? && SkipSpace(s, q) == q
    ensures q < |s| && !IsSpace(s[q])
  {
  }

  lemma ElementJoins(s: seq<byte>, p: nat, e: Element)
    requires var q := p + |e.before|;
             var r := q + |RenderLabel(e.key)|;
             var v := r + |Render(e.value)|;
             && At(s, p, e.before) && At(s, q, RenderLabel(e.key)) && At(s, r, Render(e.value))
             && At(s, v, e.after + Comma(e.comma))
    ensures At(s, p, RenderElement(e))
    ensures |RenderElement(e)| ==
            |e.before| + |RenderLabel(e.key)| + |Render(e.value)| + |e.after| + |Comma(e.comma)|
  {
    hide At;
    hide Render;
    hide RenderLabel;
    var q := p + |e.before|;
    var r := q + |RenderLabel(e.key)|;
    AtJoin(s, r, Render(e.value), e.after + Comma(e.comma));
    AtJoin(s, q, RenderLabel(e.key), Render(e.value) + (e.after + Comma(e.comma)));
    AtJoin(s, p, e.before, RenderLabel(e.key) + (Render(e.value) + (e.after + Comma(e.comma))));
  }

  /** The name of a member, up to where its value starts. */
  lemma LabelSyntax(s: seq<byte>, p: nat) returns (l: Label, r: nat)
    requires p <= |s| && Entry(s, p, true).Done?
    ensures LabelFits(l) && At(s, SkipSpace(s, p), RenderLabel(Some(l)))
    ensures r == SkipSpace(s, p) + |RenderLabel(Some(l))| < |s| && !IsSpace(s[r]) && p < r
    ensures Value(s, r).Done? && Value(s, r).next == Entry(s, p, true).next
  {
    hide Key;
    hide Value;
    hide At;
    hide IsWhite;
    hide RenderName;
    hide RenderLabel;
    hide NameFits;
    var q := SkipSpace(s, p);
    KeySkips(s, p, q);
    KeyStarts(s, q);
    var k := Key(s, p).next;
    var c := SkipSpace(s, k);
    r := SkipSpace(s, c + 1);
    ValueSkips(s, c + 1, r);
    ValueStarts(s, r);
    hide Entry;
    SpaceIsWhite(s, k);
    SpaceIsWhite(s, c + 1);
    hide SkipSpace;
    var n := NameSyntax(s, q);
    l := Label(n, s[k..c], s[c + 1..r]);
    AtSlice(s, k, c);
    AtSlice(s, c + 1, r);
    LabelJoins(s, q, l);
  }

  lemma LabelJoins(s: seq<byte>, q: nat, l: Label)
    requires var k := q + |RenderName(l.name)|;
             var c := k + |l.beforeColon|;
             && At(s, q, RenderName(l.name)) && At(s, k, l.beforeColon) && Is(s, c, COLON) && At(s, c + 1, l.afterColon)
    ensures At(s, q, RenderLabel(Some(l)))
    ensures |RenderLabel(Some(l))| == |RenderName(l.name)| + |l.beforeColon| + 1 + |l.afterColon|
  {
    hide At;
    hide RenderName;
    var k := q + |RenderName(l.name)|;
    var c := k + |l.beforeColon|;
    ByteAt(s, c);
    AtJoin(s, c, [COLON], l.afterColon);
    AtJoin(s, k, l.beforeColon, [COLON] + l.afterColon);
    AtJoin(s, q, RenderName(l.name), l.beforeColon + ([COLON] + l.afterColon));
  }

  lemma KeyStarts(s: seq<byte>, q: nat)
    requires Key(s, q).Done? && SkipSpace(s, q) == q
    ensures q < |s| && !IsSpace(s[q])
  {
  }

  lemma RootSyntax(s: seq<byte>) returns (space: seq<byte>, j: Json, rest: seq<byte>)
    requires Root(s).Done?
    ensures IsText(s, space, j, rest)
  {
    hide Container;
    hide Relaxed;
    hide Render;
    var q := SkipSpace(s, 0);
    SpaceIsWhite(s, 0);
    hide SkipSpace;
    hide IsWhite;
    space := s[..q];
    assert s[0..q] == space;
    j := ContainerSyntax(s, q);
    rest := s[q + |Render(j)|..];
    assert s == s[..q] + s[q..q + |Render(j)|] + s[q + |Render(j)|..];
  }

  /** The texts that are accepted are exactly those of the relaxed syntax. */
  lemma AcceptedIff(s: seq<byte>)
    ensures Root(s).Done? <==> exists space, j, rest :: IsText(s, space, j, rest)
  {
    hide Root;
    hide IsText;
    if Root(s).Done? {
      var space, j, rest := RootSyntax(s);
    } else if exists space, j, rest :: IsText(s, space, j, rest) {
      var space, j, rest :| IsText(s, space, j, rest);
      RelaxedAccepted(s, space, j, rest);
      assert false;
    }
  }

  // ----- there is only one way to read a text -----

  lemma SameSlice(s: seq<byte>, p: nat, a: seq<byte>, b: seq<byte>)
    requires At(s, p, a) && At(s, p, b) && |a| == |b|
    ensures a == b
  {
  }

  lemma SameChar(c: Char, d: Char)
    requires CharFits(c) && CharFits(d) && RenderChar(c) == RenderChar(d)
    ensures c == d
  {
    if c.Code? && d.Code? {
      assert c.digits == RenderChar(c)[2..];
      assert d.digits == RenderChar(d)[2..];
    } else {
      assert RenderChar(c)[0] == RenderChar(d)[0];
      if !c.Plain? { assert RenderChar(c)[1] == RenderChar(d)[1]; }
    }
  }

  /** The characters up to a quote. */
  predicate CharsAt(s: seq<byte>, p: nat, cs: seq<Char>) {
    CharsFit(cs) && At(s, p, RenderChars(cs)) && Is(s, p + |RenderChars(cs)|, QUOTE) && p + |RenderChars(cs)| + 1 < |s|
  }

  lemma CharsAtStep(s: seq<byte>, p: nat, cs: seq<Char>)
    requires CharsAt(s, p, cs)
    ensures cs == [] ==> StringStep(s, p) == 0
    ensures cs != [] ==>
              && CharFits(cs[0]) && At(s, p, RenderChar(cs[0])) && StringStep(s, p) == |RenderChar(cs[0])| > 0
              && CharsAt(s, p + |RenderChar(cs[0])|, cs[1..])
  {
    hide At;
    hide StringStep;
    hide CharFits;
    hide RenderChar;
    if cs == [] {
      QuoteStep(s, p);
    } else {
      AtSplit(s, p, RenderChar(cs[0]), RenderChars(cs[1..]));
      CharStep(s, p, cs[0]);
    }
  }

  lemma {:induction false} SameChars(s: seq<byte>, p: nat, cs: seq<Char>, ds: seq<Char>)
    requires CharsAt(s, p, cs) && CharsAt(s, p, ds)
    ensures cs == ds
    decreases |cs|
  {
    hide CharsAt;
    hide StringStep;
    hide CharFits;
    hide RenderChar;
    CharsAtStep(s, p, cs);
    CharsAtStep(s, p, ds);
    if cs != [] {
      SameSlice(s, p, RenderChar(cs[0]), RenderChar(ds[0]));
      SameChar(cs[0], ds[0]);
      SameChars(s, p + |RenderChar(cs[0])|, cs[1..], ds[1..]);
      assert cs == [cs[0]] + cs[1..] && ds == [ds[0]] + ds[1..];
    }
  }

  lemma StringParts(s: seq<byte>, p: nat, cs: seq<Char>)
    requires CharsFit(cs) && At(s, p, RenderString(cs)) && p + |RenderString(cs)| < |s|
    ensures CharsAt(s, p + 1, cs)
  {
    hide At;
    hide RenderChars;
    hide CharsFit;
    AtSplit(s, p, [QUOTE] + RenderChars(cs), [QUOTE]);
    AtSplit(s, p, [QUOTE], RenderChars(cs));
    FirstAt(s, p + 1 + |RenderChars(cs)|, [QUOTE]);
  }

  lemma SameString(s: seq<byte>, p: nat, cs: seq<Char>, ds: seq<Char>)
    requires CharsFit(cs) && At(s, p, RenderString(cs)) && p + |RenderString(cs)| < |s|
    requires CharsFit(ds) && At(s, p, RenderString(ds)) && p + |RenderString(ds)| < |s|
    ensures cs == ds
  {
    StringParts(s, p, cs);
    StringParts(s, p, ds);
    SameChars(s, p + 1, cs, ds);
  }

  /** Where a fraction ends, which digit and letter follow. */
  predicate FractionAt(s: seq<byte>, p: nat, f: Option<seq<byte>>) {
    && (f.Some? ==> AreDigits(f.value)) && At(s, p, RenderFraction(f)) && p <= |s|
    && var q := p + |RenderFraction(f)|; q < |s| ==> !IsDigit(s[q]) && (f.None? ==> s[q] != DOT)
  }

  lemma SameFraction(s: seq<byte>, p: nat, f: Option<seq<byte>>, g: Option<seq<byte>>)
    requires FractionAt(s, p, f) && FractionAt(s, p, g)
    ensures f == g
  {
    hide At;
    FractionRead(s, p, f);
    FractionRead(s, p, g);
    hide FractionEnd;
    hide AreDigits;
    SameSlice(s, p, RenderFraction(f), RenderFraction(g));
    if f.Some? && g.Some? {
      assert f.value == RenderFraction(f)[1..];
      assert g.value == RenderFraction(g)[1..];
    }
  }

  predicate ExponentAt(s: seq<byte>, p: nat, e: Option<Exponent>) {
    && (e.Some? ==> ExponentFits(e.value)) && At(s, p, RenderExponent(e)) && p <= |s|
    && var q := p + |RenderExponent(e)|; q < |s| ==> !IsDigit(s[q]) && (e.None? ==> s[q] != 101 && s[q] != 69)
  }

  lemma SameExponent(s: seq<byte>, p: nat, e: Option<Exponent>, f: Option<Exponent>)
    requires ExponentAt(s, p, e) && ExponentAt(s, p, f)
    ensures e == f
  {
    ExponentRead(s, p, e);
    ExponentRead(s, p, f);
    if e.Some? && f.Some? {
      hide ExponentEnd;
      SameSlice(s, p, RenderExponent(e), RenderExponent(f));
      SameExponentParts(e.value, f.value);
    }
  }

  lemma SameExponentParts(x: Exponent, y: Exponent)
    requires ExponentFits(x) && ExponentFits(y) && RenderExponent(Some(x)) == RenderExponent(Some(y))
    ensures x == y
  {
    var t, u := RenderExponent(Some(x)), RenderExponent(Some(y));
    assert t[0] == x.letter && u[0] == y.letter;
    assert t[1] == if x.sign == [] then x.digits[0] else x.sign[0];
    assert u[1] == if y.sign == [] then y.digits[0] else y.sign[0];
    assert |x.sign| == |y.sign|;
    assert t[1..] == x.sign + x.digits && u[1..] == y.sign + y.digits;
    assert (x.sign + x.digits)[..|x.sign|] == x.sign && (y.sign + y.digits)[..|x.sign|] == y.sign;
    assert (x.sign + x.digits)[|x.sign|..] == x.digits && (y.sign + y.digits)[|x.sign|..] == y.digits;
  }

  /** The parts of a number that is written at `p`, each with what follows it. */
  lemma NumberAtParts(s: seq<byte>, p: nat, j: Json)
    requires j.Num? && NumberFits(j) && At(s, p, Render(j)) && Followed(s, j, p + |Render(j)|)
    ensures var a := p + |Sign(j.negative)|;
            var b := a + |j.integer|;
            var c := b + |RenderFraction(j.fraction)|;
            && (j.negative <==> Is(s, p, MINUS)) && At(s, a, j.integer) && DigitsEnd(s, a) == b
            && FractionAt(s, b, j.fraction) && ExponentAt(s, c, j.exponent)
  {
    hide At;
    hide Render;
    hide RenderFraction;
    hide RenderExponent;
    hide DigitsEnd;
    hide AreDigits;
    NumberParts(s, p, j);
    var a := p + |Sign(j.negative)|;
    var b := a + |j.integer|;
    AtBounds(s, p, Render(j));
    ExponentRead(s, b + |RenderFraction(j.fraction)|, j.exponent);
    FractionRead(s, b, j.fraction);
    DigitsRead(s, a, j.integer);
    if j.negative { FirstAt(s, p, Sign(j.negative)); }
    hide ExponentEnd;
    hide FractionEnd;
  }

  lemma SameNumber(s: seq<byte>, p: nat, j: Json, k: Json)
    requires j.Num? && NumberFits(j) && At(s, p, Render(j)) && Followed(s, j, p + |Render(j)|)
    requires k.Num? && NumberFits(k) && At(s, p, Render(k)) && Followed(s, k, p + |Render(k)|)
    ensures j == k
  {
    hide At;
    hide Render;
    hide RenderFraction;
    hide RenderExponent;
    hide DigitsEnd;
    hide NumberFits;
    hide Followed;
    hide FractionAt;
    hide ExponentAt;
    NumberAtParts(s, p, j);
    NumberAtParts(s, p, k);
    var a := p + |Sign(j.negative)|;
    SameSlice(s, a, j.integer, k.integer);
    SameFraction(s, a + |j.integer|, j.fraction, k.fraction);
    SameExponent(s, a + |j.integer| + |RenderFraction(j.fraction)|, j.exponent, k.exponent);
  }

  /** The first character tells what kind of value it is. */
  lemma KindBegins(s: seq<byte>, p: nat, j: Json)
    requires Relaxed(j) && At(s, p, Render(j))
    ensures p < |s|
    ensures j.Text? <==> s[p] == QUOTE
    ensures j.Num? <==> s[p] == MINUS || IsDigit(s[p])
    ensures j.List? <==> s[p] == OPEN_BRACE || s[p] == OPEN_BRACKET
    ensures j.List? ==> s[p] == Opener(j.isObject)
    ensures j.Literal? ==> j.kind == if s[p] == 110 then Null else if s[p] == 116 then True else False
  {
    ValueLeads(j);
    FirstAt(s, p, Render(j));
    hide At;
    hide RelaxedAll;
    hide RenderAll;
  }

  lemma {:induction false} SameValue(s: seq<byte>, p: nat, j: Json, k: Json)
    requires Relaxed(j) && At(s, p, Render(j)) && Followed(s, j, p + |Render(j)|)
    requires Relaxed(k) && At(s, p, Render(k)) && Followed(s, k, p + |Render(k)|)
    ensures j == k
    decreases j
  {
    hide At;
    hide RenderAll;
    hide RelaxedAll;
    hide CharsFit;
    hide NumberFits;
    hide RenderString;
    hide Continues;
    KindBegins(s, p, j);
    KindBegins(s, p, k);
    match j
    case Literal(_) =>
    case Num(_, _, _, _) => SameNumber(s, p, j, k);
    case Text(chars) => SameString(s, p, chars, k.chars);
    case List(isObject, es) =>
      ContainerParts(s, p, j);
      ContainerParts(s, p, k);
      SameEntries(s, p + 1, es, k.entries, isObject, false);
  }

  /** The entries of an array or object from `p` on, and its end. */
  predicate EntriesAt(s: seq<byte>, p: nat, es: Elements, isObject: bool, glued: bool) {
    RelaxedAll(es, isObject, glued) && At(s, p, RenderAll(es)) && Is(s, p + |RenderAll(es)|, Closer(isObject))
  }

  lemma NextParts(s: seq<byte>, p: nat, es: Elements, isObject: bool, glued: bool)
    requires EntriesAt(s, p, es, isObject, glued) && es.Next?
    ensures ElementAt(s, p, es.entry, es.rest, isObject)
    ensures EntriesAt(s, p + |RenderElement(es.entry)|, es.rest, isObject, !es.entry.comma)
  {
    hide At;
    hide RenderElement;
    hide ElementFits;
    hide Apart;
    AtSplit(s, p, RenderElement(es.entry), RenderAll(es.rest));
  }

  lemma EndParts(s: seq<byte>, p: nat, es: Elements, isObject: bool, glued: bool)
    requires EntriesAt(s, p, es, isObject, glued) && es.End?
    ensures At(s, p, es.space) && SkipSpace(s, p) == p + |es.space| && Is(s, SkipSpace(s, p), Closer(isObject))
  {
    EndSkips(s, p, es.space, isObject);
  }

  /** There is another entry exactly if the end does not come next. */
  lemma EntriesParts(s: seq<byte>, p: nat, es: Elements, isObject: bool, glued: bool)
    requires EntriesAt(s, p, es, isObject, glued)
    ensures es.Next? <==> !Is(s, SkipSpace(s, p), Closer(isObject))
    ensures es.Next? ==>
              && ElementAt(s, p, es.entry, es.rest, isObject)
              && EntriesAt(s, p + |RenderElement(es.entry)|, es.rest, isObject, !es.entry.comma)
    ensures es.End? ==> At(s, p, es.space) && SkipSpace(s, p) == p + |es.space|
  {
    hide At;
    hide EntriesAt;
    hide RenderElement;
    hide SkipSpace;
    hide ElementAt;
    if es.Next? {
      NextParts(s, p, es, isObject, glued);
      ElementPlaces(s, p, es.entry, es.rest, isObject);
    } else {
      EndParts(s, p, es, isObject, glued);
    }
  }

  lemma {:induction false} SameEntries(s: seq<byte>, p: nat, es: Elements, fs: Elements, isObject: bool, glued: bool)
    requires EntriesAt(s, p, es, isObject, glued) && EntriesAt(s, p, fs, isObject, glued)
    ensures es == fs
    decreases es, 1
  {
    hide At;
    hide EntriesAt;
    hide ElementAt;
    hide RenderElement;
    hide SkipSpace;
    EntriesParts(s, p, es, isObject, glued);
    EntriesParts(s, p, fs, isObject, glued);
    if es.Next? {
      SameElement(s, p, es.entry, es.rest, fs.entry, fs.rest, isObject);
      SameEntries(s, p + |RenderElement(es.entry)|, es.rest, fs.rest, isObject, !es.entry.comma);
    } else {
      SameSlice(s, p, es.space, fs.space);
    }
  }

  lemma EndSkips(s: seq<byte>, p: nat, space: seq<byte>, isObject: bool)
    requires IsWhite(space) && At(s, p, space) && Is(s, p + |space|, Closer(isObject))
    ensures SkipSpace(s, p) == p + |space|
  {
    WhiteSkipped(s, p, space);
    NoSpaceSkipped(s, p + |space|);
  }

  /** An entry at `p` that is followed by these others, or by the end. */
  predicate ElementAt(s: seq<byte>, p: nat, e: Element, rest: Elements, isObject: bool) {
    && ElementFits(e, isObject) && RelaxedAll(rest, isObject, !e.comma) && Apart(e, rest)
    && At(s, p, RenderElement(e)) && At(s, p + |RenderElement(e)|, RenderAll(rest))
    && Is(s, p + |RenderElement(e)| + |RenderAll(rest)|, Closer(isObject))
  }

  /** Where the parts of an entry are. */
  lemma ElementPlaces(s: seq<byte>, p: nat, e: Element, rest: Elements, isObject: bool)
    requires ElementAt(s, p, e, rest, isObject)
    ensures SkipSpace(s, p) == p + |e.before| && At(s, p, e.before)
    ensures !Is(s, SkipSpace(s, p), Closer(isObject))
    ensures (isObject <==> e.key.Some?) && (isObject ==> LabelFits(e.key.value))
    ensures At(s, p + |e.before|, RenderLabel(e.key))
    ensures var r := p + |e.before| + |RenderLabel(e.key)|;
            var v := r + |Render(e.value)|;
            && Relaxed(e.value) && At(s, r, Render(e.value)) && Followed(s, e.value, v)
            && SkipSpace(s, v) == v + |e.after| && At(s, v, e.after)
            && (e.comma <==> Is(s, v + |e.after|, COMMA))
            && r < |s| && !IsSpace(s[r])
  {
    hide At;
    hide RenderElement;
    hide RenderLabel;
    hide RelaxedAll;
    hide RenderAll;
    hide Relaxed;
    hide Render;
    hide Followed;
    hide Apart;
    hide LabelFits;
    hide IsWhite;
    hide Entry;
    hide SkipSpace;
    hide SkipComma;
    ElementRead(s, p, e, rest, isObject);
    ElementParts(s, p, e);
    ValueFollows(s, p + |e.before| + |RenderLabel(e.key)|, e.value);
  }

  lemma {:induction false} SameElement(s: seq<byte>, p: nat, e: Element, es: Elements, f: Element, fs: Elements,
                                       isObject: bool)
    requires ElementAt(s, p, e, es, isObject) && ElementAt(s, p, f, fs, isObject)
    ensures e == f
    decreases e
  {
    hide At;
    hide ElementAt;
    hide RenderLabel;
    hide Relaxed;
    hide Render;
    hide Followed;
    hide LabelFits;
    hide SkipSpace;
    ElementPlaces(s, p, e, es, isObject);
    ElementPlaces(s, p, f, fs, isObject);
    SameSlice(s, p, e.before, f.before);
    var q := p + |e.before|;
    if isObject { SameLabel(s, q, e.key.value, f.key.value); }
    var r := q + |RenderLabel(e.key)|;
    SameValue(s, r, e.value, f.value);
    SameSlice(s, r + |Render(e.value)|, e.after, f.after);
  }

  lemma ValueFollows(s: seq<byte>, r: nat, j: Json)
    requires Relaxed(j) && At(s, r, Render(j))
    ensures r < |s| && !IsSpace(s[r])
  {
    hide Relaxed;
    hide Render;
    ValueLeads(j);
    FirstAt(s, r, Render(j));
  }

  lemma SameName(s: seq<byte>, q: nat, n: Name, m: Name)
    requires NameFits(n) && At(s, q, RenderName(n)) && q + |RenderName(n)| < |s|
    requires NameFits(m) && At(s, q, RenderName(m)) && |RenderName(m)| == |RenderName(n)|
    ensures n == m
  {
    NameLeads(n);
    NameLeads(m);
    FirstAt(s, q, RenderName(n));
    FirstAt(s, q, RenderName(m));
    SameSlice(s, q, RenderName(n), RenderName(m));
    if n.Quoted? && m.Quoted? { SameString(s, q, n.chars, m.chars); }
  }

  lemma SameLabel(s: seq<byte>, q: nat, l: Label, m: Label)
    requires LabelFits(l) && At(s, q, RenderLabel(Some(l)))
    requires LabelFits(m) && At(s, q, RenderLabel(Some(m)))
    requires var r := q + |RenderLabel(Some(l))|; r < |s| && !IsSpace(s[r])
    requires var r := q + |RenderLabel(Some(m))|; r < |s| && !IsSpace(s[r])
    ensures l == m
  {
    hide At;
    hide RenderLabel;
    hide RenderName;
    hide IsWhite;
    hide NameFits;
    hide Key;
    hide SkipSpace;
    LabelRead(s, q, l);
    LabelRead(s, q, m);
    LabelParts(s, q, l);
    LabelParts(s, q, m);
    NoSpaceSkipped(s, q + |RenderLabel(Some(l))|);
    NoSpaceSkipped(s, q + |RenderLabel(Some(m))|);
    SameName(s, q, l.name, m.name);
    var k := q + |RenderName(l.name)|;
    SameSlice(s, k, l.beforeColon, m.beforeColon);
    SameSlice(s, k + |l.beforeColon| + 1, l.afterColon, m.afterColon);
  }

  lemma TextParts(s: seq<byte>, space: seq<byte>, j: Json, rest: seq<byte>)
    requires IsText(s, space, j, rest)
    ensures At(s, 0, space) && At(s, |space|, Render(j)) && SkipSpace(s, 0) == |space|
    ensures rest == s[|space| + |Render(j)|..]
  {
    hide Relaxed;
    hide Render;
    assert s[0..|space|] == space;
    assert s[|space|..|space| + |Render(j)|] == Render(j);
    KindBegins(s, |space|, j);
    WhiteSkipped(s, 0, space);
    NoSpaceSkipped(s, |space|);
  }

  lemma SyntaxUnique(s: seq<byte>, space: seq<byte>, j: Json, rest: seq<byte>,
                     blank: seq<byte>, k: Json, tail: seq<byte>)
    requires IsText(s, space, j, rest) && IsText(s, blank, k, tail)
    ensures space == blank && j == k && rest == tail
  {
    TextParts(s, space, j, rest);
    TextParts(s, blank, k, tail);
    SameSlice(s, 0, space, blank);
    hide At;
    hide Render;
    SameValue(s, |space|, j, k);
  }

  /** A JSON text of RFC 8259 whose value is an object or an array. */
  ghost predicate IsRfc8259(t: seq<byte>) {
    exists space, j, after ::
      IsWhite(space) && IsWhite(after) && WellFormed(j) && j.List? && t == space + Render(j) + after
  }

  /** What has been accepted is a text of RFC 8259 exactly if the one way to read it in the relaxed syntax is in the
      grammar of RFC 8259. */
  lemma RfcIff(s: seq<byte>, space: seq<byte>, j: Json, rest: seq<byte>)
    requires IsText(s, space, j, rest)
    ensures Root(s).Done? && (IsRfc8259(s[..Root(s).next]) <==> WellFormed(j))
  {
    RelaxedAccepted(s, space, j, rest);
    hide Root;
    var t := space + Render(j);
    assert s[..|t|] == t;
    RfcTextIff(t, space, j);
  }

  lemma RfcTextIff(t: seq<byte>, space: seq<byte>, j: Json)
    requires IsWhite(space) && j.List? && Relaxed(j) && t == space + Render(j)
    ensures IsRfc8259(t) <==> WellFormed(j)
  {
    hide Render;
    hide Relaxed;
    hide WellFormed;
    var after: seq<byte> := t[|t|..];
    assert t == space + Render(j) + after && IsWhite(after);
    if IsRfc8259(t) {
      var blank, k, tail :|
        IsWhite(blank) && IsWhite(tail) && WellFormed(k) && k.List? && t == blank + Render(k) + tail;
      WellFormedIsRelaxed(k);
      SyntaxUnique(t, space, j, after, blank, k, tail);
    }
  }

  /** An array with a comma after its last entry is no text of RFC 8259, and neither is one with an entry that is none;
      both are accepted. */
  lemma SingleAccepted(j: Json, comma: bool)
    requires Relaxed(j) && (comma || !WellFormed(j))
    ensures var s := [OPEN_BRACKET] + Render(j) + Comma(comma) + [CLOSE_BRACKET];
            Root(s).Done? && Root(s).next == |s| && !IsRfc8259(s)
  {
    hide Root;
    hide Relaxed;
    hide Render;
    hide WellFormed;
    hide IsRfc8259;
    SingleIs(j, comma);
    var s := Render(Single(j, comma));
    assert s == [] + s + [];
    RelaxedAccepted(s, [], Single(j, comma), []);
    RfcIff(s, [], Single(j, comma), []);
    assert s[..|s|] == s;
  }

  /** Two texts that are accepted and are not RFC 8259: `[1,]`, and a string in which the byte 0x80 takes the quote
      after it for a part of a character. */
  lemma AcceptedBeyondRfc8259()
    ensures var s := [OPEN_BRACKET, 49, COMMA, CLOSE_BRACKET]; Root(s).Done? && Root(s).next == |s| && !IsRfc8259(s)
    ensures var s := [OPEN_BRACKET, QUOTE, 0x80, QUOTE, QUOTE, CLOSE_BRACKET];
            Root(s).Done? && Root(s).next == |s| && !IsRfc8259(s)
  {
    hide Root;
    hide IsRfc8259;
    var one := Num(false, [49], None, None);
    assert Render(one) == [49];
    SingleAccepted(one, true);
    assert [OPEN_BRACKET] + [49] + [COMMA] + [CLOSE_BRACKET] == [OPEN_BRACKET, 49, COMMA, CLOSE_BRACKET];
    var stray := Text([Plain([0x80, QUOTE])]);
    StrayQuote(stray);
    SingleAccepted(stray, false);
    assert [OPEN_BRACKET] + [QUOTE, 0x80, QUOTE, QUOTE] + [] + [CLOSE_BRACKET] ==
           [OPEN_BRACKET, QUOTE, 0x80, QUOTE, QUOTE, CLOSE_BRACKET];
  }

  lemma StrayQuote(j: Json)
    requires j == Text([Plain([0x80, QUOTE])])
    ensures Relaxed(j) && !WellFormed(j) && Render(j) == [QUOTE, 0x80, QUOTE, QUOTE]
  {
    var c := Plain([0x80, QUOTE]);
    assert j.chars[0] == c && j.chars[1..] == [];
    assert CharFits(c) && !CharOk(c);
    assert RenderChars(j.chars) == RenderChar(c) + RenderChars([]);
  }
}

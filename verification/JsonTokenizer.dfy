/** The tokenizer: a cursor that runs over the text and fills an array of tokens. */
module JsonTokenizer {
  import opened ByteSeqs
  import opened JsonText

  const END_OF_STRING: int := -1

  // ----- what is captured -----

  /** The tokens of these nodes, if tokens are wanted. */
  function Captured(keeps: bool, ns: Nodes): seq<Token> {
    if keeps then LayoutAll(ns) else []
  }

  /** A token has been begun at `lo`. */
  predicate Opened(keeps: bool, before: seq<Token>, open: seq<Token>, lo: nat, kind: Kind) {
    if keeps then
      |open| == |before| + 1 && open[..|before|] == before && open[|before|].ptr == lo && open[|before|].kind == kind
    else
      open == before == []
  }

  /** The token at `i` of `t` has been completed. */
  function Closed(t: seq<Token>, i: int, ptr: nat): seq<Token> {
    if 0 <= i < |t| then t[i := Token(t[i].ptr, ptr - t[i].ptr, |t| - 1 - i, t[i].kind)] else t
  }

  lemma CapturedAppend(keeps: bool, before: seq<Token>, a: Nodes, b: Nodes)
    ensures before + Captured(keeps, a) + Captured(keeps, b) == before + Captured(keeps, Append(a, b))
    ensures keeps ==> |Captured(keeps, a)| == SizeAll(a)
    ensures SizeAll(Append(a, b)) == SizeAll(a) + SizeAll(b)
  {
    LayoutAppend(a, b);
    hide LayoutAll;
    hide Append;
    Associative(before, Captured(keeps, a), Captured(keeps, b));
  }

  lemma Associative(a: seq<Token>, b: seq<Token>, c: seq<Token>)
    ensures (a + b) + c == a + (b + c)
  {
  }

  lemma CapturedNothing(keeps: bool, open: seq<Token>)
    ensures open + Captured(keeps, Nil) == open
  {
  }

  /** A token that has been begun, followed by those of its descendants, and completed. */
  lemma NodeCaptured(keeps: bool, before: seq<Token>, open: seq<Token>, n: Node)
    requires Opened(keeps, before, open, n.lo, n.kind)
    ensures Closed(open + Captured(keeps, n.kids), if keeps then |before| else -1, n.hi)
            == before + Captured(keeps, Cons(n, Nil))
  {
    if keeps {
      assert LayoutAll(Cons(n, Nil)) == Layout(n) + LayoutAll(Nil);
      var full := open + LayoutAll(n.kids);
      assert full[|before|] == open[|before|];
      assert full[|before| := HeadToken(n)] == before + Layout(n);
    }
  }

  lemma LeafCaptured(keeps: bool, before: seq<Token>, open: seq<Token>, n: Node)
    requires Opened(keeps, before, open, n.lo, n.kind) && n.kids == Nil
    ensures Closed(open, if keeps then |before| else -1, n.hi) == before + Captured(keeps, Cons(n, Nil))
  {
    NodeCaptured(keeps, before, open, n);
    CapturedNothing(keeps, open);
  }

  /** The entries `done` of the container at `at` have been read up to `p`, and `toks` are the tokens. */
  predicate Inside(keeps: bool, text: seq<byte>, before: seq<Token>, open: seq<Token>, toks: seq<Token>,
                   at: nat, isObject: bool, done: Nodes, p: nat) {
    && Opened(keeps, before, open, at, if isObject then Object else Array)
    && toks == open + Captured(keeps, done)
    && Reading(text, at, isObject, done, p)
  }

  lemma InsideBegins(keeps: bool, text: seq<byte>, before: seq<Token>, open: seq<Token>, at: nat, isObject: bool)
    requires Is(text, at, Opener(isObject))
    requires Opened(keeps, before, open, at, if isObject then Object else Array)
    ensures Inside(keeps, text, before, open, open, at, isObject, Nil, SkipSpace(text, at + 1))
  {
    CapturedNothing(keeps, open);
    ReadingBegins(text, at, isObject);
    hide Reading;
  }

  /** A member is its name, a colon and its value, one behind the other. */
  lemma PairParts(s: seq<byte>, p: nat)
    ensures var k, x := Key(s, p), Entry(s, p, true);
            && (k.Fail? ==> x == Fail(k.code))
            && (k.Done? ==>
                  var q := SkipSpace(s, k.next);
                  var v := Value(s, q + 1);
                  if !Is(s, q, COLON) then x == Fail(Refusal(s, q))
                  else if v.Fail? then x == Fail(v.code)
                  else
                    && x == Done(Append(Cons(k.value, Nil), Cons(v.value, Nil)), v.next)
                    && SizeAll(x.value) == SizeAll(Cons(k.value, Nil)) + SizeAll(Cons(v.value, Nil)))
  {
    hide Key;
    hide Value;
    hide SkipSpace;
    hide LayoutAll;
    var k := Key(s, p);
    if k.Done? {
      var v := Value(s, SkipSpace(s, k.next) + 1);
      if v.Done? { LayoutAppend(Cons(k.value, Nil), Cons(v.value, Nil)); }
    }
  }

  class Frozen {
    const text: seq<byte>
    const doRealloc: bool
    var cur: nat
    var tokens: array?<Token>
    var maxTokens: nat
    var numTokens: nat

    ghost predicate Valid()
      reads this`cur, this`tokens, this`maxTokens, this`numTokens
    {
      cur <= |text| && Store()
    }

    ghost predicate Store()
      reads this`tokens, this`maxTokens, this`numTokens
    {
      && (tokens != null ==> maxTokens == tokens.Length)
      && numTokens <= maxTokens
      && (numTokens > 0 ==> tokens != null)
      && (doRealloc && tokens == null ==> maxTokens == 0)
    }

    /** Tokens are wanted: there is an array for them or there will be. */
    ghost predicate Keeps()
      reads this`tokens, this`maxTokens
    {
      doRealloc || (tokens != null && maxTokens > 0)
    }

    /** The tokens so far. */
    ghost function Toks(): (t: seq<Token>)
      reads this`tokens, this`numTokens, tokens
    {
      if tokens == null || numTokens > tokens.Length then [] else tokens[..numTokens]
    }

    /** The same run: only an array that may grow is ever exchanged. */
    twostate predicate Same()
      reads this
    {
      && Keeps() == old(Keeps())
      && (!doRealloc ==> tokens == old(tokens) && maxTokens == old(maxTokens))
      && (tokens == old(tokens) || (tokens != null && fresh(tokens)))
    }

    /** How a parsing method that was to read `spec` ends: it has read it and appended its tokens; or the array is
        fixed and too small for them; or the text is wrong. */
    ghost predicate Reports(ret: int, before: seq<Token>, spec: Outcome<Nodes>)
      reads this, tokens
    {
      if ret == 0 then
        && spec.Done? && cur == spec.next && Toks() == before + Captured(Keeps(), spec.value)
      else if ret == TOO_SMALL then
        && Keeps() && !doRealloc && |before| <= maxTokens
        && (spec.Done? ==> |before| + SizeAll(spec.value) > maxTokens)
      else
        ret < 0 && spec == Fail(ret)
    }

    constructor (text: seq<byte>, tokens: array?<Token>, maxTokens: nat)
      requires tokens != null ==> tokens.Length == maxTokens
      ensures Valid() && this.text == text && cur == 0 && !doRealloc && Toks() == []
      ensures this.tokens == tokens && this.maxTokens == maxTokens
    {
      this.text, cur, this.tokens, this.maxTokens, numTokens := text, 0, tokens, maxTokens, 0;
      doRealloc := false;
    }

    constructor Growing(text: seq<byte>)
      ensures Valid() && this.text == text && cur == 0 && doRealloc && Toks() == [] && tokens == null
    {
      this.text, cur, tokens, maxTokens, numTokens := text, 0, null, 0, 0;
      doRealloc := true;
    }

    // ----- the cursor -----

    method Cur() returns (ch: int)
      requires Valid()
      modifies this`cur
      ensures Valid() && cur == SkipSpace(text, old(cur))
      ensures ch == if cur < |text| then text[cur] else END_OF_STRING
    {
      while cur < |text| && IsSpace(text[cur])
        invariant old(cur) <= cur <= |text| && SkipSpace(text, cur) == SkipSpace(text, old(cur))
      {
        cur := cur + 1;
      }
      ch := if cur >= |text| then END_OF_STRING else text[cur];
    }

    /** Skips a comma, if there is one, and looks at what follows. */
    method NextEntry() returns (ch: int)
      requires Valid()
      modifies this`cur
      ensures Valid() && cur == SkipSpace(text, SkipComma(text, old(cur)))
      ensures ch == if cur < |text| then text[cur] else END_OF_STRING
    {
      ch := Cur();
      if ch == COMMA {
        cur := cur + 1;
      }
      ch := Cur();
    }

    method TestAndSkip(expected: byte) returns (ret: int)
      requires Valid()
      modifies this`cur
      ensures Valid()
      ensures var q := SkipSpace(text, old(cur));
              if Is(text, q, expected) then ret == 0 && cur == q + 1 else ret == Refusal(text, q) && cur == q
    {
      var ch := Cur();
      if ch == expected {
        cur := cur + 1;
        return 0;
      }
      ret := if ch == END_OF_STRING then INCOMPLETE else INVALID;
    }

    method TestNoSkip(expected: byte) returns (ret: int)
      requires Valid()
      modifies this`cur
      ensures Valid() && cur == SkipSpace(text, old(cur))
      ensures ret == if Is(text, cur, expected) then 0 else Refusal(text, cur)
    {
      var ch := Cur();
      if ch == expected {
        return 0;
      }
      ret := if ch == END_OF_STRING then INCOMPLETE else INVALID;
    }

    // ----- capturing tokens -----

    method CapturePtr(ptr: nat, kind: Kind) returns (ret: int)
      requires Valid()
      modifies this`tokens, this`maxTokens, this`numTokens, tokens
      ensures Valid() && Same()
      ensures ret == 0 || (ret == TOO_SMALL && Keeps() && !doRealloc && |old(Toks())| == maxTokens)
      ensures ret == 0 ==>
                && Opened(Keeps(), old(Toks()), Toks(), ptr, kind)
                && numTokens - 1 == if Keeps() then |old(Toks())| else -1
    {
      ghost var before := Toks();
      if doRealloc && numTokens >= maxTokens {
        var newSize := if maxTokens == 0 then 100 else maxTokens * 2;
        var p := new Token[newSize];
        if tokens != null {
          forall i | 0 <= i < maxTokens { p[i] := tokens[i]; }
        }
        tokens, maxTokens := p, newSize;
        assert Toks() == before;
      }
      if tokens == null || maxTokens == 0 {
        return 0;
      }
      if numTokens >= maxTokens {
        return TOO_SMALL;
      }
      tokens[numTokens] := Token(ptr, tokens[numTokens].len, tokens[numTokens].numDesc, kind);
      numTokens := numTokens + 1;
      assert Toks()[..old(numTokens)] == before;
      ret := 0;
    }

    method CaptureLen(tokenIndex: int, ptr: nat) returns (ret: int)
      requires Store()
      modifies tokens
      ensures Store() && Toks() == Closed(old(Toks()), tokenIndex, ptr)
      ensures 0 <= tokenIndex < numTokens || !Keeps() ==> ret == 0
    {
      if tokens == null || maxTokens == 0 {
        return 0;
      }
      if !(0 <= tokenIndex < maxTokens) {
        return INVALID;
      }
      var t := tokens[tokenIndex];
      tokens[tokenIndex] := Token(t.ptr, ptr - t.ptr, numTokens - 1 - tokenIndex, t.kind);
      ret := 0;
    }

    // ----- leaves -----

    method ParseIdentifier() returns (ret: int)
      requires Valid()
      modifies this, tokens
      ensures Valid() && Same()
      ensures var q := SkipSpace(text, old(cur));
              if q < |text| && IsAlpha(text[q]) then Reports(ret, old(Toks()), One(IdentifierAt(text, q)))
              else ret == INVALID
    {
      hide Toks;
      hide Captured;
      hide Opened;
      hide Closed;
      hide Store;
      ghost var before := Toks();
      var ch := Cur();
      if !IsAlpha(ch) {
        return INVALID;
      }
      ghost var lo := cur;
      ret := CapturePtr(cur, String);
      if ret < 0 {
        return;
      }
      SkipIdentifier();
      ghost var open := Toks();
      var _ := CaptureLen(numTokens - 1, cur);
      LeafCaptured(Keeps(), before, open, Node(String, lo, cur, Nil));
    }

    method SkipIdentifier()
      requires Valid()
      modifies this`cur
      ensures Valid() && cur == IdentifierEnd(text, old(cur))
    {
      while cur < |text| && InIdentifier(text[cur])
        invariant old(cur) <= cur <= |text| && IdentifierEnd(text, cur) == IdentifierEnd(text, old(cur))
      {
        cur := cur + 1;
      }
    }

    method ParseString() returns (ret: int)
      requires Valid()
      modifies this, tokens
      ensures Valid() && Same()
      ensures Reports(ret, old(Toks()), One(StringAt(text, old(cur))))
    {
      hide Toks;
      hide Opened;
      hide Closed;
      hide Store;
      hide Reports;
      hide One;
      hide StringFrom;
      hide SkipSpace;
      ghost var before, spec := Toks(), StringAt(text, cur);
      var ch, len: int := 0, 0;
      ret := TestAndSkip(QUOTE);
      if ret < 0 {
        Refused(ret, before, One(spec));
        return;
      }
      ret := CapturePtr(cur, String);
      if ret < 0 {
        Full(before, spec);
        return;
      }
      ghost var lo, open, count := cur, Toks(), numTokens;
      while cur < |text|
        invariant Valid() && Same() && Toks() == open && numTokens == count && lo <= cur
        invariant ch != QUOTE && StringFrom(text, lo, cur) == spec
      {
        StringFromStep(text, lo, cur);
        ch := text[cur];
        len := CharLength(ch);
        if !(ch >= 32 && len > 0) {
          Refused(INVALID, before, One(spec));
          return INVALID;
        }
        if !(len < |text| - cur) {
          Refused(INCOMPLETE, before, One(spec));
          return INCOMPLETE;
        }
        if ch == BACKSLASH {
          var n := EscapeLength(text, cur);
          if !(n > 0) {
            Refused(n, before, One(spec));
            return n;
          }
          len := len + n;
        } else if ch == QUOTE {
          var _ := CaptureLen(numTokens - 1, cur);
          cur := cur + 1;
          LeafRead(before, open, spec);
          break;
        }
        cur := cur + len;
      }
      StringFromStep(text, lo, cur);
      if ch != QUOTE { Refused(INCOMPLETE, before, One(spec)); }
      ret := if ch == QUOTE then 0 else INCOMPLETE;
    }

    /** A token without descendants has been completed. */
    lemma LeafRead(before: seq<Token>, open: seq<Token>, spec: Outcome<Node>)
      requires spec.Done? && spec.value.kids == Nil && cur == spec.next
      requires Opened(Keeps(), before, open, spec.value.lo, spec.value.kind)
      requires Toks() == Closed(open, if Keeps() then |before| else -1, spec.value.hi)
      ensures Reports(0, before, One(spec))
    {
      hide Toks;
      hide Opened;
      hide Closed;
      hide Captured;
      LeafCaptured(Keeps(), before, open, spec.value);
    }

    /** Skips the digits that must stand here. */
    method ExpectDigits() returns (ret: int)
      requires Valid()
      modifies this`cur
      ensures Valid()
      ensures var e := DigitsEnd(text, old(cur)); if e < 0 then ret == e else ret == 0 && cur == e
    {
      if !(cur < |text|) {
        return INCOMPLETE;
      }
      if !IsDigit(text[cur]) {
        return INVALID;
      }
      while cur < |text| && IsDigit(text[cur])
        invariant old(cur) <= cur <= |text| && SkipDigits(text, cur) == SkipDigits(text, old(cur))
      {
        cur := cur + 1;
      }
      ret := 0;
    }

    method ParseNumber() returns (ret: int)
      requires Valid()
      modifies this, tokens
      ensures Valid() && Same()
      ensures Reports(ret, old(Toks()), One(NumberAt(text, SkipSpace(text, old(cur)))))
    {
      hide Toks;
      hide Captured;
      hide Opened;
      hide Closed;
      hide Store;
      ghost var before := Toks();
      var ch := Cur();
      ret := CapturePtr(cur, Number);
      if ret < 0 {
        return;
      }
      ghost var lo := cur;
      ret := SkipNumber(ch);
      if ret < 0 {
        return;
      }
      ghost var open := Toks();
      var _ := CaptureLen(numTokens - 1, cur);
      LeafCaptured(Keeps(), before, open, Node(Number, lo, cur, Nil));
    }

    /** The characters of a number, of which `ch` is the first. */
    method SkipNumber(ch: int) returns (ret: int)
      requires Valid() && ch == if cur < |text| then text[cur] else END_OF_STRING
      modifies this`cur
      ensures Valid()
      ensures var r := NumberAt(text, old(cur));
              if ret == 0 then r.Done? && cur == r.next else r == Fail(ret)
    {
      hide DigitsEnd;
      hide Store;
      if ch == MINUS {
        cur := cur + 1;
      }
      ret := ExpectDigits();
      if ret < 0 {
        return;
      }
      if cur < |text| && text[cur] == DOT {
        cur := cur + 1;
        ret := ExpectDigits();
        if ret < 0 {
          return;
        }
      }
      if cur < |text| && (text[cur] == 101 || text[cur] == 69) {
        cur := cur + 1;
        NoDigits(text, cur);
        if !(cur < |text|) {
          return INCOMPLETE;
        }
        if text[cur] == PLUS || text[cur] == MINUS {
          cur := cur + 1;
        }
        ret := ExpectDigits();
      }
    }

    method Expect(s: seq<byte>, kind: Kind) returns (ret: int)
      requires Valid() && s != []
      modifies this, tokens
      ensures Valid() && Same()
      ensures Reports(ret, old(Toks()), One(Word(text, old(cur), s, kind)))
    {
      hide Toks;
      hide Opened;
      hide Closed;
      hide Store;
      hide Match;
      hide One;
      hide Reports;
      hide SkipSpace;
      ghost var before, spec := Toks(), Word(text, cur, s, kind);
      var n := |text| - cur;
      ret := CapturePtr(cur, kind);
      if ret < 0 {
        Full(before, spec);
        return;
      }
      ghost var open, count := Toks(), numTokens;
      MatchBegins(text, cur, s);
      for i := 0 to |s|
        invariant Match(text, cur, s) == Match(text, cur + i, s[i..])
        invariant Valid() && Same() && cur == old(cur) && cur + i <= |text| && Toks() == open && numTokens == count
      {
        MatchStep(text, cur + i, s[i..]);
        if i >= n {
          Refused(INCOMPLETE, before, One(spec));
          return INCOMPLETE;
        }
        if text[cur + i] != s[i] {
          Refused(INVALID, before, One(spec));
          return INVALID;
        }
        assert s[i..][1..] == s[i + 1..];
      }
      MatchStep(text, cur + |s|, s[|s|..]);
      cur := cur + |s|;
      ret := CaptureLen(numTokens - 1, cur);
      LeafRead(before, open, spec);
    }

    // ----- values -----

    method EndContainer(closer: byte, ind: int, ghost before: seq<Token>, ghost open: seq<Token>,
                        ghost at: nat, ghost isObject: bool, ghost done: Nodes)
      returns (ret: int)
      requires Valid() && Is(text, cur, closer) && closer == Closer(isObject)
      requires ind == if Keeps() then |before| else -1
      requires Inside(Keeps(), text, before, open, Toks(), at, isObject, done, cur)
      modifies this`cur, tokens
      ensures Valid() && ret == 0
      ensures Is(text, at, Opener(isObject)) && Reports(ret, before, One(Container(text, at)))
    {
      hide Toks;
      hide Inside;
      hide Closed;
      hide Store;
      hide Reports;
      hide One;
      hide Container;
      hide SkipSpace;
      ghost var sofar, p := Toks(), cur;
      ret := TestAndSkip(closer);
      var _ := CaptureLen(ind, cur);
      ContainerRead(before, open, sofar, at, isObject, done, p);
    }

    method ParseArray() returns (ret: int)
      requires Valid()
      modifies this, tokens
      ensures Valid() && Same() && ret <= 0
      ensures Reports(ret, old(Toks()), One(ContainerAt(text, old(cur), false)))
      decreases |text| - cur, 0
    {
      hide Toks;
      hide Inside;
      hide Store;
      hide Entry;
      hide Reports;
      hide IsRefusal;
      hide Prepend;
      hide One;
      hide Value;
      hide SkipComma;
      hide Container;
      hide SkipSpace;
      hide Append;
      ghost var before := Toks();
      ret := TestAndSkip(OPEN_BRACKET);
      if ret < 0 {
        Refused(ret, before, One(ContainerAt(text, old(cur), false)));
        return;
      }
      ghost var at := cur - 1;
      ret := CapturePtr(cur - 1, Array);
      if ret < 0 {
        Full(before, ContainerAt(text, old(cur), false));
        return;
      }
      var ind := numTokens - 1;
      ghost var open := Toks();
      ghost var done: Nodes := Nil;
      InsideBegins(Keeps(), text, before, open, at, false);
      var ch := Cur();
      while ch != CLOSE_BRACKET
        invariant Valid() && Same() && at < cur && cur == SkipSpace(text, cur)
        invariant ch == if cur < |text| then text[cur] else END_OF_STRING
        invariant Inside(Keeps(), text, before, open, Toks(), at, false, done, cur)
        decreases |text| - cur
      {
        ghost var sofar, p := Toks(), cur;
        ElementIsValue(text, p);
        ret := ParseValue();
        if ret < 0 {
          EntryRefused(ret, before, open, sofar, at, false, done, p);
          return;
        }
        EntryRead(before, open, sofar, at, false, done, p);
        done := Append(done, Entry(text, p, false).value);
        ch := NextEntry();
      }
      ret := EndContainer(CLOSE_BRACKET, ind, before, open, at, false, done);
    }

    method ParseValue() returns (ret: int)
      requires Valid()
      modifies this, tokens
      ensures Valid() && Same() && ret <= 0
      ensures Reports(ret, old(Toks()), One(Value(text, old(cur))))
      decreases |text| - cur, 1
    {
      hide Toks;
      hide Captured;
      hide Opened;
      hide Closed;
      hide Store;
      var ch := Cur();
      if ch == QUOTE {
        ret := ParseString();
      } else if ch == OPEN_BRACE {
        ret := ParseObject();
      } else if ch == OPEN_BRACKET {
        ret := ParseArray();
      } else if ch == 110 {
        ret := Expect(NULL_WORD, Null);
      } else if ch == 116 {
        ret := Expect(TRUE_WORD, True);
      } else if ch == 102 {
        ret := Expect(FALSE_WORD, False);
      } else if ch == MINUS || IsDigit(ch) {
        ret := ParseNumber();
      } else {
        ret := if ch == END_OF_STRING then INCOMPLETE else INVALID;
      }
    }

    method ParseKey() returns (ret: int)
      requires Valid()
      modifies this, tokens
      ensures Valid() && Same()
      ensures Reports(ret, old(Toks()), One(Key(text, old(cur))))
    {
      hide Toks;
      hide Captured;
      hide Opened;
      hide Closed;
      hide Store;
      var ch := Cur();
      if IsAlpha(ch) {
        ret := ParseIdentifier();
      } else if ch == QUOTE {
        ret := ParseString();
      } else {
        ret := if ch == END_OF_STRING then INCOMPLETE else INVALID;
      }
    }

    method ParsePair() returns (ret: int)
      requires Valid()
      modifies this, tokens
      ensures Valid() && Same() && ret <= 0
      ensures Reports(ret, old(Toks()), Entry(text, old(cur), true))
      decreases |text| - cur, 2
    {
      hide Toks;
      hide Store;
      hide Entry;
      hide Reports;
      hide Key;
      hide Value;
      hide SkipSpace;
      hide One;
      ghost var before, p := Toks(), cur;
      ret := ParseKey();
      if ret != 0 {
        KeyRefused(ret, before, p);
        return;
      }
      KeyRead(before, p);
      ghost var sofar, k := Toks(), cur;
      ret := TestAndSkip(COLON);
      if ret < 0 {
        NoColon(before, p, k);
        return;
      }
      ghost var v := cur;
      ret := ParseValue();
      PairRead(ret, before, sofar, p, v);
    }

    lemma KeyRefused(ret: int, before: seq<Token>, p: nat)
      requires ret != 0 && Reports(ret, before, One(Key(text, p)))
      ensures ret < 0 && Reports(ret, before, Entry(text, p, true))
    {
      PairParts(text, p);
      hide Key;
      hide Value;
      hide Entry;
      hide SkipSpace;
      hide Toks;
      hide Captured;
    }

    lemma KeyRead(before: seq<Token>, p: nat)
      requires Reports(0, before, One(Key(text, p)))
      ensures var k := Key(text, p);
              k.Done? && cur == k.next && Toks() == before + Captured(Keeps(), Cons(k.value, Nil))
    {
      hide Key;
      hide Toks;
      hide Captured;
    }

    lemma NoColon(before: seq<Token>, p: nat, k: nat)
      requires Key(text, p).Done? && k == Key(text, p).next && !Is(text, SkipSpace(text, k), COLON)
      ensures Reports(Refusal(text, SkipSpace(text, k)), before, Entry(text, p, true))
    {
      PairParts(text, p);
      hide Key;
      hide Value;
      hide Entry;
      hide SkipSpace;
    }

    /** The name has been read, and the value that begins at `v` has been read or refused. */
    lemma PairRead(ret: int, before: seq<Token>, sofar: seq<Token>, p: nat, v: nat)
      requires Key(text, p).Done?
      requires var q := SkipSpace(text, Key(text, p).next); Is(text, q, COLON) && v == q + 1
      requires sofar == before + Captured(Keeps(), Cons(Key(text, p).value, Nil))
      requires Reports(ret, sofar, One(Value(text, v)))
      ensures Reports(ret, before, Entry(text, p, true))
    {
      PairParts(text, p);
      hide Key;
      hide Value;
      hide Entry;
      hide SkipSpace;
      hide Toks;
      hide Captured;
      var x := Value(text, v);
      if x.Done? { CapturedAppend(Keeps(), before, Cons(Key(text, p).value, Nil), Cons(x.value, Nil)); }
    }

    method ParseObject() returns (ret: int)
      requires Valid()
      modifies this, tokens
      ensures Valid() && Same() && ret <= 0
      ensures Reports(ret, old(Toks()), One(ContainerAt(text, old(cur), true)))
      decreases |text| - cur, 0
    {
      hide Toks;
      hide Inside;
      hide Store;
      hide Entry;
      hide Reports;
      hide IsRefusal;
      hide Prepend;
      hide One;
      hide Value;
      hide SkipComma;
      hide Container;
      hide SkipSpace;
      hide Append;
      ghost var before := Toks();
      ret := TestAndSkip(OPEN_BRACE);
      if ret < 0 {
        Refused(ret, before, One(ContainerAt(text, old(cur), true)));
        return;
      }
      ghost var at := cur - 1;
      ret := CapturePtr(cur - 1, Object);
      if ret < 0 {
        Full(before, ContainerAt(text, old(cur), true));
        return;
      }
      var ind := numTokens - 1;
      ghost var open := Toks();
      ghost var done: Nodes := Nil;
      InsideBegins(Keeps(), text, before, open, at, true);
      var ch := Cur();
      while ch != CLOSE_BRACE
        invariant Valid() && Same() && at < cur && cur == SkipSpace(text, cur)
        invariant ch == if cur < |text| then text[cur] else END_OF_STRING
        invariant Inside(Keeps(), text, before, open, Toks(), at, true, done, cur)
        decreases |text| - cur
      {
        ghost var sofar, p := Toks(), cur;
        ret := ParsePair();
        if ret < 0 {
          EntryRefused(ret, before, open, sofar, at, true, done, p);
          return;
        }
        EntryRead(before, open, sofar, at, true, done, p);
        done := Append(done, Entry(text, p, true).value);
        ch := NextEntry();
      }
      ret := EndContainer(CLOSE_BRACE, ind, before, open, at, true, done);
    }

    method DoIt() returns (ret: int)
      requires Valid() && cur == 0 && Toks() == []
      modifies this, tokens
      ensures Valid() && Same()
      ensures ret == 0 ==> Root(text).Done? && cur == Root(text).next
      ensures ret == 0 && Keeps() ==> Tokenized(Toks(), Root(text))
      ensures ret == TOO_SMALL ==>
                Keeps() && !doRealloc && (Root(text).Done? ==> Size(Root(text).value) >= maxTokens)
      ensures ret != 0 && ret != TOO_SMALL ==> ret < 0 && Root(text) == Fail(ret)
    {
      RootAt(text);
      hide Toks;
      hide Size;
      hide Layout;
      hide LayoutAll;
      hide Tokenized;
      hide IsRefusal;
      hide Store;
      hide Opened;
      hide Root;
      hide Container;
      hide SkipSpace;
      ghost var before := Toks();
      if |text| == cur {
        return INCOMPLETE;
      }
      ret := TestNoSkip(OPEN_BRACE);
      if ret == 0 {
        ret := ParseObject();
      } else {
        ret := TestNoSkip(OPEN_BRACKET);
        if ret != 0 {
          return;
        }
        ret := ParseArray();
      }
      if ret < 0 {
        TooSmall(ret, before, Root(text));
        return;
      }
      ghost var root := Root(text);
      RootLaid(root);
      ghost var toks := Toks();
      ret := CapturePtr(cur, Eof);
      if ret < 0 {
        return;
      }
      if Keeps() { EofFollows(toks, Toks(), root); }
      var _ := CaptureLen(numTokens, cur);
    }

    /** The text ends or goes on in the wrong way. */
    lemma Refused(ret: int, before: seq<Token>, spec: Outcome<Nodes>)
      requires IsRefusal(ret) && spec == Fail(ret)
      ensures Reports(ret, before, spec)
    {
    }

    /** No token fits any more. */
    lemma Full(before: seq<Token>, spec: Outcome<Node>)
      requires Keeps() && !doRealloc && |before| == maxTokens
      ensures Reports(TOO_SMALL, before, One(spec))
    {
    }

    /** What the next entry of a container means for the container. */
    lemma EntryRead(before: seq<Token>, open: seq<Token>, sofar: seq<Token>,
                    at: nat, isObject: bool, done: Nodes, p: nat)
      requires Reports(0, sofar, Entry(text, p, isObject))
      requires Inside(Keeps(), text, before, open, sofar, at, isObject, done, p)
      requires !Is(text, SkipSpace(text, p), Closer(isObject))
      ensures var x := Entry(text, p, isObject);
              && x.Done? && cur == x.next
              && Inside(Keeps(), text, before, open, Toks(), at, isObject, Append(done, x.value),
                        SkipSpace(text, SkipComma(text, cur)))
    {
      ReadingStep(text, at, isObject, done, p);
      hide Reading;
      hide Container;
      hide Entry;
      hide SkipSpace;
      hide LayoutAll;
      hide Append;
      hide Captured;
      hide Toks;
      CapturedAppend(Keeps(), open, done, Entry(text, p, isObject).value);
    }

    lemma EntryRefused(ret: int, before: seq<Token>, open: seq<Token>, sofar: seq<Token>,
                       at: nat, isObject: bool, done: Nodes, p: nat)
      requires ret != 0 && Reports(ret, sofar, Entry(text, p, isObject))
      requires Inside(Keeps(), text, before, open, sofar, at, isObject, done, p)
      requires !Is(text, SkipSpace(text, p), Closer(isObject))
      ensures ret < 0 && Is(text, at, Opener(isObject)) && Reports(ret, before, One(Container(text, at)))
    {
      ReadingStep(text, at, isObject, done, p);
      hide Container;
      hide Entry;
      hide SkipSpace;
      hide LayoutAll;
      hide Append;
      hide Toks;
    }

    lemma ContainerRead(before: seq<Token>, open: seq<Token>, sofar: seq<Token>, at: nat, isObject: bool, done: Nodes,
                        p: nat)
      requires Inside(Keeps(), text, before, open, sofar, at, isObject, done, p) && Is(text, p, Closer(isObject))
      requires cur == p + 1 && Toks() == Closed(sofar, if Keeps() then |before| else -1, cur)
      ensures Is(text, at, Opener(isObject)) && Reports(0, before, One(Container(text, at)))
    {
      ReadingEnds(text, at, isObject, done, p);
      NodeCaptured(Keeps(), before, open, Node(if isObject then Object else Array, at, cur, done));
      hide Container;
      hide Closed;
      hide Captured;
    }

    lemma TooSmall(ret: int, before: seq<Token>, root: Outcome<Node>)
      requires Reports(ret, before, One(root)) && before == []
      ensures ret == TOO_SMALL ==>
                Keeps() && !doRealloc && (root.Done? ==> Size(root.value) >= maxTokens)
      ensures ret != 0 && ret != TOO_SMALL ==> ret < 0 && root == Fail(ret)
    {
      if root.Done? { assert SizeAll(Cons(root.value, Nil)) == Size(root.value) + SizeAll(Nil); }
    }
  }

  /** The array begins with the layout of the tree, and the end marker follows. */
  predicate Tokenized(t: seq<Token>, root: Outcome<Node>) {
    && root.Done? && Size(root.value) < |t|
    && t[..Size(root.value)] == Layout(root.value)
    && t[Size(root.value)].kind == Eof && t[Size(root.value)].ptr == root.next
  }

  lemma RootLaid(root: Outcome<Node>)
    ensures root.Done? ==> |LayoutAll(Cons(root.value, Nil))| == Size(root.value)
  {
    if root.Done? { assert SizeAll(Cons(root.value, Nil)) == Size(root.value) + SizeAll(Nil); }
  }

  lemma EofFollows(toks: seq<Token>, all: seq<Token>, root: Outcome<Node>)
    requires root.Done? && toks == LayoutAll(Cons(root.value, Nil)) && Opened(true, toks, all, root.next, Eof)
    ensures Tokenized(all, root)
  {
    assert LayoutAll(Cons(root.value, Nil)) == Layout(root.value) + LayoutAll(Nil);
  }

  lemma RootAt(s: seq<byte>)
    ensures |s| == 0 ==> Root(s) == Fail(INCOMPLETE)
    ensures var q := SkipSpace(s, 0);
            && SkipSpace(s, q) == q
            && Root(s) == if Is(s, q, OPEN_BRACE) then ContainerAt(s, q, true) else ContainerAt(s, q, false)
  {
    hide Container;
  }

  /** Tokenizes into the caller's array. */
  method ParseJson(s: seq<byte>, arr: array?<Token>, arrLen: nat) returns (r: int)
    requires arr != null ==> arr.Length == arrLen
    modifies arr
    ensures r >= 0 <==> Root(s).Done? && (arr == null || arrLen == 0 || Size(Root(s).value) < arrLen)
    ensures r >= 0 ==> r == Root(s).next && (arr == null || arrLen == 0 || Tokenized(arr[..], Root(s)))
    ensures r < 0 ==> Root(s) == Fail(r) || (r == TOO_SMALL && arr != null && arrLen > 0)
  {
    hide Root;
    hide Layout;
    hide Size;
    var frozen := new Frozen(s, arr, arrLen);
    var ret := frozen.DoIt();
    if ret < 0 {
      return ret;
    }
    r := frozen.cur;
  }

  /** Tokenizes into an array that grows. */
  method ParseJson2(s: seq<byte>) returns (toks: array?<Token>)
    ensures toks != null <==> Root(s).Done?
    ensures toks != null ==> fresh(toks) && Tokenized(toks[..], Root(s))
  {
    hide Root;
    hide Layout;
    hide Size;
    var frozen := new Frozen.Growing(s);
    var ret := frozen.DoIt();
    toks := if ret < 0 then null else frozen.tokens;
  }
}

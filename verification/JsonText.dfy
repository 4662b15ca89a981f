/** What the frozen tokenizer reads: the tree of a JSON text, and the layout of a tree as a flat array of tokens. */
module JsonText {
  import opened ByteSeqs

  // Error codes.
  const INVALID: int := -1
  const INCOMPLETE: int := -2
  const TOO_SMALL: int := -3

  const QUOTE: byte := 34
  const BACKSLASH: byte := 92
  const COMMA: byte := 44
  const COLON: byte := 58
  const OPEN_BRACKET: byte := 91
  const CLOSE_BRACKET: byte := 93
  const OPEN_BRACE: byte := 123
  const CLOSE_BRACE: byte := 125
  const MINUS: byte := 45
  const PLUS: byte := 43
  const DOT: byte := 46
  const UNDERSCORE: byte := 95
  const LETTER_U: byte := 117

  datatype Kind = Eof | String | Number | Object | True | False | Null | Array

  /** A piece of the text from `ptr` on; an array or object is followed by its `numDesc` descendants. */
  datatype Token = Token(ptr: nat, len: int, numDesc: int, kind: Kind)

  /** A value that stands at `lo..hi` (a string without its quotes). The kids of an object are its keys and values
      in turn. */
  datatype Node = Node(kind: Kind, lo: nat, hi: nat, kids: Nodes)

  datatype Nodes = Nil | Cons(head: Node, tail: Nodes)

  datatype Outcome<+T> = Done(value: T, next: nat) | Fail(code: int)

  function Append(a: Nodes, b: Nodes): Nodes {
    if a.Nil? then b else Cons(a.head, Append(a.tail, b))
  }

  // ----- characters -----

  predicate IsSpace(x: byte) { x == 32 || x == 9 || x == 13 || x == 10 }

  predicate IsDigit(x: int) { 48 <= x <= 57 }

  predicate IsAlpha(x: int) { 97 <= x <= 122 || 65 <= x <= 90 }

  predicate IsHexDigit(x: byte) { IsDigit(x) || 97 <= x <= 102 || 65 <= x <= 70 }

  predicate InIdentifier(x: byte) { x == UNDERSCORE || IsAlpha(x) || IsDigit(x) }

  function Left(s: seq<byte>, p: nat): nat {
    if p <= |s| then |s| - p else 0
  }

  function SkipSpace(s: seq<byte>, p: nat): (q: nat)
    ensures p <= q && (p <= |s| ==> q <= |s|)
    ensures q < |s| ==> !IsSpace(s[q])
    ensures p < |s| && !IsSpace(s[p]) ==> q == p
    decreases Left(s, p)
  {
    if p < |s| && IsSpace(s[p]) then SkipSpace(s, p + 1) else p
  }

  predicate Is(s: seq<byte>, p: nat, x: byte) {
    p < |s| && s[p] == x
  }

  /** How a text is refused where another character is due. */
  function Refusal(s: seq<byte>, p: nat): int {
    if p < |s| then INVALID else INCOMPLETE
  }

  predicate IsRefusal(code: int) { code == INVALID || code == INCOMPLETE }

  // ----- strings, numbers, words -----

  /** The length of a character by its first byte alone. */
  function CharLength(x: byte): (n: nat)
    ensures 1 <= n <= 4
  {
    if x < 0x80 then 1 else if x / 16 == 15 then 4 else if x / 16 == 14 then 3 else 2
  }

  /** The letters of the escapes of two characters. */
  predicate IsShortEscape(x: byte) {
    x == QUOTE || x == BACKSLASH || x == 47 || x == 98 || x == 102 || x == 110 || x == 114 || x == 116
  }

  /** How many characters follow the backslash at `p`, or an error code. */
  function EscapeLength(s: seq<byte>, p: nat): (n: int)
    requires p + 1 < |s|
    ensures n > 0 ==> p + 1 + n <= |s|
    ensures n <= 0 ==> IsRefusal(n)
  {
    if s[p + 1] == LETTER_U then
      if |s| - p < 6 then INCOMPLETE
      else if IsHexDigit(s[p + 2]) && IsHexDigit(s[p + 3]) && IsHexDigit(s[p + 4]) && IsHexDigit(s[p + 5]) then 5
      else INVALID
    else if IsShortEscape(s[p + 1]) then 1
    else INVALID
  }

  /** How far the character at `p` of a string goes; 0 for the closing quote, negative for an error. */
  function StringStep(s: seq<byte>, p: nat): (n: int)
    ensures n > 0 ==> p + n <= |s|
    ensures n == 0 ==> Is(s, p, QUOTE) && p + 1 < |s|
    ensures n < 0 ==> IsRefusal(n)
  {
    if p >= |s| then INCOMPLETE
    else if s[p] < 32 then INVALID
    else if CharLength(s[p]) >= |s| - p then INCOMPLETE
    else if s[p] == BACKSLASH then
      var n := EscapeLength(s, p);
      if n > 0 then 1 + n else n
    else if s[p] == QUOTE then 0
    else CharLength(s[p])
  }

  /** The string whose body begins at `lo` and has been read up to `p`. */
  function StringFrom(s: seq<byte>, lo: nat, p: nat): (r: Outcome<Node>)
    ensures r.Done? ==> p < r.next <= |s| && r.value == Node(String, lo, r.next - 1, Nil)
    ensures r.Fail? ==> IsRefusal(r.code)
    decreases Left(s, p)
  {
    var n := StringStep(s, p);
    if n < 0 then Fail(n)
    else if n == 0 then Done(Node(String, lo, p, Nil), p + 1)
    else StringFrom(s, lo, p + n)
  }

  lemma StringFromStep(s: seq<byte>, lo: nat, p: nat)
    ensures var n := StringStep(s, p);
            StringFrom(s, lo, p) ==
            if n < 0 then Fail(n) else if n == 0 then Done(Node(String, lo, p, Nil), p + 1)
            else StringFrom(s, lo, p + n)
  {
  }

  function StringAt(s: seq<byte>, p: nat): (r: Outcome<Node>)
    ensures r.Done? ==> p < r.next <= |s| && r.value.kind == String && r.value.kids == Nil
    ensures r.Fail? ==> IsRefusal(r.code)
  {
    var q := SkipSpace(s, p);
    if Is(s, q, QUOTE) then StringFrom(s, q + 1, q + 1) else Fail(Refusal(s, q))
  }

  function SkipDigits(s: seq<byte>, p: nat): (q: nat)
    ensures p <= q && (p <= |s| ==> q <= |s|)
    decreases Left(s, p)
  {
    if p < |s| && IsDigit(s[p]) then SkipDigits(s, p + 1) else p
  }

  /** The end of the digits at `p`, of which there must be one. */
  function DigitsEnd(s: seq<byte>, p: nat): (q: int)
    ensures q >= 0 ==> p < q <= |s|
    ensures q < 0 ==> IsRefusal(q)
  {
    if p >= |s| then INCOMPLETE else if !IsDigit(s[p]) then INVALID else SkipDigits(s, p)
  }

  lemma NoDigits(s: seq<byte>, p: nat)
    ensures p >= |s| ==> DigitsEnd(s, p) == INCOMPLETE
  {
  }

  function FractionEnd(s: seq<byte>, p: nat): (q: int)
    requires p <= |s|
    ensures q >= 0 ==> p <= q <= |s|
    ensures q < 0 ==> IsRefusal(q)
  {
    if Is(s, p, DOT) then DigitsEnd(s, p + 1) else p
  }

  function ExponentEnd(s: seq<byte>, p: nat): (q: int)
    requires p <= |s|
    ensures q >= 0 ==> p <= q <= |s|
    ensures q < 0 ==> IsRefusal(q)
  {
    if Is(s, p, 101) || Is(s, p, 69) then
      DigitsEnd(s, if Is(s, p + 1, PLUS) || Is(s, p + 1, MINUS) then p + 2 else p + 1)
    else p
  }

  function NumberAt(s: seq<byte>, p: nat): (r: Outcome<Node>)
    ensures r.Done? ==> p < r.next <= |s| && r.value == Node(Number, p, r.next, Nil)
    ensures r.Fail? ==> IsRefusal(r.code)
  {
    var i := DigitsEnd(s, if Is(s, p, MINUS) then p + 1 else p);
    if i < 0 then Fail(i)
    else
      var f := FractionEnd(s, i);
      if f < 0 then Fail(f)
      else
        var e := ExponentEnd(s, f);
        if e < 0 then Fail(e) else Done(Node(Number, p, e, Nil), e)
  }

  /** 0 if `w` stands at `p`, and otherwise how the text is refused. */
  function Match(s: seq<byte>, p: nat, w: seq<byte>): (code: int)
    ensures code == 0 <==> At(s, p, w)
    ensures code == 0 || IsRefusal(code)
    decreases |w|
  {
    if w == [] then (if p <= |s| then 0 else INCOMPLETE)
    else if p >= |s| then INCOMPLETE
    else if s[p] != w[0] then
      assert p + |w| <= |s| ==> s[p..p + |w|][0] == s[p];
      INVALID
    else
      assert p + |w| <= |s| ==> s[p..p + |w|] == [s[p]] + s[p + 1..p + |w|];
      assert p + |w| <= |s| && s[p..p + |w|] == w ==> s[p + 1..p + |w|] == w[1..];
      Match(s, p + 1, w[1..])
  }

  lemma MatchBegins(s: seq<byte>, p: nat, w: seq<byte>)
    ensures Match(s, p, w[0..]) == Match(s, p, w)
  {
    assert w[0..] == w;
  }

  lemma MatchStep(s: seq<byte>, p: nat, w: seq<byte>)
    requires p <= |s|
    ensures Match(s, p, w) ==
            if w == [] then 0 else if p >= |s| then INCOMPLETE
            else if s[p] != w[0] then INVALID else Match(s, p + 1, w[1..])
  {
  }

  function Word(s: seq<byte>, p: nat, w: seq<byte>, kind: Kind): (r: Outcome<Node>)
    requires w != []
    ensures r.Done? ==> p < r.next <= |s|
    ensures r.Fail? ==> IsRefusal(r.code)
  {
    var code := Match(s, p, w);
    if code < 0 then Fail(code) else Done(Node(kind, p, p + |w|, Nil), p + |w|)
  }

  function IdentifierAt(s: seq<byte>, p: nat): (r: Outcome<Node>)
    requires p < |s| && IsAlpha(s[p])
    ensures r.Done? && p < r.next <= |s| && r.value == Node(String, p, r.next, Nil)
  {
    Done(Node(String, p, IdentifierEnd(s, p), Nil), IdentifierEnd(s, p))
  }

  function IdentifierEnd(s: seq<byte>, p: nat): (q: nat)
    ensures p <= q && (p <= |s| ==> q <= |s|)
    ensures p < |s| && InIdentifier(s[p]) ==> p < q
    decreases Left(s, p)
  {
    if p < |s| && InIdentifier(s[p]) then IdentifierEnd(s, p + 1) else p
  }

  // ----- values -----

  const NULL_WORD: seq<byte> := [110, 117, 108, 108]
  const TRUE_WORD: seq<byte> := [116, 114, 117, 101]
  const FALSE_WORD: seq<byte> := [102, 97, 108, 115, 101]

  function Value(s: seq<byte>, p: nat): (r: Outcome<Node>)
    ensures r.Done? ==> p < r.next <= |s|
    ensures r.Fail? ==> IsRefusal(r.code)
    decreases Left(s, p), 1
  {
    var q := SkipSpace(s, p);
    if q >= |s| then Fail(INCOMPLETE)
    else if s[q] == QUOTE then StringAt(s, q)
    else if s[q] == OPEN_BRACE || s[q] == OPEN_BRACKET then Container(s, q)
    else if s[q] == NULL_WORD[0] then Word(s, q, NULL_WORD, Null)
    else if s[q] == TRUE_WORD[0] then Word(s, q, TRUE_WORD, True)
    else if s[q] == FALSE_WORD[0] then Word(s, q, FALSE_WORD, False)
    else if s[q] == MINUS || IsDigit(s[q]) then NumberAt(s, q)
    else Fail(INVALID)
  }

  function Container(s: seq<byte>, p: nat): (r: Outcome<Node>)
    requires Is(s, p, OPEN_BRACE) || Is(s, p, OPEN_BRACKET)
    ensures r.Done? ==> p < r.next <= |s|
    ensures r.Fail? ==> IsRefusal(r.code)
    decreases Left(s, p), 0
  {
    var isObject := s[p] == OPEN_BRACE;
    var r := Entries(s, p + 1, isObject);
    if r.Fail? then Fail(r.code)
    else Done(Node(if isObject then Object else Array, p, r.next, r.value), r.next)
  }

  /** The container that must begin here. */
  function ContainerAt(s: seq<byte>, p: nat, isObject: bool): (r: Outcome<Node>)
    ensures r.Done? ==> p < r.next <= |s|
    ensures r.Fail? ==> IsRefusal(r.code)
  {
    var q := SkipSpace(s, p);
    if Is(s, q, Opener(isObject)) then Container(s, q) else Fail(Refusal(s, q))
  }

  function Opener(isObject: bool): byte {
    if isObject then OPEN_BRACE else OPEN_BRACKET
  }

  function Closer(isObject: bool): byte {
    if isObject then CLOSE_BRACE else CLOSE_BRACKET
  }

  /** Past the comma, if there is one. */
  function SkipComma(s: seq<byte>, p: nat): (q: nat)
    ensures p <= q && (p <= |s| ==> q <= |s|)
  {
    var r := SkipSpace(s, p);
    if Is(s, r, COMMA) then r + 1 else r
  }

  /** The entries of an array or object up to its end. Commas may be left out, and may follow the last entry. */
  function Entries(s: seq<byte>, p: nat, isObject: bool): (r: Outcome<Nodes>)
    ensures r.Done? ==> p < r.next <= |s|
    ensures r.Fail? ==> IsRefusal(r.code)
    decreases Left(s, p), 3
  {
    var q := SkipSpace(s, p);
    if Is(s, q, Closer(isObject)) then Done(Nil, q + 1)
    else
      var x := Entry(s, p, isObject);
      if x.Fail? then Fail(x.code) else Prepend(x.value, Entries(s, SkipComma(s, x.next), isObject))
  }

  function Prepend(done: Nodes, r: Outcome<Nodes>): (t: Outcome<Nodes>)
    ensures t.Fail? <==> r.Fail?
    ensures r.Done? ==> t.next == r.next
    ensures r.Fail? ==> t == r
  {
    if r.Fail? then r else Done(Append(done, r.value), r.next)
  }

  /** An element of an array, or a key and its value. */
  function Entry(s: seq<byte>, p: nat, isObject: bool): (r: Outcome<Nodes>)
    ensures r.Done? ==> p < r.next <= |s|
    ensures r.Fail? ==> IsRefusal(r.code)
    decreases Left(s, p), 2
  {
    if !isObject then One(Value(s, p))
    else
      var k := Key(s, p);
      if k.Fail? then Fail(k.code)
      else
        var q := SkipSpace(s, k.next);
        if !Is(s, q, COLON) then Fail(Refusal(s, q))
        else Prepend(Cons(k.value, Nil), One(Value(s, q + 1)))
  }

  function One(r: Outcome<Node>): (t: Outcome<Nodes>)
    ensures r.Fail? ==> t == Fail(r.code)
    ensures r.Done? ==> t == Done(Cons(r.value, Nil), r.next)
  {
    if r.Fail? then Fail(r.code) else Done(Cons(r.value, Nil), r.next)
  }

  function Key(s: seq<byte>, p: nat): (r: Outcome<Node>)
    ensures r.Done? ==> p < r.next <= |s| && r.value.kind == String && r.value.kids == Nil
    ensures r.Fail? ==> IsRefusal(r.code)
  {
    var q := SkipSpace(s, p);
    if q >= |s| then Fail(INCOMPLETE)
    else if IsAlpha(s[q]) then IdentifierAt(s, q)
    else if s[q] == QUOTE then StringAt(s, q)
    else Fail(INVALID)
  }

  /** The tree of a text: its root is an object or array, and what follows it does not matter. */
  function Root(s: seq<byte>): (r: Outcome<Node>)
    ensures r.Done? ==> 0 < r.next <= |s|
    ensures r.Fail? ==> IsRefusal(r.code)
  {
    var q := SkipSpace(s, 0);
    if Is(s, q, OPEN_BRACE) || Is(s, q, OPEN_BRACKET) then Container(s, q) else Fail(Refusal(s, q))
  }

  // ----- the layout of a tree -----

  function Size(n: Node): (k: nat)
    ensures k > 0
  {
    1 + SizeAll(n.kids)
  }

  function SizeAll(ns: Nodes): nat {
    if ns.Nil? then 0 else Size(ns.head) + SizeAll(ns.tail)
  }

  /** Preorder. */
  function Layout(n: Node): (t: seq<Token>)
    ensures |t| == Size(n)
  {
    [HeadToken(n)] + LayoutAll(n.kids)
  }

  function HeadToken(n: Node): Token {
    Token(n.lo, n.hi - n.lo, SizeAll(n.kids), n.kind)
  }

  function LayoutAll(ns: Nodes): (t: seq<Token>)
    ensures |t| == SizeAll(ns)
  {
    if ns.Nil? then [] else Layout(ns.head) + LayoutAll(ns.tail)
  }

  lemma {:induction false} LayoutAppend(a: Nodes, b: Nodes)
    ensures LayoutAll(Append(a, b)) == LayoutAll(a) + LayoutAll(b)
    ensures SizeAll(Append(a, b)) == SizeAll(a) + SizeAll(b)
  {
    if a.Cons? { LayoutAppend(a.tail, b); }
  }

  lemma {:induction false} AppendAssociative(a: Nodes, b: Nodes, c: Nodes)
    ensures Append(Append(a, b), c) == Append(a, Append(b, c))
  {
    if a.Cons? { AppendAssociative(a.tail, b, c); }
  }

  lemma {:induction false} AppendNil(a: Nodes)
    ensures Append(a, Nil) == a
  {
    if a.Cons? { AppendNil(a.tail); }
  }

  /** The entries `done` of the container at `at` have been read, up to `p`. */
  predicate Reading(s: seq<byte>, at: nat, isObject: bool, done: Nodes, p: nat) {
    Is(s, at, Opener(isObject)) && Entries(s, at + 1, isObject) == Prepend(done, Entries(s, p, isObject))
  }

  lemma ReadingBegins(s: seq<byte>, at: nat, isObject: bool)
    requires Is(s, at, Opener(isObject))
    ensures Reading(s, at, isObject, Nil, SkipSpace(s, at + 1))
  {
    EntriesAfterSpace(s, at + 1, isObject);
    hide Entries;
  }

  lemma ReadingStep(s: seq<byte>, at: nat, isObject: bool, done: Nodes, p: nat)
    requires Reading(s, at, isObject, done, p) && !Is(s, SkipSpace(s, p), Closer(isObject))
    ensures var x := Entry(s, p, isObject);
            var r := Container(s, at);
            if x.Fail? then r == Fail(x.code)
            else
              && Reading(s, at, isObject, Append(done, x.value), SkipSpace(s, SkipComma(s, x.next)))
              && (r.Done? ==> Size(r.value) > SizeAll(done) + SizeAll(x.value))
  {
    hide Entry;
    var x := Entry(s, p, isObject);
    if x.Done? {
      EntriesAfterSpace(s, SkipComma(s, x.next), isObject);
      var rest := Entries(s, SkipComma(s, x.next), isObject);
      if rest.Done? {
        AppendAssociative(done, x.value, rest.value);
        LayoutAppend(done, Append(x.value, rest.value));
        LayoutAppend(x.value, rest.value);
      }
    }
  }

  lemma ReadingEnds(s: seq<byte>, at: nat, isObject: bool, done: Nodes, p: nat)
    requires Reading(s, at, isObject, done, p) && Is(s, p, Closer(isObject))
    ensures Container(s, at) == Done(Node(if isObject then Object else Array, at, p + 1, done), p + 1)
  {
    AppendNil(done);
  }

  /** White space in front does not matter. */
  lemma ValueAfterSpace(s: seq<byte>, p: nat)
    ensures Value(s, SkipSpace(s, p)) == Value(s, p) && Key(s, SkipSpace(s, p)) == Key(s, p)
  {
    assert SkipSpace(s, SkipSpace(s, p)) == SkipSpace(s, p);
  }

  lemma ElementIsValue(s: seq<byte>, p: nat)
    ensures Entry(s, p, false) == One(Value(s, p))
  {
  }

  lemma EntriesAfterSpace(s: seq<byte>, p: nat, isObject: bool)
    ensures Entries(s, SkipSpace(s, p), isObject) == Entries(s, p, isObject)
  {
    ValueAfterSpace(s, p);
    assert SkipSpace(s, SkipSpace(s, p)) == SkipSpace(s, p);
    hide Value;
    hide Key;
  }
}

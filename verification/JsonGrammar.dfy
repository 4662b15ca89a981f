/** The concrete syntax that the tokenizer accepts, of which RFC 8259 is a part: trees that keep every choice a writer
    has. Wherever such a tree is written, the tokenizer reads what it means. */
module JsonGrammar {
  import opened Wrappers
  import opened ByteSeqs
  import opened JsonText
  import Utf8

  // ----- concrete syntax -----

  /** A character of a string: the bytes of it, or one of the escapes of section 7 of RFC 8259. */
  datatype Char = Plain(bytes: seq<byte>) | Short(letter: byte) | Code(digits: seq<byte>)

  datatype Exponent = Exponent(letter: byte, sign: seq<byte>, digits: seq<byte>)

  datatype Json =
    | Literal(kind: Kind)
    | Num(negative: bool, integer: seq<byte>, fraction: Option<seq<byte>>, exponent: Option<Exponent>)
    | Text(chars: seq<Char>)
    | List(isObject: bool, entries: Elements)

  /** Entries, and the white space before the closing bracket. */
  datatype Elements = End(space: seq<byte>) | Next(entry: Element, rest: Elements)

  /** A value with the white space around it, and a comma or not; in an object, its name comes first. */
  datatype Element = Element(before: seq<byte>, key: Option<Label>, value: Json, after: seq<byte>, comma: bool)

  datatype Label = Label(name: Name, beforeColon: seq<byte>, afterColon: seq<byte>)

  datatype Name = Quoted(chars: seq<Char>) | Bare(letters: seq<byte>)

  // ----- characters (sections 2, 3, 6 and 7 of RFC 8259), apart from those that the tokenizer looks for -----

  const BEGIN_ARRAY: byte := 0x5b
  const BEGIN_OBJECT: byte := 0x7b
  const END_ARRAY: byte := 0x5d
  const END_OBJECT: byte := 0x7d
  const NAME_SEPARATOR: byte := 0x3a
  const VALUE_SEPARATOR: byte := 0x2c
  const QUOTATION_MARK: byte := 0x22
  const REVERSE_SOLIDUS: byte := 0x5c
  const DECIMAL_POINT: byte := 0x2e
  const MINUS_SIGN: byte := 0x2d
  const PLUS_SIGN: byte := 0x2b

  const FALSE_NAME: seq<byte> := [0x66, 0x61, 0x6c, 0x73, 0x65]
  const NULL_NAME: seq<byte> := [0x6e, 0x75, 0x6c, 0x6c]
  const TRUE_NAME: seq<byte> := [0x74, 0x72, 0x75, 0x65]

  /** Space, horizontal tab, line feed, carriage return. */
  predicate White(x: byte) { x in [0x20, 0x09, 0x0a, 0x0d] }

  predicate Digit(x: byte) { 0x30 <= x <= 0x39 }

  predicate HexDigit(x: byte) { Digit(x) || 0x41 <= x <= 0x46 || 0x61 <= x <= 0x66 }

  /** What may follow a backslash: quotation mark, reverse solidus, solidus, b, f, n, r, t. */
  predicate EscapeLetter(x: byte) { x in [0x22, 0x5c, 0x2f, 0x62, 0x66, 0x6e, 0x72, 0x74] }

  /** Names without quotes, which are no part of RFC 8259, begin with a letter. */
  predicate Letter(x: byte) { 0x41 <= x <= 0x5a || 0x61 <= x <= 0x7a }

  predicate NameCharacter(x: byte) { Letter(x) || Digit(x) || x == 0x5f }

  /** How many bytes a character has that begins like this. In UTF-8 no character begins with 0x80 to 0xbf. */
  function LeadLength(x: byte): nat {
    if x <= 0x7f then 1 else if x <= 0xdf then 2 else if x <= 0xef then 3 else 4
  }

  function Begin(isObject: bool): byte {
    if isObject then BEGIN_OBJECT else BEGIN_ARRAY
  }

  function Finish(isObject: bool): byte {
    if isObject then END_OBJECT else END_ARRAY
  }

  predicate IsWhite(w: seq<byte>) {
    forall i :: 0 <= i < |w| ==> White(w[i])
  }

  predicate AllDigits(d: seq<byte>) {
    forall i :: 0 <= i < |d| ==> Digit(d[i])
  }

  predicate AreDigits(d: seq<byte>) {
    |d| > 0 && AllDigits(d)
  }

  // ----- writing -----

  function RenderChar(c: Char): seq<byte> {
    match c
    case Plain(bytes) => bytes
    case Short(letter) => [REVERSE_SOLIDUS, letter]
    case Code(digits) => [REVERSE_SOLIDUS, 0x75] + digits
  }

  function RenderChars(cs: seq<Char>): seq<byte> {
    if cs == [] then [] else RenderChar(cs[0]) + RenderChars(cs[1..])
  }

  function RenderString(cs: seq<Char>): seq<byte> {
    [QUOTATION_MARK] + RenderChars(cs) + [QUOTATION_MARK]
  }

  function LiteralWord(kind: Kind): (w: seq<byte>)
    ensures |w| > 0
  {
    if kind == Null then NULL_NAME else if kind == True then TRUE_NAME else FALSE_NAME
  }

  function RenderFraction(f: Option<seq<byte>>): seq<byte> {
    if f.None? then [] else [DECIMAL_POINT] + f.value
  }

  function RenderExponent(e: Option<Exponent>): seq<byte> {
    if e.None? then [] else [e.value.letter] + (e.value.sign + e.value.digits)
  }

  function Sign(negative: bool): seq<byte> {
    if negative then [MINUS_SIGN] else []
  }

  function RenderName(n: Name): seq<byte> {
    if n.Quoted? then RenderString(n.chars) else n.letters
  }

  function Render(j: Json): seq<byte> {
    match j
    case Literal(kind) => LiteralWord(kind)
    case Num(negative, integer, fraction, exponent) =>
      Sign(negative) + (integer + (RenderFraction(fraction) + RenderExponent(exponent)))
    case Text(chars) => RenderString(chars)
    case List(isObject, entries) => [Begin(isObject)] + (RenderAll(entries) + [Finish(isObject)])
  }

  function RenderAll(es: Elements): seq<byte> {
    match es
    case End(space) => space
    case Next(e, rest) => RenderElement(e) + RenderAll(rest)
  }

  function RenderElement(e: Element): seq<byte> {
    e.before + (RenderLabel(e.key) + (Render(e.value) + (e.after + Comma(e.comma))))
  }

  function Comma(comma: bool): seq<byte> {
    if comma then [VALUE_SEPARATOR] else []
  }

  function RenderLabel(l: Option<Label>): seq<byte> {
    if l.None? then [] else RenderName(l.value.name) + (l.value.beforeColon + ([NAME_SEPARATOR] + l.value.afterColon))
  }

  // ----- what the tokenizer accepts -----

  /** The first byte of a character says how long it is, and nothing else is looked at. */
  predicate CharFits(c: Char) {
    match c
    case Plain(bytes) =>
      && |bytes| > 0 && bytes[0] >= 0x20 && bytes[0] != QUOTATION_MARK && bytes[0] != REVERSE_SOLIDUS
      && |bytes| == LeadLength(bytes[0])
    case Short(letter) => EscapeLetter(letter)
    case Code(digits) => |digits| == 4 && forall i :: 0 <= i < 4 ==> HexDigit(digits[i])
  }

  predicate CharsFit(cs: seq<Char>) {
    forall i :: 0 <= i < |cs| ==> CharFits(cs[i])
  }

  predicate ExponentFits(e: Exponent) {
    && (e.letter == 0x65 || e.letter == 0x45) && (e.sign == [] || e.sign == [PLUS_SIGN] || e.sign == [MINUS_SIGN])
    && AreDigits(e.digits)
  }

  predicate NameFits(n: Name) {
    match n
    case Quoted(chars) => CharsFit(chars)
    case Bare(letters) =>
      |letters| > 0 && Letter(letters[0]) && forall i :: 0 <= i < |letters| ==> NameCharacter(letters[i])
  }

  predicate LabelFits(l: Label) {
    NameFits(l.name) && IsWhite(l.beforeColon) && IsWhite(l.afterColon)
  }

  predicate NumberFits(j: Json)
    requires j.Num?
  {
    && AreDigits(j.integer)
    && (j.fraction.Some? ==> AreDigits(j.fraction.value))
    && (j.exponent.Some? ==> ExponentFits(j.exponent.value))
  }

  /** The relaxed syntax: leading zeros, bare names, a comma after the last entry, no comma between entries, and
      strings that need not be UTF-8. */
  predicate Relaxed(j: Json) {
    match j
    case Literal(kind) => kind == Null || kind == True || kind == False
    case Num(_, _, _, _) => NumberFits(j)
    case Text(chars) => CharsFit(chars)
    case List(isObject, entries) => RelaxedAll(entries, isObject, false)
  }

  /** Entries after an entry without a comma (`glued`) start right where that one ends. */
  predicate RelaxedAll(es: Elements, isObject: bool, glued: bool) {
    match es
    case End(space) => IsWhite(space) && (glued ==> space == [])
    case Next(e, rest) =>
      && ElementFits(e, isObject) && (glued ==> e.before == [])
      && RelaxedAll(rest, isObject, !e.comma) && Apart(e, rest)
  }

  predicate ElementFits(e: Element, isObject: bool) {
    && IsWhite(e.before) && Relaxed(e.value) && IsWhite(e.after)
    && (isObject <==> e.key.Some?) && (isObject ==> LabelFits(e.key.value))
  }

  /** What comes right after a number must not be read as part of it. */
  predicate Apart(e: Element, rest: Elements) {
    !e.comma && e.after == [] && RenderAll(rest) != [] ==> !Continues(e.value, RenderAll(rest)[0])
  }

  predicate Continues(j: Json, x: byte) {
    j.Num? && (Digit(x) || (j.exponent.None? && (x == 0x65 || x == 0x45 || (x == DECIMAL_POINT && j.fraction.None?))))
  }

  // ----- the tree that is meant -----

  /** The tree of a value that is written at `p`. */
  function NodeOf(j: Json, p: nat): Node {
    var end := p + |Render(j)|;
    match j
    case Literal(kind) => Node(kind, p, end, Nil)
    case Num(_, _, _, _) => Node(Number, p, end, Nil)
    case Text(_) => StringNode(p, end)
    case List(isObject, entries) => Node(if isObject then Object else Array, p, end, KidsOf(entries, p + 1))
  }

  /** A string without its quotes. */
  function StringNode(p: nat, end: nat): Node {
    Node(String, p + 1, if end > p then end - 1 else p, Nil)
  }

  function KidsOf(es: Elements, p: nat): Nodes {
    match es
    case End(_) => Nil
    case Next(e, rest) => Append(ElementKids(e, p), KidsOf(rest, p + |RenderElement(e)|))
  }

  function ElementKids(e: Element, p: nat): Nodes {
    var q := p + |e.before|;
    var v := Cons(NodeOf(e.value, q + |RenderLabel(e.key)|), Nil);
    if e.key.Some? then Cons(NameNode(e.key.value.name, q), v) else v
  }

  function NameNode(n: Name, p: nat): Node {
    var end := p + |RenderName(n)|;
    if n.Quoted? then StringNode(p, end) else Node(String, p, end, Nil)
  }

  // ----- white space, digits and strings -----

  lemma {:induction false} WhiteSkipped(s: seq<byte>, p: nat, w: seq<byte>)
    requires IsWhite(w) && At(s, p, w)
    ensures SkipSpace(s, p) == SkipSpace(s, p + |w|)
    decreases |w|
  {
    if w != [] {
      assert s[p] == s[p..p + |w|][0] == w[0];
      assert s[p + 1..p + |w|] == s[p..p + |w|][1..] == w[1..];
      WhiteSkipped(s, p + 1, w[1..]);
    }
  }

  lemma {:induction false} DigitsSkipped(s: seq<byte>, p: nat, d: seq<byte>)
    requires AllDigits(d) && At(s, p, d)
    requires p + |d| < |s| ==> !IsDigit(s[p + |d|])
    ensures SkipDigits(s, p) == p + |d|
    decreases |d|
  {
    if d != [] {
      assert s[p] == s[p..p + |d|][0] == d[0];
      assert s[p + 1..p + |d|] == s[p..p + |d|][1..] == d[1..];
      DigitsSkipped(s, p + 1, d[1..]);
    }
  }

  lemma DigitsRead(s: seq<byte>, p: nat, d: seq<byte>)
    requires AreDigits(d) && At(s, p, d) && (p + |d| < |s| ==> !IsDigit(s[p + |d|]))
    ensures DigitsEnd(s, p) == p + |d|
    ensures IsDigit(s[p])
  {
    assert s[p] == s[p..p + |d|][0] == d[0];
    DigitsSkipped(s, p, d);
  }

  lemma {:induction false} LettersRead(s: seq<byte>, p: nat, w: seq<byte>)
    requires (forall i :: 0 <= i < |w| ==> InIdentifier(w[i])) && At(s, p, w)
    requires p + |w| < |s| ==> !InIdentifier(s[p + |w|])
    ensures IdentifierEnd(s, p) == p + |w|
    decreases |w|
  {
    if w != [] {
      assert s[p] == s[p..p + |w|][0] == w[0];
      assert s[p + 1..p + |w|] == s[p..p + |w|][1..] == w[1..];
      LettersRead(s, p + 1, w[1..]);
    }
  }

  lemma CharStep(s: seq<byte>, p: nat, c: Char)
    requires CharFits(c) && At(s, p, RenderChar(c)) && p + |RenderChar(c)| < |s|
    ensures StringStep(s, p) == |RenderChar(c)| > 0
  {
    var t := RenderChar(c);
    assert s[p] == s[p..p + |t|][0] == t[0];
    if !c.Plain? {
      assert s[p + 1] == s[p..p + |t|][1] == t[1];
      if c.Code? {
        assert s[p + 2] == s[p..p + |t|][2] == t[2] == c.digits[0];
        assert s[p + 3] == s[p..p + |t|][3] == t[3] == c.digits[1];
        assert s[p + 4] == s[p..p + |t|][4] == t[4] == c.digits[2];
        assert s[p + 5] == s[p..p + |t|][5] == t[5] == c.digits[3];
      }
    }
  }

  /** The characters of a string are passed over one by one. */
  lemma {:induction false} CharsSkipped(s: seq<byte>, lo: nat, p: nat, cs: seq<Char>)
    requires CharsFit(cs) && At(s, p, RenderChars(cs)) && p + |RenderChars(cs)| < |s|
    ensures StringFrom(s, lo, p) == StringFrom(s, lo, p + |RenderChars(cs)|)
    decreases |cs|
  {
    hide RenderChar;
    hide StringStep;
    hide CharFits;
    if cs != [] {
      StringFromStep(s, lo, p);
      AtSplit(s, p, RenderChar(cs[0]), RenderChars(cs[1..]));
      CharStep(s, p, cs[0]);
      CharsSkipped(s, lo, p + |RenderChar(cs[0])|, cs[1..]);
    }
  }

  lemma CharsRead(s: seq<byte>, lo: nat, p: nat, cs: seq<Char>)
    requires CharsFit(cs) && At(s, p, RenderChars(cs))
    requires var q := p + |RenderChars(cs)|; Is(s, q, QUOTE) && q + 1 < |s|
    ensures var q := p + |RenderChars(cs)|; StringFrom(s, lo, p) == Done(Node(String, lo, q, Nil), q + 1)
  {
    hide RenderChars;
    var q := p + |RenderChars(cs)|;
    CharsSkipped(s, lo, p, cs);
    StringFromStep(s, lo, q);
    QuoteStep(s, q);
  }

  lemma QuoteStep(s: seq<byte>, p: nat)
    requires Is(s, p, QUOTE) && p + 1 < |s|
    ensures StringStep(s, p) == 0
  {
  }

  lemma StringRead(s: seq<byte>, p: nat, cs: seq<Char>)
    requires CharsFit(cs) && At(s, p, RenderString(cs)) && p + |RenderString(cs)| < |s|
    ensures var q := p + |RenderString(cs)|; StringAt(s, p) == Done(StringNode(p, q), q)
    ensures s[p] == QUOTE
  {
    hide RenderChars;
    hide StringFrom;
    hide At;
    hide CharsFit;
    AtSplit(s, p, [QUOTE] + RenderChars(cs), [QUOTE]);
    AtSplit(s, p, [QUOTE], RenderChars(cs));
    FirstAt(s, p, [QUOTE]);
    FirstAt(s, p + 1 + |RenderChars(cs)|, [QUOTE]);
    CharsRead(s, p + 1, p + 1, cs);
  }

  lemma FirstAt(s: seq<byte>, p: nat, t: seq<byte>)
    requires At(s, p, t) && t != []
    ensures p < |s| && s[p] == t[0]
  {
    assert s[p] == s[p..p + |t|][0];
  }

  // ----- numbers -----

  lemma ExponentRead(s: seq<byte>, p: nat, e: Option<Exponent>)
    requires (e.Some? ==> ExponentFits(e.value)) && At(s, p, RenderExponent(e)) && p <= |s|
    requires var q := p + |RenderExponent(e)|;
             q < |s| ==> !IsDigit(s[q]) && (e.None? ==> s[q] != 101 && s[q] != 69)
    ensures ExponentEnd(s, p) == p + |RenderExponent(e)| <= |s|
    ensures e.Some? ==> p < |s| && s[p] == e.value.letter
  {
    hide At;
    hide DigitsEnd;
    hide AreDigits;
    if e.Some? {
      var x := e.value;
      var d := p + 1 + |x.sign|;
      ExponentParts(s, p, x);
      DigitsRead(s, d, x.digits);
      assert Is(s, p, 101) || Is(s, p, 69);
      assert x.sign == [] ==> !Is(s, p + 1, PLUS) && !Is(s, p + 1, MINUS);
    }
  }

  lemma ExponentParts(s: seq<byte>, p: nat, x: Exponent)
    requires ExponentFits(x) && At(s, p, RenderExponent(Some(x)))
    ensures Is(s, p, x.letter) && At(s, p + 1, x.sign) && At(s, p + 1 + |x.sign|, x.digits)
    ensures x.sign != [] ==> Is(s, p + 1, x.sign[0])
    ensures |RenderExponent(Some(x))| == 1 + |x.sign| + |x.digits|
  {
    hide At;
    hide AreDigits;
    AtSplit(s, p, [x.letter], x.sign + x.digits);
    AtSplit(s, p + 1, x.sign, x.digits);
    FirstAt(s, p, [x.letter]);
    if x.sign != [] { FirstAt(s, p + 1, x.sign); }
  }

  lemma FractionRead(s: seq<byte>, p: nat, f: Option<seq<byte>>)
    requires (f.Some? ==> AreDigits(f.value)) && At(s, p, RenderFraction(f)) && p <= |s|
    requires var q := p + |RenderFraction(f)|; q < |s| ==> !IsDigit(s[q]) && (f.None? ==> s[q] != DOT)
    ensures FractionEnd(s, p) == p + |RenderFraction(f)| <= |s|
    ensures f.Some? ==> Is(s, p, DOT)
  {
    hide At;
    hide DigitsEnd;
    hide AreDigits;
    if f.Some? {
      AtSplit(s, p, [DOT], f.value);
      FirstAt(s, p, [DOT]);
      DigitsRead(s, p + 1, f.value);
    }
  }

  lemma NumberParts(s: seq<byte>, p: nat, j: Json)
    requires j.Num? && At(s, p, Render(j))
    ensures var a := p + |Sign(j.negative)|;
            var b := a + |j.integer|;
            var c := b + |RenderFraction(j.fraction)|;
            && At(s, p, Sign(j.negative)) && At(s, a, j.integer)
            && At(s, b, RenderFraction(j.fraction)) && At(s, c, RenderExponent(j.exponent))
            && c + |RenderExponent(j.exponent)| == p + |Render(j)|
            && (j.fraction.None? ==> b == c) && (j.exponent.None? ==> c == p + |Render(j)|)
  {
    hide At;
    var sign, f, e := Sign(j.negative), RenderFraction(j.fraction), RenderExponent(j.exponent);
    AtSplit(s, p, sign, j.integer + (f + e));
    AtSplit(s, p + |sign|, j.integer, f + e);
    AtSplit(s, p + |sign| + |j.integer|, f, e);
  }

  lemma NumberRead(s: seq<byte>, p: nat, j: Json)
    requires j.Num? && NumberFits(j) && At(s, p, Render(j)) && Followed(s, j, p + |Render(j)|)
    ensures NumberAt(s, p) == Done(NodeOf(j, p), p + |Render(j)|)
    ensures p < |s| && (s[p] == MINUS || IsDigit(s[p]))
  {
    hide At;
    hide Render;
    hide RenderFraction;
    hide RenderExponent;
    hide DigitsEnd;
    hide FractionEnd;
    hide ExponentEnd;
    hide AreDigits;
    NumberParts(s, p, j);
    var a := p + |Sign(j.negative)|;
    var b := a + |j.integer|;
    AtBounds(s, p, Render(j));
    ExponentRead(s, b + |RenderFraction(j.fraction)|, j.exponent);
    FractionRead(s, b, j.fraction);
    DigitsRead(s, a, j.integer);
    if j.negative { FirstAt(s, p, Sign(j.negative)); }
  }

  lemma AtBounds(s: seq<byte>, p: nat, t: seq<byte>)
    requires At(s, p, t)
    ensures p + |t| <= |s|
  {
  }

  // ----- values -----

  /** What must hold where a value ends: a string must be followed by something, and a number not by what would be
      part of it. */
  predicate Followed(s: seq<byte>, j: Json, q: nat) {
    && (j.Text? ==> q < |s|)
    && (q < |s| ==> !Continues(j, s[q]))
  }

  /** The characters that a value or a name can begin with. */
  predicate Leads(x: byte) {
    x == QUOTE || x == MINUS || IsDigit(x) || IsAlpha(x) || x == OPEN_BRACE || x == OPEN_BRACKET
  }

  lemma LiteralRead(s: seq<byte>, p: nat, kind: Kind)
    requires (kind == Null || kind == True || kind == False) && At(s, p, LiteralWord(kind))
    ensures Value(s, p) == Done(Node(kind, p, p + |LiteralWord(kind)|, Nil), p + |LiteralWord(kind)|)
    ensures p < |s| && Leads(s[p])
  {
    hide At;
    hide Word;
    hide SkipSpace;
    FirstAt(s, p, LiteralWord(kind));
    NoSpaceSkipped(s, p);
    WordRead(s, p, LiteralWord(kind), kind);
  }

  lemma WordRead(s: seq<byte>, p: nat, w: seq<byte>, kind: Kind)
    requires w != [] && At(s, p, w)
    ensures Word(s, p, w, kind) == Done(Node(kind, p, p + |w|, Nil), p + |w|)
  {
    hide Match;
  }

  /** Every value of the relaxed syntax is read as the tree that is meant, and up to its end. */
  lemma {:induction false} ValueRead(s: seq<byte>, p: nat, j: Json)
    requires Relaxed(j) && At(s, p, Render(j)) && Followed(s, j, p + |Render(j)|)
    ensures Value(s, p) == Done(NodeOf(j, p), p + |Render(j)|)
    ensures p < |s| && Leads(s[p])
    decreases j
  {
    hide StringAt;
    hide NumberAt;
    hide Container;
    hide RenderString;
    match j
    case Literal(kind) => LiteralRead(s, p, kind);
    case Num(_, _, _, _) => NumberRead(s, p, j);
    case Text(chars) => StringRead(s, p, chars);
    case List(isObject, _) => ContainerRead(s, p, j);
  }

  lemma ContainerParts(s: seq<byte>, p: nat, j: Json)
    requires j.List? && At(s, p, Render(j))
    ensures Is(s, p, Opener(j.isObject)) && At(s, p + 1, RenderAll(j.entries))
    ensures Is(s, p + 1 + |RenderAll(j.entries)|, Closer(j.isObject))
    ensures |Render(j)| == |RenderAll(j.entries)| + 2
  {
    hide At;
    hide RenderAll;
    var o, c, inner := [Opener(j.isObject)], [Closer(j.isObject)], RenderAll(j.entries);
    AtSplit(s, p, o, inner + c);
    AtSplit(s, p + 1, inner, c);
    FirstAt(s, p, o);
    FirstAt(s, p + 1 + |inner|, c);
  }

  lemma {:induction false} ContainerRead(s: seq<byte>, p: nat, j: Json)
    requires j.List? && Relaxed(j) && At(s, p, Render(j))
    ensures Is(s, p, Opener(j.isObject)) && Container(s, p) == Done(NodeOf(j, p), p + |Render(j)|)
    decreases j, 0
  {
    hide At;
    hide Entries;
    hide RelaxedAll;
    hide RenderAll;
    hide Render;
    hide KidsOf;
    ContainerParts(s, p, j);
    EntriesRead(s, p + 1, j.entries, j.isObject, false);
  }

  lemma EntriesNone(s: seq<byte>, p: nat, isObject: bool)
    requires Is(s, SkipSpace(s, p), Closer(isObject))
    ensures Entries(s, p, isObject) == Done(Nil, SkipSpace(s, p) + 1)
  {
  }

  /** One entry has been read. */
  lemma EntriesOne(s: seq<byte>, p: nat, isObject: bool)
    requires !Is(s, SkipSpace(s, p), Closer(isObject)) && Entry(s, p, isObject).Done?
    ensures var x := Entry(s, p, isObject);
            Entries(s, p, isObject) == Prepend(x.value, Entries(s, SkipComma(s, x.next), isObject))
  {
    hide SkipComma;
    hide SkipSpace;
  }

  lemma {:induction false} EntriesRead(s: seq<byte>, p: nat, es: Elements, isObject: bool, glued: bool)
    requires RelaxedAll(es, isObject, glued) && At(s, p, RenderAll(es))
    requires Is(s, p + |RenderAll(es)|, Closer(isObject))
    ensures Entries(s, p, isObject) == Done(KidsOf(es, p), p + |RenderAll(es)| + 1)
    decreases es, 1
  {
    hide At;
    hide Entry;
    hide Entries;
    hide RenderElement;
    hide RenderAll;
    hide RelaxedAll;
    hide KidsOf;
    hide ElementFits;
    hide ElementKids;
    hide Apart;
    if es.End? {
      EndIs(es, isObject, glued, p);
      EndRead(s, p, es.space, isObject);
    } else {
      var e, rest := es.entry, es.rest;
      NextIs(es, isObject, glued, p);
      AtSplit(s, p, RenderElement(e), RenderAll(rest));
      FirstRead(s, p, e, rest, isObject);
      EntriesRead(s, p + |RenderElement(e)|, rest, isObject, !e.comma);
    }
  }

  lemma {:induction false} FirstRead(s: seq<byte>, p: nat, e: Element, rest: Elements, isObject: bool)
    requires ElementFits(e, isObject) && RelaxedAll(rest, isObject, !e.comma) && Apart(e, rest)
    requires At(s, p, RenderElement(e)) && At(s, p + |RenderElement(e)|, RenderAll(rest))
    requires Is(s, p + |RenderElement(e)| + |RenderAll(rest)|, Closer(isObject))
    ensures Entries(s, p, isObject) == Prepend(ElementKids(e, p), Entries(s, p + |RenderElement(e)|, isObject))
    decreases e, 1
  {
    hide At;
    hide Entry;
    hide Entries;
    hide RenderElement;
    hide RenderAll;
    hide RelaxedAll;
    hide ElementFits;
    hide ElementKids;
    hide Followed;
    hide Apart;
    hide SkipSpace;
    hide SkipComma;
    hide Render;
    hide RenderLabel;
    ElementRead(s, p, e, rest, isObject);
    EntriesOne(s, p, isObject);
  }

  lemma EndIs(es: Elements, isObject: bool, glued: bool, p: nat)
    requires RelaxedAll(es, isObject, glued) && es.End?
    ensures IsWhite(es.space) && RenderAll(es) == es.space && KidsOf(es, p) == Nil
  {
  }

  lemma NextIs(es: Elements, isObject: bool, glued: bool, p: nat)
    requires RelaxedAll(es, isObject, glued) && es.Next?
    ensures RenderAll(es) == RenderElement(es.entry) + RenderAll(es.rest)
    ensures ElementFits(es.entry, isObject) && Apart(es.entry, es.rest)
    ensures RelaxedAll(es.rest, isObject, !es.entry.comma)
    ensures KidsOf(es, p) == Append(ElementKids(es.entry, p), KidsOf(es.rest, p + |RenderElement(es.entry)|))
  {
    hide ElementFits;
    hide Apart;
    hide RenderElement;
    hide ElementKids;
  }

  lemma EndRead(s: seq<byte>, p: nat, space: seq<byte>, isObject: bool)
    requires IsWhite(space) && At(s, p, space) && Is(s, p + |space|, Closer(isObject))
    ensures Entries(s, p, isObject) == Done(Nil, p + |space| + 1)
  {
    hide Entries;
    WhiteSkipped(s, p, space);
    NoSpaceSkipped(s, p + |space|);
    EntriesNone(s, p, isObject);
  }

  lemma NoSpaceSkipped(s: seq<byte>, p: nat)
    requires p < |s| && !IsSpace(s[p])
    ensures SkipSpace(s, p) == p
  {
  }

  /** What comes after an entry without a comma begins another one, if it is not the end. */
  lemma GluedLeads(es: Elements, isObject: bool)
    requires RelaxedAll(es, isObject, true)
    ensures RenderAll(es) != [] ==> Leads(RenderAll(es)[0])
  {
    if es.Next? {
      ElementLeads(es.entry, isObject);
    }
  }

  lemma ElementLeads(e: Element, isObject: bool)
    requires ElementFits(e, isObject) && e.before == []
    ensures RenderElement(e) != [] && Leads(RenderElement(e)[0])
  {
    if isObject {
      NameLeads(e.key.value.name);
      hide RenderName;
      hide Render;
    } else {
      ValueLeads(e.value);
      hide Render;
    }
  }

  lemma NameLeads(n: Name)
    requires NameFits(n)
    ensures RenderName(n) != [] && Leads(RenderName(n)[0])
  {
  }

  lemma ValueLeads(j: Json)
    requires Relaxed(j)
    ensures Render(j) != [] && Leads(Render(j)[0])
  {
  }

  /** An entry that is followed by others, or by the end. */
  lemma {:induction false} ElementRead(s: seq<byte>, p: nat, e: Element, rest: Elements, isObject: bool)
    requires ElementFits(e, isObject) && RelaxedAll(rest, isObject, !e.comma) && Apart(e, rest)
    requires At(s, p, RenderElement(e)) && At(s, p + |RenderElement(e)|, RenderAll(rest))
    requires Is(s, p + |RenderElement(e)| + |RenderAll(rest)|, Closer(isObject))
    ensures !Is(s, SkipSpace(s, p), Closer(isObject)) && SkipSpace(s, p) == p + |e.before|
    ensures var x := Entry(s, p, isObject);
            x.Done? && x.value == ElementKids(e, p) && SkipComma(s, x.next) == p + |RenderElement(e)|
    ensures var v := p + |e.before| + |RenderLabel(e.key)|;
            && Followed(s, e.value, v + |Render(e.value)|)
            && Entry(s, p, isObject).next == v + |Render(e.value)|
            && SkipSpace(s, v + |Render(e.value)|) == v + |Render(e.value)| + |e.after|
            && (e.comma <==> Is(s, v + |Render(e.value)| + |e.after|, COMMA))
    decreases e, 0
  {
    hide At;
    hide Value;
    hide Key;
    hide Entry;
    hide SkipSpace;
    hide Render;
    hide RenderAll;
    hide RenderLabel;
    hide RenderElement;
    hide NodeOf;
    hide Relaxed;
    hide RelaxedAll;
    hide IsWhite;
    hide SkipComma;
    hide Followed;
    hide ElementKids;
    hide Leads;
    ElementParts(s, p, e);
    var q := p + |e.before|;
    var r := q + |RenderLabel(e.key)|;
    var v := r + |Render(e.value)|;
    ElementEnds(s, v, e, rest, isObject);
    ValueRead(s, r, e.value);
    EntryRead(s, p, e, isObject);
  }

  /** An entry whose value can be read. */
  lemma EntryRead(s: seq<byte>, p: nat, e: Element, isObject: bool)
    requires ElementFits(e, isObject) && At(s, p, RenderElement(e))
    requires var r := p + |e.before| + |RenderLabel(e.key)|;
             && r < |s| && Leads(s[r]) && Value(s, r) == Done(NodeOf(e.value, r), r + |Render(e.value)|)
    ensures !Is(s, SkipSpace(s, p), Closer(isObject)) && SkipSpace(s, p) == p + |e.before|
    ensures Entry(s, p, isObject) ==
            Done(ElementKids(e, p), p + |e.before| + |RenderLabel(e.key)| + |Render(e.value)|)
  {
    hide At;
    hide Value;
    hide Key;
    hide Entry;
    hide SkipSpace;
    hide Render;
    hide RenderLabel;
    hide RenderElement;
    hide NodeOf;
    hide Relaxed;
    hide IsWhite;
    hide ElementKids;
    hide NameNode;
    ElementParts(s, p, e);
    WhiteSkipped(s, p, e.before);
    KidsAre(e, p);
    if isObject {
      NamedElement(s, p, e.key.value, p + |e.before|);
    } else {
      PlainElement(s, p, p + |e.before|);
    }
  }

  lemma KidsAre(e: Element, p: nat)
    ensures var q := p + |e.before|;
            var v := NodeOf(e.value, q + |RenderLabel(e.key)|);
            ElementKids(e, p) ==
            if e.key.Some? then Cons(NameNode(e.key.value.name, q), Cons(v, Nil)) else Cons(v, Nil)
  {
  }

  lemma PlainElement(s: seq<byte>, p: nat, r: nat)
    requires SkipSpace(s, p) == SkipSpace(s, r) && r < |s| && Leads(s[r]) && Value(s, r).Done?
    ensures SkipSpace(s, p) == r && !Is(s, r, CLOSE_BRACKET)
    ensures Entry(s, p, false) == Done(Cons(Value(s, r).value, Nil), Value(s, r).next)
  {
    hide Value;
    hide Entry;
    hide SkipSpace;
    ValueSkips(s, p, r);
    ElementIsValue(s, p);
    NoSpaceSkipped(s, r);
  }

  lemma ElementParts(s: seq<byte>, p: nat, e: Element)
    requires At(s, p, RenderElement(e))
    ensures var q := p + |e.before|;
            var r := q + |RenderLabel(e.key)|;
            var v := r + |Render(e.value)|;
            && At(s, p, e.before) && At(s, q, RenderLabel(e.key)) && At(s, r, Render(e.value)) && At(s, v, e.after)
            && At(s, v + |e.after|, Comma(e.comma))
            && v + |e.after| + |Comma(e.comma)| == p + |RenderElement(e)|
            && (e.key.None? ==> q == r)
  {
    hide At;
    hide Render;
    hide RenderLabel;
    hide Comma;
    FiveParts(s, p, e.before, RenderLabel(e.key), Render(e.value), e.after, Comma(e.comma));
    NoLabelIsEmpty(e.key);
  }

  lemma NoLabelIsEmpty(key: Option<Label>)
    ensures key.None? ==> RenderLabel(key) == []
  {
  }

  lemma FiveParts(s: seq<byte>, p: nat, before: seq<byte>, key: seq<byte>, value: seq<byte>, after: seq<byte>,
                  comma: seq<byte>)
    requires At(s, p, before + (key + (value + (after + comma))))
    ensures var q := p + |before|;
            var r := q + |key|;
            var v := r + |value|;
            && At(s, p, before) && At(s, q, key) && At(s, r, value) && At(s, v, after) && At(s, v + |after|, comma)
            && v + |after| + |comma| == p + |before + (key + (value + (after + comma)))|
  {
    hide At;
    AtSplit(s, p, before, key + (value + (after + comma)));
    AtSplit(s, p + |before|, key, value + (after + comma));
    AtSplit(s, p + |before| + |key|, value, after + comma);
    AtSplit(s, p + |before| + |key| + |value|, after, comma);
  }

  /** Where the value of an entry ends. */
  lemma ElementEnds(s: seq<byte>, v: nat, e: Element, rest: Elements, isObject: bool)
    requires IsWhite(e.after) && RelaxedAll(rest, isObject, !e.comma) && Apart(e, rest)
    requires At(s, v, e.after) && At(s, v + |e.after|, Comma(e.comma))
    requires At(s, v + |e.after| + |Comma(e.comma)|, RenderAll(rest))
    requires Is(s, v + |e.after| + |Comma(e.comma)| + |RenderAll(rest)|, Closer(isObject))
    ensures Followed(s, e.value, v) && SkipSpace(s, v) == v + |e.after|
    ensures SkipComma(s, v) == v + |e.after| + |Comma(e.comma)|
    ensures e.comma <==> Is(s, v + |e.after|, COMMA)
  {
    hide At;
    hide RelaxedAll;
    hide RenderAll;
    hide SkipSpace;
    var w := v + |e.after|;
    if e.comma {
      FirstAt(s, w, Comma(e.comma));
    } else {
      GluedLeads(rest, isObject);
      if RenderAll(rest) != [] { FirstAt(s, w, RenderAll(rest)); }
    }
    WhiteSkipped(s, v, e.after);
    NoSpaceSkipped(s, w);
    if e.after != [] { FirstAt(s, v, e.after); }
  }

  lemma NamedElement(s: seq<byte>, p: nat, l: Label, q: nat)
    requires LabelFits(l) && At(s, q, RenderLabel(Some(l))) && q + |RenderLabel(Some(l))| < |s|
    requires SkipSpace(s, p) == SkipSpace(s, q) && Value(s, q + |RenderLabel(Some(l))|).Done?
    ensures SkipSpace(s, p) == q && Leads(s[q]) && s[q] != OPEN_BRACE
    ensures var v := Value(s, q + |RenderLabel(Some(l))|);
            Entry(s, p, true) == Done(Cons(NameNode(l.name, q), Cons(v.value, Nil)), v.next)
  {
    hide At;
    hide Value;
    hide Key;
    hide Entry;
    hide SkipSpace;
    hide RenderLabel;
    hide NameNode;
    var r := q + |RenderLabel(Some(l))|;
    LabelRead(s, q, l);
    NoSpaceSkipped(s, q);
    KeySkips(s, p, q);
    ValueSkips(s, r - |l.afterColon|, r);
    PairIs(s, p, r - |l.afterColon|);
  }

  /** A key, a colon before `q`, and a value. */
  lemma PairIs(s: seq<byte>, p: nat, q: nat)
    requires Key(s, p).Done? && Is(s, SkipSpace(s, Key(s, p).next), COLON) && SkipSpace(s, Key(s, p).next) + 1 == q
    requires Value(s, q).Done?
    ensures Entry(s, p, true) == Done(Cons(Key(s, p).value, Cons(Value(s, q).value, Nil)), Value(s, q).next)
  {
    hide Key;
    hide Value;
    hide SkipSpace;
    var k, v := Key(s, p).value, Cons(Value(s, q).value, Nil);
    assert Append(Cons(k, Nil), v) == Cons(k, Append(Nil, v));
  }

  lemma ValueSkips(s: seq<byte>, p: nat, q: nat)
    requires SkipSpace(s, p) == SkipSpace(s, q)
    ensures Value(s, p) == Value(s, q)
  {
    ValueAfterSpace(s, p);
    ValueAfterSpace(s, q);
  }

  lemma KeySkips(s: seq<byte>, p: nat, q: nat)
    requires SkipSpace(s, p) == SkipSpace(s, q)
    ensures Key(s, p) == Key(s, q)
  {
    ValueAfterSpace(s, p);
    ValueAfterSpace(s, q);
  }

  lemma NameRead(s: seq<byte>, q: nat, n: Name)
    requires NameFits(n) && At(s, q, RenderName(n))
    requires var k := q + |RenderName(n)|; k < |s| && (IsSpace(s[k]) || s[k] == COLON)
    ensures Key(s, q) == Done(NameNode(n, q), q + |RenderName(n)|)
    ensures s[q] == QUOTE || IsAlpha(s[q])
  {
    hide StringAt;
    hide RenderString;
    hide IdentifierEnd;
    if n.Quoted? {
      StringRead(s, q, n.chars);
      KeyIsString(s, q);
    } else {
      BareRead(s, q, n.letters);
    }
  }

  lemma KeyIsString(s: seq<byte>, q: nat)
    requires Is(s, q, QUOTE)
    ensures Key(s, q) == StringAt(s, q)
  {
    hide StringAt;
    NoSpaceSkipped(s, q);
  }

  lemma BareRead(s: seq<byte>, q: nat, letters: seq<byte>)
    requires NameFits(Bare(letters)) && At(s, q, letters)
    requires q + |letters| < |s| ==> !InIdentifier(s[q + |letters|])
    ensures Key(s, q) == Done(Node(String, q, q + |letters|, Nil), q + |letters|)
    ensures IsAlpha(s[q])
  {
    hide IdentifierEnd;
    FirstAt(s, q, letters);
    LettersRead(s, q, letters);
    NoSpaceSkipped(s, q);
  }

  /** The name at `q` is read, and a colon follows. */
  lemma LabelRead(s: seq<byte>, q: nat, l: Label)
    requires LabelFits(l) && At(s, q, RenderLabel(Some(l))) && q + |RenderLabel(Some(l))| < |s|
    ensures s[q] == QUOTE || IsAlpha(s[q])
    ensures var k := q + |RenderName(l.name)|;
            var r := q + |RenderLabel(Some(l))|;
            && Key(s, q) == Done(NameNode(l.name, q), k)
            && SkipSpace(s, k) == k + |l.beforeColon| && Is(s, k + |l.beforeColon|, COLON)
            && k + |l.beforeColon| + 1 == r - |l.afterColon|
            && SkipSpace(s, r - |l.afterColon|) == SkipSpace(s, r)
  {
    hide At;
    hide RenderName;
    hide NameFits;
    hide Key;
    hide IsWhite;
    hide SkipSpace;
    hide RenderLabel;
    hide NameNode;
    LabelParts(s, q, l);
    var k := q + |RenderName(l.name)|;
    SpaceOrColon(s, k, l.beforeColon);
    NameRead(s, q, l.name);
    WhiteSkipped(s, k, l.beforeColon);
    NoSpaceSkipped(s, k + |l.beforeColon|);
    WhiteSkipped(s, k + |l.beforeColon| + 1, l.afterColon);
  }

  lemma SpaceOrColon(s: seq<byte>, k: nat, w: seq<byte>)
    requires IsWhite(w) && At(s, k, w) && Is(s, k + |w|, COLON)
    ensures k < |s| && (IsSpace(s[k]) || s[k] == COLON)
  {
    if w != [] { FirstAt(s, k, w); }
  }

  lemma LabelParts(s: seq<byte>, q: nat, l: Label)
    requires At(s, q, RenderLabel(Some(l)))
    ensures var k := q + |RenderName(l.name)|;
            var c := k + |l.beforeColon|;
            && At(s, q, RenderName(l.name)) && At(s, k, l.beforeColon) && Is(s, c, COLON)
            && At(s, c + 1, l.afterColon)
            && c + 1 + |l.afterColon| == q + |RenderLabel(Some(l))|
  {
    hide At;
    hide RenderName;
    ColonParts(s, q, RenderName(l.name), l.beforeColon, l.afterColon);
  }

  lemma ColonParts(s: seq<byte>, q: nat, name: seq<byte>, before: seq<byte>, after: seq<byte>)
    requires At(s, q, name + (before + ([COLON] + after)))
    ensures var k := q + |name|;
            var c := k + |before|;
            && At(s, q, name) && At(s, k, before) && Is(s, c, COLON) && At(s, c + 1, after)
            && c + 1 + |after| == q + |name + (before + ([COLON] + after))|
  {
    hide At;
    AtSplit(s, q, name, before + ([COLON] + after));
    AtSplit(s, q + |name|, before, [COLON] + after);
    var c := q + |name| + |before|;
    AtSplit(s, c, [COLON], after);
    FirstAt(s, c, [COLON]);
  }

  /** A text whose root, an object or an array, is written in the relaxed syntax. */
  predicate IsText(s: seq<byte>, space: seq<byte>, j: Json, rest: seq<byte>) {
    IsWhite(space) && j.List? && Relaxed(j) && s == space + Render(j) + rest
  }

  /** Every such text is accepted, and its tree is the one that is meant. */
  lemma RelaxedAccepted(s: seq<byte>, space: seq<byte>, j: Json, rest: seq<byte>)
    requires IsText(s, space, j, rest)
    ensures Root(s) == Done(NodeOf(j, |space|), |space| + |Render(j)|)
  {
    hide Render;
    hide Relaxed;
    hide Container;
    hide NodeOf;
    assert s[0..|space|] == space;
    assert s[|space|..|space| + |Render(j)|] == Render(j);
    WhiteSkipped(s, 0, space);
    ContainerRead(s, |space|, j);
    hide IsWhite;
  }

  // ----- RFC 8259 -----

  /** An unescaped character is the UTF-8 encoding of one (sections 7 and 8.1). */
  predicate CharOk(c: Char) {
    CharFits(c) && (c.Plain? ==> Utf8.CharLength(c.bytes, 0) == |c.bytes|)
  }

  predicate CharsOk(cs: seq<Char>) {
    forall i :: 0 <= i < |cs| ==> CharOk(cs[i])
  }

  /** The grammar of RFC 8259. */
  predicate WellFormed(j: Json) {
    match j
    case Literal(kind) => kind == Null || kind == True || kind == False
    case Num(_, integer, _, _) => NumberFits(j) && (integer[0] == 48 ==> |integer| == 1)
    case Text(chars) => CharsOk(chars)
    case List(isObject, entries) => WellFormedAll(entries, isObject)
  }

  /** Commas between entries, and only there. */
  predicate WellFormedAll(es: Elements, isObject: bool) {
    match es
    case End(space) => IsWhite(space)
    case Next(e, rest) =>
      && ElementOk(e, isObject)
      && (if rest.Next? then e.comma && WellFormedAll(rest, isObject) else !e.comma && rest.space == [])
  }

  predicate ElementOk(e: Element, isObject: bool) {
    && IsWhite(e.before) && WellFormed(e.value) && IsWhite(e.after)
    && (isObject <==> e.key.Some?) && (isObject ==> LabelOk(e.key.value))
  }

  predicate LabelOk(l: Label) {
    l.name.Quoted? && CharsOk(l.name.chars) && IsWhite(l.beforeColon) && IsWhite(l.afterColon)
  }

  lemma {:induction false} WellFormedIsRelaxed(j: Json)
    requires WellFormed(j)
    ensures Relaxed(j)
    decreases j
  {
    if j.List? { WellFormedAllAreRelaxed(j.entries, j.isObject, false); }
  }

  lemma {:induction false} WellFormedAllAreRelaxed(es: Elements, isObject: bool, glued: bool)
    requires WellFormedAll(es, isObject) && !glued
    ensures RelaxedAll(es, isObject, glued)
    decreases es
  {
    if es.Next? {
      WellFormedIsRelaxed(es.entry.value);
      hide Relaxed;
      hide WellFormed;
      if es.rest.Next? { WellFormedAllAreRelaxed(es.rest, isObject, false); }
    }
  }

  /** Every text of RFC 8259 whose root is an object or an array is accepted, and its tree is the one that is meant. */
  lemma TextAccepted(space: seq<byte>, j: Json, rest: seq<byte>)
    requires IsWhite(space) && WellFormed(j) && j.List?
    ensures Root(space + Render(j) + rest) == Done(NodeOf(j, |space|), |space| + |Render(j)|)
  {
    hide Root;
    hide Render;
    WellFormedIsRelaxed(j);
    RelaxedAccepted(space + Render(j) + rest, space, j, rest);
  }

  // ----- an array of one entry -----

  function Single(j: Json, comma: bool): Json {
    List(false, Next(Element([], None, j, [], comma), End([])))
  }

  lemma SingleIs(j: Json, comma: bool)
    requires Relaxed(j)
    ensures Relaxed(Single(j, comma))
    ensures Render(Single(j, comma)) == [OPEN_BRACKET] + Render(j) + Comma(comma) + [CLOSE_BRACKET]
    ensures WellFormed(Single(j, comma)) <==> WellFormed(j) && !comma
    ensures NodeOf(Single(j, comma), 0) == Node(Array, 0, |Render(Single(j, comma))|, Cons(NodeOf(j, 1), Nil))
  {
    hide Relaxed;
    hide Render;
    hide WellFormed;
    hide NodeOf;
    hide RelaxedAll;
    hide RenderAll;
    hide WellFormedAll;
    hide KidsOf;
    SingleParts(j, comma);
    ListIs(Single(j, comma));
  }

  lemma SingleParts(j: Json, comma: bool)
    requires Relaxed(j)
    ensures var es := Single(j, comma).entries;
            && RelaxedAll(es, false, false) && RenderAll(es) == Render(j) + Comma(comma)
            && (WellFormedAll(es, false) <==> WellFormed(j) && !comma)
            && KidsOf(es, 1) == Cons(NodeOf(j, 1), Nil)
  {
    hide Relaxed;
    hide Render;
    hide WellFormed;
    hide NodeOf;
    var e, end := Element([], None, j, [], comma), End([]);
    assert RenderAll(end) == [];
    assert RenderElement(e) == Render(j) + Comma(comma);
    assert RelaxedAll(end, false, !comma);
    var es := Next(e, end);
    assert WellFormedAll(es, false) <==> ElementOk(e, false) && !e.comma;
    assert ElementKids(e, 1) == Cons(NodeOf(j, 1), Nil);
    assert Append(Cons(NodeOf(j, 1), Nil), Nil) == Cons(NodeOf(j, 1), Nil);
  }

  lemma ListIs(j: Json)
    requires j.List?
    ensures Relaxed(j) <==> RelaxedAll(j.entries, j.isObject, false)
    ensures WellFormed(j) <==> WellFormedAll(j.entries, j.isObject)
    ensures Render(j) == [Opener(j.isObject)] + (RenderAll(j.entries) + [Closer(j.isObject)])
    ensures NodeOf(j, 0) == Node(if j.isObject then Object else Array, 0, |Render(j)|, KidsOf(j.entries, 1))
  {
    hide RelaxedAll;
    hide WellFormedAll;
    hide RenderAll;
    hide KidsOf;
  }
}

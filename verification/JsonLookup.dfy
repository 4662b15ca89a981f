/** Lookup of a path such as `a.b[2].c`: on the tree of a text, and on its tokens. */
module JsonLookup {
  import opened Wrappers
  import opened ByteSeqs
  import opened JsonText
  import opened JsonLayout
  import opened JsonTokenizer

  // ----- paths -----

  datatype Step = Name(name: seq<byte>) | Index(index: nat)

  /** The end of a C string. */
  predicate Ends(path: seq<byte>, k: nat) {
    k >= |path| || path[k] == 0
  }

  predicate Has(path: seq<byte>, k: nat, x: byte)
    requires x != 0
  {
    !Ends(path, k) && path[k] == x
  }

  function NameEnd(path: seq<byte>, k: nat): (e: nat)
    ensures k <= e && (k <= |path| ==> e <= |path|)
    decreases Left(path, k)
  {
    if Ends(path, k) || path[k] == OPEN_BRACKET || path[k] == DOT then k else NameEnd(path, k + 1)
  }

  /** The number whose digits go on at `k` until a closing bracket, and where that ends. */
  function IndexFrom(path: seq<byte>, k: nat, acc: nat): (r: Option<(nat, nat)>)
    ensures r.Some? ==> k < r.value.1 <= |path|
    decreases Left(path, k)
  {
    if Ends(path, k) then None
    else if path[k] == CLOSE_BRACKET then Some((acc, k + 1))
    else if !IsDigit(path[k]) then None
    else IndexFrom(path, k + 1, acc * 10 + (path[k] - 48))
  }

  /** The step at `k`, and where the path goes on: a dot after a step is skipped. */
  function StepAt(path: seq<byte>, k: nat): (r: Option<(Step, nat)>)
    requires !Ends(path, k)
    ensures r.Some? ==> k < r.value.1 <= |path|
  {
    if path[k] == OPEN_BRACKET then
      if k + 1 < |path| && IsDigit(path[k + 1]) then
        var n := IndexFrom(path, k + 1, 0);
        if n.None? then None else Some((Index(n.value.0), SkipDot(path, n.value.1)))
      else None
    else
      var e := NameEnd(path, k);
      Some((Name(path[k..e]), SkipDot(path, e)))
  }

  function SkipDot(path: seq<byte>, k: nat): (e: nat)
    requires k <= |path|
    ensures k <= e <= |path|
  {
    if Has(path, k, DOT) then k + 1 else k
  }

  /** The steps of a path; the empty path has none. */
  function Steps(path: seq<byte>, k: nat): (r: Option<seq<Step>>)
    ensures r.Some? ==> |r.value| > 0
    decreases Left(path, k)
  {
    if Ends(path, k) then None
    else
      var s := StepAt(path, k);
      if s.None? then None
      else if Ends(path, s.value.1) then Some([s.value.0])
      else
        var rest := Steps(path, s.value.1);
        if rest.None? then None else Some([s.value.0] + rest.value)
  }

  // ----- on the tree -----

  /** A node, and how many tokens of the layout come before it. */
  type Found = Option<(Node, nat)>

  function Shift(d: nat, r: Found): Found {
    if r.None? then None else Some((r.value.0, d + r.value.1))
  }

  function Element(ns: Nodes, index: nat): Found {
    if ns.Nil? then None
    else if index == 0 then Some((ns.head, 0))
    else Shift(Size(ns.head), Element(ns.tail, index - 1))
  }

  /** The bytes of a string. */
  function TextOf(s: seq<byte>, n: Node): seq<byte> {
    if n.lo <= n.hi <= |s| then s[n.lo..n.hi] else []
  }

  /** The value of the first key that reads `name`. */
  function Member(s: seq<byte>, ns: Nodes, name: seq<byte>): Found {
    if ns.Nil? || ns.tail.Nil? then None
    else if TextOf(s, ns.head) == name then Some((ns.tail.head, Size(ns.head)))
    else Shift(Size(ns.head) + Size(ns.tail.head), Member(s, ns.tail.tail, name))
  }

  function Child(s: seq<byte>, n: Node, step: Step): Found {
    match step
    case Index(index) => if n.kind == Array then Shift(1, Element(n.kids, index)) else None
    case Name(name) => if n.kind == Object then Shift(1, Member(s, n.kids, name)) else None
  }

  function Descend(s: seq<byte>, n: Node, steps: seq<Step>): Found
    decreases |steps|
  {
    if steps == [] then Some((n, 0))
    else
      var c := Child(s, n, steps[0]);
      if c.None? then None else Shift(c.value.1, Descend(s, c.value.0, steps[1..]))
  }

  /** What the path `path[k..]` leads to from `n`. */
  function Lookup(s: seq<byte>, n: Node, path: seq<byte>, k: nat): Found {
    var steps := Steps(path, k);
    if steps.None? then None else Descend(s, n, steps.value)
  }

  lemma LookupStep(s: seq<byte>, n: Node, path: seq<byte>, k: nat)
    ensures Lookup(s, n, path, k) ==
            if Ends(path, k) || StepAt(path, k).None? then None
            else
              var step := StepAt(path, k).value;
              var c := Child(s, n, step.0);
              if c.None? then None
              else if Ends(path, step.1) then c
              else Shift(c.value.1, Lookup(s, c.value.0, path, step.1))
  {
    hide Child;
    hide StepAt;
    if !Ends(path, k) && StepAt(path, k).Some? {
      var step := StepAt(path, k).value;
      var c := Child(s, n, step.0);
      if Ends(path, step.1) {
        assert [step.0][1..] == [];
        if c.Some? { assert Descend(s, c.value.0, []) == Some((c.value.0, 0)); }
      } else if Steps(path, step.1).Some? {
        var rest := Steps(path, step.1).value;
        assert ([step.0] + rest)[1..] == rest;
      }
    }
  }

  // ----- on the tokens -----

  /** The layout of `n` stands at `base`. */
  predicate Stands(toks: seq<Token>, base: nat, n: Node) {
    base + Size(n) <= |toks| && toks[base..base + Size(n)] == Layout(n)
  }

  /** And it is the node of a text. */
  predicate Located(s: seq<byte>, toks: seq<Token>, base: nat, n: Node) {
    Stands(toks, base, n) && Shaped(n) && Placed(n.kids, n.lo, n.hi) && n.hi <= |s|
  }

  predicate StandAll(toks: seq<Token>, base: nat, ns: Nodes) {
    base + SizeAll(ns) <= |toks| && toks[base..base + SizeAll(ns)] == LayoutAll(ns)
  }

  lemma StandsSplit(toks: seq<Token>, base: nat, n: Node)
    requires Stands(toks, base, n)
    ensures toks[base] == HeadToken(n) && StandAll(toks, base + 1, n.kids)
  {
    assert toks[base] == Layout(n)[0];
    assert toks[base + 1..base + Size(n)] == Layout(n)[1..];
  }

  lemma StandAllSplit(toks: seq<Token>, base: nat, ns: Nodes)
    requires StandAll(toks, base, ns) && ns.Cons?
    ensures Stands(toks, base, ns.head) && StandAll(toks, base + Size(ns.head), ns.tail)
  {
    var n := Size(ns.head);
    assert toks[base..base + n] == LayoutAll(ns)[..n];
    assert toks[base + n..base + SizeAll(ns)] == LayoutAll(ns)[n..];
  }

  /** The child that a scan of the tokens looks for: a member by its name, or an element by its index. */
  function Sought(s: seq<byte>, ns: Nodes, name: seq<byte>, ind: int): Found {
    if ind < 0 then Member(s, ns, name) else Element(ns, ind)
  }

  /** What a scan may rely on: the tokens of these nodes, which are those of an object or of an array, stand at
      `at`. */
  predicate Scannable(s: seq<byte>, toks: seq<Token>, at: nat, ns: Nodes, lo: nat, hi: nat, named: bool) {
    StandAll(toks, at, ns) && ShapedAll(ns) && (named ==> Paired(ns)) && Placed(ns, lo, hi) && hi <= |s|
  }

  lemma TokenOf(s: seq<byte>, toks: seq<Token>, at: nat, n: Node)
    requires Located(s, toks, at, n)
    ensures at < |toks| && toks[at] == HeadToken(n) && Size(n) == 1 + toks[at].numDesc
    ensures n.kind != Array && n.kind != Object ==> Size(n) == 1
  {
    StandsSplit(toks, at, n);
  }

  /** One round of a scan over the elements of an array. */
  lemma ElementStep(s: seq<byte>, toks: seq<Token>, at: nat, ns: Nodes, lo: nat, hi: nat)
    requires Scannable(s, toks, at, ns, lo, hi, false) && ns.Cons?
    ensures Located(s, toks, at, ns.head) && SizeAll(ns) == Size(ns.head) + SizeAll(ns.tail)
    ensures Scannable(s, toks, at + Size(ns.head), ns.tail, ns.head.hi, hi, false)
  {
    hide Stands;
    hide StandAll;
    hide Size;
    hide Shaped;
    StandAllSplit(toks, at, ns);
    PlacedUpTo(ns.tail, ns.head.hi, hi);
  }

  /** One round of a scan over the members of an object. */
  lemma MemberStep(s: seq<byte>, toks: seq<Token>, at: nat, ns: Nodes, lo: nat, hi: nat)
    requires Scannable(s, toks, at, ns, lo, hi, true) && ns.Cons?
    ensures ns.tail.Cons?
    ensures var key, value := ns.head, ns.tail.head;
            && at < |toks| && toks[at] == HeadToken(key) && key.kind == String && key.lo <= key.hi <= |s|
            && Located(s, toks, at + 1, value)
            && SizeAll(ns) == 1 + Size(value) + SizeAll(ns.tail.tail) && Size(key) == 1
            && Scannable(s, toks, at + 1 + Size(value), ns.tail.tail, value.hi, hi, true)
  {
    hide Stands;
    hide StandAll;
    hide Size;
    hide Shaped;
    hide Located;
    ElementStep(s, toks, at, ns, lo, hi);
    TokenOf(s, toks, at, ns.head);
    ElementStep(s, toks, at + 1, ns.tail, ns.head.hi, hi);
    PlacedUpTo(ns.tail, ns.head.hi, hi);
  }

  method Compare(s: seq<byte>, str: seq<byte>, p: nat, k: nat, len: nat) returns (same: bool)
    requires p + len <= |s| && k + len <= |str|
    ensures same <==> s[p..p + len] == str[k..k + len]
  {
    var i := 0;
    while i < len && s[p + i] == str[k + i]
      invariant i <= len && s[p..p + i] == str[k..k + i]
    {
      assert s[p..p + i + 1] == s[p..p + i] + [s[p + i]];
      assert str[k..k + i + 1] == str[k..k + i] + [str[k + i]];
      i := i + 1;
    }
    same := i == len;
    if !same {
      assert s[p..p + len][i] != str[k..k + len][i];
    }
  }

  method PathPartLen(path: seq<byte>, k: nat) returns (i: nat)
    requires k <= |path|
    ensures k + i == NameEnd(path, k)
  {
    i := 0;
    while !Ends(path, k + i) && path[k + i] != OPEN_BRACKET && path[k + i] != DOT
      invariant k + i <= |path| && NameEnd(path, k + i) == NameEnd(path, k)
      decreases |path| - i
    {
      i := i + 1;
    }
  }

  /** The value of the first entry, and the entries after it. */
  function EntryValue(ns: Nodes, named: bool): Node
    requires ns.Cons? && (named ==> ns.tail.Cons?)
  {
    if named then ns.tail.head else ns.head
  }

  function Others(ns: Nodes, named: bool): Nodes
    requires ns.Cons? && (named ==> ns.tail.Cons?)
  {
    if named then ns.tail.tail else ns.tail
  }

  lemma SoughtStep(s: seq<byte>, ns: Nodes, name: seq<byte>, ind: int)
    ensures ns.Nil? ==> Sought(s, ns, name, ind) == None
    ensures var named := ind < 0;
            ns.Cons? && (named ==> ns.tail.Cons?) ==>
              var before := if named then Size(ns.head) else 0;
              Sought(s, ns, name, ind) ==
              if (if named then TextOf(s, ns.head) == name else ind == 0) then Some((EntryValue(ns, named), before))
              else Shift(before + Size(EntryValue(ns, named)),
                         Sought(s, Others(ns, named), name, if named then ind else ind - 1))
  {
  }

  /** One round of a scan. */
  lemma Round(s: seq<byte>, toks: seq<Token>, at: nat, ns: Nodes, lo: nat, hi: nat, named: bool)
    requires Scannable(s, toks, at, ns, lo, hi, named) && ns.Cons?
    ensures named ==>
              && ns.tail.Cons? && at < |toks| && toks[at] == HeadToken(ns.head) && Size(ns.head) == 1
              && ns.head.kind == String && ns.head.lo <= ns.head.hi <= |s|
    ensures var v := EntryValue(ns, named);
            var p := if named then at + 1 else at;
            && Located(s, toks, p, v) && p < |toks| && toks[p].kind == v.kind && Size(v) == 1 + toks[p].numDesc
            && (v.kind != Array && v.kind != Object ==> Size(v) == 1)
            && at + SizeAll(ns) == p + Size(v) + SizeAll(Others(ns, named))
            && Scannable(s, toks, p + Size(v), Others(ns, named), v.hi, hi, named)
  {
    hide Scannable;
    hide Located;
    hide Size;
    if named {
      MemberStep(s, toks, at, ns, lo, hi);
      TokenOf(s, toks, at + 1, ns.tail.head);
    } else {
      ElementStep(s, toks, at, ns, lo, hi);
      TokenOf(s, toks, at, ns.head);
    }
  }

  /** Looks for a child by skipping over the descendants of those before it. Without a match it ends exactly at the
      number of descendants. */
  method Scan(s: seq<byte>, toks: seq<Token>, base: nat, path: seq<byte>, k: nat, n: nat, ind: int, skip: nat,
              ghost kids: Nodes, ghost lo: nat, ghost hi: nat)
    returns (i: nat)
    requires 0 < base <= |toks| && toks[base - 1].numDesc == SizeAll(kids)
    requires Scannable(s, toks, base, kids, lo, hi, ind == -1) && k + n <= |path|
    requires ind >= -1 && skip == if ind == -1 then 2 else 1
    ensures var r := Sought(s, kids, path[k..k + n], ind);
            if r.None? then i == SizeAll(kids)
            else i == r.value.1 < SizeAll(kids) && Located(s, toks, base + i, r.value.0)
  {
    hide Scannable;
    hide Located;
    hide Size;
    hide Sought;
    hide Others;
    hide EntryValue;
    i := 0;
    var ind2 := 0;
    ghost var name, named := path[k..k + n], ind == -1;
    ghost var rest, from := kids, lo;
    while i < toks[base - 1].numDesc
      invariant i + SizeAll(rest) == SizeAll(kids) && 0 <= ind2 && (!named ==> ind2 <= ind)
      invariant Scannable(s, toks, base + i, rest, from, hi, named)
      invariant Sought(s, kids, name, ind) == Shift(i, Sought(s, rest, name, if named then ind else ind - ind2))
      decreases SizeAll(rest)
    {
      Round(s, toks, base + i, rest, from, hi, named);
      SoughtStep(s, rest, name, if named then ind else ind - ind2);
      if ind == -1 && toks[base + i].kind != String {
        assert false;
      }
      var same := false;
      if ind == -1 && toks[base + i].len == n {
        same := Compare(s, path, toks[base + i].ptr, k, n);
      }
      if ind2 == ind || same {
        i := i + skip - 1;
        return;
      }
      if toks[base + i - 1 + skip].kind == Array || toks[base + i - 1 + skip].kind == Object {
        i := i + toks[base + i - 1 + skip].numDesc;
      }
      i := i + skip;
      ind2 := ind2 + 1;
      rest, from := Others(rest, named), EntryValue(rest, named).hi;
    }
    SoughtStep(s, rest, name, if named then ind else ind - ind2);
  }

  /** The tokens of a text are what a lookup needs. */
  lemma TokensLocated(s: seq<byte>, tokens: seq<Token>)
    requires Tokenized(tokens, Root(s))
    ensures Root(s).Done? && Located(s, tokens, 0, Root(s).value)
  {
    RootFine(s);
    hide Root;
    hide Shaped;
    assert tokens[0..Size(Root(s).value)] == tokens[..Size(Root(s).value)];
  }

  /** The index of the token that a path leads to, in the tokens of a text; or None. */
  method FindJsonToken(s: seq<byte>, tokens: seq<Token>, path: seq<byte>) returns (r: Option<nat>)
    requires Tokenized(tokens, Root(s))
    ensures var f := Lookup(s, Root(s).value, path, 0);
            if f.None? then r.None?
            else r == Some(f.value.1) && Located(s, tokens, f.value.1, f.value.0)
  {
    hide Lookup;
    hide Scannable;
    hide Located;
    hide NameEnd;
    hide Root;
    hide Tokenized;
    TokensLocated(s, tokens);
    ghost var root := Root(s).value;
    var toks: nat, k: nat := 0, 0;
    ghost var node := root;
    while !Ends(path, k)
      invariant k <= |path|
      invariant Located(s, tokens, toks, node)
      invariant Lookup(s, root, path, 0) == Shift(toks, Lookup(s, node, path, k))
      decreases |path| - k
    {
      LookupStep(s, node, path, k);
      TokenOf(s, tokens, toks, node);
      var ind, skip := -1, 2;
      var n := PathPartLen(path, k);
      if path[k] == OPEN_BRACKET {
        if tokens[toks].kind != Array || !(k + 1 < |path| && IsDigit(path[k + 1])) {
          return None;
        }
        ind, n := ParseIndex(path, k);
        if ind < 0 {
          return None;
        }
        skip := 1;
      } else if tokens[toks].kind != Object {
        return None;
      }
      KidsScannable(s, tokens, toks, node, ind == -1);
      toks := toks + 1;
      var i := Scan(s, tokens, toks, path, k, n, ind, skip, node.kids, node.lo, node.hi);
      if i == tokens[toks - 1].numDesc {
        return None;
      }
      node := Child(s, node, StepAt(path, k).value.0).value.0;
      k := k + n;
      if Has(path, k, DOT) {
        k := k + 1;
      }
      if Ends(path, k) {
        return Some(toks + i);
      }
      toks := toks + i;
    }
    LookupStep(s, node, path, k);
    r := None;
  }

  /** The number in brackets and how long it is with them, or -1. */
  method ParseIndex(path: seq<byte>, k: nat) returns (ind: int, n: nat)
    requires k + 1 < |path| && path[k] == OPEN_BRACKET && IsDigit(path[k + 1])
    ensures ind >= -1 && k + n <= |path|
    ensures IndexFrom(path, k + 1, 0) == if ind < 0 then None else Some((ind, k + n))
  {
    ind, n := 0, 1;
    while !Ends(path, k + n) && path[k + n] != CLOSE_BRACKET
      invariant 0 <= ind && k + n <= |path| && 1 <= n
      invariant IndexFrom(path, k + 1, 0) == IndexFrom(path, k + n, ind)
      decreases |path| - n
    {
      if !IsDigit(path[k + n]) {
        return -1, n;
      }
      ind := ind * 10 + (path[k + n] - 48);
      n := n + 1;
    }
    if !Has(path, k + n, CLOSE_BRACKET) {
      return -1, n;
    }
    n := n + 1;
  }

  lemma KidsScannable(s: seq<byte>, toks: seq<Token>, at: nat, n: Node, named: bool)
    requires Located(s, toks, at, n)
    requires named ==> n.kind == Object
    ensures Scannable(s, toks, at + 1, n.kids, n.lo, n.hi, named)
  {
    StandsSplit(toks, at, n);
  }
}

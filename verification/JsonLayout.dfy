/** How the tokens of a text lie: their ranges of indices and their stretches of text are nested or apart. */
module JsonLayout {
  import opened ByteSeqs
  import opened JsonText

  /** The nodes stand one after the other between `lo` and `hi`, and so do the kids of each within it. */
  predicate Placed(ns: Nodes, lo: nat, hi: nat) {
    if ns.Nil? then lo <= hi
    else
      && lo <= ns.head.lo <= ns.head.hi
      && Placed(ns.head.kids, ns.head.lo, ns.head.hi)
      && Placed(ns.tail, ns.head.hi, hi)
  }

  /** Only arrays and objects have kids, and those of an object are pairs of a string and a value. */
  predicate Shaped(n: Node) {
    && (n.kids.Cons? ==> n.kind == Array || n.kind == Object)
    && ShapedAll(n.kids)
    && (n.kind == Object ==> Paired(n.kids))
  }

  predicate ShapedAll(ns: Nodes) {
    ns.Cons? ==> Shaped(ns.head) && ShapedAll(ns.tail)
  }

  predicate Paired(ns: Nodes) {
    ns.Cons? ==> ns.head.kind == String && ns.head.kids.Nil? && ns.tail.Cons? && Paired(ns.tail.tail)
  }

  lemma {:induction false} PlacedFrom(ns: Nodes, lo: nat, from: nat, hi: nat, to: nat)
    requires Placed(ns, from, hi) && lo <= from && hi <= to
    ensures Placed(ns, lo, to)
    decreases ns
  {
    if ns.Cons? { PlacedFrom(ns.tail, ns.head.hi, ns.head.hi, hi, to); }
  }

  lemma {:induction false} PlacedAppend(a: Nodes, b: Nodes, lo: nat, mid: nat, hi: nat)
    requires Placed(a, lo, mid) && Placed(b, mid, hi)
    ensures Placed(Append(a, b), lo, hi)
    decreases a
  {
    if a.Cons? { PlacedAppend(a.tail, b, a.head.hi, mid, hi); } else { PlacedFrom(b, lo, mid, hi, hi); }
  }

  lemma {:induction false} ShapedAppend(a: Nodes, b: Nodes)
    requires ShapedAll(a) && ShapedAll(b)
    ensures ShapedAll(Append(a, b))
  {
    if a.Cons? { ShapedAppend(a.tail, b); }
  }

  /** What a value that was read from `p` on looks like. */
  ghost predicate Fine(r: Outcome<Node>, p: nat) {
    r.Done? ==>
      var n := r.value;
      p <= n.lo <= n.hi <= r.next && Placed(n.kids, n.lo, n.hi) && Shaped(n)
  }

  ghost predicate FineAll(r: Outcome<Nodes>, p: nat) {
    r.Done? ==> Placed(r.value, p, r.next) && ShapedAll(r.value)
  }

  lemma FineOne(r: Outcome<Node>, p: nat)
    requires Fine(r, p)
    ensures FineAll(One(r), p)
  {
    if r.Done? {
      var none: Nodes := Nil;
      assert Placed(none, r.value.hi, r.next) && ShapedAll(none);
    }
  }

  lemma FineLeaf(r: Outcome<Node>, p: nat)
    requires r.Done? ==> p <= r.value.lo <= r.value.hi <= r.next && r.value.kids.Nil? && r.value.kind != Object
    ensures Fine(r, p)
  {
  }

  lemma {:induction false} ValueFine(s: seq<byte>, p: nat)
    ensures Fine(Value(s, p), p)
    decreases Left(s, p), 1
  {
    hide NumberAt;
    hide StringFrom;
    hide Match;
    hide Container;
    hide Shaped;
    hide Placed;
    var q := SkipSpace(s, p);
    hide SkipSpace;
    if Is(s, q, OPEN_BRACE) || Is(s, q, OPEN_BRACKET) {
      ContainerFine(s, q);
    } else if Is(s, q, QUOTE) {
      StringFine(s, q);
    } else {
      FineLeaf(Value(s, p), p);
    }
  }

  lemma {:induction false} StringFromPlaced(s: seq<byte>, lo: nat, p: nat)
    requires lo <= p
    ensures StringFrom(s, lo, p).Done? ==> lo <= StringFrom(s, lo, p).value.hi
    decreases Left(s, p)
  {
    StringFromStep(s, lo, p);
    if StringStep(s, p) > 0 { StringFromPlaced(s, lo, p + StringStep(s, p)); }
  }

  lemma StringFine(s: seq<byte>, p: nat)
    ensures Fine(StringAt(s, p), p)
  {
    var q := SkipSpace(s, p);
    StringFromPlaced(s, q + 1, q + 1);
    hide StringFrom;
    hide SkipSpace;
    FineLeaf(StringAt(s, p), p);
  }

  lemma KeyFine(s: seq<byte>, p: nat)
    ensures Fine(Key(s, p), p)
    ensures Key(s, p).Done? ==> Key(s, p).value.kind == String && Key(s, p).value.kids.Nil?
  {
    hide StringAt;
    hide IdentifierEnd;
    hide SkipSpace;
    StringFine(s, SkipSpace(s, p));
    FineLeaf(Key(s, p), p);
  }

  lemma {:induction false} ContainerFine(s: seq<byte>, p: nat)
    requires Is(s, p, OPEN_BRACE) || Is(s, p, OPEN_BRACKET)
    ensures Fine(Container(s, p), p)
    decreases Left(s, p), 0
  {
    hide Entries;
    var isObject := s[p] == OPEN_BRACE;
    EntriesFine(s, p + 1, isObject);
    var r := Entries(s, p + 1, isObject);
    if r.Done? { PlacedFrom(r.value, p, p + 1, r.next, r.next); }
  }

  lemma {:induction false} EntriesFine(s: seq<byte>, p: nat, isObject: bool)
    ensures FineAll(Entries(s, p, isObject), p)
    ensures isObject && Entries(s, p, isObject).Done? ==> Paired(Entries(s, p, isObject).value)
    decreases Left(s, p), 3
  {
    hide Entry;
    hide SkipSpace;
    hide SkipComma;
    if !Is(s, SkipSpace(s, p), Closer(isObject)) {
      EntryFine(s, p, isObject);
      var x := Entry(s, p, isObject);
      if x.Done? {
        var q := SkipComma(s, x.next);
        EntriesFine(s, q, isObject);
        var rest := Entries(s, q, isObject);
        if rest.Done? {
          PlacedFrom(rest.value, x.next, q, rest.next, rest.next);
          PlacedAppend(x.value, rest.value, p, x.next, rest.next);
          ShapedAppend(x.value, rest.value);
          if isObject { PairPrepended(x.value, rest.value); }
        }
      }
    }
  }

  ghost predicate IsPair(ns: Nodes) {
    && ns.Cons? && ns.head.kind == String && ns.head.kids.Nil?
    && ns.tail.Cons? && ns.tail.tail.Nil?
  }

  lemma PairPrepended(x: Nodes, rest: Nodes)
    requires IsPair(x) && Paired(rest)
    ensures Paired(Append(x, rest))
  {
    assert Append(x, rest).tail == Append(x.tail, rest);
    assert Append(x.tail, rest).tail == Append(x.tail.tail, rest) == rest;
  }

  lemma {:induction false} EntryFine(s: seq<byte>, p: nat, isObject: bool)
    ensures FineAll(Entry(s, p, isObject), p)
    ensures isObject && Entry(s, p, isObject).Done? ==> IsPair(Entry(s, p, isObject).value)
    decreases Left(s, p), 2
  {
    hide Value;
    hide SkipSpace;
    hide Key;
    if !isObject {
      ValueFine(s, p);
      FineOne(Value(s, p), p);
    } else {
      KeyFine(s, p);
      var k := Key(s, p);
      if k.Done? {
        var q := SkipSpace(s, k.next);
        if Is(s, q, COLON) {
          ValueFine(s, q + 1);
          PairFine(k, Value(s, q + 1), p, q + 1);
        }
      }
    }
  }

  lemma PairFine(k: Outcome<Node>, v: Outcome<Node>, p: nat, q: nat)
    requires k.Done? && Fine(k, p) && k.next <= q && Fine(v, q)
    requires k.value.kind == String && k.value.kids.Nil?
    ensures FineAll(Prepend(Cons(k.value, Nil), One(v)), p)
    ensures v.Done? ==> IsPair(Prepend(Cons(k.value, Nil), One(v)).value)
  {
    FineOne(k, p);
    FineOne(v, q);
    if v.Done? {
      PlacedFrom(One(v).value, k.next, q, v.next, v.next);
      PlacedAppend(One(k).value, One(v).value, p, k.next, v.next);
      ShapedAppend(One(k).value, One(v).value);
      assert Append(One(k).value, One(v).value).tail == Append(One(k).value.tail, One(v).value) == One(v).value;
    }
  }

  /** The tree of a text. */
  lemma RootFine(s: seq<byte>)
    requires Root(s).Done?
    ensures var n := Root(s).value;
            Shaped(n) && Placed(Cons(n, Nil), 0, Root(s).next) && (n.kind == Array || n.kind == Object)
  {
    var q := SkipSpace(s, 0);
    ContainerFine(s, q);
    FineOne(Container(s, q), q);
    PlacedFrom(Cons(Root(s).value, Nil), 0, q, Root(s).next, Root(s).next);
  }

  // ----- laminar ranges -----

  /** Every token lies in the text that the forest takes, and its descendants lie in the forest. */
  lemma {:induction false} TokenWithin(ns: Nodes, lo: nat, hi: nat, i: nat)
    requires Placed(ns, lo, hi) && i < SizeAll(ns)
    ensures var t := LayoutAll(ns)[i];
            && lo <= t.ptr <= t.ptr + t.len <= hi
            && 0 <= t.numDesc && i + t.numDesc < SizeAll(ns)
    decreases ns
  {
    var n := ns.head;
    PlacedUpTo(ns.tail, n.hi, hi);
    if i == 0 {
      assert LayoutAll(ns)[0] == Layout(n)[0] == HeadToken(n);
    } else if i < Size(n) {
      TokenWithin(n.kids, n.lo, n.hi, i - 1);
      assert LayoutAll(ns)[i] == Layout(n)[i] == LayoutAll(n.kids)[i - 1];
    } else {
      TokenWithin(ns.tail, n.hi, hi, i - Size(n));
      assert LayoutAll(ns)[i] == LayoutAll(ns.tail)[i - Size(n)];
    }
  }

  lemma {:induction false} PlacedUpTo(ns: Nodes, lo: nat, hi: nat)
    requires Placed(ns, lo, hi)
    ensures lo <= hi
    decreases ns
  {
    if ns.Cons? { PlacedUpTo(ns.tail, ns.head.hi, hi); }
  }

  /** Which token of which node is at `k`. */
  lemma TokenIs(ns: Nodes, k: nat)
    requires k < SizeAll(ns)
    ensures LayoutAll(ns)[k] ==
            if k == 0 then HeadToken(ns.head)
            else if k < Size(ns.head) then LayoutAll(ns.head.kids)[k - 1]
            else LayoutAll(ns.tail)[k - Size(ns.head)]
  {
    assert LayoutAll(ns) == Layout(ns.head) + LayoutAll(ns.tail);
    assert Layout(ns.head) == [HeadToken(ns.head)] + LayoutAll(ns.head.kids);
  }

  /** Of two tokens the later one is a descendant of the earlier one, with all its descendants and within its text;
      or it comes after all its descendants and after its text. */
  lemma {:induction false} Laminar(ns: Nodes, lo: nat, hi: nat, i: nat, j: nat)
    requires Placed(ns, lo, hi) && i < j < SizeAll(ns)
    ensures var a := LayoutAll(ns)[i];
            var b := LayoutAll(ns)[j];
            if j <= i + a.numDesc then
              j + b.numDesc <= i + a.numDesc && a.ptr <= b.ptr && b.ptr + b.len <= a.ptr + a.len
            else
              a.ptr + a.len <= b.ptr
    decreases ns
  {
    hide LayoutAll;
    hide Layout;
    var n := ns.head;
    PlacedUpTo(ns.tail, n.hi, hi);
    TokenIs(ns, i);
    TokenIs(ns, j);
    if i >= Size(n) {
      Laminar(ns.tail, n.hi, hi, i - Size(n), j - Size(n));
    } else if j < Size(n) {
      if i == 0 {
        TokenWithin(n.kids, n.lo, n.hi, j - 1);
      } else {
        Laminar(n.kids, n.lo, n.hi, i - 1, j - 1);
      }
    } else {
      TokenWithin(ns.tail, n.hi, hi, j - Size(n));
      if i > 0 { TokenWithin(n.kids, n.lo, n.hi, i - 1); }
    }
  }

  /** In the tokens of a text. */
  lemma TokensAreLaminar(s: seq<byte>, i: nat, j: nat)
    requires Root(s).Done? && i < j < Size(Root(s).value)
    ensures var t := Layout(Root(s).value);
            && 0 <= t[i].ptr <= t[i].ptr + t[i].len <= |s|
            && i + t[i].numDesc < |t|
            && if j <= i + t[i].numDesc then
                 j + t[j].numDesc <= i + t[i].numDesc
                 && t[i].ptr <= t[j].ptr && t[j].ptr + t[j].len <= t[i].ptr + t[i].len
               else
                 t[i].ptr + t[i].len <= t[j].ptr
  {
    RootFine(s);
    var n := Root(s).value;
    hide Root;
    assert LayoutAll(Cons(n, Nil)) == Layout(n) + LayoutAll(Nil) == Layout(n);
    TokenWithin(Cons(n, Nil), 0, Root(s).next, i);
    Laminar(Cons(n, Nil), 0, Root(s).next, i, j);
  }
}

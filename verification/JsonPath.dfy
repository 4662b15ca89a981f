/** How paths are written, and what a step of one leads to, apart from how the lookup reads them. */
module JsonPath {
  import opened Wrappers
  import opened ByteSeqs
  import opened JsonText
  import opened JsonLookup

  // ----- steps -----

  function Count(ns: Nodes): nat {
    if ns.Nil? then 0 else 1 + Count(ns.tail)
  }

  function Nth(ns: Nodes, i: nat): Node
    requires i < Count(ns)
  {
    if i == 0 then ns.head else Nth(ns.tail, i - 1)
  }

  lemma {:induction false} ElementIs(ns: Nodes, index: nat)
    ensures var r := Element(ns, index);
            if index < Count(ns) then r.Some? && r.value.0 == Nth(ns, index) else r.None?
  {
    if ns.Cons? && index > 0 { ElementIs(ns.tail, index - 1); }
  }

  function Pairs(ns: Nodes): nat {
    Count(ns) / 2
  }

  /** The keys of an object and its values, in turn. */
  function KeyAt(ns: Nodes, i: nat): Node
    requires i < Pairs(ns)
  {
    Nth(ns, 2 * i)
  }

  function ValueAt(ns: Nodes, i: nat): Node
    requires i < Pairs(ns)
  {
    Nth(ns, 2 * i + 1)
  }

  /** The `j`-th key of an object is this name, and none before it is. */
  predicate FirstKey(s: seq<byte>, ns: Nodes, name: seq<byte>, j: nat) {
    && j < Pairs(ns) && TextOf(s, KeyAt(ns, j)) == name
    && forall i :: 0 <= i < j ==> TextOf(s, KeyAt(ns, i)) != name
  }

  predicate NoKey(s: seq<byte>, ns: Nodes, name: seq<byte>) {
    forall i :: 0 <= i < Pairs(ns) ==> TextOf(s, KeyAt(ns, i)) != name
  }

  lemma {:induction false} MemberIs(s: seq<byte>, ns: Nodes, name: seq<byte>) returns (j: nat)
    ensures var r := Member(s, ns, name);
            if r.Some? then FirstKey(s, ns, name, j) && r.value.0 == ValueAt(ns, j) else NoKey(s, ns, name)
  {
    hide TextOf;
    hide KeyAt;
    hide ValueAt;
    hide Pairs;
    j := 0;
    PairsAre(ns);
    if ns.Cons? && ns.tail.Cons? && TextOf(s, ns.head) != name {
      j := MemberIs(s, ns.tail.tail, name);
      j := j + 1;
    }
  }

  lemma PairsAre(ns: Nodes)
    ensures ns.Nil? || ns.tail.Nil? ==> Pairs(ns) == 0
    ensures ns.Cons? && ns.tail.Cons? ==>
              var rest := ns.tail.tail;
              && Pairs(ns) == Pairs(rest) + 1 && KeyAt(ns, 0) == ns.head && ValueAt(ns, 0) == ns.tail.head
              && (forall i :: 0 < i < Pairs(ns) ==> KeyAt(ns, i) == KeyAt(rest, i - 1))
              && (forall i :: 0 < i < Pairs(ns) ==> ValueAt(ns, i) == ValueAt(rest, i - 1))
  {
    if ns.Nil? || ns.tail.Nil? {
      assert Count(ns) <= 1;
    } else {
      var rest := ns.tail.tail;
      assert Count(ns) == 2 + Count(rest);
      assert Nth(ns, 1) == ns.tail.head;
      forall i | 0 < i < Pairs(ns)
        ensures KeyAt(ns, i) == KeyAt(rest, i - 1) && ValueAt(ns, i) == ValueAt(rest, i - 1)
      {
        PastPair(ns, 2 * i);
        PastPair(ns, 2 * i + 1);
      }
    }
  }

  lemma PastPair(ns: Nodes, k: nat)
    requires 2 <= k < Count(ns) && ns.tail.Cons?
    ensures k - 2 < Count(ns.tail.tail) && Nth(ns, k) == Nth(ns.tail.tail, k - 2)
  {
    assert Nth(ns, k) == Nth(ns.tail, k - 1);
  }

  /** A step by name leads from an object to the value of the first key that reads so, a step by index from an array to
      that element; other steps lead nowhere. */
  lemma ChildIs(s: seq<byte>, n: Node, step: Step) returns (j: nat)
    ensures var r := Child(s, n, step);
            match step
            case Index(index) =>
              if n.kind == Array && index < Count(n.kids) then r.Some? && r.value.0 == Nth(n.kids, index) else r.None?
            case Name(name) =>
              if r.Some? then
                n.kind == Object && FirstKey(s, n.kids, name, j) && r.value.0 == ValueAt(n.kids, j)
              else
                n.kind == Object ==> NoKey(s, n.kids, name)
  {
    hide TextOf;
    hide Member;
    hide Element;
    j := 0;
    match step
    case Index(index) => ElementIs(n.kids, index);
    case Name(name) => j := MemberIs(s, n.kids, name);
  }

  // ----- paths -----

  /** A step as it is written: a name, or digits in brackets; and a dot behind it or not. */
  datatype Part = Named(name: seq<byte>, dot: bool) | Indexed(digits: seq<byte>, dot: bool)

  const FULL_STOP: byte := 0x2e
  const LEFT_BRACKET: byte := 0x5b
  const RIGHT_BRACKET: byte := 0x5d

  function RenderStep(part: Part): seq<byte> {
    match part
    case Named(name, _) => name
    case Indexed(digits, _) => [LEFT_BRACKET] + (digits + [RIGHT_BRACKET])
  }

  function RenderPart(part: Part): seq<byte> {
    RenderStep(part) + if part.dot then [FULL_STOP] else []
  }

  function RenderPath(parts: seq<Part>): seq<byte> {
    if parts == [] then [] else RenderPart(parts[0]) + RenderPath(parts[1..])
  }

  predicate Numeric(digits: seq<byte>) {
    forall i :: 0 <= i < |digits| ==> 0x30 <= digits[i] <= 0x39
  }

  function Decimal(digits: seq<byte>): nat
    requires Numeric(digits)
  {
    if digits == [] then 0 else Decimal(digits[..|digits| - 1]) * 10 + (digits[|digits| - 1] - 0x30)
  }

  predicate PartFits(part: Part) {
    match part
    case Named(name, dot) =>
      (name != [] || dot) && forall i :: 0 <= i < |name| ==> name[i] !in [0, FULL_STOP, LEFT_BRACKET]
    case Indexed(digits, _) => digits != [] && Numeric(digits)
  }

  /** A step without a dot behind it can be followed by an index, and an index also by a name that is not empty. */
  predicate Joins(part: Part, next: Part) {
    part.dot || next.Indexed? || (part.Indexed? && next.name != [])
  }

  predicate PathFits(parts: seq<Part>) {
    && parts != [] && PartFits(parts[0])
    && (|parts| > 1 ==> Joins(parts[0], parts[1]) && PathFits(parts[1..]))
  }

  function StepOf(part: Part): Step
    requires PartFits(part)
  {
    match part
    case Named(name, _) => Name(name)
    case Indexed(digits, _) => Index(Decimal(digits))
  }

  function StepsOf(parts: seq<Part>): seq<Step>
    requires PathFits(parts)
  {
    [StepOf(parts[0])] + if |parts| > 1 then StepsOf(parts[1..]) else []
  }

  // ----- a path that is written so is read so -----

  lemma {:induction false} NameRead(path: seq<byte>, k: nat, name: seq<byte>)
    requires At(path, k, name) && forall i :: 0 <= i < |name| ==> name[i] !in [0, FULL_STOP, LEFT_BRACKET]
    requires var e := k + |name|; Ends(path, e) || path[e] == LEFT_BRACKET || path[e] == FULL_STOP
    ensures NameEnd(path, k) == k + |name|
    decreases |name|
  {
    if name != [] {
      assert path[k] == path[k..k + |name|][0] == name[0];
      assert path[k + 1..k + |name|] == path[k..k + |name|][1..] == name[1..];
      NameRead(path, k + 1, name[1..]);
    }
  }

  lemma DecimalMore(done: seq<byte>, x: byte)
    requires Numeric(done) && 0x30 <= x <= 0x39
    ensures Numeric(done + [x]) && Decimal(done + [x]) == Decimal(done) * 10 + (x - 0x30)
  {
    assert (done + [x])[..|done|] == done;
  }

  /** The digits of a number, after others that make up `acc`. */
  lemma {:induction false} DigitsRead(path: seq<byte>, k: nat, done: seq<byte>, digits: seq<byte>)
    requires At(path, k, digits) && k + |digits| < |path| && path[k + |digits|] == RIGHT_BRACKET
    requires Numeric(done) && Numeric(digits)
    ensures IndexFrom(path, k, Decimal(done)) == Some((Decimal(done + digits), k + |digits| + 1))
    decreases |digits|
  {
    hide Decimal;
    if digits == [] {
      assert done + [] == done;
    } else {
      assert path[k] == path[k..k + |digits|][0] == digits[0];
      assert path[k + 1..k + |digits|] == path[k..k + |digits|][1..] == digits[1..];
      var more := done + [digits[0]];
      DecimalMore(done, digits[0]);
      assert done + digits == more + digits[1..];
      DigitsRead(path, k + 1, more, digits[1..]);
    }
  }

  /** What may follow a step that has no dot behind it. */
  predicate Broken(path: seq<byte>, e: nat, part: Part) {
    && (part.Named? ==> Ends(path, e) || path[e] == LEFT_BRACKET || path[e] == FULL_STOP)
    && !Has(path, e, FULL_STOP)
  }

  lemma PartRead(path: seq<byte>, k: nat, part: Part)
    requires PartFits(part) && At(path, k, RenderPart(part))
    requires !part.dot ==> Broken(path, k + |RenderPart(part)|, part)
    ensures !Ends(path, k) && StepAt(path, k) == Some((StepOf(part), k + |RenderPart(part)|))
  {
    hide At;
    hide IndexFrom;
    hide NameEnd;
    hide Decimal;
    var step := RenderStep(part);
    var dot := if part.dot then [FULL_STOP] else [];
    AtSplit(path, k, step, dot);
    if part.dot { FirstIs(path, k + |step|, dot); }
    if part.Named? {
      NamedRead(path, k, part);
    } else {
      IndexedRead(path, k, part.digits);
    }
  }

  lemma FirstIs(path: seq<byte>, k: nat, t: seq<byte>)
    requires At(path, k, t) && t != []
    ensures k < |path| && path[k] == t[0]
  {
    assert path[k] == path[k..k + |t|][0];
  }

  lemma NamedRead(path: seq<byte>, k: nat, part: Part)
    requires PartFits(part) && part.Named? && At(path, k, part.name)
    requires var e := k + |part.name|;
             if part.dot then e < |path| && path[e] == FULL_STOP
             else Ends(path, e) || path[e] == LEFT_BRACKET || path[e] == FULL_STOP
    ensures !Ends(path, k) && path[k] != LEFT_BRACKET && NameEnd(path, k) == k + |part.name|
    ensures path[k..k + |part.name|] == part.name
  {
    NameRead(path, k, part.name);
    if part.name != [] { FirstIs(path, k, part.name); }
    hide NameEnd;
  }

  lemma IndexedRead(path: seq<byte>, k: nat, digits: seq<byte>)
    requires digits != [] && Numeric(digits) && At(path, k, [LEFT_BRACKET] + (digits + [RIGHT_BRACKET]))
    ensures k + 1 < |path| && path[k] == LEFT_BRACKET && IsDigit(path[k + 1])
    ensures IndexFrom(path, k + 1, 0) == Some((Decimal(digits), k + 1 + |digits| + 1))
  {
    hide At;
    hide IndexFrom;
    AtSplit(path, k, [LEFT_BRACKET], digits + [RIGHT_BRACKET]);
    AtSplit(path, k + 1, digits, [RIGHT_BRACKET]);
    FirstIs(path, k, [LEFT_BRACKET]);
    FirstIs(path, k + 1, digits);
    FirstIs(path, k + 1 + |digits|, [RIGHT_BRACKET]);
    DigitsRead(path, k + 1, [], digits);
    assert [] + digits == digits;
  }

  lemma {:induction false} PathRead(path: seq<byte>, k: nat, parts: seq<Part>)
    requires PathFits(parts) && At(path, k, RenderPath(parts)) && Ends(path, k + |RenderPath(parts)|)
    ensures Steps(path, k) == Some(StepsOf(parts))
    decreases |parts|
  {
    hide StepAt;
    hide StepOf;
    hide PartFits;
    hide RenderPart;
    var part, rest := parts[0], parts[1..];
    AtSplit(path, k, RenderPart(part), RenderPath(rest));
    var e := k + |RenderPart(part)|;
    if rest == [] {
      PathEnds(path, e, part);
      PartRead(path, k, part);
      assert RenderPath(rest) == [];
      assert StepsOf(parts) == [StepOf(part)];
    } else {
      PathGoesOn(path, e, part, rest);
      PartRead(path, k, part);
      PathRead(path, e, rest);
    }
  }

  lemma PathEnds(path: seq<byte>, e: nat, part: Part)
    requires Ends(path, e)
    ensures !part.dot ==> Broken(path, e, part)
  {
  }

  lemma PathGoesOn(path: seq<byte>, e: nat, part: Part, rest: seq<Part>)
    requires PathFits(rest) && Joins(part, rest[0]) && At(path, e, RenderPath(rest))
    ensures !Ends(path, e) && (!part.dot ==> Broken(path, e, part))
  {
    var next := rest[0];
    AtSplit(path, e, RenderPart(next), RenderPath(rest[1..]));
    assert RenderPart(next)[0] == path[e..e + |RenderPart(next)|][0] == path[e];
    if next.Named? && next.name != [] { assert path[e] == next.name[0]; }
  }

  // ----- and no other path is read -----

  lemma {:induction false} NameIs(path: seq<byte>, k: nat)
    requires k <= |path|
    ensures var e := NameEnd(path, k);
            && (forall i :: k <= i < e ==> path[i] !in [0, FULL_STOP, LEFT_BRACKET])
            && (Ends(path, e) || path[e] == LEFT_BRACKET || path[e] == FULL_STOP)
    decreases |path| - k
  {
    if !(Ends(path, k) || path[k] == LEFT_BRACKET || path[k] == FULL_STOP) { NameIs(path, k + 1); }
  }

  lemma {:induction false} NumberIs(path: seq<byte>, k: nat, done: seq<byte>) returns (digits: seq<byte>)
    requires Numeric(done) && IndexFrom(path, k, Decimal(done)).Some?
    ensures Numeric(digits) && Numeric(done + digits) && At(path, k, digits + [RIGHT_BRACKET])
    ensures IndexFrom(path, k, Decimal(done)) == Some((Decimal(done + digits), k + |digits| + 1))
    decreases Left(path, k)
  {
    hide Decimal;
    if path[k] == RIGHT_BRACKET {
      digits := [];
      assert done + [] == done;
      assert path[k..k + 1] == [] + [RIGHT_BRACKET];
    } else {
      var more := done + [path[k]];
      DecimalMore(done, path[k]);
      var rest := NumberIs(path, k + 1, more);
      digits := [path[k]] + rest;
      assert done + digits == more + rest;
      OneMore(path, k, rest + [RIGHT_BRACKET]);
      assert digits + [RIGHT_BRACKET] == [path[k]] + (rest + [RIGHT_BRACKET]);
    }
  }

  lemma OneMore(path: seq<byte>, k: nat, t: seq<byte>)
    requires k < |path| && At(path, k + 1, t)
    ensures At(path, k, [path[k]] + t)
  {
    assert path[k..k + 1 + |t|] == [path[k]] + path[k + 1..k + 1 + |t|];
  }

  lemma PartSyntax(path: seq<byte>, k: nat) returns (part: Part)
    requires !Ends(path, k) && StepAt(path, k).Some?
    ensures PartFits(part) && At(path, k, RenderPart(part))
    ensures StepAt(path, k) == Some((StepOf(part), k + |RenderPart(part)|))
    ensures !part.dot ==> Broken(path, k + |RenderPart(part)|, part)
    ensures part.Named? ==> path[k] != LEFT_BRACKET && (part.name == [] ==> path[k] == FULL_STOP)
  {
    hide At;
    hide IndexFrom;
    hide NameEnd;
    hide Decimal;
    if path[k] == LEFT_BRACKET {
      part := IndexedSyntax(path, k);
    } else {
      part := NamedSyntax(path, k);
    }
    StepThenDot(path, k, part);
  }

  lemma IndexedSyntax(path: seq<byte>, k: nat) returns (part: Part)
    requires k + 1 < |path| && path[k] == LEFT_BRACKET && IsDigit(path[k + 1]) && IndexFrom(path, k + 1, 0).Some?
    ensures part.Indexed? && PartFits(part) && At(path, k, RenderStep(part))
    ensures var e := k + |RenderStep(part)|;
            IndexFrom(path, k + 1, 0) == Some((Decimal(part.digits), e)) && part.dot == Has(path, e, FULL_STOP)
  {
    hide IndexFrom;
    hide At;
    assert Decimal([]) == 0;
    var digits := NumberIs(path, k + 1, []);
    assert [] + digits == digits;
    FirstDigit(path, k + 1, digits);
    part := Indexed(digits, Has(path, k + |digits| + 2, FULL_STOP));
    OneMore(path, k, digits + [RIGHT_BRACKET]);
  }

  lemma NamedSyntax(path: seq<byte>, k: nat) returns (part: Part)
    requires !Ends(path, k) && path[k] != LEFT_BRACKET
    ensures part.Named? && PartFits(part) && At(path, k, part.name)
    ensures var e := NameEnd(path, k);
            && part.name == path[k..e] && part.dot == Has(path, e, FULL_STOP)
            && (Ends(path, e) || path[e] == LEFT_BRACKET || path[e] == FULL_STOP)
    ensures part.name == [] ==> path[k] == FULL_STOP
  {
    NameIs(path, k);
    hide NameEnd;
    var e := NameEnd(path, k);
    part := Named(path[k..e], Has(path, e, FULL_STOP));
  }

  lemma FirstDigit(path: seq<byte>, p: nat, digits: seq<byte>)
    requires p < |path| && IsDigit(path[p]) && At(path, p, digits + [RIGHT_BRACKET])
    ensures digits != []
  {
    assert path[p] == path[p..p + |digits| + 1][0] == (digits + [RIGHT_BRACKET])[0];
  }

  lemma StepThenDot(path: seq<byte>, k: nat, part: Part)
    requires At(path, k, RenderStep(part)) && part.dot == Has(path, k + |RenderStep(part)|, FULL_STOP)
    ensures At(path, k, RenderPart(part))
  {
    var e := k + |RenderStep(part)|;
    if part.dot { assert path[k..e + 1] == path[k..e] + [FULL_STOP]; }
  }

  lemma {:induction false} PathSyntax(path: seq<byte>, k: nat) returns (parts: seq<Part>)
    requires Steps(path, k).Some?
    ensures PathFits(parts) && At(path, k, RenderPath(parts)) && Ends(path, k + |RenderPath(parts)|)
    ensures parts[0].Named? ==> path[k] != LEFT_BRACKET && (parts[0].name == [] ==> path[k] == FULL_STOP)
    decreases Left(path, k)
  {
    hide StepAt;
    hide StepOf;
    hide PartFits;
    hide RenderPart;
    var part := PartSyntax(path, k);
    var e := k + |RenderPart(part)|;
    if Ends(path, e) {
      parts := [part];
      assert RenderPath(parts) == RenderPart(part) + RenderPath([]);
    } else {
      var rest := PathSyntax(path, e);
      parts := [part] + rest;
      assert parts[1..] == rest;
      assert path[k..e + |RenderPath(rest)|] == path[k..e] + path[e..e + |RenderPath(rest)|];
    }
  }

  /** The paths of these steps. */
  ghost predicate IsPath(path: seq<byte>, steps: seq<Step>) {
    exists parts ::
      && PathFits(parts) && StepsOf(parts) == steps
      && At(path, 0, RenderPath(parts)) && Ends(path, |RenderPath(parts)|)
  }

  /** A path leads by these steps if and only if it is written so, up to its NUL; any other path leads nowhere. */
  lemma PathIff(path: seq<byte>, steps: seq<Step>)
    ensures Steps(path, 0) == Some(steps) <==> IsPath(path, steps)
  {
    hide Steps;
    hide StepsOf;
    hide PathFits;
    hide RenderPath;
    hide At;
    if Steps(path, 0).Some? {
      var parts := PathSyntax(path, 0);
      PathRead(path, 0, parts);
    }
    if IsPath(path, steps) {
      var parts :|
        && PathFits(parts) && StepsOf(parts) == steps
        && At(path, 0, RenderPath(parts)) && Ends(path, |RenderPath(parts)|);
      PathRead(path, 0, parts);
    }
  }
}

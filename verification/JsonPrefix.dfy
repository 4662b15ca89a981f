/** What the tokenizer says about a text that is cut short: whether reading on can help. */
module JsonPrefix {
  import opened ByteSeqs
  import opened JsonText

  // ----- what reading on leaves as it is -----

  /** A character that goes on no value and no name. */
  predicate Stopper(x: byte) {
    x == COMMA || x == COLON || x == CLOSE_BRACKET || x == CLOSE_BRACE
  }

  predicate Stops(s: seq<byte>, u: seq<byte>) {
    |s| < |u| && Stopper(u[|s|])
  }

  /** An invalid text stays invalid, and what has been read stays so unless it is read up to the end and may go on. */
  predicate Settled<T(==)>(s: seq<byte>, u: seq<byte>, r: Outcome<T>, after: Outcome<T>) {
    && (r == Fail(INVALID) ==> after == r)
    && (r.Done? && (r.next < |s| || Stops(s, u)) ==> after == r)
  }

  lemma {:induction false} SpaceStays(s: seq<byte>, u: seq<byte>, p: nat)
    requires s <= u && p <= |s|
    ensures var q := SkipSpace(s, p);
            && (q < |s| || Stops(s, u) ==> SkipSpace(u, p) == q)
            && (q == |s| ==> SkipSpace(u, p) == SkipSpace(u, |s|))
    decreases |s| - p
  {
    if p < |s| && IsSpace(s[p]) { SpaceStays(s, u, p + 1); }
  }

  lemma {:induction false} DigitsStay(s: seq<byte>, u: seq<byte>, p: nat)
    requires s <= u && p <= |s|
    ensures var q := SkipDigits(s, p); q < |s| || Stops(s, u) ==> SkipDigits(u, p) == q
    decreases |s| - p
  {
    if p < |s| && IsDigit(s[p]) { DigitsStay(s, u, p + 1); }
  }

  lemma {:induction false} LettersStay(s: seq<byte>, u: seq<byte>, p: nat)
    requires s <= u && p <= |s|
    ensures var q := IdentifierEnd(s, p); q < |s| || Stops(s, u) ==> IdentifierEnd(u, p) == q
    decreases |s| - p
  {
    if p < |s| && InIdentifier(s[p]) { LettersStay(s, u, p + 1); }
  }

  /** The ends of digits are settled, unless they are up to the end and may go on. */
  lemma DigitsEndStays(s: seq<byte>, u: seq<byte>, p: nat)
    requires s <= u && p <= |s|
    ensures var q := DigitsEnd(s, p);
            q == INVALID || 0 <= q < |s| || (q >= 0 && Stops(s, u)) ==> DigitsEnd(u, p) == q
  {
    DigitsStay(s, u, p);
    hide SkipDigits;
  }

  lemma FractionStays(s: seq<byte>, u: seq<byte>, p: nat)
    requires s <= u && p <= |s|
    ensures var q := FractionEnd(s, p);
            q == INVALID || 0 <= q < |s| || (q >= 0 && Stops(s, u)) ==> FractionEnd(u, p) == q
  {
    if p < |s| { DigitsEndStays(s, u, p + 1); }
    hide DigitsEnd;
  }

  lemma ExponentStays(s: seq<byte>, u: seq<byte>, p: nat)
    requires s <= u && p <= |s|
    ensures var q := ExponentEnd(s, p);
            q == INVALID || 0 <= q < |s| || (q >= 0 && Stops(s, u)) ==> ExponentEnd(u, p) == q
  {
    if p + 1 < |s| {
      DigitsEndStays(s, u, p + 1);
      DigitsEndStays(s, u, p + 2);
    }
    NoDigits(s, p + 1);
    NoDigits(s, p + 2);
    hide DigitsEnd;
  }

  lemma NothingAtEnd(s: seq<byte>)
    ensures FractionEnd(s, |s|) == ExponentEnd(s, |s|) == |s|
  {
  }

  lemma NumberStays(s: seq<byte>, u: seq<byte>, p: nat)
    requires s <= u && p < |s|
    ensures Settled(s, u, NumberAt(s, p), NumberAt(u, p))
  {
    hide DigitsEnd;
    hide FractionEnd;
    hide ExponentEnd;
    var a := if Is(s, p, MINUS) then p + 1 else p;
    DigitsEndStays(s, u, a);
    NothingAtEnd(s);
    var i := DigitsEnd(s, a);
    if i >= 0 {
      FractionStays(s, u, i);
      var f := FractionEnd(s, i);
      if f >= 0 { ExponentStays(s, u, f); }
    }
  }

  lemma StepStays(s: seq<byte>, u: seq<byte>, p: nat)
    requires s <= u && StringStep(s, p) != INCOMPLETE
    ensures StringStep(u, p) == StringStep(s, p)
  {
  }

  lemma {:induction false} StringStays(s: seq<byte>, u: seq<byte>, lo: nat, p: nat)
    requires s <= u && StringFrom(s, lo, p) != Fail(INCOMPLETE)
    ensures StringFrom(u, lo, p) == StringFrom(s, lo, p)
    decreases Left(s, p)
  {
    hide StringStep;
    StepStays(s, u, p);
    if StringStep(s, p) > 0 { StringStays(s, u, lo, p + StringStep(s, p)); }
  }

  lemma {:induction false} MatchStays(s: seq<byte>, u: seq<byte>, p: nat, w: seq<byte>)
    requires s <= u && Match(s, p, w) != INCOMPLETE
    ensures Match(u, p, w) == Match(s, p, w)
    decreases |w|
  {
    if w != [] && p < |s| && s[p] == w[0] { MatchStays(s, u, p + 1, w[1..]); }
  }

  lemma KeyStays(s: seq<byte>, u: seq<byte>, p: nat)
    requires s <= u && p <= |s|
    ensures Settled(s, u, Key(s, p), Key(u, p))
  {
    SpaceStays(s, u, p);
    var q := SkipSpace(s, p);
    if q < |s| {
      if IsAlpha(s[q]) { LettersStay(s, u, q); }
      if s[q] == QUOTE && StringFrom(s, q + 1, q + 1) != Fail(INCOMPLETE) { StringStays(s, u, q + 1, q + 1); }
    }
    hide SkipSpace;
    hide IdentifierEnd;
    hide StringFrom;
  }

  lemma {:induction false} ValueStays(s: seq<byte>, u: seq<byte>, p: nat)
    requires s <= u && p <= |s|
    ensures Settled(s, u, Value(s, p), Value(u, p))
    decreases |s| - p, 1
  {
    hide Container;
    hide NumberAt;
    hide StringFrom;
    hide Match;
    hide SkipSpace;
    SpaceStays(s, u, p);
    var q := SkipSpace(s, p);
    if q < |s| {
      if s[q] == QUOTE {
        NoSpace(s, q);
        NoSpace(u, q);
        if StringFrom(s, q + 1, q + 1) != Fail(INCOMPLETE) { StringStays(s, u, q + 1, q + 1); }
      } else if s[q] == OPEN_BRACE || s[q] == OPEN_BRACKET {
        ContainerStays(s, u, q);
      } else {
        WordsStay(s, u, q);
        NumberStays(s, u, q);
      }
    }
  }

  lemma NoSpace(s: seq<byte>, q: nat)
    requires q < |s| && !IsSpace(s[q])
    ensures SkipSpace(s, q) == q
  {
  }

  lemma WordsStay(s: seq<byte>, u: seq<byte>, q: nat)
    requires s <= u
    ensures forall w | w in [NULL_WORD, TRUE_WORD, FALSE_WORD] ::
              Match(s, q, w) != INCOMPLETE ==> Match(u, q, w) == Match(s, q, w)
  {
    forall w | w in [NULL_WORD, TRUE_WORD, FALSE_WORD] && Match(s, q, w) != INCOMPLETE
      ensures Match(u, q, w) == Match(s, q, w)
    {
      MatchStays(s, u, q, w);
    }
  }

  lemma {:induction false} ContainerStays(s: seq<byte>, u: seq<byte>, p: nat)
    requires s <= u && (Is(s, p, OPEN_BRACE) || Is(s, p, OPEN_BRACKET))
    ensures Container(s, p) != Fail(INCOMPLETE) ==> Container(u, p) == Container(s, p)
    decreases |s| - p, 0
  {
    hide Entries;
    EntriesStay(s, u, p + 1, s[p] == OPEN_BRACE);
  }

  lemma {:induction false} EntriesStay(s: seq<byte>, u: seq<byte>, p: nat, isObject: bool)
    requires s <= u && p <= |s|
    ensures Entries(s, p, isObject) != Fail(INCOMPLETE) ==> Entries(u, p, isObject) == Entries(s, p, isObject)
    decreases |s| - p, 3
  {
    hide Entry;
    hide SkipSpace;
    hide SkipComma;
    SpaceStays(s, u, p);
    EntryStays(s, u, p, isObject);
    var q, x := SkipSpace(s, p), Entry(s, p, isObject);
    if q == |s| {
      NothingEntered(s, p, isObject);
    } else if !Is(s, q, Closer(isObject)) && x.Done? {
      var r := SkipComma(s, x.next);
      CommaStays(s, u, x.next);
      EntriesStay(s, u, r, isObject);
      NothingEntered(s, r, isObject);
      EntriesGo(s, p, isObject);
      if x.next < |s| { EntriesGo(u, p, isObject); }
    }
  }

  lemma EntriesGo(s: seq<byte>, p: nat, isObject: bool)
    requires !Is(s, SkipSpace(s, p), Closer(isObject)) && Entry(s, p, isObject).Done?
    ensures var x := Entry(s, p, isObject);
            Entries(s, p, isObject) == Prepend(x.value, Entries(s, SkipComma(s, x.next), isObject))
  {
    hide Entry;
    hide SkipSpace;
    hide SkipComma;
  }

  /** Where the text ends another entry, or the end, is lacking. */
  lemma NothingEntered(s: seq<byte>, p: nat, isObject: bool)
    ensures SkipSpace(s, p) >= |s| ==>
              Entries(s, p, isObject) == Fail(INCOMPLETE) && Entry(s, p, isObject) == Fail(INCOMPLETE)
    ensures p >= |s| ==> SkipSpace(s, p) == p
  {
    if SkipSpace(s, p) >= |s| {
      assert Value(s, p) == Fail(INCOMPLETE) && Key(s, p) == Fail(INCOMPLETE);
      assert Entry(s, p, isObject) == Fail(INCOMPLETE);
    }
  }

  lemma CommaStays(s: seq<byte>, u: seq<byte>, p: nat)
    requires s <= u && p <= |s|
    ensures SkipComma(s, p) < |s| ==> SkipComma(u, p) == SkipComma(s, p)
    ensures SkipSpace(s, p) < |s| ==> SkipComma(u, p) == SkipComma(s, p)
    ensures SkipSpace(s, p) == |s| ==> SkipComma(s, p) == |s|
  {
    SpaceStays(s, u, p);
    hide SkipSpace;
  }

  lemma {:induction false} EntryStays(s: seq<byte>, u: seq<byte>, p: nat, isObject: bool)
    requires s <= u && p <= |s|
    ensures Settled(s, u, Entry(s, p, isObject), Entry(u, p, isObject))
    decreases |s| - p, 2
  {
    hide Value;
    hide Key;
    hide SkipSpace;
    if !isObject {
      ValueStays(s, u, p);
    } else {
      KeyStays(s, u, p);
      var k := Key(s, p);
      if k.Done? {
        SpaceStays(s, u, k.next);
        var q := SkipSpace(s, k.next);
        if Is(s, q, COLON) { ValueStays(s, u, q + 1); }
      }
    }
  }

  lemma RootStays(s: seq<byte>, u: seq<byte>)
    requires s <= u
    ensures Root(s) != Fail(INCOMPLETE) ==> Root(u) == Root(s)
  {
    hide Container;
    hide SkipSpace;
    SpaceStays(s, u, 0);
    var q := SkipSpace(s, 0);
    if Is(s, q, OPEN_BRACE) || Is(s, q, OPEN_BRACKET) { ContainerStays(s, u, q); }
  }

  /** Reading on never changes the outcome, unless the text has been refused as incomplete. */
  lemma OutcomeIsFinal(s: seq<byte>, more: seq<byte>)
    ensures Root(s) != Fail(INCOMPLETE) ==> Root(s + more) == Root(s)
  {
    RootStays(s, s + more);
  }

  // ----- where the text ends -----

  /** Where reading a string body stops for lack of text. */
  function StringStop(s: seq<byte>, p: nat): nat
    decreases Left(s, p)
  {
    if StringStep(s, p) > 0 then StringStop(s, p + StringStep(s, p)) else p
  }

  /** Where a value is incomplete: in a string, the character that is; otherwise the end of the text. */
  function ValueStop(s: seq<byte>, p: nat): nat
    decreases Left(s, p), 1
  {
    var q := SkipSpace(s, p);
    if Is(s, q, QUOTE) then StringStop(s, q + 1)
    else if Is(s, q, OPEN_BRACE) || Is(s, q, OPEN_BRACKET) then EntriesStop(s, q + 1, s[q] == OPEN_BRACE)
    else |s|
  }

  function EntriesStop(s: seq<byte>, p: nat, isObject: bool): nat
    decreases Left(s, p), 3
  {
    var q := SkipSpace(s, p);
    if Is(s, q, Closer(isObject)) then |s|
    else
      var x := Entry(s, p, isObject);
      if x.Fail? then EntryStop(s, p, isObject) else EntriesStop(s, SkipComma(s, x.next), isObject)
  }

  function EntryStop(s: seq<byte>, p: nat, isObject: bool): nat
    decreases Left(s, p), 2
  {
    if !isObject then ValueStop(s, p)
    else
      var k := Key(s, p);
      if k.Fail? then
        var q := SkipSpace(s, p);
        if Is(s, q, QUOTE) then StringStop(s, q + 1) else |s|
      else
        var q := SkipSpace(s, k.next);
        if Is(s, q, COLON) then ValueStop(s, q + 1) else |s|
  }

  function RootStop(s: seq<byte>): nat {
    var q := SkipSpace(s, 0);
    if Is(s, q, OPEN_BRACE) || Is(s, q, OPEN_BRACKET) then EntriesStop(s, q + 1, s[q] == OPEN_BRACE) else |s|
  }

  /** An escape of four digits that is cut short begins here, and already has a digit that is none. */
  predicate Dead(s: seq<byte>, k: nat) {
    && k + 1 < |s| < k + 6 && s[k] == BACKSLASH && s[k + 1] == LETTER_U
    && exists j :: k + 2 <= j < |s| && !IsHexDigit(s[j])
  }

  // ----- a dead text cannot be completed -----

  lemma {:induction false} DeadString(s: seq<byte>, u: seq<byte>, lo: nat, p: nat)
    requires s <= u && StringFrom(s, lo, p) == Fail(INCOMPLETE) && Dead(s, StringStop(s, p))
    ensures StringFrom(u, lo, p).Fail?
    decreases Left(s, p)
  {
    var n := StringStep(s, p);
    if n > 0 {
      StepStays(s, u, p);
      hide StringStep;
      DeadString(s, u, lo, p + n);
    } else {
      DeadStep(s, u, p);
      hide StringStep;
    }
  }

  lemma DeadStep(s: seq<byte>, u: seq<byte>, k: nat)
    requires s <= u && Dead(s, k)
    ensures StringStep(u, k) < 0
  {
    var j :| k + 2 <= j < |s| && !IsHexDigit(s[j]);
    assert u[j] == s[j] && j < k + 6;
    assert EscapeLength(u, k) < 0;
  }

  lemma {:induction false} DeadValue(s: seq<byte>, u: seq<byte>, p: nat)
    requires s <= u && p <= |s| && Value(s, p) == Fail(INCOMPLETE) && Dead(s, ValueStop(s, p))
    ensures Value(u, p).Fail?
    decreases |s| - p, 1
  {
    hide Entries;
    hide StringFrom;
    hide Match;
    hide NumberAt;
    hide EntriesStop;
    hide StringStop;
    hide SkipSpace;
    SpaceStays(s, u, p);
    var q := SkipSpace(s, p);
    NoSpaces(s, u, q);
    if Is(s, q, QUOTE) {
      DeadString(s, u, q + 1, q + 1);
    } else {
      DeadEntries(s, u, q + 1, s[q] == OPEN_BRACE);
    }
  }

  lemma NoSpaces(s: seq<byte>, u: seq<byte>, q: nat)
    requires s <= u
    ensures q < |s| && !IsSpace(s[q]) ==> SkipSpace(s, q) == SkipSpace(u, q) == q
  {
  }

  lemma {:induction false} DeadEntries(s: seq<byte>, u: seq<byte>, p: nat, isObject: bool)
    requires s <= u && p <= |s| && Entries(s, p, isObject) == Fail(INCOMPLETE) && Dead(s, EntriesStop(s, p, isObject))
    ensures Entries(u, p, isObject).Fail?
    decreases |s| - p, 3
  {
    hide Entry;
    hide EntryStop;
    hide SkipSpace;
    hide SkipComma;
    hide StringStop;
    SpaceStays(s, u, p);
    NothingEntered(s, p, isObject);
    var q, x := SkipSpace(s, p), Entry(s, p, isObject);
    if q == |s| {
      StopAtEnd(s, p, isObject);
    } else if x.Fail? {
      DeadEntry(s, u, p, isObject);
    } else {
      var r := SkipComma(s, x.next);
      EntryStays(s, u, p, isObject);
      CommaStays(s, u, x.next);
      StopAtEnd(s, r, isObject);
      NothingEntered(s, r, isObject);
      DeadEntries(s, u, r, isObject);
      EntriesGo(u, p, isObject);
    }
  }

  lemma StopAtEnd(s: seq<byte>, p: nat, isObject: bool)
    ensures SkipSpace(s, p) >= |s| ==> EntriesStop(s, p, isObject) == |s| == EntryStop(s, p, isObject)
  {
    NothingEntered(s, p, isObject);
    if SkipSpace(s, p) >= |s| {
      assert Key(s, p).Fail? && ValueStop(s, p) == |s|;
    }
  }

  lemma {:induction false} DeadEntry(s: seq<byte>, u: seq<byte>, p: nat, isObject: bool)
    requires s <= u && p <= |s| && Entry(s, p, isObject) == Fail(INCOMPLETE) && Dead(s, EntryStop(s, p, isObject))
    ensures Entry(u, p, isObject).Fail?
    decreases |s| - p, 2
  {
    hide Value;
    hide ValueStop;
    hide StringFrom;
    hide StringStop;
    hide SkipSpace;
    hide IdentifierEnd;
    if !isObject {
      DeadValue(s, u, p);
    } else {
      KeyStays(s, u, p);
      SpaceStays(s, u, p);
      var k, q := Key(s, p), SkipSpace(s, p);
      NoSpaces(s, u, q);
      if k.Fail? {
        DeadString(s, u, q + 1, q + 1);
      } else {
        SpaceStays(s, u, k.next);
        DeadValue(s, u, SkipSpace(s, k.next) + 1);
      }
    }
  }

  // ----- any other incomplete text can be completed -----

  /** Continues the character at which a string body stops, and closes the string. */
  function StringFill(s: seq<byte>, k: nat): seq<byte> {
    if k >= |s| then [QUOTE]
    else if s[k] == QUOTE then []
    else if s[k] != BACKSLASH then
      (if k + CharLength(s[k]) <= |s| then [] else Zeros(k + CharLength(s[k]) - |s|)) + [QUOTE]
    else if k + 1 == |s| then [LETTER_N, QUOTE]
    else (if k + 6 <= |s| then [] else Zeros(k + 6 - |s|)) + [QUOTE]
  }

  const LETTER_N: byte := 110
  const ZERO: byte := 48

  function Zeros(n: nat): (z: seq<byte>)
    ensures |z| == n
  {
    seq(n, i => ZERO)
  }

  lemma StepFilled(s: seq<byte>, u: seq<byte>, k: nat)
    requires k <= |s| && StringStep(s, k) == INCOMPLETE && !Dead(s, k)
    requires s + StringFill(s, k) <= u && |u| > |s + StringFill(s, k)|
    ensures var n := StringStep(u, k);
            var e := |s + StringFill(s, k)|;
            && n >= 0 && (n > 0 ==> k + n == e - 1 && StringStep(u, k + n) == 0) && (n == 0 ==> k == e - 1)
  {
    var t := s + StringFill(s, k);
    assert forall i :: 0 <= i < |t| ==> u[i] == t[i];
    if k < |s| {
      assert u[k] == s[k];
      if s[k] == BACKSLASH && k + 1 < |s| {
        assert u[k + 1] == s[k + 1] == LETTER_U;
        assert forall j :: k + 2 <= j < |s| ==> IsHexDigit(s[j]);
        assert forall j :: k + 2 <= j < k + 6 ==> IsHexDigit(u[j]);
      }
    }
  }

  lemma {:induction false} StringFilled(s: seq<byte>, u: seq<byte>, lo: nat, p: nat)
    requires p <= |s| && StringFrom(s, lo, p) == Fail(INCOMPLETE) && !Dead(s, StringStop(s, p))
    requires var t := s + StringFill(s, StringStop(s, p)); t <= u && |u| > |t|
    ensures StringFrom(u, lo, p).Done? && StringFrom(u, lo, p).next == |s + StringFill(s, StringStop(s, p))|
    decreases Left(s, p)
  {
    hide StringStep;
    hide StringFill;
    hide Dead;
    var n := StringStep(s, p);
    if n > 0 {
      StepStays(s, u, p);
      StringFilled(s, u, lo, p + n);
    } else {
      StepFilled(s, u, p);
      StringFromStep(u, lo, p);
      StringFromStep(u, lo, p + StringStep(u, p));
    }
  }

  /** A number that is cut short lacks a digit. */
  lemma NumberFilled(s: seq<byte>, u: seq<byte>, p: nat)
    requires p < |s| && NumberAt(s, p) == Fail(INCOMPLETE)
    requires s + [ZERO] <= u && Stops(s + [ZERO], u)
    ensures NumberAt(u, p).Done? && NumberAt(u, p).next == |s| + 1
  {
    hide DigitsEnd;
    hide FractionEnd;
    hide ExponentEnd;
    var a := if Is(s, p, MINUS) then p + 1 else p;
    var i := DigitsEnd(s, a);
    OneDigit(s, u);
    DigitsEndStays(s, u, a);
    NothingAtEnd(s);
    if i >= 0 {
      FractionStays(s, u, i);
      var f := FractionEnd(s, i);
      if f < 0 { FractionFilled(s, u, i); } else { ExponentFilled(s, u, f); }
    } else {
      DigitLacking(s, a);
    }
  }

  /** The digit at the end of `s`, and nothing behind it that belongs to the number. */
  lemma OneDigit(s: seq<byte>, u: seq<byte>)
    requires s + [ZERO] <= u && Stops(s + [ZERO], u)
    ensures s <= u && DigitsEnd(u, |s|) == FractionEnd(u, |s| + 1) == ExponentEnd(u, |s| + 1) == |s| + 1
  {
    assert u[|s|] == (s + [ZERO])[|s|] == ZERO;
    assert SkipDigits(u, |s| + 1) == |s| + 1;
  }

  lemma DigitLacking(s: seq<byte>, p: nat)
    requires DigitsEnd(s, p) == INCOMPLETE
    ensures p >= |s|
  {
  }

  lemma FractionFilled(s: seq<byte>, u: seq<byte>, p: nat)
    requires p <= |s| && FractionEnd(s, p) == INCOMPLETE
    requires s + [ZERO] <= u && Stops(s + [ZERO], u)
    ensures FractionEnd(u, p) == |s| + 1
  {
    OneDigit(s, u);
    DigitLacking(s, p + 1);
  }

  lemma ExponentFilled(s: seq<byte>, u: seq<byte>, p: nat)
    requires p <= |s| && ExponentEnd(s, p) == INCOMPLETE
    requires s + [ZERO] <= u && Stops(s + [ZERO], u)
    ensures ExponentEnd(u, p) == |s| + 1
  {
    OneDigit(s, u);
    DigitLacking(s, if Is(s, p + 1, PLUS) || Is(s, p + 1, MINUS) then p + 2 else p + 1);
    assert u[|s|] == (s + [ZERO])[|s|] == ZERO;
  }

  lemma {:induction false} WordLacks(s: seq<byte>, p: nat, w: seq<byte>)
    requires p <= |s| && Match(s, p, w) == INCOMPLETE
    ensures |s| - p < |w| && s[p..] == w[..|s| - p]
    decreases |w|
  {
    if p < |s| {
      WordLacks(s, p + 1, w[1..]);
      assert s[p..] == [s[p]] + s[p + 1..];
      assert w[..|s| - p] == [w[0]] + w[1..][..|s| - p - 1];
    }
  }

  lemma WordFilled(s: seq<byte>, p: nat, w: seq<byte>) returns (fill: seq<byte>)
    requires p <= |s| && Match(s, p, w) == INCOMPLETE
    ensures p + |w| == |s| + |fill| && forall u :: s + fill <= u ==> Match(u, p, w) == 0
  {
    WordLacks(s, p, w);
    fill := w[|s| - p..];
    forall u | s + fill <= u ensures Match(u, p, w) == 0 {
      assert u[p..p + |w|] == (s + fill)[p..] == s[p..] + fill == w;
    }
  }

  /** A value that is incomplete, but not in a dead escape, is complete after some more text, whatever stopper
      follows. */
  lemma {:induction false} ValueFilled(s: seq<byte>, p: nat, rest: seq<byte>) returns (fill: seq<byte>)
    requires p <= |s| && Value(s, p) == Fail(INCOMPLETE) && !Dead(s, ValueStop(s, p))
    requires rest != [] && Stopper(rest[0])
    ensures var v := Value(s + fill + rest, p); v.Done? && v.next == |s| + |fill|
    decreases |s| - p, 1
  {
    hide Entries;
    hide EntriesStop;
    hide StringFrom;
    hide StringStop;
    hide StringFill;
    hide Match;
    hide NumberAt;
    hide SkipSpace;
    hide Dead;
    var q := SkipSpace(s, p);
    if q == |s| {
      fill := [ZERO];
      ZeroRead(s, p, rest);
      return;
    }
    if s[q] == QUOTE {
      NoSpaces(s, s, q);
      fill := StringFill(s, StringStop(s, q + 1));
      var u := s + fill + rest;
      StringFilled(s, u, q + 1, q + 1);
      SpaceStays(s, u, p);
      NoSpaces(s, u, q);
    } else if s[q] == OPEN_BRACE || s[q] == OPEN_BRACKET {
      fill := EntriesFilled(s, q + 1, s[q] == OPEN_BRACE, rest);
      SpaceStays(s, s + fill + rest, p);
    } else if s[q] == MINUS || IsDigit(s[q]) {
      fill := [ZERO];
      var u := s + fill + rest;
      NumberFilled(s, u, q);
      SpaceStays(s, u, p);
    } else {
      fill := WordFilled(s, q, if s[q] == 110 then NULL_WORD else if s[q] == 116 then TRUE_WORD else FALSE_WORD);
      var u := s + fill + rest;
      assert s + fill <= u;
      SpaceStays(s, u, p);
    }
  }

  lemma ZeroRead(s: seq<byte>, p: nat, rest: seq<byte>)
    requires p <= |s| && SkipSpace(s, p) == |s| && rest != [] && Stopper(rest[0])
    ensures Value(s + [ZERO] + rest, p) == Done(Node(Number, |s|, |s| + 1, Nil), |s| + 1)
  {
    var u := s + [ZERO] + rest;
    assert s + [ZERO] <= u && u[|s| + 1] == rest[0];
    OneDigit(s, u);
    assert u[|s|] == ZERO;
    SpaceStays(s, u, p);
    assert SkipSpace(u, |s|) == |s|;
    hide SkipSpace;
    hide DigitsEnd;
    hide FractionEnd;
    hide ExponentEnd;
    assert NumberAt(u, |s|) == Done(Node(Number, |s|, |s| + 1, Nil), |s| + 1);
  }

  lemma {:induction false} EntriesFilled(s: seq<byte>, p: nat, isObject: bool, rest: seq<byte>)
    returns (fill: seq<byte>)
    requires p <= |s| && Entries(s, p, isObject) == Fail(INCOMPLETE) && !Dead(s, EntriesStop(s, p, isObject))
    ensures var v := Entries(s + fill + rest, p, isObject); v.Done? && v.next == |s| + |fill|
    ensures SkipSpace(s, p) == |s| ==> fill == [Closer(isObject)]
    decreases |s| - p, 3
  {
    hide Entry;
    hide EntryStop;
    hide SkipSpace;
    hide SkipComma;
    hide Dead;
    var q := SkipSpace(s, p);
    var close := [Closer(isObject)];
    if q == |s| {
      fill := close;
      ClosedAtEnd(s, p, isObject, rest);
      return;
    }
    var x := Entry(s, p, isObject);
    if x.Fail? {
      var inner := EntryFilled(s, p, isObject, close + rest);
      fill := inner + close;
      assert s + inner + (close + rest) == s + fill + rest;
      var u := s + fill + rest;
      SpaceStays(s, u, p);
      EntriesGo(u, p, isObject);
      NextIsCloser(u, |s + inner|, isObject);
    } else {
      var r := SkipComma(s, x.next);
      CommaStays(s, s, x.next);
      SpaceThenEnd(s, x.next);
      fill := EntriesFilled(s, r, isObject, rest);
      var u := s + fill + rest;
      SpaceStays(s, u, p);
      EntryStays(s, u, p, isObject);
      CommaPassed(s, u, x.next, isObject);
      NothingEntered(s, r, isObject);
      EntriesGo(u, p, isObject);
    }
  }

  lemma ClosedAtEnd(s: seq<byte>, p: nat, isObject: bool, rest: seq<byte>)
    requires p <= |s| && SkipSpace(s, p) == |s|
    ensures Entries(s + [Closer(isObject)] + rest, p, isObject) == Done(Nil, |s| + 1)
  {
    var u := s + [Closer(isObject)] + rest;
    assert u[|s|] == Closer(isObject);
    SpaceStays(s, u, p);
    hide SkipSpace;
    hide Entry;
  }

  lemma NextIsCloser(u: seq<byte>, e: nat, isObject: bool)
    requires Is(u, e, Closer(isObject))
    ensures SkipComma(u, e) == e && Entries(u, e, isObject) == Done(Nil, e + 1)
  {
    hide Entry;
  }

  lemma SpaceThenEnd(s: seq<byte>, p: nat)
    requires p <= |s|
    ensures SkipComma(s, p) == |s| ==> SkipSpace(s, SkipComma(s, p)) == |s|
  {
  }

  /** When nothing but white space is left after an entry, a closing bracket keeps it so. */
  lemma CommaPassed(s: seq<byte>, u: seq<byte>, p: nat, isObject: bool)
    requires s <= u && p <= |s|
    requires SkipSpace(s, p) == |s| ==> Is(u, |s|, Closer(isObject))
    ensures SkipComma(u, p) == SkipComma(s, p)
    ensures p == |s| ==> Stops(s, u)
  {
    SpaceStays(s, u, p);
    hide SkipSpace;
    if p == |s| { NothingEntered(s, p, isObject); }
  }

  lemma {:induction false} EntryFilled(s: seq<byte>, p: nat, isObject: bool, rest: seq<byte>) returns (fill: seq<byte>)
    requires p <= |s| && Entry(s, p, isObject) == Fail(INCOMPLETE) && !Dead(s, EntryStop(s, p, isObject))
    requires rest != [] && Stopper(rest[0])
    ensures var v := Entry(s + fill + rest, p, isObject); v.Done? && v.next == |s| + |fill|
    decreases |s| - p, 2
  {
    hide Value;
    hide ValueStop;
    hide Key;
    hide SkipSpace;
    hide StringStop;
    hide Dead;
    if !isObject {
      fill := ValueFilled(s, p, rest);
      return;
    }
    var k := Key(s, p);
    if k.Fail? {
      var name := KeyFilled(s, p, [COLON, ZERO] + rest);
      fill := name + [COLON, ZERO];
      assert s + name + ([COLON, ZERO] + rest) == s + fill + rest;
      var u := s + fill + rest;
      ZeroAfterColon(u, |s + name|);
      return;
    }
    var q := SkipSpace(s, k.next);
    if q == |s| {
      fill := [COLON, ZERO];
      var u := s + fill + rest;
      KeyStays(s, u, p);
      SpaceStays(s, u, k.next);
      ZeroAfterColon(u, |s|);
    } else {
      fill := ValueFilled(s, q + 1, rest);
      var u := s + fill + rest;
      KeyStays(s, u, p);
      SpaceStays(s, u, k.next);
    }
  }

  lemma ZeroAfterColon(u: seq<byte>, q: nat)
    requires Is(u, q, COLON) && Is(u, q + 1, ZERO) && q + 2 < |u| && Stopper(u[q + 2])
    ensures SkipSpace(u, q) == q && Value(u, q + 1).Done? && Value(u, q + 1).next == q + 2
  {
    var s := u[..q + 1];
    assert SkipSpace(s, |s|) == |s|;
    ZeroRead(s, q + 1, u[q + 2..]);
    assert s + [ZERO] + u[q + 2..] == u;
    hide Value;
  }

  lemma KeyFilled(s: seq<byte>, p: nat, rest: seq<byte>) returns (fill: seq<byte>)
    requires p <= |s| && Key(s, p) == Fail(INCOMPLETE) && !Dead(s, EntryStop(s, p, true))
    requires rest != [] && Stopper(rest[0])
    ensures var u := s + fill + rest; Key(u, p).Done? && Key(u, p).next == |s| + |fill|
  {
    hide StringFrom;
    hide StringStop;
    hide StringFill;
    hide Value;
    hide Dead;
    var q := SkipSpace(s, p);
    if q == |s| {
      fill := [LETTER_N];
      var u := s + fill + rest;
      assert u[|s|] == LETTER_N && u[|s| + 1] == rest[0];
      SpaceStays(s, u, p);
      assert SkipSpace(u, |s|) == |s| && IdentifierEnd(u, |s| + 1) == |s| + 1;
    } else {
      NoSpaces(s, s, q);
      fill := StringFill(s, StringStop(s, q + 1));
      var u := s + fill + rest;
      StringFilled(s, u, q + 1, q + 1);
      SpaceStays(s, u, p);
      NoSpaces(s, u, q);
    }
  }

  // ----- the two codes -----

  /** Some more text makes the text acceptable. */
  ghost predicate Completable(s: seq<byte>) {
    exists more :: Root(s + more).Done?
  }

  /** An incomplete text can be completed, unless it ends within an escape of four digits one of which is none: that is
      refused as incomplete although no more text can help. */
  lemma CompletableIff(s: seq<byte>)
    requires Root(s) == Fail(INCOMPLETE)
    ensures Completable(s) <==> !Dead(s, RootStop(s))
  {
    hide Entries;
    hide EntriesStop;
    hide SkipSpace;
    hide Dead;
    var q := SkipSpace(s, 0);
    if Dead(s, RootStop(s)) {
      DeadIsBeforeEnd(s, RootStop(s));
      forall more ensures Root(s + more).Fail? {
        SpaceStays(s, s + more, 0);
        DeadEntries(s, s + more, q + 1, s[q] == OPEN_BRACE);
      }
    } else if q == |s| {
      var more := [OPEN_BRACKET, CLOSE_BRACKET];
      EmptyArray(s);
      assert Root(s + more).Done?;
    } else {
      var more := EntriesFilled(s, q + 1, s[q] == OPEN_BRACE, []);
      assert s + more + [] == s + more;
      SpaceStays(s, s + more, 0);
      assert Root(s + more).Done?;
    }
  }

  lemma DeadIsBeforeEnd(s: seq<byte>, k: nat)
    requires Dead(s, k)
    ensures k < |s|
  {
  }

  lemma EmptyArray(s: seq<byte>)
    requires SkipSpace(s, 0) == |s|
    ensures Root(s + [OPEN_BRACKET, CLOSE_BRACKET]).Done?
  {
    var u := s + [OPEN_BRACKET, CLOSE_BRACKET];
    SpaceStays(s, u, 0);
    assert u[|s|] == OPEN_BRACKET && u[|s| + 1] == CLOSE_BRACKET;
    assert SkipSpace(u, |s|) == |s|;
    hide SkipSpace;
    assert Is(u, |s| + 1, Closer(false));
    NextIsCloser(u, |s| + 1, false);
    hide Entries;
  }

  /** Such a text: `["` and an escape that begins with a letter that is no digit. */
  lemma DeadText()
    ensures var s := [OPEN_BRACKET, QUOTE, BACKSLASH, LETTER_U, 122];
            Root(s) == Fail(INCOMPLETE) && !Completable(s)
  {
    var s := [OPEN_BRACKET, QUOTE, BACKSLASH, LETTER_U, 122];
    assert SkipSpace(s, 0) == 0 && SkipSpace(s, 1) == 1;
    assert StringStep(s, 2) == INCOMPLETE;
    assert StringFrom(s, 2, 2) == Fail(INCOMPLETE) && StringStop(s, 2) == 2;
    assert Value(s, 1) == Fail(INCOMPLETE) && ValueStop(s, 1) == 2;
    ElementIsValue(s, 1);
    assert Entry(s, 1, false) == Fail(INCOMPLETE) && EntryStop(s, 1, false) == 2;
    assert Entries(s, 1, false) == Fail(INCOMPLETE) && EntriesStop(s, 1, false) == 2;
    assert Dead(s, 2) by { assert !IsHexDigit(s[4]); }
    CompletableIff(s);
  }
}

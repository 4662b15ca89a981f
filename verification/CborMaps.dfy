/** Looking a value up in a map by a text key. */
module CborMaps {
  import opened Wrappers
  import opened ByteSeqs
  import opened CborFormat
  import opened CborGrammar
  import opened CborStrings
  import opened CborIterator
  import opened CborParser
  import opened CborAccess

  /** Plain lookup in the items of a map: the value after the first key that is this text. */
  function Lookup(items: Items, key: seq<byte>): Option<Item> {
    if items.Nil? || items.tail.Nil? then None
    else if TextOf(items.head) == Some(key) then Some(items.tail.head)
    else Lookup(items.tail.tail, key)
  }

  /** Where the value for `key` starts, among the entries from `p` on: `pairs` of them, or those up to a break. */
  ghost function ValueAt(b: seq<byte>, p: nat, pairs: Option<nat>, key: seq<byte>): Option<nat>
    decreases Left(b, p)
  {
    if pairs == Some(0) || (pairs.None? && p < |b| && b[p] == BREAK) || Decode(b, p).None? then None
    else
      var k := Decode(b, p).value;
      var v := Decode(b, k.1);
      if TextOf(k.0) == Some(key) then Some(k.1)
      else if v.None? then None
      else ValueAt(b, v.value.1, if pairs.None? then None else Some(pairs.value - 1), key)
  }

  /** The same, for an iterator over the entries of a map that stands at a key or at the end. */
  ghost function ValueFrom(b: seq<byte>, it: Iter, key: seq<byte>): Option<nat> {
    if it.remaining == 0 then None
    else ValueAt(b, it.ptr, if it.remaining == UINT32_MAX then None else Some(it.remaining / 2), key)
  }

  /** Standing at a key, or at the end of the map. */
  ghost predicate AtKey(b: seq<byte>, it: Iter) {
    Standing(b, it) && (it.remaining > 0 ==> it.flags.containerIsMap && !it.flags.nextIsMapKey)
    && (it.remaining == UINT32_MAX || it.remaining % 2 == 0)
  }

  /** Standing at the value of an entry. */
  ghost predicate AtEntryValue(b: seq<byte>, it: Iter) {
    AtItem(b, it) && it.flags.containerIsMap && it.flags.nextIsMapKey
    && (it.remaining == UINT32_MAX || it.remaining % 2 == 1)
  }

  lemma MapStart(b: seq<byte>, map_: Iter, now: Iter, key: seq<byte>)
    requires AtItem(b, map_) && map_.typ == MAP_TYPE && Entered(b, map_, NoError, now)
    ensures AtKey(b, now)
    ensures var h := HeadAt(b, map_.ptr).value;
            ValueFrom(b, now, key) ==
            ValueAt(b, map_.ptr + h.size, if h.info == INDEFINITE then None else Some(h.arg), key)
  {
    hide Decode;
  }

  /** After a key, the iterator stands at its value: a map cannot end there. */
  lemma KeyDone(b: seq<byte>, was: Iter, e: nat, now: Iter)
    requires AtKey(b, was) && was.remaining > 0 && was.typ != TAG_TYPE
    requires Landed(b, was, e, NoError, now)
    ensures AtEntryValue(b, now) && now.ptr == e
    ensures now.remaining == if was.remaining == UINT32_MAX then UINT32_MAX else was.remaining - 1
  {
  }

  /** After a value, at the next key or at the end. */
  lemma ValueDone(b: seq<byte>, was: Iter, e: nat, now: Iter, key: seq<byte>)
    requires AtEntryValue(b, was) && was.typ != TAG_TYPE && e <= |b|
    requires Landed(b, was, e, NoError, now)
    ensures AtKey(b, now)
    ensures ValueFrom(b, now, key) ==
            ValueAt(b, e, if was.remaining == UINT32_MAX then None else Some(was.remaining / 2), key)
  {
    hide Cached;
    hide Decode;
  }

  /** Skipping the tags of a key changes nothing in the search. */
  lemma KeyPastTags(b: seq<byte>, it: Iter, key: seq<byte>)
    requires AtKey(b, it) && it.remaining > 0
    ensures ValueFrom(b, it, key) ==
            var k := Decode(b, TagsEnd(b, it.ptr));
            if k.None? then None
            else if TextOf(k.value.0) == Some(key) then Some(k.value.1)
            else
              var v := Decode(b, k.value.1);
              if v.None? then None
              else ValueAt(b, v.value.1, if it.remaining == UINT32_MAX then None else Some(it.remaining / 2 - 1), key)
  {
    hide Decode;
    hide HeadAt;
    KeyNotBreak(b, it);
    PastTags(b, it.ptr, 0);
    SameText(b, it.ptr);
  }

  lemma SameText(b: seq<byte>, p: nat)
    ensures var r := Decode(b, p);
            var s := Decode(b, TagsEnd(b, p));
            r.Some? && s.Some? ==> TextOf(r.value.0) == TextOf(s.value.0)
  {
    PastTags(b, p, 0);
    if Decode(b, p).Some? { UntaggedTwice(Decode(b, p).value.0); }
  }

  lemma UntaggedTwice(x: Item)
    ensures Untagged(Untagged(x)) == Untagged(x)
  {
  }

  /** A break is no item. */
  lemma KeyNotBreak(b: seq<byte>, it: Iter)
    requires AtKey(b, it) && it.remaining > 0
    ensures !(it.ptr < |b| && b[it.ptr] == BREAK)
  {
  }

  /** A string item is what is found at its place, and it is text or not as its type says. */
  lemma StringKey(b: seq<byte>, it: Iter, key: seq<byte>)
    requires AtItem(b, it) && it.typ == TEXT_STRING_TYPE
    ensures Decode(b, it.ptr).Some? <==> StringAt(b, it.ptr).Some?
    ensures StringAt(b, it.ptr).Some? ==>
              var (data, e) := StringAt(b, it.ptr).value;
              Decode(b, it.ptr).value.1 == e && TextOf(Decode(b, it.ptr).value.0) == Some(data)
  {
  }

  lemma OtherKey(b: seq<byte>, it: Iter)
    requires AtItem(b, it) && it.typ != TEXT_STRING_TYPE && it.typ != TAG_TYPE
    ensures Decode(b, it.ptr).Some? ==> TextOf(Decode(b, it.ptr).value.0).None?
  {
  }

  lemma ValueStarts(b: seq<byte>, it: Iter)
    requires AtEntryValue(b, it)
    ensures StartsAt(b, it.ptr)
  {
  }

  /** Finds the value for a text key. On any map the search stops at the first entry whose key, tags aside, is this
      text, or reports that there is none; only a map that is not well-formed, or beyond the limits, makes it fail. */
  method MapFindValue(map_: CborValue, key: seq<byte>, element: CborValue) returns (err: CborError)
    requires map_.Ready() && map_.typ == MAP_TYPE && element != map_ && 0 !in key
    modifies element
    ensures element.buf == map_.buf && element.Valid()
    ensures ItemEnd(map_.buf, map_.ptr, MAX_RECURSIONS + 1).Some? ==> err == NoError
    ensures err != NoError ==> element.typ == INVALID_TYPE
    ensures err == NoError ==>
              var h := HeadAt(map_.buf, map_.ptr).value;
              match ValueAt(map_.buf, map_.ptr + h.size, if h.info == INDEFINITE then None else Some(h.arg), key)
              case None => element.typ == INVALID_TYPE
              case Some(q) => AtEntryValue(element.buf, element.State()) && element.Valid() && element.ptr == q
  {
    hide Entered;
    hide ItemEnd;
    hide ValueAt;
    hide Cached;
    hide Pending;
    err := map_.EnterContainer(element);
    ContainerEnd(map_.buf, map_.State(), err, element.State(), MAX_RECURSIONS + 1);
    if err != NoError {
      element.typ := INVALID_TYPE;
      return;
    }
    MapStart(map_.buf, map_.State(), element.State(), key);
    ghost var target := ValueFrom(map_.buf, element.State(), key);
    ghost var wellFormed := ItemEnd(map_.buf, map_.ptr, MAX_RECURSIONS + 1).Some?;
    while element.remaining != 0
      invariant element.buf == map_.buf && AtKey(element.buf, element.State())
      invariant ValueFrom(element.buf, element.State(), key) == target
      invariant wellFormed ==> Pending(element.buf, element.State(), MAX_RECURSIONS).Some?
      decreases |map_.buf| - element.ptr
    {
      var found;
      err, found := FindStep(element, key);
      if err != NoError {
        element.typ := INVALID_TYPE;
        return;
      }
      if found {
        return;
      }
    }
    element.typ := INVALID_TYPE;
    err := NoError;
  }

  /** One turn of the search: looks at one entry. */
  method FindStep(element: CborValue, key: seq<byte>) returns (err: CborError, found: bool)
    requires AtKey(element.buf, element.State()) && element.remaining > 0 && 0 !in key
    modifies element
    ensures element.buf == old(element.buf) && element.Valid()
    ensures err != NoError ==> Pending(element.buf, old(element.State()), MAX_RECURSIONS).None?
    ensures err == NoError && found ==>
              && AtEntryValue(element.buf, element.State())
              && ValueFrom(element.buf, old(element.State()), key) == Some(element.ptr)
    ensures err == NoError && !found ==>
              && AtKey(element.buf, element.State()) && element.ptr > old(element.ptr)
              && ValueFrom(element.buf, element.State(), key) == ValueFrom(element.buf, old(element.State()), key)
              && (Pending(element.buf, old(element.State()), MAX_RECURSIONS).Some? ==>
                    Pending(element.buf, element.State(), MAX_RECURSIONS).Some?)
  {
    hide Decode;
    hide Landed;
    hide Pending;
    hide StringAt;
    hide ValueFrom;
    hide Cached;
    hide ItemEnd;
    hide ValueAt;
    ghost var b := element.buf;
    ghost var start := element.State();
    found := false;
    PendingPastTags(b, start, MAX_RECURSIONS);
    KeyPastTags(b, start, key);
    err := element.SkipTag();
    if err != NoError {
      return;
    }
    ghost var atKey := element.State();
    PendingSamePlace(b, start.(ptr := atKey.ptr), atKey, MAX_RECURSIONS);
    if element.typ == TEXT_STRING_TYPE {
      var len, equals;
      StringKey(b, atKey, key);
      StringEnd(b, atKey, MAX_RECURSIONS);
      err, len, equals := IterateStringChunks(element, Compare(key), |key|, element);
      StepKeepsPending(b, atKey, MAX_RECURSIONS, err, element.State());
      if err != NoError {
        return;
      }
      KeyDone(b, atKey, StringAt(b, atKey.ptr).value.1, element.State());
      if equals {
        ValueStarts(b, element.State());
        err := element.PreparseValue();
        found := true;
        return;
      }
    } else {
      OtherKey(b, atKey);
      err := element.Advance();
      StepKeepsPending(b, atKey, MAX_RECURSIONS, err, element.State());
      if err != NoError {
        return;
      }
      ItemEndDecodes(b, atKey.ptr, MAX_RECURSIONS);
      KeyDone(b, atKey, ItemEnd(b, atKey.ptr, MAX_RECURSIONS).value, element.State());
    }
    err := SkipEntryValue(element, key);
  }

  lemma ItemEndDecodes(b: seq<byte>, p: nat, depth: nat)
    requires ItemEnd(b, p, depth).Some?
    ensures Decode(b, p).Some? && Decode(b, p).value.1 == ItemEnd(b, p, depth).value <= |b|
  {
  }

  /** Skips the value of an entry whose key is a different one. */
  method SkipEntryValue(element: CborValue, ghost key: seq<byte>) returns (err: CborError)
    requires element.Valid() && AtEntryValue(element.buf, element.State())
    modifies element
    ensures element.buf == old(element.buf) && element.Valid()
    ensures Pending(element.buf, old(element.State()), MAX_RECURSIONS) ==
            if err == NoError then Pending(element.buf, element.State(), MAX_RECURSIONS) else None
    ensures err == NoError ==>
              && AtKey(element.buf, element.State()) && element.ptr > old(element.ptr)
              && Decode(element.buf, old(element.ptr)).Some?
              && ValueFrom(element.buf, element.State(), key) ==
                 ValueAt(element.buf, Decode(element.buf, old(element.ptr)).value.1,
                         if old(element.remaining) == UINT32_MAX then None else Some(old(element.remaining) / 2), key)
  {
    hide Decode;
    hide Landed;
    hide Pending;
    hide ValueFrom;
    hide Cached;
    hide ItemEnd;
    ghost var b, atValue := element.buf, element.State();
    PendingPastTags(b, atValue, MAX_RECURSIONS);
    PastTags(b, atValue.ptr, MAX_RECURSIONS);
    err := element.SkipTag();
    if err != NoError {
      return;
    }
    ghost var content := element.State();
    PendingSamePlace(b, atValue.(ptr := content.ptr), content, MAX_RECURSIONS);
    err := element.Advance();
    StepKeepsPending(b, content, MAX_RECURSIONS, err, element.State());
    if err != NoError {
      return;
    }
    ItemEndDecodes(b, content.ptr, MAX_RECURSIONS);
    ValueDone(b, content, ItemEnd(b, content.ptr, MAX_RECURSIONS).value, element.State(), key);
  }

  // ----- the search against plain lookup -----

  /** The first pair of a map, and the others. */
  lemma FirstPair(b: seq<byte>, p: nat, pairs: nat)
    requires pairs > 0 && DecodeItems(b, p, 2 * pairs).Some?
    ensures Decode(b, p).Some? && Decode(b, Decode(b, p).value.1).Some?
    ensures var k := Decode(b, p).value;
            var v := Decode(b, k.1).value;
            var rest := DecodeItems(b, v.1, 2 * (pairs - 1));
            rest.Some? && DecodeItems(b, p, 2 * pairs).value.0 == Cons(k.0, Cons(v.0, rest.value.0))
  {
    hide Decode;
    var k := Decode(b, p).value;
    var rest := DecodeItems(b, k.1, 2 * pairs - 1);
    assert DecodeItems(b, p, 2 * pairs).value.0 == Cons(k.0, rest.value.0);
  }

  lemma {:induction false} CountedMapLookup(b: seq<byte>, p: nat, pairs: nat, key: seq<byte>)
    requires DecodeItems(b, p, 2 * pairs).Some?
    ensures FoundAs(b, ValueAt(b, p, Some(pairs), key), Lookup(DecodeItems(b, p, 2 * pairs).value.0, key))
    decreases pairs
  {
    hide Decode;
    hide DecodeItems;
    if pairs > 0 {
      FirstPair(b, p, pairs);
      var v := Decode(b, Decode(b, p).value.1).value;
      CountedMapLookup(b, v.1, pairs - 1, key);
    } else {
      NoPairs(b, p);
    }
  }

  lemma NoPairs(b: seq<byte>, p: nat)
    ensures DecodeItems(b, p, 0) == Some((Nil, p))
  {
  }

  lemma {:induction false} OpenMapLookup(b: seq<byte>, p: nat, key: seq<byte>)
    requires DecodeToBreak(b, p, true, false).Some?
    ensures FoundAs(b, ValueAt(b, p, None, key), Lookup(DecodeToBreak(b, p, true, false).value.0, key))
    decreases Left(b, p)
  {
    if !(p < |b| && b[p] == BREAK) {
      var k := Decode(b, p).value;
      var rest := DecodeToBreak(b, k.1, true, true);
      assert DecodeToBreak(b, p, true, false).value.0 == Cons(k.0, rest.value.0);
      var v := Decode(b, k.1).value;
      assert rest.value.0 == Cons(v.0, DecodeToBreak(b, v.1, true, false).value.0);
      OpenMapLookup(b, v.1, key);
    }
  }

  /** The offset `q` is where the item `x` is found. */
  ghost predicate FoundAs(b: seq<byte>, q: Option<nat>, x: Option<Item>) {
    && (q.Some? <==> x.Some?)
    && (q.Some? ==> Decode(b, q.value).Some? && Decode(b, q.value).value.0 == x.value)
  }

  /** In a well-formed map, the search finds what plain lookup in its items finds. */
  lemma MapLookup(b: seq<byte>, p: nat, key: seq<byte>)
    requires Decode(b, p).Some? && Decode(b, p).value.0.Map?
    ensures var h := HeadAt(b, p).value;
            FoundAs(b, ValueAt(b, p + h.size, if h.info == INDEFINITE then None else Some(h.arg), key),
                    Lookup(Decode(b, p).value.0.items, key))
  {
    hide Lookup;
    hide ValueAt;
    hide FoundAs;
    var h := HeadAt(b, p).value;
    if h.info == INDEFINITE {
      OpenMapLookup(b, p + h.size, key);
    } else {
      CountedMapLookup(b, p + h.size, h.arg, key);
    }
  }
}

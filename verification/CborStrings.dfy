/** The content of strings, whole or in chunks (section 3.2.3 of RFC 8949). */
module CborStrings {
  import opened Wrappers
  import opened ByteSeqs
  import opened CborFormat
  import opened CborGrammar

  function Flatten(chunks: seq<seq<byte>>): seq<byte> {
    if chunks == [] then [] else chunks[0] + Flatten(chunks[1..])
  }

  predicate IsStringItem(x: Item) { x.Str? || x.Chunked? }

  /** The content of a string: for a chunked one, the concatenation of its chunks. */
  function Content(x: Item): seq<byte>
    requires IsStringItem(x)
  {
    if x.Str? then x.data else Flatten(x.chunks)
  }

  /** The end of the head at `p`. */
  function HeadEnd(b: seq<byte>, p: nat): nat {
    if HeadAt(b, p).Some? then p + HeadAt(b, p).value.size else p
  }

  /** The content and the end of the string item at `p`. */
  function StringAt(b: seq<byte>, p: nat): Option<(seq<byte>, nat)> {
    var r := Decode(b, p);
    if r.Some? && IsStringItem(r.value.0) then Some((Content(r.value.0), r.value.1)) else None
  }

  /** The content and the end of chunks up to a break. */
  function ChunksAt(b: seq<byte>, p: nat, major: nat): Option<(seq<byte>, nat)> {
    var r := DecodeChunks(b, p, major);
    if r.Some? then Some((Flatten(r.value.0), r.value.1)) else None
  }

  lemma StringAtHead(b: seq<byte>, p: nat)
    requires HeadAt(b, p).Some? && BYTE_STRING <= HeadAt(b, p).value.major <= TEXT_STRING
    ensures var h := HeadAt(b, p).value;
            var q := p + h.size;
            StringAt(b, p) ==
            if h.info == INDEFINITE then ChunksAt(b, q, h.major)
            else if q + h.arg <= |b| then Some((b[q..q + h.arg], q + h.arg))
            else None
  {
  }

  lemma ChunksAtStep(b: seq<byte>, p: nat, major: nat)
    ensures ChunksAt(b, p, major) ==
            if p < |b| && b[p] == BREAK then Some(([], p + 1))
            else if HeadAt(b, p).None? then None
            else
              var h := HeadAt(b, p).value;
              var q := p + h.size;
              if h.major != major || h.info == INDEFINITE || q + h.arg > |b| then None
              else
                var rest := ChunksAt(b, q + h.arg, major);
                if rest.None? then None else Some((b[q..q + h.arg] + rest.value.0, rest.value.1))
  {
    if HeadAt(b, p).Some? {
      var h := HeadAt(b, p).value;
      var q := p + h.size;
      if h.major == major && h.info != INDEFINITE && q + h.arg <= |b| {
        var xs := DecodeChunks(b, q + h.arg, major);
        if xs.Some? {
          assert ([b[q..q + h.arg]] + xs.value.0)[1..] == xs.value.0;
        }
      }
    }
  }

  /** The content of a string is no longer than its encoding. */
  lemma ContentFits(b: seq<byte>, p: nat)
    ensures StringAt(b, p).Some? ==> |StringAt(b, p).value.0| <= |b|
  {
    if HeadAt(b, p).Some? && HeadAt(b, p).value.info == INDEFINITE && StringAt(b, p).Some? {
      ChunksFit(b, p + HeadAt(b, p).value.size, HeadAt(b, p).value.major);
    }
  }

  lemma {:induction false} ChunksFit(b: seq<byte>, p: nat, major: nat)
    requires DecodeChunks(b, p, major).Some?
    ensures p + |Flatten(DecodeChunks(b, p, major).value.0)| <= DecodeChunks(b, p, major).value.1
    decreases Left(b, p)
  {
    ChunksAtStep(b, p, major);
    if b[p] != BREAK {
      var h := HeadAt(b, p).value;
      ChunksFit(b, p + h.size + h.arg, major);
    }
  }

  // ----- what is done with the chunks of a string -----

  /** The function applied to each chunk, with the memory it works on. */
  datatype Sink = Noop | Copy(buffer: array<byte>) | Compare(text: seq<byte>)

  ghost function Memory(sink: Sink): set<object> {
    if sink.Copy? then {sink.buffer} else {}
  }

  /** `room` bytes may be used: a buffer has that many, and a C string is that long up to its NUL. */
  ghost predicate HasRoom(sink: Sink, room: nat) {
    && (sink.Copy? ==> room <= sink.buffer.Length)
    && (sink.Compare? ==> room == |sink.text| && 0 !in sink.text)
  }

  /** The verdict on a whole string. */
  ghost predicate Accepts(sink: Sink, room: nat, data: seq<byte>) {
    if sink.Compare? then data == sink.text else |data| <= room
  }

  /** Bytes past the room given stay as they were. */
  ghost predicate Untouched(sink: Sink, before: seq<byte>, after: seq<byte>, room: nat) {
    sink.Copy? ==> room <= |before| == |after| && after[room..] == before[room..]
  }

  /** The buffer holds `data`, NUL-terminated if there is room, and nothing else has changed. */
  ghost predicate Holds(sink: Sink, before: seq<byte>, after: seq<byte>, room: nat, data: seq<byte>) {
    sink.Copy? ==>
      && |data| <= room <= |before|
      && after == data + (if |data| < room then [0] + before[|data| + 1..] else before[|data|..])
  }

  /** The chunks so far, `done`, have been fed to the sink, and `ok` is the verdict on them. */
  ghost predicate Fed(sink: Sink, room: nat, before: seq<byte>, after: seq<byte>, done: seq<byte>, ok: bool) {
    && (ok <==> |done| <= room && (sink.Compare? ==> |done| <= |sink.text| && sink.text[..|done|] == done))
    && Untouched(sink, before, after, room)
    && (sink.Copy? && ok ==> after == done + before[|done|..])
  }

  lemma FeedNothing(sink: Sink, room: nat, before: seq<byte>)
    requires HasRoom(sink, room) && (sink.Copy? ==> |before| == sink.buffer.Length)
    ensures Fed(sink, room, before, before, [], true)
  {
  }

  lemma FedUntouched(sink: Sink, room: nat, before: seq<byte>, after: seq<byte>, done: seq<byte>, ok: bool)
    requires Fed(sink, room, before, after, done, ok)
    ensures Untouched(sink, before, after, room)
  {
  }

  ghost function Bytes(sink: Sink): seq<byte>
    reads Memory(sink)
  {
    if sink.Copy? then sink.buffer[..] else []
  }

  /** Applies the function to bytes that belong at offset `at`. */
  method Apply(sink: Sink, at: nat, data: seq<byte>) returns (ok: bool)
    requires sink.Copy? ==> at + |data| <= sink.buffer.Length
    requires sink.Compare? ==> at + |data| <= |sink.text|
    modifies Memory(sink)
    ensures ok <==> (sink.Compare? ==> sink.text[at..at + |data|] == data)
    ensures sink.Copy? ==>
              sink.buffer[..] == old(sink.buffer[..at]) + data + old(sink.buffer[at + |data|..])
  {
    match sink
    case Noop => ok := true;
    case Copy(buffer) =>
      forall i | 0 <= i < |data| { buffer[at + i] := data[i]; }
      ok := true;
    case Compare(text) => ok := text[at..at + |data|] == data;
  }

  /** One turn of the loop over the chunks: once a chunk does not fit or differs, the verdict stays negative. */
  method FeedChunk(sink: Sink, room: nat, total: nat, data: seq<byte>, ok: bool,
                   ghost before: seq<byte>, ghost done: seq<byte>)
    returns (now: bool)
    requires HasRoom(sink, room) && total == |done|
    requires Fed(sink, room, before, Bytes(sink), done, ok)
    modifies Memory(sink)
    ensures Fed(sink, room, before, Bytes(sink), done + data, now)
  {
    if ok && room >= total + |data| {
      now := Apply(sink, total, data);
      if sink.Compare? {
        assert sink.text[..total + |data|] == sink.text[..total] + sink.text[total..total + |data|];
      }
    } else {
      now := false;
      if ok && sink.Compare? { assert total + |data| > |sink.text|; }
      if sink.Compare? && |done + data| <= |sink.text| {
        assert sink.text[..|done + data|][..total] == sink.text[..total];
        assert (done + data)[..total] == done;
      }
    }
  }

  lemma NulCopied(before: seq<byte>, data: seq<byte>, room: nat)
    requires |data| < room <= |before|
    ensures var was := data + before[|data|..];
            var after := was[..|data|] + [0] + was[|data| + 1..];
            && after == data + ([0] + before[|data| + 1..])
            && |after| == |before| && after[room..] == before[room..]
  {
  }

  /** The terminating NUL goes where there is room for it; a C string that goes on at this point is a different one. */
  method FeedNul(sink: Sink, room: nat, total: nat, ok: bool, ghost before: seq<byte>, ghost data: seq<byte>)
    returns (now: bool)
    requires HasRoom(sink, room) && total == |data|
    requires Fed(sink, room, before, Bytes(sink), data, ok)
    modifies Memory(sink)
    ensures now == Accepts(sink, room, data)
    ensures Untouched(sink, before, Bytes(sink), room)
    ensures now ==> Holds(sink, before, Bytes(sink), room, data)
  {
    now := ok;
    if ok && room > total {
      now := Apply(sink, total, [0]);
      if sink.Compare? {
        assert sink.text[total..total + 1] == [sink.text[total]];
      }
      if sink.Copy? { NulCopied(before, data, room); }
    } else if sink.Compare? && data == sink.text {
      assert sink.text[..|data|] == data;
    }
  }
}

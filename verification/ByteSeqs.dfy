/** What the codec, the tokenizer and the text functions share: bytes and where they stand in a buffer. */
module Wrappers {
  datatype Option<+T> = None | Some(value: T)
}

module ByteSeqs {
  type byte = x: int | 0 <= x < 256

  /** The bytes `s` stand in `b` at offset `p`. */
  predicate At(b: seq<byte>, p: nat, s: seq<byte>) {
    p + |s| <= |b| && b[p..p + |s|] == s
  }

  lemma AtSplit(b: seq<byte>, p: nat, s: seq<byte>, t: seq<byte>)
    requires At(b, p, s + t)
    ensures At(b, p, s) && At(b, p + |s|, t)
  {
    assert b[p..p + |s|] == b[p..p + |s + t|][..|s|];
    assert b[p + |s|..p + |s| + |t|] == b[p..p + |s + t|][|s|..];
    assert (s + t)[..|s|] == s && (s + t)[|s|..] == t;
  }
}

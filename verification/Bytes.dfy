/** Byte strings shared by the protocol and terminal models. */
module Bytes {
  import opened Text

  type byte = i: int | 0 <= i < 256
  type bytes = seq<byte>

  /** The stream a sequence of chunks spells. */
  function Concat(chunks: seq<bytes>): bytes {
    if chunks == [] then [] else chunks[0] + Concat(chunks[1..])
  }

  lemma {:induction false} ConcatSnoc(chunks: seq<bytes>, c: bytes)
    ensures Concat(chunks + [c]) == Concat(chunks) + c
  {
    if chunks == [] {
      assert chunks + [c] == [c];
    } else {
      assert (chunks + [c])[1..] == chunks[1..] + [c];
      ConcatSnoc(chunks[1..], c);
    }
  }

  lemma ConcatCons(c: bytes, chunks: seq<bytes>)
    ensures Concat([c] + chunks) == c + Concat(chunks)
  {
    assert ([c] + chunks)[1..] == chunks;
  }

  lemma ConcatTwo(a: bytes, b: bytes)
    ensures Concat([a, b]) == a + b
  {
    assert [a, b][1..] == [b];
    assert Concat([b]) == b + Concat([b][1..]) == b + [] == b;
  }

  lemma Assoc(a: bytes, b: bytes, c: bytes)
    ensures (a + b) + c == a + (b + c)
  {
  }

  lemma SplitSum(a: bytes, b: bytes)
    ensures (a + b)[..|a|] == a && (a + b)[|a|..] == b
  {
  }

  /** The occurrence of `v` in `s` at offset `i`. */
  predicate At(s: bytes, v: bytes, i: int) {
    0 <= i && i + |v| <= |s| && s[i..i + |v|] == v
  }

  /** `v` is a substring of `s`. */
  ghost predicate Contains(s: bytes, v: bytes) {
    exists i :: At(s, v, i)
  }

  predicate IsSuffix(p: bytes, s: bytes) {
    |p| <= |s| && s[|s| - |p|..] == p
  }

  const CR: byte := 0x0d
  const LF: byte := 0x0a

  predicate EndsLine(b: byte) { b == CR || b == LF }

  predicate IsSpace(b: byte) { IsSpaceCode(b) }

  function TrimSpace(s: bytes): bytes { Trim(s, IsSpace) }

  function CodeOf(b: byte): int { b }

  lemma TrimSpaceIs(s: bytes)
    ensures exists a, b :: IsTrimmed(s, CodeOf, TrimSpace(s), a, b)
  {
    TrimIs(s, IsSpace, CodeOf);
    var a, b :| IsTrimmed(s, CodeOf, Trim(s, IsSpace), a, b);
    assert IsTrimmed(s, CodeOf, TrimSpace(s), a, b);
  }
}

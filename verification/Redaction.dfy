/** terminalOutputScrubber: redaction of secrets in a byte stream that arrives in chunks. */
module Redaction {
  import opened Bytes

  /** A secret and the text that takes its place. */
  datatype Replacement = Replacement(value: bytes, text: bytes)

  type Replacements = rs: seq<Replacement> | forall r :: r in rs ==> r.value != []

  /** strings.ReplaceAll: leftmost, non-overlapping. */
  function ReplaceAll(s: bytes, v: bytes, mark: bytes): bytes
    requires v != []
    decreases |s|
  {
    if |s| < |v| then s
    else if v <= s then mark + ReplaceAll(s[|v|..], v, mark)
    else [s[0]] + ReplaceAll(s[1..], v, mark)
  }

  /** Replaces each secret in turn, in list order. */
  function Redact(c: bytes, rs: Replacements): bytes
    decreases |rs|
  {
    if rs == [] then c else Redact(ReplaceAll(c, rs[0].value, rs[0].text), rs[1..])
  }

  datatype Emission = Emission(emit: bytes, tail: bytes)

  /** Splits scrubbed text into what is sent now and the tail held back. */
  function Cut(c: bytes, keep: nat): Emission {
    if |c| <= keep then Emission([], c) else Emission(c[..|c| - keep], c[|c| - keep..])
  }

  /** Scrubs the chunks one call after another, starting from a held tail. */
  function Run(rs: Replacements, keep: nat, tail: bytes, chunks: seq<bytes>): Emission
    decreases |chunks|
  {
    if chunks == [] then Emission([], tail)
    else
      var now := Cut(Redact(tail + chunks[0], rs), keep);
      var later := Run(rs, keep, now.tail, chunks[1..]);
      Emission(now.emit + later.emit, later.tail)
  }

  /** Everything sent for the chunks, the final flush included. */
  function Output(rs: Replacements, keep: nat, chunks: seq<bytes>): bytes {
    var r := Run(rs, keep, [], chunks);
    r.emit + Redact(r.tail, rs)
  }

  // ---------------------------------------------------------------- one secret

  predicate EndsAlike(p: bytes, mark: bytes) {
    IsSuffix(p, mark) || IsSuffix(mark, p)
  }

  /** A proper non-empty prefix of `v` ends the way the marker ends, so a marker
      followed by more input can be mistaken for the start of the secret. */
  ghost predicate Straddles(v: bytes, mark: bytes) {
    exists e :: 1 <= e < |v| && EndsAlike(v[..e], mark)
  }

  /** Where ReplaceAll changes the length it has inserted a marker. */
  lemma {:induction false} MarkerInserted(s: bytes, v: bytes, mark: bytes) returns (p: nat)
    requires v != [] && ReplaceAll(s, v, mark) != s
    ensures At(ReplaceAll(s, v, mark), mark, p)
    decreases |s|
  {
    if v <= s {
      p := 0;
    } else {
      assert s == [s[0]] + s[1..];
      p := MarkerInserted(s[1..], v, mark);
      assert ReplaceAll(s, v, mark)[p + 1..p + 1 + |mark|] == ReplaceAll(s[1..], v, mark)[p..p + |mark|];
      p := p + 1;
    }
  }

  /** Text in which no secret starts passes through unchanged. */
  lemma {:induction false} PassThrough(t: bytes, k: nat, v: bytes, mark: bytes)
    requires v != [] && k <= |t|
    requires forall i :: 0 <= i < k ==> !At(t, v, i)
    ensures ReplaceAll(t, v, mark) == t[..k] + ReplaceAll(t[k..], v, mark)
    decreases k
  {
    hide ReplaceAll;
    if k == 0 {
      assert t[0..] == t && t[..0] == [];
    } else {
      forall i | 0 <= i < k - 1 ensures !At(t[1..], v, i) {
        AtTail(t, v, i + 1);
      }
      PassThrough(t[1..], k - 1, v, mark);
      HeadStep(t, v, mark);
      assert t[1..][k - 1..] == t[k..];
      assert t[..k] == [t[0]] + t[1..][..k - 1];
    }
  }

  lemma AtTail(t: bytes, v: bytes, i: int)
    requires 0 < i && t != []
    ensures At(t, v, i) <==> At(t[1..], v, i - 1)
  {
    if i + |v| <= |t| {
      assert t[1..][i - 1..i - 1 + |v|] == t[i..i + |v|];
    }
  }

  /** The scan copies one byte when no secret starts at the front. */
  lemma HeadStep(t: bytes, v: bytes, mark: bytes)
    requires v != [] && t != [] && !At(t, v, 0)
    ensures ReplaceAll(t, v, mark) == [t[0]] + ReplaceAll(t[1..], v, mark)
  {
    if |t| < |v| {
      assert t == [t[0]] + t[1..];
    } else {
      assert t[0..|v|] == t[..|v|];
    }
  }

  function Held(c: bytes, keep: nat): nat { if |c| <= keep then 0 else |c| - keep }

  /** What one scan step copies or inserts, what it consumes, and the result. */
  lemma ScanStep(z: bytes, y: bytes, v: bytes, mark: bytes) returns (h: bytes, w: bytes)
    requires 0 < |v| <= |z|
    ensures |w| < |z|
    ensures if v <= z then h == mark && w == z[|v|..] else h == [z[0]] && w == z[1..]
    ensures ReplaceAll(z, v, mark) == h + ReplaceAll(w, v, mark)
    ensures ReplaceAll(z + y, v, mark) == h + ReplaceAll(w + y, v, mark)
  {
    if v <= z {
      h, w := mark, z[|v|..];
      assert (z + y)[..|v|] == z[..|v|] && (z + y)[|v|..] == w + y;
    } else {
      h, w := [z[0]], z[1..];
      assert (z + y)[..|v|] == z[..|v|] && (z + y)[1..] == w + y;
    }
  }

  /** Resuming from the held tail gives what one scan of everything gives. */
  lemma {:induction false} Resume(z: bytes, y: bytes, v: bytes, mark: bytes)
    requires v != [] && !Straddles(v, mark)
    ensures Resumes(ReplaceAll(z + y, v, mark), ReplaceAll(z, v, mark), y, v, mark)
    decreases |z|
  {
    if |z| < |v| {
      assert z[..0] == [] && z[0..] == z;
    } else {
      var h, w := ScanStep(z, y, v, mark);
      Resume(w, y, v, mark);
      ResumeStep(z, h, ReplaceAll(w + y, v, mark), ReplaceAll(w, v, mark), y, v, mark);
    }
  }

  /** The whole result `r` is the emitted part of `d` and the rescan of its tail. */
  ghost predicate Resumes(r: bytes, d: bytes, y: bytes, v: bytes, mark: bytes)
    requires v != []
  {
    var j := Held(d, |v| - 1);
    r == d[..j] + ReplaceAll(d[j..] + y, v, mark)
  }

  lemma ResumeStep(z: bytes, h: bytes, r1: bytes, d1: bytes, y: bytes, v: bytes, mark: bytes)
    requires 0 < |v| <= |z| && !Straddles(v, mark)
    requires if v <= z then h == mark else h == [z[0]] && d1 == ReplaceAll(z[1..], v, mark)
    requires Resumes(r1, d1, y, v, mark)
    ensures Resumes(h + r1, h + d1, y, v, mark)
  {
    if |d1| >= |v| - 1 {
      ResumeLong(h, r1, d1, y, v, mark);
    } else {
      ResumeShort(z, h, d1, y, v, mark);
    }
  }

  /** The case of ResumeStep where the newest text is emitted at once. */
  lemma ResumeLong(h: bytes, r1: bytes, d1: bytes, y: bytes, v: bytes, mark: bytes)
    requires v != [] && |d1| >= |v| - 1 && Resumes(r1, d1, y, v, mark)
    ensures Resumes(h + r1, h + d1, y, v, mark)
  {
    CutShift(h, d1, |v| - 1);
    var j1 := Held(d1, |v| - 1);
    Assoc(h, d1[..j1], ReplaceAll(d1[j1..] + y, v, mark));
  }

  lemma CutShift(h: bytes, d: bytes, keep: nat)
    requires |d| >= keep
    ensures Held(h + d, keep) == |h| + Held(d, keep)
    ensures (h + d)[..Held(h + d, keep)] == h + d[..Held(d, keep)]
    ensures (h + d)[Held(h + d, keep)..] == d[Held(d, keep)..]
  {
  }

  /** The case of ResumeStep where part of the newest text stays in the tail. */
  lemma ResumeShort(z: bytes, h: bytes, d1: bytes, y: bytes, v: bytes, mark: bytes)
    requires 0 < |v| <= |z| && !Straddles(v, mark) && |d1| < |v| - 1
    requires if v <= z then h == mark else h == [z[0]] && d1 == ReplaceAll(z[1..], v, mark)
    ensures Resumes(h + ReplaceAll(d1 + y, v, mark), h + d1, y, v, mark)
  {
    hide ReplaceAll, Straddles, At, Resumes;
    var j := Held(h + d1, |v| - 1);
    var m := h[j..];
    if v <= z {
      assert IsSuffix(m, mark);
    } else {
      assert m == if j == 0 then h else [];
    }
    NoFalseStart(z, m, d1, y, v, mark);
    ShortTail(h, d1, y, v, mark, j);
  }

  lemma ShortTail(h: bytes, d1: bytes, y: bytes, v: bytes, mark: bytes, j: nat)
    requires v != [] && j == Held(h + d1, |v| - 1) <= |h|
    requires forall i :: 0 <= i < |h[j..]| ==> !At(h[j..] + (d1 + y), v, i)
    ensures Resumes(h + ReplaceAll(d1 + y, v, mark), h + d1, y, v, mark)
  {
    hide ReplaceAll, At, Held;
    var m, rest := h[j..], ReplaceAll(d1 + y, v, mark);
    TailOfSum(h, d1, y, j);
    PassThrough(m + (d1 + y), |m|, v, mark);
    SplitSum(m, d1 + y);
    Assoc(h[..j], m, rest);
    assert h == h[..j] + m;
  }

  lemma TailOfSum(h: bytes, d: bytes, y: bytes, j: nat)
    requires j <= |h|
    ensures (h + d)[j..] + y == h[j..] + (d + y) && (h + d)[..j] == h[..j]
  {
  }

  /** What is kept of the newest text cannot start a secret. */
  lemma NoFalseStart(z: bytes, m: bytes, d1: bytes, y: bytes, v: bytes, mark: bytes)
    requires 0 < |v| <= |z| && !Straddles(v, mark) && |m| + |d1| < |v|
    requires if v <= z then IsSuffix(m, mark)
             else m == [] || (m == [z[0]] && d1 == ReplaceAll(z[1..], v, mark))
    ensures forall i :: 0 <= i < |m| ==> !At(m + (d1 + y), v, i)
  {
    forall i | 0 <= i < |m| ensures !At(m + (d1 + y), v, i) {
      if At(m + (d1 + y), v, i) {
        if v <= z {
          MarkerTailStart(m, i, d1 + y, v, mark);
        } else {
          ShrunkStart(z, d1, y, v, mark);
        }
      }
    }
  }

  lemma MarkerTailStart(m: bytes, i: nat, s: bytes, v: bytes, mark: bytes)
    requires IsSuffix(m, mark) && i < |m| < |v| && At(m + s, v, i)
    ensures Straddles(v, mark)
  {
    var e := |m| - i;
    assert v[..e] == (m + s)[i..|m|] == m[i..];
    assert mark[|mark| - e..] == m[i..];
    assert EndsAlike(v[..e], mark);
  }

  lemma ShrunkStart(z: bytes, d1: bytes, y: bytes, v: bytes, mark: bytes)
    requires 0 < |v| <= |z| && d1 == ReplaceAll(z[1..], v, mark) && 1 + |d1| < |v|
    requires At([z[0]] + (d1 + y), v, 0)
    ensures Straddles(v, mark)
  {
    assert |d1| != |z[1..]|;
    var p := MarkerInserted(z[1..], v, mark);
    ContainedMarker(z[0], d1, p, y, v, mark);
  }

  lemma ContainedMarker(c: byte, d1: bytes, p: nat, y: bytes, v: bytes, mark: bytes)
    requires At(d1, mark, p) && 1 + |d1| < |v| && At([c] + (d1 + y), v, 0)
    ensures Straddles(v, mark)
  {
    var e := 1 + p + |mark|;
    var t := [c] + (d1 + y);
    assert v[..e][e - |mark|..] == t[e - |mark|..e] == d1[p..p + |mark|];
    assert EndsAlike(v[..e], mark);
  }

  /** The state of a single-secret scrubber stands for the input seen so far:
      whatever follows, what was sent plus a scan of tail and rest is one scan. */
  lemma {:induction false} RunResumes(v: bytes, mark: bytes, tail: bytes, chunks: seq<bytes>)
    requires v != [] && !Straddles(v, mark)
    ensures var r := Run([Replacement(v, mark)], |v| - 1, tail, chunks);
            r.emit + ReplaceAll(r.tail, v, mark) == ReplaceAll(tail + Concat(chunks), v, mark)
    decreases |chunks|
  {
    if chunks == [] {
      assert tail + [] == tail;
    } else {
      var z, y := tail + chunks[0], Concat(chunks[1..]);
      var now := Cut(ReplaceAll(z, v, mark), |v| - 1);
      RedactOne(z, v, mark);
      Resume(z, y, v, mark);
      RunResumes(v, mark, now.tail, chunks[1..]);
      var later := Run([Replacement(v, mark)], |v| - 1, now.tail, chunks[1..]);
      Assoc(now.emit, later.emit, ReplaceAll(later.tail, v, mark));
      Assoc(tail, chunks[0], y);
    }
  }

  lemma RedactOne(c: bytes, v: bytes, mark: bytes)
    requires v != []
    ensures Redact(c, [Replacement(v, mark)]) == ReplaceAll(c, v, mark)
  {
    assert [Replacement(v, mark)][1..] == [];
  }

  /** Chunked scrubbing of one secret is one ReplaceAll over the stream. */
  lemma OneShot(v: bytes, mark: bytes, chunks: seq<bytes>)
    requires v != [] && !Straddles(v, mark)
    ensures Output([Replacement(v, mark)], |v| - 1, chunks) == ReplaceAll(Concat(chunks), v, mark)
  {
    RunResumes(v, mark, [], chunks);
    RedactOne(Run([Replacement(v, mark)], |v| - 1, [], chunks).tail, v, mark);
    assert [] + Concat(chunks) == Concat(chunks);
  }

  // ------------------------------------------------- why Straddles is the exact condition

  lemma {:induction false} LengthBound(s: bytes, v: bytes, mark: bytes)
    requires v != []
    ensures |v| <= |mark| ==> |s| <= |ReplaceAll(s, v, mark)|
    ensures |v| >= |mark| ==> |s| >= |ReplaceAll(s, v, mark)|
    decreases |s|
  {
    if |s| >= |v| {
      LengthBound(if v <= s then s[|v|..] else s[1..], v, mark);
    }
  }

  /** Replacing an occurring secret other than the marker changes the text. */
  lemma {:induction false} Changes(d: bytes, v: bytes, mark: bytes, i: nat)
    requires v != [] && v != mark && At(d, v, i)
    ensures ReplaceAll(d, v, mark) != d
    decreases i
  {
    if v <= d {
      LengthBound(d[|v|..], v, mark);
      if |v| == |mark| {
        assert d[..|v|] == v && (mark + ReplaceAll(d[|v|..], v, mark))[..|v|] == mark;
      }
    } else {
      assert i != 0 by { assert d[0..|v|] == d[..|v|]; }
      AtTail(d, v, i);
      Changes(d[1..], v, mark, i - 1);
      assert d[1..] == ([d[0]] + d[1..])[1..];
      assert ReplaceAll(d, v, mark)[1..] == ReplaceAll(d[1..], v, mark);
    }
  }

  /** A copy of the secret overlapping itself carries a marker in it further left. */
  lemma EarlierMarker(v: bytes, mark: bytes, e: nat, i: nat)
    requires |mark| < e < |v| && EndsAlike(v[..e], mark)
    requires i < e - |mark| && At(v[..e - |mark|] + v, v, i)
    ensures EndsAlike(v[..|mark| + i], mark)
  {
    var a := v[..e - |mark|];
    var f := |mark| + i;
    assert v[..e][|a|..] == mark;
    forall k | 0 <= k < |mark| ensures v[i + k] == mark[k] {
      assert v[|a| + k] == mark[k];
      assert (a + v)[i..i + |v|][|a| + k] == (a + v)[i + |a| + k] == v[i + k];
    }
    assert v[..f][f - |mark|..] == mark;
  }

  /** One chunk holding the secret behind `a`, when no copy starts earlier. */
  lemma ScanBehind(a: bytes, v: bytes, mark: bytes, b: bytes)
    requires v != [] && |b| < |v|
    requires forall i :: 0 <= i < |a| ==> !At(a + v, v, i)
    ensures ReplaceAll(a + v + b, v, mark) == a + mark + b
  {
    Assoc(a, v, b);
    NoStartAppend(a, v, b);
    SplitSum(a, v + b);
    PassThrough(a + (v + b), |a|, v, mark);
    FrontCopy(v, mark, b);
    Assoc(a, mark, b);
  }

  lemma NoStartAppend(a: bytes, v: bytes, b: bytes)
    requires forall i :: 0 <= i < |a| ==> !At(a + v, v, i)
    ensures forall i :: 0 <= i < |a| ==> !At(a + (v + b), v, i)
  {
    forall i | 0 <= i < |a| ensures !At(a + (v + b), v, i) {
      assert !At(a + v, v, i);
      assert (a + (v + b))[i..i + |v|] == (a + v)[i..i + |v|];
    }
  }

  lemma FrontCopy(v: bytes, mark: bytes, b: bytes)
    requires v != [] && |b| < |v|
    ensures ReplaceAll(v + b, v, mark) == mark + b
  {
    assert (v + b)[..|v|] == v && (v + b)[|v|..] == b;
  }

  /** Two chunks and a flush: the second chunk is scanned behind the held tail. */
  lemma TwoChunks(v: bytes, mark: bytes, c1: bytes, c2: bytes)
    requires v != []
    ensures var now := Cut(ReplaceAll(c1, v, mark), |v| - 1);
            Output([Replacement(v, mark)], |v| - 1, [c1, c2]) == now.emit + ReplaceAll(now.tail + c2, v, mark)
  {
    var keep := |v| - 1;
    var now := Cut(ReplaceAll(c1, v, mark), keep);
    assert [c1, c2][1..] == [c2] && [] + c1 == c1;
    RedactOne(c1, v, mark);
    LastChunk(v, mark, now.tail, c2);
    var last := Run([Replacement(v, mark)], keep, now.tail, [c2]);
    RedactOne(last.tail, v, mark);
    Assoc(now.emit, last.emit, last.tail);
  }

  lemma LastChunk(v: bytes, mark: bytes, tail: bytes, c: bytes)
    requires v != []
    ensures var r := Run([Replacement(v, mark)], |v| - 1, tail, [c]);
            |r.tail| < |v| && r.emit + r.tail == ReplaceAll(tail + c, v, mark)
  {
    RedactOne(tail + c, v, mark);
    var last := Cut(ReplaceAll(tail + c, v, mark), |v| - 1);
    assert [c][1..] == [] && last.emit + [] == last.emit;
  }

  /** The shortest marker-like prefix and the two chunks that tell the scans apart. */
  lemma StraddleBreaks(v: bytes, mark: bytes) returns (chunks: seq<bytes>)
    requires v != [] && v != mark && mark != [] && Straddles(v, mark)
    ensures Output([Replacement(v, mark)], |v| - 1, chunks) != ReplaceAll(Concat(chunks), v, mark)
  {
    var e := ShortestPrefix(v, mark);
    var a := if e > |mark| then v[..e - |mark|] else [];
    var b := v[e..];
    chunks := [a + v, b];
    forall i | 0 <= i < |a| ensures !At(a + v, v, i) {
      if At(a + v, v, i) {
        EarlierMarker(v, mark, e, i);
      }
    }
    HeldPrefix(v, mark, e, a);
    ConcatTwo(a + v, b);
    RescanDiffers(v, mark, e, a, b);
  }

  lemma RescanDiffers(v: bytes, mark: bytes, e: nat, a: bytes, b: bytes)
    requires e < |v| && v != mark && b == v[e..]
    requires forall i :: 0 <= i < |a| ==> !At(a + v, v, i)
    requires e > 0 && IsSuffix(v[..e], Cut(a + mark, |v| - 1).tail)
    ensures Output([Replacement(v, mark)], |v| - 1, [a + v, b]) != ReplaceAll(a + v + b, v, mark)
  {
    hide ReplaceAll, Output, Run, Redact;
    ScanBehind(a, v, mark, b);
    ScanBehind(a, v, mark, []);
    assert a + v + [] == a + v && a + mark + [] == a + mark;
    TwoChunks(v, mark, a + v, b);
    var now := Cut(a + mark, |v| - 1);
    JoinAt(v, e, now.tail);
    Changes(now.tail + b, v, mark, |now.tail| - e);
    assert a + mark == now.emit + now.tail;
    Assoc(now.emit, now.tail, b);
    DifferAfter(now.emit, now.tail + b, ReplaceAll(now.tail + b, v, mark));
  }

  lemma DifferAfter(x: bytes, a: bytes, b: bytes)
    requires a != b
    ensures x + a != x + b
  {
    SplitSum(x, a);
    SplitSum(x, b);
  }

  lemma JoinAt(v: bytes, e: nat, t: bytes)
    requires e <= |v| && IsSuffix(v[..e], t)
    ensures At(t + v[e..], v, |t| - e)
  {
    var x := |t| - e;
    assert t == t[..x] + v[..e] && v == v[..e] + v[e..];
    assert t + v[e..] == t[..x] + v;
  }

  lemma ShortestPrefix(v: bytes, mark: bytes) returns (e: nat)
    requires Straddles(v, mark)
    ensures 1 <= e < |v| && EndsAlike(v[..e], mark)
    ensures forall f :: 1 <= f < e ==> !EndsAlike(v[..f], mark)
  {
    e :| 1 <= e < |v| && EndsAlike(v[..e], mark);
    while exists f :: 1 <= f < e && EndsAlike(v[..f], mark)
      invariant 1 <= e < |v| && EndsAlike(v[..e], mark)
      decreases e
    {
      var f :| 1 <= f < e && EndsAlike(v[..f], mark);
      e := f;
    }
  }

  /** The held tail still ends in the marker-like prefix. */
  lemma HeldPrefix(v: bytes, mark: bytes, e: nat, a: bytes)
    requires 1 <= e < |v| && EndsAlike(v[..e], mark)
    requires a == if e > |mark| then v[..e - |mark|] else []
    ensures IsSuffix(v[..e], Cut(a + mark, |v| - 1).tail)
  {
    hide Cut;
    if e > |mark| {
      assert v[..e][..e - |mark|] == a && v[..e][e - |mark|..] == mark;
      assert v[..e] == a + mark;
    } else {
      assert a + mark == mark;
    }
    SuffixOfTail(v[..e], a + mark, |v| - 1);
  }

  lemma SuffixOfTail(p: bytes, d: bytes, keep: nat)
    requires IsSuffix(p, d) && |p| <= keep
    ensures IsSuffix(p, Cut(d, keep).tail)
  {
    var t := Cut(d, keep).tail;
    assert t == d[|d| - |t|..];
    assert t[|t| - |p|..] == d[|d| - |p|..];
  }

  // ------------------------------------------------- the marker the terminal uses

  /** "[redacted]" */
  const MARKER: bytes := [0x5b, 0x72, 0x65, 0x64, 0x61, 0x63, 0x74, 0x65, 0x64, 0x5d]
  const OPEN: byte := 0x5b
  const CLOSE: byte := 0x5d

  lemma MarkerHasNoBorder()
    ensures !Straddles(MARKER, MARKER)
  {
    forall e | 1 <= e < |MARKER| ensures !EndsAlike(MARKER[..e], MARKER) {
      assert MARKER[..e][0] == OPEN && MARKER[|MARKER| - e..][0] == MARKER[|MARKER| - e];
    }
  }

  /** Exactly the secrets that do not straddle the marker are scrubbed the same
      however the stream is cut into chunks. */
  lemma OneShotIff(v: bytes)
    requires v != []
    ensures (forall chunks :: Output([Replacement(v, MARKER)], |v| - 1, chunks)
                              == ReplaceAll(Concat(chunks), v, MARKER))
            <==> !Straddles(v, MARKER)
  {
    if Straddles(v, MARKER) {
      MarkerHasNoBorder();
      var chunks := StraddleBreaks(v, MARKER);
    } else {
      forall chunks
        ensures Output([Replacement(v, MARKER)], |v| - 1, chunks)
                == ReplaceAll(Concat(chunks), v, MARKER)
      {
        OneShot(v, MARKER, chunks);
      }
    }
  }

  /** A secret whose only closing bracket, if any, is its last byte does not straddle. */
  lemma NoCloseNoStraddle(v: bytes)
    requires forall i :: 0 <= i < |v| - 1 ==> v[i] != CLOSE
    ensures !Straddles(v, MARKER)
  {
    forall e | 1 <= e < |v| ensures !EndsAlike(v[..e], MARKER) {
      assert MARKER[|MARKER| - 1] == CLOSE && v[..e][e - 1] == v[e - 1];
      if e <= |MARKER| {
        assert MARKER[|MARKER| - e..][e - 1] == CLOSE;
      }
      if e >= |MARKER| {
        assert v[..e][e - |MARKER|..][|MARKER| - 1] == v[e - 1];
      }
    }
  }
}

/** Two secrets: what one can do for the other to be shown. */
module SecretPairs {
  import opened Bytes
  import opened Redaction
  import opened SecretSets
  import opened SecretShown

  /** No byte is in both. */
  predicate Disjoint(x: bytes, y: bytes) { forall b :: b in x ==> b !in y }

  function Pair(u: bytes, q: bytes): Replacements
    requires u != [] && q != []
  {
    [Replacement(u, MARKER), Replacement(q, MARKER)]
  }

  /** What is sent for the chunks, the first secret being the longer one. */
  function PairOutput(u: bytes, q: bytes, chunks: seq<bytes>): bytes
    requires u != [] && q != []
  {
    Output(Pair(u, q), |u| - 1, chunks)
  }

  lemma RedactPair(c: bytes, u: bytes, q: bytes)
    requires u != [] && q != []
    ensures Redact(c, Pair(u, q)) == ReplaceAll(ReplaceAll(c, u, MARKER), q, MARKER)
  {
    hide ReplaceAll;
    assert Pair(u, q)[1..] == [Replacement(q, MARKER)];
    RedactOne(ReplaceAll(c, u, MARKER), q, MARKER);
  }

  lemma Untouched(s: bytes, v: bytes)
    requires v != [] && !Contains(s, v)
    ensures ReplaceAll(s, v, MARKER) == s
  {
    hide ReplaceAll, At;
    assert NoCopyBefore(s, v, |s|);
    NothingReplaced(s, v);
  }

  lemma BothUntouched(s: bytes, u: bytes, q: bytes)
    requires u != [] && q != [] && !Contains(s, u) && !Contains(s, q)
    ensures Redact(s, Pair(u, q)) == s
  {
    hide ReplaceAll, Contains;
    RedactPair(s, u, q);
    Untouched(s, u);
    Untouched(s, q);
  }

  lemma ByteOf(s: bytes, v: bytes, i: int, k: nat)
    requires At(s, v, i) && k < |v|
    ensures s[i + k] in v
  {
    assert s[i + k] == s[i..i + |v|][k] == v[k];
  }

  /** A text too short for the secret, before bytes that are none of the secret's. */
  lemma ShortBefore(x: bytes, y: bytes, v: bytes)
    requires |x| < |v| && Disjoint(y, v)
    ensures !Contains(x + y, v)
  {
    if Contains(x + y, v) {
      var i :| At(x + y, v, i);
      ByteOf(x + y, v, i, |v| - 1);
      InSecond(x, y, i + |v| - 1);
    }
  }

  lemma InSecond(x: bytes, y: bytes, k: nat)
    requires |x| <= k < |x| + |y|
    ensures (x + y)[k] in y
  {
    assert (x + y)[k] == y[k - |x|];
  }

  /** The same behind them. */
  lemma ShortBehind(x: bytes, y: bytes, v: bytes)
    requires |y| < |v| && Disjoint(x, v)
    ensures !Contains(x + y, v)
  {
    if Contains(x + y, v) {
      var i :| At(x + y, v, i);
      ByteOf(x + y, v, i, 0);
    }
  }

  lemma SuffixFree(s: bytes, k: nat, v: bytes)
    requires k <= |s| && !Contains(s, v)
    ensures !Contains(s[k..], v)
  {
    if Contains(s[k..], v) {
      SuffixAt(s, k, v);
    }
  }

  lemma ShorterFree(s: bytes, v: bytes)
    requires |s| < |v|
    ensures !Contains(s, v)
  {
  }

  /** A single chunk that leaves no secret in its tail. */
  lemma PairOneChunk(u: bytes, q: bytes, s: bytes, d: bytes)
    requires u != [] && q != [] && d == Redact(s, Pair(u, q))
    requires !Contains(Cut(d, |u| - 1).tail, q)
    ensures PairOutput(u, q, [s]) == d
  {
    hide Redact, Contains;
    var rs, now := Pair(u, q), Cut(d, |u| - 1);
    RunOne(rs, |u| - 1, [], s);
    assert [] + s == s && now.emit + now.tail == d;
    ShorterFree(now.tail, u);
    BothUntouched(now.tail, u, q);
  }

  lemma RunOne(rs: Replacements, keep: nat, t: bytes, c: bytes)
    ensures Run(rs, keep, t, [c]) == Cut(Redact(t + c, rs), keep)
  {
    hide Redact;
    var now := Cut(Redact(t + c, rs), keep);
    assert [c][1..] == [] && Run(rs, keep, now.tail, []) == Emission([], now.tail);
    assert now.emit + [] == now.emit;
  }

  // ---------------------------------------------------------------- the longer one is shown

  lemma ReplaceMiddle(a: bytes, q: bytes, b: bytes)
    requires q != [] && Disjoint(a, q) && !Contains(b, q)
    ensures ReplaceAll(a + (q + b), q, MARKER) == a + (MARKER + b)
  {
    var s := a + (q + b);
    assert s[..|a|] == a && s[|a|..] == q + b && (q + b)[|q|..] == b && q <= q + b;
    forall i | 0 <= i < |a| ensures !At(s, q, i) {
      if At(s, q, i) {
        ByteOf(s, q, i, 0);
      }
    }
    PassThrough(s, |a|, q, MARKER);
    ScanFront(q + b, q);
    Untouched(b, q);
  }

  /** The other secret becomes the marker that this one stands over. */
  lemma LongerShown(u: bytes, q: bytes, o: int) returns (s: bytes)
    requires u != [] && q != [] && Disjoint(u, q) && MeetsAt(u, o) && Apart(q)
    ensures Contains(PairOutput(u, q, [s]), u)
  {
    hide ReplaceAll, MeetsAt, Contains, Apart, Redact;
    MeetsRange(u, o);
    var a, b := Ahead(u, o), Behind(u, o);
    PiecesOf(u, o);
    s := a + (q + b);
    ShortBefore([], b, q);
    assert [] + b == b;
    NotAround(a, q, b, u);
    RedactPair(s, u, q);
    Untouched(s, u);
    ReplaceMiddle(a, q, b);
    var d := a + (MARKER + b);
    StaysFree(s, q, q);
    CutTail(d, |u| - 1);
    SuffixFree(d, |d| - |Cut(d, |u| - 1).tail|, q);
    PairOneChunk(u, q, s, d);
    StandsOver(u, o);
    Assoc(a, MARKER, b);
  }

  lemma CutTail(d: bytes, keep: nat)
    ensures var t := Cut(d, keep).tail; |t| <= |d| && t == d[|d| - |t|..]
  {
  }

  /** What stands around the marker is part of the secret, and shorter. */
  lemma PiecesOf(u: bytes, o: int)
    requires u != [] && MeetsAt(u, o)
    ensures |Ahead(u, o)| < |u| && (forall b :: b in Ahead(u, o) ==> b in u)
    ensures |Behind(u, o)| < |u| && (forall b :: b in Behind(u, o) ==> b in u)
  {
  }

  lemma NotAround(a: bytes, q: bytes, b: bytes, u: bytes)
    requires |a| < |u| && |b| < |u| && q != [] && Disjoint(u, q)
    ensures !Contains(a + (q + b), u)
  {
    var s := a + (q + b);
    forall i ensures !At(s, u, i) {
      if At(s, u, i) {
        var k := if i <= |a| then |a| - i else 0;
        ByteOf(s, u, i, k);
        InMiddle(a, q, b, i + k);
      }
    }
  }

  lemma InMiddle(a: bytes, q: bytes, b: bytes, k: nat)
    requires |a| <= k < |a| + |q|
    ensures (a + (q + b))[k] in q
  {
    assert (a + (q + b))[k] == q[k - |a|];
  }

  // ---------------------------------------------------------------- the shorter one is shown

  /** The shorter one shows itself, with enough behind it to send it off at once. */
  lemma ShorterShown(u: bytes, q: bytes, o: int) returns (s: bytes)
    requires 0 < |q| <= |u| && Disjoint(u, q) && ShowsAt(q, o)
    ensures Contains(PairOutput(u, q, [s]), q)
  {
    hide ReplaceAll, MeetsAt, Contains, At, Redact;
    MeetsRange(q, o);
    var a, b, f := Ahead(q, o), Behind(q, o), u[..|u| - 1];
    PiecesOf(q, o);
    s := (a + q + b) + f;
    ShortBehind(a + q + b, f, u);
    RedactPair(s, u, q);
    Untouched(s, u);
    var d := (a + MARKER + b) + f;
    SelfScan(q, o, f);
    ShortBefore([], f, q);
    assert [] + f == f && Cut(d, |u| - 1) == Emission(a + MARKER + b, f);
    PairOneChunk(u, q, s, d);
    StandsOver(q, o);
    ContainsMore(a + MARKER + b, f, q);
  }

  lemma ContainsMore(s: bytes, t: bytes, v: bytes)
    requires Contains(s, v)
    ensures Contains(s + t, v)
  {
    var i :| At(s, v, i);
    assert (s + t)[i..i + |v|] == s[i..i + |v|];
    assert At(s + t, v, i);
  }

  lemma FrontReplaced(q: bytes, z: bytes)
    requires q != [] && !Contains(z, q)
    ensures ReplaceAll(q + z, q, MARKER) == MARKER + z
  {
    hide ReplaceAll, Contains;
    assert q <= q + z && (q + z)[|q|..] == z;
    ScanFront(q + z, q);
    Untouched(z, q);
  }

  lemma FrontScan(a: bytes, q: bytes, z: bytes)
    requires q != [] && NoCopyBefore(a + q, q, |a|) && !Contains(z, q)
    ensures ReplaceAll(a + (q + z), q, MARKER) == a + (MARKER + z)
  {
    hide ReplaceAll, Contains, At;
    var s := a + (q + z);
    assert s[..|a|] == a && s[|a|..] == q + z;
    NoStartAppend(a, q, z);
    PassThrough(s, |a|, q, MARKER);
    FrontReplaced(q, z);
  }

  lemma SelfScan(q: bytes, o: int, f: bytes)
    requires q != [] && ShowsAt(q, o) && Disjoint(f, q)
    ensures var a, b := Ahead(q, o), Behind(q, o);
            ReplaceAll((a + q + b) + f, q, MARKER) == (a + MARKER + b) + f
  {
    hide ReplaceAll, Contains, At, MeetsAt;
    MeetsRange(q, o);
    var a, b := Ahead(q, o), Behind(q, o);
    PiecesOf(q, o);
    assert (a + q + b) + f == a + (q + (b + f)) && (a + MARKER + b) + f == a + (MARKER + (b + f));
    assert NoCopyBefore(a + q, q, |a|);
    ShortBefore(b, f, q);
    FrontScan(a, q, b + f);
  }

  /** An overlap that the shorter one cannot reach by itself: its end begins the marker. */
  lemma OnlyEnd(q: bytes, o: int)
    requires MeetsAt(q, o) && !CanShow(q)
    ensures o < 0 && |q| + o <= |MARKER| && !Contains(MARKER, q)
  {
    assert !ShowsAt(q, o);
    if |q| + o > |MARKER| {
      EndsMarker(q, o);
      StraddlerShows(q);
    }
    if Contains(MARKER, q) {
      var i :| At(MARKER, q, i);
      InMarker(q, i);
    }
  }

  lemma InMarker(q: bytes, i: int)
    requires At(MARKER, q, i) && q != []
    ensures ShowsAt(q, i)
  {
    forall k | 0 <= k < |q| && 0 <= i + k < |MARKER| ensures q[k] == MARKER[i + k] {
      assert MARKER[i..i + |q|][k] == MARKER[i + k];
    }
  }

  lemma EndsMarker(q: bytes, o: int)
    requires MeetsAt(q, o) && o < 0 && |q| + o > |MARKER|
    ensures Straddles(q, MARKER)
  {
    var e := |MARKER| - o;
    forall k | 0 <= k < |MARKER| ensures q[..e][-o..][k] == MARKER[k] {
      assert q[k - o] == MARKER[o + (k - o)];
    }
    assert q[..e][e - |MARKER|..] == MARKER;
    assert EndsAlike(q[..e], MARKER);
  }

  /** The longer one becomes the marker, behind what was sent off already. */
  lemma ShorterShownLate(u: bytes, q: bytes, o: int) returns (chunks: seq<bytes>)
    requires 0 < |q| <= |u| && Disjoint(u, q) && MeetsAt(q, o) && !CanShow(q)
    ensures Contains(PairOutput(u, q, chunks), q)
  {
    hide ReplaceAll, MeetsAt, Contains, At, Redact, CanShow, Output, Run;
    OnlyEnd(q, o);
    MeetsRange(q, o);
    var a, f, l := q[..-o], u[..|u| - 1], [u[|u| - 1]];
    chunks := [a + f, l];
    ShortBehind(a, f, u);
    ShortBefore(a, f, q);
    BothUntouched(a + f, u, q);
    assert Cut(a + f, |u| - 1) == Emission(a, f) && f + l == u;
    TwoChunkOutput(Pair(u, q), |u| - 1, a + f, l);
    MarkerAlone(u, q);
    MarkerTail(u, q);
    assert a + MARKER + [] == a + MARKER;
    StandsOver(q, o);
  }

  /** A marker, cut in two or not, stays a marker. */
  lemma MarkerTail(u: bytes, q: bytes)
    requires u != [] && q != [] && !Contains(MARKER, q)
    ensures var now := Cut(MARKER, |u| - 1); now.emit + Redact(now.tail, Pair(u, q)) == MARKER
  {
    hide Contains, Redact;
    var now := Cut(MARKER, |u| - 1);
    CutTail(MARKER, |u| - 1);
    SuffixFree(MARKER, |MARKER| - |now.tail|, q);
    ShorterFree(now.tail, u);
    BothUntouched(now.tail, u, q);
  }

  lemma TwoChunkOutput(rs: Replacements, keep: nat, c1: bytes, c2: bytes)
    ensures var now := Cut(Redact(c1, rs), keep); var next := Cut(Redact(now.tail + c2, rs), keep);
            Output(rs, keep, [c1, c2]) == now.emit + (next.emit + Redact(next.tail, rs))
  {
    hide Redact;
    assert [] + c1 == c1;
    var now := Cut(Redact(c1, rs), keep);
    var next := Cut(Redact(now.tail + c2, rs), keep);
    assert [c1, c2][1..] == [c2];
    RunOne(rs, keep, now.tail, c2);
    Assoc(now.emit, next.emit, Redact(next.tail, rs));
  }

  lemma MarkerAlone(u: bytes, q: bytes)
    requires u != [] && q != [] && !Contains(MARKER, q)
    ensures Redact(u, Pair(u, q)) == MARKER
  {
    hide Contains;
    RedactPair(u, u, q);
    ScanFront(u, u);
    assert u[|u|..] == [] && MARKER + [] == MARKER && ReplaceAll([], u, MARKER) == [];
    Untouched(MARKER, q);
  }

  // ---------------------------------------------------------------- exactly when

  ghost predicate PairShows(u: bytes, q: bytes, chunks: seq<bytes>)
    requires u != [] && q != []
  {
    Contains(PairOutput(u, q, chunks), u) || Contains(PairOutput(u, q, chunks), q)
  }

  /** For two secrets without a common byte, some way of cutting some stream shows one of them
      if and only if one of them can overlap the marker. */
  lemma PairShownIff(u: bytes, q: bytes)
    requires 0 < |q| <= |u| && Disjoint(u, q)
    ensures (exists chunks :: PairShows(u, q, chunks)) <==> !Apart(u) || !Apart(q)
  {
    hide Contains, PairOutput;
    if Apart(u) && Apart(q) {
      forall chunks ensures !PairShows(u, q, chunks) {
        PairHidden(u, q, chunks);
      }
    } else {
      var chunks := PairShown(u, q);
      assert PairShows(u, q, chunks);
    }
  }

  lemma PairHidden(u: bytes, q: bytes, chunks: seq<bytes>)
    requires 0 < |q| <= |u| && Apart(u) && Apart(q)
    ensures !PairShows(u, q, chunks)
  {
    hide Contains, Apart, Output;
    var rs := Pair(u, q);
    assert rs[0] in rs && rs[1] in rs;
    NeverShown(rs, |u| - 1, chunks, u);
    NeverShown(rs, |u| - 1, chunks, q);
  }

  lemma PairShown(u: bytes, q: bytes) returns (chunks: seq<bytes>)
    requires 0 < |q| <= |u| && Disjoint(u, q) && (!Apart(u) || !Apart(q))
    ensures PairShows(u, q, chunks)
  {
    hide Contains, MeetsAt, PairOutput;
    if Apart(q) {
      var o :| MeetsAt(u, o);
      var s := LongerShown(u, q, o);
      chunks := [s];
    } else if CanShow(q) {
      var o := OffsetOf(q);
      var s := ShorterShown(u, q, o);
      chunks := [s];
    } else {
      var o :| MeetsAt(q, o);
      chunks := ShorterShownLate(u, q, o);
    }
  }

  /** "[x[x[", which no stream shows when it is the only secret, is shown with "q" beside it. */
  lemma HiddenAloneShownBeside() returns (u: bytes, q: bytes, s: bytes)
    ensures u == [0x5b, 0x78, 0x5b, 0x78, 0x5b] && q == [0x71]
    ensures !CanShow(u) && Apart(q) && Contains(PairOutput(u, q, [s]), u)
  {
    hide PairOutput, Contains;
    u := OverlapsYetHidden();
    q := [0x71];
    assert MeetsAt(u, -4);
    NotInMarker(q);
    PlainIsApart(q);
    s := LongerShown(u, q, -4);
  }

  lemma NotInMarker(q: bytes)
    requires |q| == 1 && q[0] !in MARKER
    ensures !Contains(MARKER, q)
  {
    forall i ensures !At(MARKER, q, i) {
      if 0 <= i < |MARKER| {
        assert MARKER[i..i + 1][0] == MARKER[i];
      }
    }
  }

  /** With common bytes an overlap is not enough: "]ab" can overlap the marker, and is shown
      when it is the only secret, but never with "b" beside it. */
  lemma ShownAloneHiddenBeside() returns (u: bytes, q: bytes)
    ensures u == [0x5d, 0x61, 0x62] && q == [0x62]
    ensures CanShow(u) && !Apart(u) && forall chunks :: !PairShows(u, q, chunks)
  {
    u, q := [0x5d, 0x61, 0x62], [0x62];
    assert MeetsAt(u, 9);
    assert ShowsAt(u, 9);
    NotInMarker(q);
    PlainIsApart(q);
    assert u[2..3] == q;
    assert At(u, q, 2);
    var rs := Pair(u, q);
    assert rs[1] in rs;
    forall chunks ensures !PairShows(u, q, chunks) {
      NeverShown(rs, 2, chunks, q);
      PartNeverShown(rs, 2, chunks, u, q);
    }
  }
}

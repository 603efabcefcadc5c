/** One secret: exactly when some stream shows it in spite of the scrubber. */
module SecretShown {
  import opened Bytes
  import opened Redaction
  import opened SecretSets

  /** The secret can stand over a marker from offset o, and a stream can get there: no copy of
      the secret starts earlier than the one that becomes the marker. */
  ghost predicate ShowsAt(v: bytes, o: int) {
    MeetsAt(v, o) && (o < 0 ==> NoCopyBefore(v[..-o] + v, v, -o))
  }

  predicate NoCopyBefore(s: bytes, v: bytes, n: int) {
    forall i :: 0 <= i < n ==> !At(s, v, i)
  }

  ghost predicate CanShow(v: bytes) { exists o :: ShowsAt(v, o) }

  /** The secret occurs in what is sent for the chunks. */
  ghost predicate Shown(v: bytes, chunks: seq<bytes>)
    requires v != []
  {
    Contains(Output([Replacement(v, MARKER)], |v| - 1, chunks), v)
  }

  // ---------------------------------------------------------------- a stream that shows it

  /** What precedes and what follows a marker over which the secret stands. */
  function Ahead(v: bytes, o: int): bytes
    requires -|v| < o
  {
    if o < 0 then v[..-o] else []
  }

  function Behind(v: bytes, o: int): bytes
    requires -|v| < o < |MARKER|
  {
    if |v| + o > |MARKER| then v[|MARKER| - o..] else []
  }

  lemma StandsOver(v: bytes, o: int)
    requires MeetsAt(v, o)
    ensures Contains(Ahead(v, o) + MARKER + Behind(v, o), v)
  {
    var a, b := Ahead(v, o), Behind(v, o);
    var s, p := a + MARKER + b, if o < 0 then 0 else o;
    forall k | 0 <= k < |v| ensures s[p + k] == v[k] {
      if o + k < 0 {
        assert s[p + k] == a[k];
      } else if o + k < |MARKER| {
        assert s[p + k] == MARKER[o + k];
      } else {
        assert s[p + k] == b[o + k - |MARKER|];
      }
    }
    assert s[p..p + |v|] == v;
    assert At(s, v, p);
  }

  /** A single chunk is one replacement. */
  lemma OneChunk(v: bytes, s: bytes)
    requires v != []
    ensures Output([Replacement(v, MARKER)], |v| - 1, [s]) == ReplaceAll(s, v, MARKER)
  {
    LastChunk(v, MARKER, [], s);
    var r := Run([Replacement(v, MARKER)], |v| - 1, [], [s]);
    RedactOne(r.tail, v, MARKER);
    assert [] + s == s;
  }

  lemma ShowsInStream(v: bytes, o: int) returns (s: bytes)
    requires v != [] && ShowsAt(v, o)
    ensures Shown(v, [s])
  {
    hide ReplaceAll, Contains, At;
    MeetsRange(v, o);
    var a, b := Ahead(v, o), Behind(v, o);
    assert |b| < |v| && NoCopyBefore(a + v, v, |a|);
    s := a + v + b;
    ScanBehind(a, v, MARKER, b);
    StandsOver(v, o);
    OneChunk(v, s);
  }

  lemma MeetsRange(v: bytes, o: int)
    requires MeetsAt(v, o)
    ensures -|v| < o < |MARKER|
  {
  }

  // ---------------------------------------------------------------- nothing else does

  /** The first copy of the secret, if there is one. */
  lemma FirstCopy(s: bytes, v: bytes) returns (n: nat)
    requires v != []
    ensures n <= |s| && NoCopyBefore(s, v, n)
    ensures n < |s| ==> At(s, v, n)
  {
    n := 0;
    while n < |s| && !At(s, v, n)
      invariant n <= |s| && NoCopyBefore(s, v, n)
    {
      n := n + 1;
    }
  }

  lemma NothingReplaced(s: bytes, v: bytes)
    requires v != [] && NoCopyBefore(s, v, |s|)
    ensures ReplaceAll(s, v, MARKER) == s
  {
    PassThrough(s, |s|, v, MARKER);
    assert s[..|s|] == s && s[|s|..] == [];
  }

  /** A copy at the front that the scan did not see stands over the first marker. */
  lemma FrontShows(s: bytes, v: bytes)
    requires v != [] && !At(s, v, 0) && At(ReplaceAll(s, v, MARKER), v, 0)
    ensures CanShow(v)
  {
    var n := FirstCopy(s, v);
    if n == |s| {
      NothingReplaced(s, v);
    } else {
      PassThrough(s, n, v, MARKER);
      CopyThere(s, v, n);
      ScanFront(s[n..], v);
      hide ReplaceAll;
      OverMarker(s, v, n, ReplaceAll(s[n..][|v|..], v, MARKER));
    }
  }

  lemma AtFront(s: bytes, v: bytes)
    ensures At(s, v, 0) <==> v <= s
  {
    if |v| <= |s| {
      assert s[0..|v|] == s[..|v|];
    }
  }

  lemma ScanFront(s: bytes, v: bytes)
    requires v != [] && v <= s
    ensures ReplaceAll(s, v, MARKER) == MARKER + ReplaceAll(s[|v|..], v, MARKER)
  {
  }

  lemma CopyThere(s: bytes, v: bytes, n: nat)
    requires v != [] && n < |s| && At(s, v, n)
    ensures v <= s[n..]
  {
    assert s[n..][..|v|] == s[n..n + |v|];
  }

  lemma CopiedWhole(s: bytes, v: bytes, n: nat, rest: bytes)
    requires |v| <= n <= |s| && At(s[..n] + rest, v, 0)
    ensures At(s, v, 0)
  {
    assert (s[..n] + rest)[0..|v|] == s[0..|v|];
  }

  lemma OverMarker(s: bytes, v: bytes, n: nat, rest: bytes)
    requires v != [] && !At(s, v, 0) && n + |v| <= |s| && At(s, v, n) && NoCopyBefore(s, v, n)
    requires At(s[..n] + (MARKER + rest), v, 0)
    ensures CanShow(v)
  {
    if n >= |v| {
      CopiedWhole(s, v, n, MARKER + rest);
    } else {
      var d := s[..n] + (MARKER + rest);
      assert v == d[0..|v|] == d[..|v|];
      var o: int := 0 - n;
      forall k | 0 <= k < |v| && 0 <= o + k < |MARKER| ensures v[k] == MARKER[o + k] {
        assert v[k] == d[k];
      }
      assert v[..n] == s[..n] && v[..n] + v == s[..n + |v|];
      forall i | 0 <= i < n ensures !At(v[..n] + v, v, i) {
        assert (v[..n] + v)[i..i + |v|] == s[i..i + |v|];
        assert !At(s, v, i);
      }
      assert MeetsAt(v, o);
      assert ShowsAt(v, o);
    }
  }

  /** A copy in the result of a scan stands over a marker. */
  lemma {:induction false} ScanShows(s: bytes, v: bytes)
    requires v != [] && Contains(ReplaceAll(s, v, MARKER), v)
    ensures CanShow(v)
    decreases |s|
  {
    hide ReplaceAll, CanShow;
    var d := ReplaceAll(s, v, MARKER);
    var i :| At(d, v, i);
    AtFront(s, v);
    if v <= s {
      var rest := ReplaceAll(s[|v|..], v, MARKER);
      ScanFront(s, v);
      if i < |MARKER| {
        MarkerShows(rest, v, i);
      } else {
        assert d[i..i + |v|] == rest[i - |MARKER|..i - |MARKER| + |v|];
        assert At(rest, v, i - |MARKER|);
        ScanShows(s[|v|..], v);
      }
    } else if i == 0 {
      FrontShows(s, v);
    } else {
      ScanNothing(v);
      HeadStep(s, v, MARKER);
      AtTail(d, v, i);
      assert d[1..] == ReplaceAll(s[1..], v, MARKER);
      ScanShows(s[1..], v);
    }
  }

  lemma ScanNothing(v: bytes)
    requires v != []
    ensures ReplaceAll([], v, MARKER) == []
  {
  }

  lemma MarkerShows(rest: bytes, v: bytes, i: nat)
    requires v != [] && i < |MARKER| && At(MARKER + rest, v, i)
    ensures CanShow(v)
  {
    forall k | 0 <= k < |v| && 0 <= i + k < |MARKER| ensures v[k] == MARKER[i + k] {
      assert (MARKER + rest)[i..i + |v|][k] == (MARKER + rest)[i + k];
    }
    assert ShowsAt(v, i);
  }

  lemma StraddlerShows(v: bytes)
    requires Straddles(v, MARKER)
    ensures CanShow(v)
  {
    hide EndsAlike, Straddles, At, MeetsAt;
    var e := ShortestPrefix(v, MARKER);
    AlikeMeets(v, e);
    if e > |MARKER| {
      NoneBefore(v, e);
    }
    assert ShowsAt(v, |MARKER| - e);
  }

  lemma NoneBefore(v: bytes, e: nat)
    requires |MARKER| < e < |v| && EndsAlike(v[..e], MARKER)
    requires forall f :: 1 <= f < e ==> !EndsAlike(v[..f], MARKER)
    ensures NoCopyBefore(v[..e - |MARKER|] + v, v, e - |MARKER|)
  {
    hide EndsAlike, At;
    var t := v[..e - |MARKER|] + v;
    forall i | 0 <= i < e - |MARKER| ensures !At(t, v, i) {
      if At(t, v, i) {
        EarlierMarker(v, MARKER, e, i);
      }
    }
  }

  // ---------------------------------------------------------------- exactly when

  /** For one secret, some chunks of some stream show it if and only if it can stand over a
      marker that no earlier copy of it takes the place of. */
  lemma ShownIff(v: bytes)
    requires v != []
    ensures (exists chunks :: Shown(v, chunks)) <==> CanShow(v)
  {
    hide Output, CanShow, Contains;
    if Straddles(v, MARKER) {
      StraddlerShows(v);
    }
    forall chunks | Shown(v, chunks) ensures CanShow(v) {
      if !Straddles(v, MARKER) {
        OneShot(v, MARKER, chunks);
        ScanShows(Concat(chunks), v);
      }
    }
    if CanShow(v) {
      var o := OffsetOf(v);
      var stream := ShowsInStream(v, o);
    }
  }

  lemma OffsetOf(v: bytes) returns (o: int)
    requires CanShow(v)
    ensures ShowsAt(v, o)
  {
    o :| ShowsAt(v, o);
  }

  lemma SameByte(v: bytes, k: nat, i: nat)
    requires i < k < |v|
    ensures At(v[..k] + v, v, i) ==> v[k] == v[i]
  {
    var t := v[..k] + v;
    if At(t, v, i) {
      assert v[k] == t[i..i + |v|][k] == t[i + k];
    }
  }

  /** A secret with at most one opening bracket is shown by some stream if and only if it can
      overlap the marker at all. */
  lemma OneBracketIff(v: bytes)
    requires v != [] && forall i, k :: 0 <= i < k < |v| ==> v[i] != OPEN || v[k] != OPEN
    ensures CanShow(v) <==> !Apart(v)
  {
    if !Apart(v) {
      var o :| MeetsAt(v, o);
      if o < 0 {
        var t := v[..-o] + v;
        assert v[-o] == OPEN;
        forall i | 0 <= i < -o ensures !At(t, v, i) {
          SameByte(v, -o, i);
        }
      }
      assert ShowsAt(v, o);
    }
  }

  /** With more brackets it may overlap the marker and yet never be shown: "[x[x[". */
  lemma OverlapsYetHidden() returns (v: bytes)
    ensures v == [0x5b, 0x78, 0x5b, 0x78, 0x5b] && !Apart(v) && !CanShow(v)
  {
    v := [0x5b, 0x78, 0x5b, 0x78, 0x5b];
    assert MeetsAt(v, -4);
    forall o ensures !ShowsAt(v, o) {
      if o != -4 {
        OnlyAtEnd(v, o);
      } else {
        var t := v[..4] + v;
        assert t[0..5] == v;
        assert At(v[..-o] + v, v, 0);
      }
    }
  }

  lemma OnlyAtEnd(v: bytes, o: int)
    requires v == [0x5b, 0x78, 0x5b, 0x78, 0x5b] && o != -4
    ensures !MeetsAt(v, o)
  {
    if -|v| < o < |MARKER| {
      var k := if o > 0 then 0 else if o % 2 == 1 then -o else 1 - o;
      assert v[k] != MARKER[o + k];
    }
  }
}

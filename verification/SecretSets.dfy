/** Several secrets at once: none is ever shown, however the stream is cut. */
module SecretSets {
  import opened Bytes
  import opened Redaction

  /** Placed so that they share at least one byte, `u` starting at offset o of the marker,
      the two agree wherever they overlap. */
  ghost predicate MeetsAt(u: bytes, o: int) {
    -|u| < o < |MARKER| && forall k :: 0 <= k < |u| && 0 <= o + k < |MARKER| ==> u[k] == MARKER[o + k]
  }

  /** A secret that cannot overlap an inserted marker: no end of one begins the other, and
      neither contains the other. */
  ghost predicate Apart(u: bytes) {
    u != [] && forall o :: !MeetsAt(u, o)
  }

  // ---------------------------------------------------------------- which secrets are apart

  predicate Plain(w: bytes) {
    OPEN !in w && CLOSE !in w
  }

  /** Every opening bracket is followed by another byte than 'r', every closing one is
      preceded by another byte than 'd', as in a host like [::1]. */
  predicate BracketsElsewhere(u: bytes) {
    && (forall k :: 0 <= k < |u| && u[k] == OPEN ==> k + 1 < |u| && u[k + 1] != MARKER[1])
    && (forall k :: 0 <= k < |u| && u[k] == CLOSE ==> k > 0 && u[k - 1] != MARKER[8])
  }

  lemma MeetsBracket(u: bytes, o: int)
    requires MeetsAt(u, o)
    ensures o <= 0 ==> u[-o] == OPEN && (1 - o < |u| ==> u[1 - o] == MARKER[1])
    ensures o + |u| >= |MARKER| ==> u[9 - o] == CLOSE && (o < 9 ==> u[8 - o] == MARKER[8])
  {
  }

  lemma MeetsWhole(u: bytes, o: int)
    requires MeetsAt(u, o)
    ensures o >= 0 && o + |u| <= |MARKER| ==> At(MARKER, u, o)
    ensures o <= 0 && o + |u| >= |MARKER| ==> At(u, MARKER, -o)
  {
    if o >= 0 && o + |u| <= |MARKER| {
      forall k | 0 <= k < |u| ensures u[k] == MARKER[o..o + |u|][k] {
        assert u[k] == MARKER[o + k];
      }
    }
    if o <= 0 && o + |u| >= |MARKER| {
      forall k | 0 <= k < |MARKER| ensures u[-o..-o + |MARKER|][k] == MARKER[k] {
        assert u[k - o] == MARKER[o + (k - o)];
      }
    }
  }

  lemma MeetsInside(u: bytes, o: int)
    requires MeetsAt(u, o) && BracketsElsewhere(u)
    ensures At(MARKER, u, o)
  {
    MeetsBracket(u, o);
    MeetsWhole(u, o);
  }

  /** Any secret with such brackets is apart, unless it is a part of the marker. */
  lemma BracketsElsewhereApart(u: bytes)
    requires u != [] && BracketsElsewhere(u) && !Contains(MARKER, u)
    ensures Apart(u)
  {
    forall o ensures !MeetsAt(u, o) {
      if MeetsAt(u, o) {
        MeetsInside(u, o);
      }
    }
  }

  /** No closing bracket among the first nine bytes, no opening one among the last nine. */
  predicate BracketsInside(u: bytes) {
    && (forall k :: 0 <= k < |u| && k < |MARKER| - 1 ==> u[k] != CLOSE)
    && (forall k :: 0 <= k < |u| && |u| - k < |MARKER| ==> u[k] != OPEN)
  }

  lemma BracketsInsideApart(u: bytes)
    requires u != [] && BracketsInside(u) && !Contains(MARKER, u) && !Contains(u, MARKER)
    ensures Apart(u)
  {
    forall o ensures !MeetsAt(u, o) {
      if MeetsAt(u, o) {
        MeetsBracket(u, o);
        MeetsWhole(u, o);
      }
    }
  }

  lemma PlainIsApart(u: bytes)
    requires u != [] && Plain(u) && !Contains(MARKER, u)
    ensures Apart(u)
  {
    BracketsElsewhereApart(u);
  }

  /** Alone, such a secret is also scrubbed the same however the stream is cut. */
  lemma ApartNoStraddle(u: bytes)
    requires Apart(u)
    ensures !Straddles(u, MARKER)
  {
    forall e | 1 <= e < |u| ensures !EndsAlike(u[..e], MARKER) {
      if EndsAlike(u[..e], MARKER) {
        AlikeMeets(u, e);
      }
    }
  }

  lemma AlikeMeets(u: bytes, e: nat)
    requires 1 <= e < |u| && EndsAlike(u[..e], MARKER)
    ensures MeetsAt(u, |MARKER| - e)
  {
    var o := |MARKER| - e;
    forall k | 0 <= k < |u| && 0 <= o + k < |MARKER| ensures u[k] == MARKER[o + k] {
      assert u[k] == u[..e][k];
      if e <= |MARKER| {
        assert MARKER[|MARKER| - e..][k] == MARKER[o + k];
      } else {
        assert u[..e][e - |MARKER|..][o + k] == u[..e][k];
      }
    }
  }

  // ---------------------------------------------------------------- one replacement

  /** Text in which no marker can begin. */
  ghost predicate Unbroken(w: bytes) {
    forall o :: o <= 0 ==> !MeetsAt(w, o)
  }

  lemma MeetsLonger(u: bytes, n: nat, o: int)
    requires n <= |u| && o <= 0 && MeetsAt(u[n..], o)
    ensures MeetsAt(u, o - n)
  {
    forall k | 0 <= k < |u| && 0 <= o - n + k < |MARKER| ensures u[k] == MARKER[o - n + k] {
      assert u[k] == u[n..][k - n] && u[n..][k - n] == MARKER[o + (k - n)];
    }
  }

  lemma UnbrokenRest(w: bytes)
    requires w != [] && Unbroken(w)
    ensures Unbroken(w[1..])
  {
    forall o | o <= 0 ensures !MeetsAt(w[1..], o) {
      if MeetsAt(w[1..], o) {
        MeetsLonger(w, 1, o);
      }
    }
  }

  /** The rest of a secret that is apart, from inside it on. */
  lemma ApartRest(u: bytes, n: nat)
    requires Apart(u) && n <= |u|
    ensures Unbroken(u[n..])
  {
    forall o | o <= 0 ensures !MeetsAt(u[n..], o) {
      if MeetsAt(u[n..], o) {
        MeetsLonger(u, n, o);
      }
    }
  }

  /** Such text at the front of the result was at the front of the input. */
  lemma {:induction false} UnbrokenPrefix(z: bytes, v: bytes, w: bytes)
    requires v != [] && Unbroken(w) && w <= ReplaceAll(z, v, MARKER)
    ensures w <= z
    decreases |z|
  {
    if w != [] && |z| >= |v| {
      if v <= z {
        MarkerFirst(w, ReplaceAll(z[|v|..], v, MARKER));
      } else {
        UnbrokenRest(w);
        UnbrokenPrefix(z[1..], v, w[1..]);
        assert w == [z[0]] + w[1..] && z == [z[0]] + z[1..];
      }
    }
  }

  lemma MarkerFirst(w: bytes, s: bytes)
    requires w != [] && w <= MARKER + s
    ensures MeetsAt(w, 0)
  {
    forall k | 0 <= k < |w| && 0 <= 0 + k < |MARKER| ensures w[k] == MARKER[0 + k] {
      assert w[k] == (MARKER + s)[k];
    }
  }

  lemma SuffixAt(z: bytes, k: nat, u: bytes)
    requires k <= |z| && Contains(z[k..], u)
    ensures Contains(z, u)
  {
    var i :| At(z[k..], u, i);
    assert z[k..][i..i + |u|] == z[k + i..k + i + |u|];
    assert At(z, u, k + i);
  }

  /** An occurrence in marker and rest lies in the rest. */
  lemma BeyondMarker(s: bytes, u: bytes, i: int)
    requires Apart(u) && At(MARKER + s, u, i)
    ensures At(s, u, i - |MARKER|)
  {
    if i < |MARKER| {
      forall k | 0 <= k < |u| && 0 <= i + k < |MARKER| ensures u[k] == MARKER[i + k] {
        assert (MARKER + s)[i..i + |u|][k] == (MARKER + s)[i + k];
      }
      assert MeetsAt(u, i);
    } else {
      assert (MARKER + s)[i..i + |u|] == s[i - |MARKER|..i - |MARKER| + |u|];
    }
  }

  /** One replacement removes its own secret and brings no other one in. */
  lemma {:induction false} StaysFree(z: bytes, v: bytes, u: bytes)
    requires v != [] && Apart(u) && (u == v || !Contains(z, u))
    ensures !Contains(ReplaceAll(z, v, MARKER), u)
    decreases |z|, 0
  {
    var d := ReplaceAll(z, v, MARKER);
    if Contains(d, u) {
      var i :| At(d, u, i);
      if |z| < |v| {
      } else if v <= z {
        BeyondMarker(ReplaceAll(z[|v|..], v, MARKER), u, i);
        RestFree(z, |v|, v, u);
      } else if i > 0 {
        AtTail(d, u, i);
        assert d[1..] == ReplaceAll(z[1..], v, MARKER);
        RestFree(z, 1, v, u);
      } else {
        FrontCopied(z, v, u);
      }
    }
  }

  lemma {:induction false} RestFree(z: bytes, k: nat, v: bytes, u: bytes)
    requires v != [] && Apart(u) && 0 < k <= |z| && (u == v || !Contains(z, u))
    ensures !Contains(ReplaceAll(z[k..], v, MARKER), u)
    decreases |z| - k, 1
  {
    if u != v && Contains(z[k..], u) {
      SuffixAt(z, k, u);
    }
    StaysFree(z[k..], v, u);
  }

  lemma FrontCopied(z: bytes, v: bytes, u: bytes)
    requires 0 < |v| <= |z| && !(v <= z) && Apart(u) && At(ReplaceAll(z, v, MARKER), u, 0)
    ensures u != v && Contains(z, u)
  {
    assert u != [];
    var d := ReplaceAll(z, v, MARKER);
    assert d == [z[0]] + ReplaceAll(z[1..], v, MARKER);
    hide ReplaceAll, Apart, Unbroken, MeetsAt;
    assert u == d[0..|u|] == d[..|u|];
    assert u[1..] == d[1..][..|u| - 1];
    ApartRest(u, 1);
    UnbrokenPrefix(z[1..], v, u[1..]);
    assert u[1..] == z[1..][..|u| - 1];
    assert u == [z[0]] + u[1..] && z == [z[0]] + z[1..];
    assert z[0..|u|] == u;
    assert At(z, u, 0);
  }

  /** Where there was a marker, or something was replaced, there is one. */
  lemma MarkerStays(z: bytes, v: bytes)
    requires v != [] && (Contains(z, MARKER) || ReplaceAll(z, v, MARKER) != z)
    ensures Contains(ReplaceAll(z, v, MARKER), MARKER)
  {
    if ReplaceAll(z, v, MARKER) != z {
      var p := MarkerInserted(z, v, MARKER);
    }
  }

  /** A list the terminal builds: every text is the marker. */
  predicate Marked(rs: Replacements) {
    forall r :: r in rs ==> r.text == MARKER
  }

  lemma {:induction false} RedactMarks(c: bytes, rs: Replacements)
    requires Marked(rs) && (Contains(c, MARKER) || Redact(c, rs) != c)
    ensures Contains(Redact(c, rs), MARKER)
    decreases |rs|
  {
    if rs != [] {
      var d := ReplaceAll(c, rs[0].value, MARKER);
      assert rs[0] in rs;
      if d != c || Contains(c, MARKER) {
        MarkerStays(c, rs[0].value);
      }
      RedactMarks(d, rs[1..]);
    }
  }

  lemma {:induction false} RedactPrefix(c: bytes, rs: Replacements, w: bytes)
    requires Marked(rs) && Unbroken(w) && w <= Redact(c, rs)
    ensures w <= c
    decreases |rs|
  {
    if rs != [] {
      RedactPrefix(ReplaceAll(c, rs[0].value, rs[0].text), rs[1..], w);
      UnbrokenPrefix(c, rs[0].value, w);
    }
  }

  /** A secret is gone once its turn came, and stays gone, whatever the other secrets are. */
  lemma {:induction false} RedactFree(c: bytes, rs: Replacements, u: bytes)
    requires Marked(rs) && Apart(u) && (Replacement(u, MARKER) in rs || !Contains(c, u))
    ensures !Contains(Redact(c, rs), u)
    decreases |rs|
  {
    if rs != [] {
      if u == rs[0].value || !Contains(c, u) {
        StaysFree(c, rs[0].value, u);
      }
      RedactFree(ReplaceAll(c, rs[0].value, rs[0].text), rs[1..], u);
    }
  }

  // What every call keeps: no such secret in emitted text and tail, and a tail shorter
  // than the longest secret still holds a marker that the secret cannot reach across.
  ghost predicate Safe(u: bytes, keep: nat, emitted: bytes, tail: bytes) {
    !Contains(emitted + tail, u) && (emitted == [] || |tail| >= keep || Contains(tail, MARKER))
  }

  /** A secret of the list that cannot overlap the marker, and is not too long for the tail. */
  ghost predicate Hidable(rs: Replacements, keep: nat, u: bytes) {
    Marked(rs) && Apart(u) && Replacement(u, MARKER) in rs && |u| <= keep + 1
  }

  /** A secret across the emitted text and the rescanned tail was there before. */
  lemma NoCrossing(rs: Replacements, keep: nat, e: bytes, t: bytes, d: bytes, u: bytes, i: int)
    requires Marked(rs) && Apart(u) && |u| <= keep + 1 && 0 <= i < |e|
    requires |t| >= keep || Contains(t, MARKER)
    requires At(e + Redact(t + d, rs), u, i)
    ensures At(e + t, u, i)
  {
    hide Redact, Apart, Unbroken, Marked;
    var c := Redact(t + d, rs);
    if i + |u| <= |e| {
      assert (e + c)[i..i + |u|] == (e + t)[i..i + |u|];
    } else {
      var w := u[|e| - i..];
      assert w == (e + c)[|e|..i + |u|] == c[..|w|];
      ApartRest(u, |e| - i);
      RedactPrefix(t + d, rs, w);
      PrefixOfTail(w, t, d, keep);
    }
  }

  lemma PrefixOfTail(w: bytes, t: bytes, d: bytes, keep: nat)
    requires w <= t + d && Unbroken(w) && |w| <= keep && (|t| >= keep || Contains(t, MARKER))
    ensures w <= t
  {
    if |w| <= |t| {
      assert w == (t + d)[..|w|] == t[..|w|];
    } else {
      var o := MarkerInside(w, t, d);
    }
  }

  lemma MarkerInside(w: bytes, t: bytes, d: bytes) returns (o: int)
    requires w <= t + d && |w| > |t| && Contains(t, MARKER)
    ensures o <= 0 && MeetsAt(w, o)
  {
    var p: int :| At(t, MARKER, p);
    o := -p;
    forall k | 0 <= k < |w| && 0 <= o + k < |MARKER| ensures w[k] == MARKER[o + k] {
      assert w[k] == (t + d)[k] && t[p..p + |MARKER|][k - p] == t[k];
    }
  }

  lemma ScrubKeepsSafe(rs: Replacements, keep: nat, e: bytes, t: bytes, d: bytes, u: bytes)
    requires Hidable(rs, keep, u) && Safe(u, keep, e, t)
    ensures var now := Cut(Redact(t + d, rs), keep);
            Safe(u, keep, e + now.emit, now.tail)
  {
    hide Redact, Marked, Contains, Apart;
    var c := Redact(t + d, rs);
    var now := Cut(c, keep);
    Assoc(e, now.emit, now.tail);
    assert now.emit + now.tail == c && (|c| < keep ==> now.tail == c && now.emit == []);
    HidesAfter(rs, keep, e, t, d, u);
    if |c| < keep && e != [] {
      if Contains(t, MARKER) {
        PrefixContains(t, d);
      }
      RedactMarks(t + d, rs);
    }
    assert e + [] == e;
  }

  lemma PrefixContains(t: bytes, d: bytes)
    requires Contains(t, MARKER)
    ensures Contains(t + d, MARKER)
  {
    var p :| At(t, MARKER, p);
    assert (t + d)[p..p + |MARKER|] == t[p..p + |MARKER|];
    assert At(t + d, MARKER, p);
  }

  lemma HidesAfter(rs: Replacements, keep: nat, e: bytes, t: bytes, d: bytes, u: bytes)
    requires Hidable(rs, keep, u) && Safe(u, keep, e, t)
    ensures !Contains(e + Redact(t + d, rs), u)
  {
    var c := Redact(t + d, rs);
    if Contains(e + c, u) {
      var i :| At(e + c, u, i);
      if i < |e| {
        NoCrossing(rs, keep, e, t, d, u, i);
        assert false;
      }
      assert (e + c)[i..i + |u|] == c[i - |e|..i - |e| + |u|];
      assert At(c, u, i - |e|);
      RedactFree(t + d, rs, u);
    }
  }

  lemma {:induction false} RunSafe(rs: Replacements, keep: nat, e: bytes, t: bytes, chunks: seq<bytes>, u: bytes)
    requires Hidable(rs, keep, u) && Safe(u, keep, e, t)
    ensures var r := Run(rs, keep, t, chunks); Safe(u, keep, e + r.emit, r.tail)
    decreases |chunks|
  {
    if chunks == [] {
      assert e + [] == e;
    } else {
      ScrubKeepsSafe(rs, keep, e, t, chunks[0], u);
      var now := Cut(Redact(t + chunks[0], rs), keep);
      RunSafe(rs, keep, e + now.emit, now.tail, chunks[1..], u);
      Assoc(e, now.emit, Run(rs, keep, now.tail, chunks[1..]).emit);
    }
  }

  /** After any chunks, flushed or not, a secret that cannot overlap the marker does not occur
      in what was sent and is held, whatever the other secrets are. */
  lemma NeverShown(rs: Replacements, keep: nat, chunks: seq<bytes>, u: bytes)
    requires Hidable(rs, keep, u)
    ensures var r := Run(rs, keep, [], chunks); !Contains(r.emit + r.tail, u)
    ensures !Contains(Output(rs, keep, chunks), u)
  {
    var none: bytes := [];
    assert none + none == none;
    RunSafe(rs, keep, none, none, chunks, u);
    var r := Run(rs, keep, [], chunks);
    assert [] + r.emit == r.emit && r.tail + [] == r.tail;
    HidesAfter(rs, keep, r.emit, r.tail, [], u);
  }

  /** Nor does any secret that such a secret is part of. */
  lemma PartNeverShown(rs: Replacements, keep: nat, chunks: seq<bytes>, u: bytes, part: bytes)
    requires Hidable(rs, keep, part) && Contains(u, part)
    ensures var r := Run(rs, keep, [], chunks); !Contains(r.emit + r.tail, u)
    ensures !Contains(Output(rs, keep, chunks), u)
  {
    NeverShown(rs, keep, chunks, part);
    var r := Run(rs, keep, [], chunks);
    PartOfWhole(r.emit + r.tail, u, part);
    PartOfWhole(Output(rs, keep, chunks), u, part);
  }

  lemma SliceOfSlice(s: bytes, i: nat, n: nat, k: nat, m: nat)
    requires i + n <= |s| && k + m <= n
    ensures s[i..i + n][k..k + m] == s[i + k..i + k + m]
  {
    var x, y := s[i..i + n][k..k + m], s[i + k..i + k + m];
    forall j | 0 <= j < m ensures x[j] == y[j] {
      assert x[j] == s[i..i + n][k + j] == s[i + k + j];
    }
  }

  lemma PartOfWhole(s: bytes, u: bytes, part: bytes)
    requires Contains(u, part)
    ensures Contains(s, u) ==> Contains(s, part)
  {
    if Contains(s, u) {
      var i :| At(s, u, i);
      var k :| At(u, part, k);
      SliceOfSlice(s, i, |u|, k, |part|);
      assert At(s, part, i + k);
    }
  }

  // ---------------------------------------------------------------- what has no secret in it

  ghost predicate Free(c: bytes, rs: Replacements) { forall r :: r in rs ==> !Contains(c, r.value) }

  lemma {:induction false} AbsentStays(s: bytes, v: bytes, mark: bytes)
    requires v != [] && !Contains(s, v)
    ensures ReplaceAll(s, v, mark) == s
    decreases |s|
  {
    if |s| >= |v| {
      if v <= s {
        assert At(s, v, 0);
      }
      assert s == [s[0]] + s[1..];
      if Contains(s[1..], v) {
        SuffixAt(s, 1, v);
      }
      AbsentStays(s[1..], v, mark);
    }
  }

  lemma {:induction false} FreeStays(c: bytes, rs: Replacements)
    requires Free(c, rs)
    ensures Redact(c, rs) == c
    decreases |rs|
  {
    hide ReplaceAll, Contains;
    if rs != [] {
      assert rs[0] in rs;
      AbsentStays(c, rs[0].value, rs[0].text);
      FreeStays(c, rs[1..]);
    }
  }

  lemma FreePart(a: bytes, c: bytes, b: bytes, rs: Replacements)
    requires Free(a + c + b, rs)
    ensures Free(c, rs)
  {
    forall r | r in rs ensures !Contains(c, r.value) {
      if Contains(c, r.value) {
        var i :| At(c, r.value, i);
        assert (a + c + b)[|a| + i..|a| + i + |r.value|] == c[i..i + |r.value|];
        assert At(a + c + b, r.value, |a| + i);
      }
    }
  }

  /** One call on text without a secret. */
  lemma FreeCall(rs: Replacements, keep: nat, t: bytes, d: bytes, later: bytes)
    requires Free(t + (d + later), rs)
    ensures var now := Cut(Redact(t + d, rs), keep);
            now.emit + (now.tail + later) == t + (d + later) && Free(now.tail + later, rs)
  {
    hide Redact, Free, Cut;
    var c := t + d;
    Assoc(t, d, later);
    FreeSides([], c, later, rs);
    FreeStays(c, rs);
    var now := Cut(c, keep);
    CutParts(c, keep);
    Assoc(now.emit, now.tail, later);
    FreeSides(now.emit, now.tail + later, [], rs);
  }

  lemma FreeSides(a: bytes, c: bytes, b: bytes, rs: Replacements)
    requires Free(a + (c + b), rs) || (b == [] && Free(a + c, rs)) || (a == [] && Free(c + b, rs))
    ensures Free(c, rs)
  {
    hide Free;
    Assoc(a, c, b);
    assert a == [] ==> a + (c + b) == c + b;
    assert b == [] ==> a + (c + b) == a + c;
    FreePart(a, c, b, rs);
  }

  lemma CutParts(c: bytes, keep: nat)
    ensures Cut(c, keep).emit + Cut(c, keep).tail == c
  {
  }

  lemma {:induction false} FreeRun(rs: Replacements, keep: nat, t: bytes, chunks: seq<bytes>)
    requires Free(t + Concat(chunks), rs)
    ensures var r := Run(rs, keep, t, chunks); r.emit + r.tail == t + Concat(chunks) && Free(r.tail, rs)
    decreases |chunks|
  {
    hide Redact, Free, Cut;
    if chunks == [] {
      assert t + [] == t && [] + t == t;
    } else {
      FreeCall(rs, keep, t, chunks[0], Concat(chunks[1..]));
      var now := Cut(Redact(t + chunks[0], rs), keep);
      FreeRun(rs, keep, now.tail, chunks[1..]);
      var r := Run(rs, keep, now.tail, chunks[1..]);
      Assoc(now.emit, r.emit, r.tail);
    }
  }

  /** A stream in which no secret occurs arrives unchanged, however it is cut into chunks; one
      in which a secret that is kept from view occurs does not. */
  lemma UnchangedIff(rs: Replacements, keep: nat, chunks: seq<bytes>)
    ensures Free(Concat(chunks), rs) ==> Output(rs, keep, chunks) == Concat(chunks)
    ensures (forall r :: r in rs ==> Hidable(rs, keep, r.value)) ==>
              (Output(rs, keep, chunks) == Concat(chunks) <==> Free(Concat(chunks), rs))
  {
    hide Redact, Contains, Hidable;
    var s := Concat(chunks);
    assert [] + s == s;
    if Free(s, rs) {
      FreeRun(rs, keep, [], chunks);
      FreeStays(Run(rs, keep, [], chunks).tail, rs);
    }
    if forall r :: r in rs ==> Hidable(rs, keep, r.value) {
      forall r | r in rs ensures !Contains(Output(rs, keep, chunks), r.value) {
        NeverShown(rs, keep, chunks, r.value);
      }
    }
  }
}

/** The scrubber object between the database shell and the browser. */
module TerminalScrubber {
  import opened Bytes
  import opened Redaction
  import opened SecretSets

  predicate LongerFirst(rs: seq<Replacement>) {
    forall i, j :: 0 <= i < j < |rs| ==> |rs[i].value| >= |rs[j].value|
  }

  /** Some order sort.Slice may leave: longer secrets before shorter ones. */
  method SortByLength(found: seq<Replacement>) returns (rs: seq<Replacement>)
    ensures multiset(rs) == multiset(found) && LongerFirst(rs)
  {
    rs := [];
    for i := 0 to |found|
      invariant multiset(rs) == multiset(found[..i]) && LongerFirst(rs)
    {
      assert found[..i + 1] == found[..i] + [found[i]];
      rs := Insert(found[i], rs);
    }
    assert found[..|found|] == found;
  }

  method Insert(r: Replacement, rs: seq<Replacement>) returns (out: seq<Replacement>)
    requires LongerFirst(rs)
    ensures multiset(out) == multiset(rs) + multiset{r} && LongerFirst(out)
  {
    var k := 0;
    while k < |rs| && |rs[k].value| >= |r.value|
      invariant 0 <= k <= |rs|
      invariant forall i :: 0 <= i < k ==> |rs[i].value| >= |r.value|
    {
      k := k + 1;
    }
    InsertMultiset(r, rs, k);
    out := rs[..k] + [r] + rs[k..];
  }

  lemma InsertMultiset(r: Replacement, rs: seq<Replacement>, k: nat)
    requires k <= |rs|
    ensures multiset(rs[..k] + [r] + rs[k..]) == multiset(rs) + multiset{r}
  {
    assert rs == rs[..k] + rs[k..];
  }

  class TerminalOutputScrubber {
    const replacements: Replacements
    const keep: nat
    var tail: bytes

    constructor (replacements: Replacements, keep: nat)
      ensures this.replacements == replacements && this.keep == keep && tail == []
    {
      this.replacements, this.keep, tail := replacements, keep, [];
    }

    /** Scrubs held tail and new data, then emits all but the new tail. */
    method Scrub(data: bytes, flush: bool) returns (emit: bytes)
      modifies this`tail
      ensures flush ==> emit == Redact(old(tail) + data, replacements) && tail == []
      ensures !flush ==> Emission(emit, tail) == Cut(Redact(old(tail) + data, replacements), keep)
      ensures |tail| <= keep
    {
      var combined := tail + data;
      var i := 0;
      while i < |replacements|
        invariant 0 <= i <= |replacements|
        invariant Redact(combined, replacements[i..]) == Redact(tail + data, replacements)
      {
        var item := replacements[i];
        assert replacements[i..][1..] == replacements[i + 1..];
        combined := ReplaceAll(combined, item.value, item.text);
        i := i + 1;
      }
      if !flush && |combined| <= keep {
        tail := combined;
        return [];
      }
      var emitLen := |combined|;
      if !flush {
        emitLen := |combined| - keep;
      }
      emit := combined[..emitLen];
      tail := combined[emitLen..];
    }
  }

  /** The last call of a run, seen from the left. */
  lemma {:induction false} RunSnoc(rs: Replacements, keep: nat, t: bytes, chunks: seq<bytes>, c: bytes)
    ensures var r := Run(rs, keep, t, chunks); var now := Cut(Redact(r.tail + c, rs), keep);
            Run(rs, keep, t, chunks + [c]) == Emission(r.emit + now.emit, now.tail)
    decreases |chunks|
  {
    if chunks == [] {
      var now := Cut(Redact(t + c, rs), keep);
      assert chunks + [c] == [c] && [c][1..] == [];
      assert now.emit + [] == now.emit && [] + now.emit == now.emit;
    } else {
      var now := Cut(Redact(t + chunks[0], rs), keep);
      var r := Run(rs, keep, now.tail, chunks[1..]);
      assert (chunks + [c])[1..] == chunks[1..] + [c];
      RunSnoc(rs, keep, now.tail, chunks[1..], c);
      Assoc(now.emit, r.emit, Cut(Redact(r.tail + c, rs), keep).emit);
    }
  }

  /** Everything the browser is sent for the chunks read until the shell closes; without a
      scrubber, everything the shell wrote. */
  method CopyPTYOutput(s: TerminalOutputScrubber?, chunks: seq<bytes>) returns (written: bytes)
    requires s != null ==> s.tail == []
    modifies s
    ensures s == null ==> written == Concat(chunks)
    ensures s != null ==> written == Output(s.replacements, s.keep, chunks) && s.tail == []
  {
    written := [];
    for i := 0 to |chunks|
      invariant s == null ==> written == Concat(chunks[..i])
      invariant s != null ==> Run(s.replacements, s.keep, [], chunks[..i]) == Emission(written, s.tail)
    {
      assert chunks[..i + 1] == chunks[..i] + [chunks[i]];
      var data := chunks[i];
      if s != null {
        RunSnoc(s.replacements, s.keep, [], chunks[..i], chunks[i]);
        data := s.Scrub(data, false);
      } else {
        ConcatSnoc(chunks[..i], chunks[i]);
      }
      written := written + data;
    }
    assert chunks[..|chunks|] == chunks;
    if s != null {
      assert s.tail + [] == s.tail;
      var last := s.Scrub([], true);
      written := written + last;
    }
  }

  /** The list holds each non-empty value once. */
  ghost predicate Collects(values: seq<bytes>, rs: seq<Replacement>) {
    && (forall r :: r in multiset(rs) <==> r.text == MARKER && r.value != [] && r.value in values)
    && (forall r :: multiset(rs)[r] <= 1)
  }

  /** The values to redact, each once, and the length of the longest. */
  method Collect(values: seq<bytes>) returns (found: seq<Replacement>, maxLen: nat)
    ensures Collects(values, found)
    ensures forall r :: r in found ==> |r.value| <= maxLen
    ensures found != [] ==> exists r :: r in found && |r.value| == maxLen
  {
    found, maxLen := [], 0;
    for i := 0 to |values|
      invariant Collects(values[..i], found)
      invariant forall r :: r in found ==> |r.value| <= maxLen
      invariant found != [] ==> exists r :: r in found && |r.value| == maxLen
      invariant found == [] ==> maxLen == 0
    {
      assert values[..i + 1] == values[..i] + [values[i]];
      var r := Replacement(values[i], MARKER);
      if r.value != [] && r !in found {
        found, maxLen := Add(found, maxLen, r);
      }
    }
    assert values[..|values|] == values;
  }

  method Add(found: seq<Replacement>, maxLen: nat, r: Replacement)
    returns (more: seq<Replacement>, newMax: nat)
    requires forall x :: x in found ==> |x.value| <= maxLen
    requires found != [] ==> exists x :: x in found && |x.value| == maxLen
    requires found == [] ==> maxLen == 0
    ensures more == found + [r]
    ensures forall x :: x in more ==> |x.value| <= newMax
    ensures exists x :: x in more && |x.value| == newMax
  {
    more, newMax := found + [r], maxLen;
    assert r in more;
    if |r.value| > maxLen {
      newMax := |r.value|;
    } else if found != [] {
      var x :| x in found && |x.value| == maxLen;
      assert x in more;
    }
  }

  method NewTerminalOutputScrubber(values: seq<bytes>) returns (s: TerminalOutputScrubber?)
    ensures s == null <==> (forall v :: v in values ==> v == [])
    ensures s != null ==> fresh(s) && s.tail == [] && s.replacements != []
    ensures s != null ==> Collects(values, s.replacements) && LongerFirst(s.replacements)
    ensures s != null ==> s.keep == |s.replacements[0].value| - 1
    ensures s != null ==> forall r :: r in s.replacements ==>
              r.text == [0x5b, 0x72, 0x65, 0x64, 0x61, 0x63, 0x74, 0x65, 0x64, 0x5d]
  {
    var found, maxLen := Collect(values);
    if found == [] {
      assert forall v :: v in values && v != [] ==> Replacement(v, MARKER) in multiset(found);
      return null;
    }
    var rs := SortByLength(found);
    MembersOf(rs, found);
    assert rs[0] in multiset(found) && rs[0] in found;
    assert forall r :: r in rs ==> r in multiset(found);
    s := new TerminalOutputScrubber(rs, maxLen - 1);
  }

  lemma MembersOf(rs: seq<Replacement>, found: seq<Replacement>)
    requires multiset(rs) == multiset(found)
    ensures |rs| == |found| && forall r :: r in rs <==> r in found
  {
    assert |multiset(rs)| == |rs|;
    forall r ensures r in rs <==> r in found {
      assert r in rs <==> r in multiset(rs);
      assert r in found <==> r in multiset(found);
    }
  }

  /** Whatever values the terminal is given, none that cannot overlap the marker is shown. */
  lemma TerminalNeverShows(values: seq<bytes>, rs: Replacements, keep: nat, chunks: seq<bytes>)
    requires Collects(values, rs) && LongerFirst(rs) && rs != [] && keep == |rs[0].value| - 1
    ensures forall v :: v in values && Apart(v) ==>
              var r := Run(rs, keep, [], chunks);
              !Contains(r.emit + r.tail, v) && !Contains(Output(rs, keep, chunks), v)
  {
    forall r | r in rs ensures r.text == MARKER && |r.value| <= keep + 1 {
      assert r in multiset(rs);
      var i :| 0 <= i < |rs| && rs[i] == r;
      assert i == 0 || |rs[0].value| >= |rs[i].value|;
    }
    forall v | v in values && Apart(v)
      ensures var r := Run(rs, keep, [], chunks);
              !Contains(r.emit + r.tail, v) && !Contains(Output(rs, keep, chunks), v)
    {
      assert Replacement(v, MARKER) in multiset(rs);
      NeverShown(rs, keep, chunks, v);
    }
  }

  /** The secret is no part of the marker, and its brackets, if any, stand in places like
      those of [::1], or away from its ends while it has no marker in it. */
  ghost predicate BracketsAway(v: bytes) {
    !Contains(MARKER, v) && (BracketsElsewhere(v) || (BracketsInside(v) && !Contains(v, MARKER)))
  }

  /** In particular none of these, such as a token or a DSN with the address of an IPv6 host. */
  lemma TerminalNeverShowsPlaces(values: seq<bytes>, rs: Replacements, keep: nat, chunks: seq<bytes>)
    requires Collects(values, rs) && LongerFirst(rs) && rs != [] && keep == |rs[0].value| - 1
    ensures forall v :: v in values && v != [] && BracketsAway(v) ==>
              var r := Run(rs, keep, [], chunks);
              !Contains(r.emit + r.tail, v) && !Contains(Output(rs, keep, chunks), v)
  {
    forall v | v in values && v != [] && BracketsAway(v) ensures Apart(v) {
      if BracketsElsewhere(v) {
        BracketsElsewhereApart(v);
      } else {
        BracketsInsideApart(v);
      }
    }
    TerminalNeverShows(values, rs, keep, chunks);
  }

  lemma Twice(rs: seq<Replacement>, r: Replacement)
    requires |rs| > 1 && rs[0] == rs[1] == r
    ensures multiset(rs)[r] >= 2
  {
    assert rs == [r, r] + rs[2..];
  }

  /** With one secret, what the browser gets is one replacement over the whole stream. */
  lemma TerminalOneSecret(values: seq<bytes>, rs: Replacements, keep: nat, chunks: seq<bytes>, v: bytes)
    requires Collects(values, rs) && rs != [] && keep == |rs[0].value| - 1
    requires v in values && v != [] && forall w :: w in values ==> w == v || w == []
    requires !Straddles(v, MARKER)
    ensures Output(rs, keep, chunks) == ReplaceAll(Concat(chunks), v, MARKER)
  {
    var r := Replacement(v, MARKER);
    forall x | x in rs ensures x == r {
      assert x in multiset(rs);
    }
    if |rs| > 1 {
      Twice(rs, r);
    }
    assert rs == [r];
    OneShot(v, MARKER, chunks);
  }
}

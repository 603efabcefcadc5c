/** White space at the ends of text, as strings.TrimSpace drops it (ASCII). */
module Text {
  predicate IsSpaceCode(code: int) { code == 0x20 || 0x09 <= code <= 0x0d }

  predicate IsSpaceChar(c: char) { IsSpaceCode(c as int) }

  function TrimLeft<T>(s: seq<T>, isSpace: T -> bool): seq<T> {
    if s != [] && isSpace(s[0]) then TrimLeft(s[1..], isSpace) else s
  }

  function TrimRight<T>(s: seq<T>, isSpace: T -> bool): seq<T> {
    if s != [] && isSpace(s[|s| - 1]) then TrimRight(s[..|s| - 1], isSpace) else s
  }

  function Trim<T>(s: seq<T>, isSpace: T -> bool): seq<T> { TrimRight(TrimLeft(s, isSpace), isSpace) }

  function TrimSpace(s: string): string { Trim(s, IsSpaceChar) }

  lemma {:induction false} TrimLeftWithin<T>(s: seq<T>, isSpace: T -> bool)
    ensures forall c :: c in TrimLeft(s, isSpace) ==> c in s
  {
    if s != [] && isSpace(s[0]) {
      TrimLeftWithin(s[1..], isSpace);
    }
  }

  lemma {:induction false} TrimRightWithin<T>(s: seq<T>, isSpace: T -> bool)
    ensures forall c :: c in TrimRight(s, isSpace) ==> c in s
  {
    if s != [] && isSpace(s[|s| - 1]) {
      TrimRightWithin(s[..|s| - 1], isSpace);
    }
  }

  /** Trimming brings no character in. */
  lemma TrimWithin(s: string)
    ensures forall c :: c in TrimSpace(s) ==> c in s
  {
    TrimLeftWithin(s, IsSpaceChar);
    TrimRightWithin(TrimLeft(s, IsSpaceChar), IsSpaceChar);
  }

  lemma {:induction false} TrimRightHead<T>(s: seq<T>, isSpace: T -> bool)
    ensures s != [] && !isSpace(s[0]) ==> TrimRight(s, isSpace) != [] && TrimRight(s, isSpace)[0] == s[0]
    ensures s == [] ==> TrimRight(s, isSpace) == []
  {
    if |s| > 1 && isSpace(s[|s| - 1]) {
      TrimRightHead(s[..|s| - 1], isSpace);
    }
  }

  /** The codes of tab, line feed, vertical tab, form feed, carriage return and space. */
  const WHITE: set<int> := {0x09, 0x0a, 0x0b, 0x0c, 0x0d, 0x20}

  /** `r` is what is left of `s` from a to b: white space alone before and behind it, none at
      its ends. */
  ghost predicate IsTrimmed<T>(s: seq<T>, code: T -> int, r: seq<T>, a: int, b: int) {
    && 0 <= a <= b <= |s| && r == s[a..b]
    && (forall i :: 0 <= i < |s| && (i < a || b <= i) ==> code(s[i]) in WHITE)
    && (a < b ==> code(s[a]) !in WHITE && code(s[b - 1]) !in WHITE)
  }

  lemma {:induction false} TrimLeftAt<T>(s: seq<T>, isSpace: T -> bool) returns (a: nat)
    ensures a <= |s| && TrimLeft(s, isSpace) == s[a..]
    ensures (forall i :: 0 <= i < a ==> isSpace(s[i])) && (a < |s| ==> !isSpace(s[a]))
  {
    if s != [] && isSpace(s[0]) {
      var k := TrimLeftAt(s[1..], isSpace);
      a := k + 1;
      assert s[1..][k..] == s[a..];
    } else {
      a := 0;
    }
  }

  lemma {:induction false} TrimRightAt<T>(s: seq<T>, isSpace: T -> bool) returns (b: nat)
    ensures b <= |s| && TrimRight(s, isSpace) == s[..b]
    ensures (forall i :: b <= i < |s| ==> isSpace(s[i])) && (b > 0 ==> !isSpace(s[b - 1]))
  {
    if s != [] && isSpace(s[|s| - 1]) {
      b := TrimRightAt(s[..|s| - 1], isSpace);
      assert s[..|s| - 1][..b] == s[..b];
    } else {
      b := |s|;
    }
  }

  /** Trimming takes white space off both ends, all of it and nothing else. */
  lemma TrimIs<T>(s: seq<T>, isSpace: T -> bool, code: T -> int)
    requires forall c :: isSpace(c) <==> code(c) in WHITE
    ensures exists a, b :: IsTrimmed(s, code, Trim(s, isSpace), a, b)
  {
    hide TrimLeft, TrimRight;
    var a := TrimLeftAt(s, isSpace);
    var b := TrimRightAt(s[a..], isSpace);
    assert s[a..][..b] == s[a..a + b];
    forall i | 0 <= i < |s| && (i < a || a + b <= i) ensures code(s[i]) in WHITE {
      assert i >= a ==> s[a..][i - a] == s[i];
    }
    assert IsTrimmed(s, code, Trim(s, isSpace), a, a + b);
  }

  function CodeOf(c: char): int { c as int }

  lemma TrimSpaceIs(s: string)
    ensures exists a, b :: IsTrimmed(s, CodeOf, TrimSpace(s), a, b)
  {
    TrimIs(s, IsSpaceChar, CodeOf);
    var a, b :| IsTrimmed(s, CodeOf, Trim(s, IsSpaceChar), a, b);
    assert IsTrimmed(s, CodeOf, TrimSpace(s), a, b);
  }

  // ---------------------------------------------------------------- which positions are kept

  /** The positions of the elements to keep, in order. */
  ghost predicate Positions<T>(s: seq<T>, keep: T -> bool, pos: seq<nat>) {
    && (forall i, j :: 0 <= i < j < |pos| ==> pos[i] < pos[j])
    && (forall i :: i in pos <==> 0 <= i < |s| && keep(s[i]))
  }

  function Shifted(pos: seq<nat>): (r: seq<nat>)
    ensures |r| == |pos| && forall k :: 0 <= k < |pos| ==> r[k] == pos[k] + 1
  {
    if pos == [] then [] else [pos[0] + 1] + Shifted(pos[1..])
  }

  lemma ShiftedIn(pos: seq<nat>, i: int)
    ensures i in Shifted(pos) <==> i > 0 && i - 1 in pos
  {
    if i in Shifted(pos) {
      var k :| 0 <= k < |pos| && Shifted(pos)[k] == i;
      assert pos[k] in pos;
    }
    if i > 0 && i - 1 in pos {
      var k :| 0 <= k < |pos| && pos[k] == i - 1;
      assert Shifted(pos)[k] in Shifted(pos);
    }
  }

  lemma PositionsCons<T>(s: seq<T>, keep: T -> bool, pos: seq<nat>)
    requires s != [] && Positions(s[1..], keep, pos)
    ensures Positions(s, keep, (if keep(s[0]) then [0] else []) + Shifted(pos))
  {
    var all := (if keep(s[0]) then [0] else []) + Shifted(pos);
    forall i ensures i in all <==> 0 <= i < |s| && keep(s[i]) {
      ShiftedIn(pos, i);
      assert i > 0 && i < |s| ==> s[1..][i - 1] == s[i];
    }
  }

  /** What is kept, and what each element becomes. */
  ghost predicate Picks<T, U>(s: seq<T>, pos: seq<nat>, to: T -> U, r: seq<U>) {
    |r| == |pos| && forall k :: 0 <= k < |r| ==> pos[k] < |s| && r[k] == to(s[pos[k]])
  }

  lemma PicksCons<T, U>(s: seq<T>, keep: bool, pos: seq<nat>, to: T -> U, r: seq<U>)
    requires s != [] && Picks(s[1..], pos, to, r)
    ensures Picks(s, (if keep then [0] else []) + Shifted(pos), to, (if keep then [to(s[0])] else []) + r)
  {
    var first := if keep then [0] else [];
    var all, out := first + Shifted(pos), (if keep then [to(s[0])] else []) + r;
    forall k | 0 <= k < |out| ensures all[k] < |s| && out[k] == to(s[all[k]]) {
      if k >= |first| {
        var i := k - |first|;
        assert out[k] == r[i] && all[k] == pos[i] + 1 && s[1..][pos[i]] == s[all[k]];
      }
    }
  }
}

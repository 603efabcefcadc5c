/** filteringReader: passes on the typed lines that no deny or reject rule matches first. */
module CommandFilter {
  import Text
  import opened Options
  import opened Bytes

  /** A compiled rule; the regular expression is any predicate on the cleaned line. */
  datatype Rule = Rule(name: string, action: string, matches: bytes -> bool)

  /** Drops control bytes but tab, line feed and carriage return. */
  function StripControls(s: bytes): bytes {
    if s == [] then []
    else
      var b := s[0];
      (if b == 0x09 || b == 0x0a || b == 0x0d || (b >= 0x20 && b != 0x7f) then [b] else []) + StripControls(s[1..])
  }

  /** Tab, line feed, carriage return, and every byte from the space on but delete. */
  predicate Stays(b: byte) { b in {0x09, 0x0a, 0x0d} || 0x20 <= b < 0x7f || b > 0x7f }

  function Same(b: byte): byte { b }

  /** Of a line, exactly those bytes stay, in order. */
  lemma {:induction false} StripIs(s: bytes) returns (pos: seq<nat>)
    ensures Text.Positions(s, Stays, pos) && Text.Picks(s, pos, Same, StripControls(s))
  {
    if s == [] {
      return [];
    }
    var later := StripIs(s[1..]);
    Text.PositionsCons(s, Stays, later);
    Text.PicksCons(s, Stays(s[0]), later, Same, StripControls(s[1..]));
    pos := (if Stays(s[0]) then [0] else []) + Text.Shifted(later);
  }

  /** The first rule that matches the cleaned line. */
  function Match(rules: seq<Rule>, line: bytes): Option<Rule> {
    FirstMatch(rules, TrimSpace(StripControls(line)))
  }

  function FirstMatch(rules: seq<Rule>, cleaned: bytes): Option<Rule> {
    if rules == [] then None
    else if rules[0].matches(cleaned) then Some(rules[0])
    else FirstMatch(rules[1..], cleaned)
  }

  predicate Rejects(rules: seq<Rule>, line: bytes) {
    var rule := Match(rules, line);
    rule.Some? && (rule.value.action == "deny" || rule.value.action == "reject")
  }

  // ---------------------------------------------------------------- lines of the input

  predicate Unterminated(s: bytes) { 0x0d !in s && 0x0a !in s }

  /** Where the first line ends: just behind its terminator, or 0 without one. */
  function LineEnd(s: bytes): (n: nat)
    ensures n <= |s|
    ensures n == 0 ==> Unterminated(s)
    ensures n > 0 ==> s[n - 1] in {0x0d, 0x0a} && Unterminated(s[..n - 1])
  {
    if s == [] then 0
    else if EndsLine(s[0]) then 1
    else
      var n := LineEnd(s[1..]);
      assert n > 0 ==> s[..n] == [s[0]] + s[1..][..n - 1];
      assert s == [s[0]] + s[1..];
      if n == 0 then 0 else n + 1
  }

  /** The terminated lines of the input, terminators included. */
  function Lines(s: bytes): seq<bytes>
    decreases |s|
  {
    var n := LineEnd(s);
    if n == 0 then [] else [s[..n]] + Lines(s[n..])
  }

  /** The bytes behind the last terminator. */
  function Open(s: bytes): bytes
    decreases |s|
  {
    var n := LineEnd(s);
    if n == 0 then s else Open(s[n..])
  }

  lemma {:induction false} LinesJoin(s: bytes)
    ensures s == Concat(Lines(s)) + Open(s) && Unterminated(Open(s))
    decreases |s|
  {
    hide Lines, Open, Unterminated;
    var n := LineEnd(s);
    FirstLine(s, n);
    if n == 0 {
      assert Concat([]) == [] && [] + s == s;
    } else {
      hide *;
      LinesJoin(s[n..]);
      ConcatCons(s[..n], Lines(s[n..]));
      Assoc(s[..n], Concat(Lines(s[n..])), Open(s));
      assert s == s[..n] + s[n..];
    }
  }

  predicate IsLine(l: bytes) {
    l != [] && EndsLine(l[|l| - 1]) && Unterminated(l[..|l| - 1])
  }

  lemma {:induction false} LinesEnded(s: bytes)
    ensures forall l :: l in Lines(s) ==> IsLine(l)
    decreases |s|
  {
    var n := LineEnd(s);
    FirstLine(s, n);
    if n > 0 {
      var first := s[..n];
      assert first[..n - 1] == s[..n - 1];
      assert IsLine(first);
      hide Lines, Open, IsLine;
      LinesEnded(s[n..]);
      forall l | l in [first] + Lines(s[n..]) ensures IsLine(l) {
        assert l == first || l in Lines(s[n..]);
      }
    }
  }

  /** The lines, and the open line, which has no terminator, make up the input; each line
      has one terminator, at its end. */
  lemma LinesPartition(s: bytes)
    ensures s == Concat(Lines(s)) + Open(s) && Unterminated(Open(s))
    ensures forall l :: l in Lines(s) ==>
              l != [] && l[|l| - 1] in {0x0d, 0x0a} && Unterminated(l[..|l| - 1])
  {
    hide Lines, Open, Concat, Unterminated;
    LinesJoin(s);
    LinesEnded(s);
    assert forall l :: l in Lines(s) ==> IsLine(l);
  }

  /** The lines to deliver, joined. */
  function Kept(rules: seq<Rule>, lines: seq<bytes>): bytes {
    if lines == [] then []
    else (if Rejects(rules, lines[0]) then [] else lines[0]) + Kept(rules, lines[1..])
  }

  /** The names of the rules the other lines are rejected by. */
  function Notices(rules: seq<Rule>, lines: seq<bytes>): seq<string> {
    if lines == [] then []
    else (if Rejects(rules, lines[0]) then [Match(rules, lines[0]).value.name] else []) + Notices(rules, lines[1..])
  }

  /** The first terminator is where nothing before it ends a line. */
  lemma {:induction false} EndIs(s: bytes, k: nat)
    requires 0 < k <= |s| && EndsLine(s[k - 1]) && Unterminated(s[..k - 1])
    ensures LineEnd(s) == k
    decreases |s|
  {
    if k > 1 {
      assert s[..k - 1][0] in s[..k - 1];
      assert s[1..][..k - 2] == s[..k - 1][1..];
      EndIs(s[1..], k - 1);
    }
  }

  lemma FirstLine(s: bytes, n: nat)
    requires n == LineEnd(s)
    ensures n == 0 ==> Lines(s) == [] && Open(s) == s
    ensures n > 0 ==> Lines(s) == [s[..n]] + Lines(s[n..]) && Open(s) == Open(s[n..])
  {
  }

  lemma EndKept(s: bytes, more: bytes)
    requires LineEnd(s) > 0
    ensures LineEnd(s + more) == LineEnd(s)
  {
    var n := LineEnd(s);
    assert (s + more)[..n - 1] == s[..n - 1];
    EndIs(s + more, n);
  }

  /** More input completes the open line first. */
  lemma {:induction false} LinesAppend(s: bytes, more: bytes)
    ensures Lines(s + more) == Lines(s) + Lines(Open(s) + more) && Open(s + more) == Open(Open(s) + more)
    decreases |s|
  {
    hide *;
    var n := LineEnd(s);
    FirstLine(s, n);
    if n > 0 {
      EndKept(s, more);
      FirstLine(s + more, n);
      assert (s + more)[..n] == s[..n] && (s + more)[n..] == s[n..] + more;
      LinesAppend(s[n..], more);
    }
  }

  lemma {:induction false} KeptSnoc(rules: seq<Rule>, lines: seq<bytes>, l: bytes)
    ensures Kept(rules, lines + [l]) == Kept(rules, lines) + if Rejects(rules, l) then [] else l
    ensures Notices(rules, lines + [l])
            == Notices(rules, lines) + if Rejects(rules, l) then [Match(rules, l).value.name] else []
  {
    hide Rejects, Match;
    if lines == [] {
      assert lines + [l] == [l] && [l][1..] == [];
    } else {
      assert (lines + [l])[1..] == lines[1..] + [l];
      KeptSnoc(rules, lines[1..], l);
    }
  }

  lemma LineEnds(line: bytes, b: byte)
    requires Unterminated(line)
    ensures EndsLine(b) ==> Lines(line + [b]) == [line + [b]] && Open(line + [b]) == []
    ensures !EndsLine(b) ==> Lines(line + [b]) == [] && Open(line + [b]) == line + [b]
  {
    var s := line + [b];
    if EndsLine(b) {
      assert s[..|line|] == line;
      EndIs(s, |s|);
      assert s[|s|..] == [] && s[..|s|] == s;
    }
  }

  /** What one more byte does to lines and open line. */
  lemma OneByte(s: bytes, b: byte)
    ensures EndsLine(b) ==> Lines(s + [b]) == Lines(s) + [Open(s) + [b]] && Open(s + [b]) == []
    ensures !EndsLine(b) ==> Lines(s + [b]) == Lines(s) && Open(s + [b]) == Open(s) + [b]
  {
    hide Lines, Open, Unterminated;
    LinesAppend(s, [b]);
    LinesPartition(s);
    LineEnds(Open(s), b);
    assert Lines(s) + [] == Lines(s);
  }

  // ---------------------------------------------------------------- the reader

  datatype ReadError = EOF | Failure(message: string)

  /** The user's input as it arrives: any amount a read, an end or a failure with or after
      bytes, a failure possibly not the last word, and some reads that come back empty. */
  class Source {
    var data: bytes
    var idle: nat
    /** What the last read reported. */
    var reported: Option<ReadError>

    constructor (data: bytes, idle: nat)
      ensures this.data == data && this.idle == idle && reported == None
    {
      this.data, this.idle, reported := data, idle, None;
    }

    method Read(n: nat) returns (got: bytes, err: Option<ReadError>)
      requires n > 0
      modifies this
      ensures old(data) == got + data && |got| <= n && reported == err
      ensures err == Some(EOF) ==> data == []
      ensures idle <= old(idle) && (err.None? && got == [] ==> idle < old(idle))
    {
      var most := if n < |data| then n else |data|;
      var k: nat :| k <= most;
      got := data[..k];
      data := data[k..];
      var fails: bool, ends: bool, message: string := *, *, *;
      if fails {
        err := Some(Failure(message));
      } else if data == [] && (ends || (k == 0 && idle == 0)) {
        err := Some(EOF);
      } else if k == 0 && idle == 0 {
        err := Some(Failure(message));
      } else {
        err := None;
        idle := if k == 0 then idle - 1 else idle;
      }
      reported := err;
    }
  }

  class FilteringReader {
    const src: Source
    const rules: seq<Rule>
    var buf: bytes
    var line: bytes
    /** The rule names the user was notified of. */
    var notified: seq<string>
    /** All that was read from the source, and all that was handed out. */
    ghost var taken: bytes
    ghost var handed: bytes

    constructor (src: Source, rules: seq<Rule>)
      ensures this.src == src && this.rules == rules && Valid() && taken == handed == []
    {
      this.src, this.rules, buf, line, notified := src, rules, [], [], [];
      taken, handed := [], [];
    }

    /** Handed out and buffered are the kept lines of what was read, and `line` is its rest. */
    ghost predicate Valid()
      reads this
    {
      && handed + buf == Kept(rules, Lines(taken)) && line == Open(taken)
      && notified == Notices(rules, Lines(taken))
    }

    /** Filters bytes taken from the source. */
    method WriteFiltered(data: bytes)
      requires Valid()
      modifies this
      ensures Valid() && taken == old(taken) + data && handed == old(handed)
      ensures data == [] ==> buf == old(buf)
    {
      hide Kept, Notices, Lines, Open;
      for i := 0 to |data|
        invariant Valid() && taken == old(taken) + data[..i] && handed == old(handed)
        invariant i == 0 ==> buf == old(buf)
      {
        assert data[..i + 1] == data[..i] + [data[i]];
        WriteByte(data[i]);
      }
      assert data[..|data|] == data;
    }

    /** Adds one byte to the line; a line that ends is passed on or rejected. */
    method WriteByte(b: byte)
      requires Valid()
      modifies this
      ensures Valid() && taken == old(taken) + [b] && handed == old(handed)
    {
      hide Lines, Match, Kept, Notices, Open;
      OneByte(taken, b);
      KeptSnoc(rules, Lines(taken), Open(taken) + [b]);
      taken := taken + [b];
      line := line + [b];
      if b != 0x0a && b != 0x0d {
        return;
      }
      var full := line;
      line := [];
      var rule := Match(rules, full);
      if rule.Some? && (rule.value.action == "deny" || rule.value.action == "reject") {
        notified := notified + [rule.value.name];
        return;
      }
      Assoc(handed, buf, full);
      buf := buf + full;
    }

    /** Fills the buffer if it is empty, then takes as many of its bytes as p allows. With bytes
        in the buffer the source is left alone. An error comes with no bytes, is the one the
        source reported last, and comes once all kept bytes of what was read are handed out. */
    method Read(p: nat) returns (out: bytes, err: Option<ReadError>)
      requires Valid()
      modifies this, src
      ensures Valid() && handed == old(handed) + out && |out| <= p
      ensures taken + src.data == old(taken + src.data)
      ensures err.None? ==> |out| == (if p < |out + buf| then p else |out + buf|) && (p > 0 ==> out != [])
      ensures old(buf) != [] ==> err.None? && taken == old(taken) && src.data == old(src.data)
                                 && src.idle == old(src.idle) && out + buf == old(buf)
      ensures err.Some? ==> out == [] && handed == Kept(rules, Lines(taken)) && err == src.reported
      ensures err == Some(EOF) ==> src.data == []
    {
      hide Kept, Notices, Lines, Open;
      assert handed + [] == handed;
      while buf == []
        invariant Valid() && handed == old(handed) && taken + src.data == old(taken + src.data)
        invariant old(buf) != [] ==> buf == old(buf) && taken == old(taken) && src.data == old(src.data)
                                     && src.idle == old(src.idle)
        decreases |src.data|, src.idle, buf == []
      {
        var got, failed := src.Read(if p == 0 then 1 else p);
        Assoc(taken, got, src.data);
        if |got| > 0 {
          WriteFiltered(got);
        } else {
          assert [] + src.data == src.data;
        }
        if failed.Some? {
          if |buf| > 0 {
            break;
          }
          assert handed + [] == handed;
          return [], failed;
        }
      }
      var n := if p < |buf| then p else |buf|;
      out := buf[..n];
      Assoc(handed, buf[..n], buf[n..]);
      assert buf == buf[..n] + buf[n..];
      buf := buf[n..];
      handed := handed + out;
      err := None;
    }
  }

  /** The part of the old data that was read by now. */
  function Taken(before: bytes, now: bytes): bytes
    requires |now| <= |before|
  {
    before[..|before| - |now|]
  }

  /** What newFilteringReader's reader delivers, read with the given positive sizes until it
      reports an error. With rules, exactly the lines of what was read that are not rejected
      arrive, in order, each once, and a last line without a terminator does not. Without
      rules the reader is the source itself, and all that was read arrives. At the end of the
      input, that is all of it. */
  method Deliver(src: Source, rules: seq<Rule>, sizes: nat -> nat)
    returns (delivered: bytes, notices: seq<string>, err: ReadError)
    requires forall k :: sizes(k) > 0
    modifies src
    ensures |src.data| <= |old(src.data)| && (err == EOF ==> Taken(old(src.data), src.data) == old(src.data))
    ensures rules == [] ==> delivered == Taken(old(src.data), src.data) && notices == []
    ensures rules != [] ==> delivered == Kept(rules, Lines(Taken(old(src.data), src.data)))
                            && notices == Notices(rules, Lines(Taken(old(src.data), src.data)))
  {
    if rules == [] {
      delivered, err := DeliverSource(src, sizes);
      notices := [];
    } else {
      delivered, notices, err := DeliverFiltered(src, rules, sizes);
    }
  }

  method DeliverSource(src: Source, sizes: nat -> nat) returns (delivered: bytes, err: ReadError)
    requires forall k :: sizes(k) > 0
    modifies src
    ensures old(src.data) == delivered + src.data && (err == EOF ==> src.data == [])
  {
    delivered := [];
    var k := 0;
    while true
      invariant delivered + src.data == old(src.data)
      decreases |src.data|, src.idle
    {
      var got, failed := src.Read(sizes(k));
      Assoc(delivered, got, src.data);
      delivered, k := delivered + got, k + 1;
      if failed.Some? {
        return delivered, failed.value;
      }
    }
  }

  method DeliverFiltered(src: Source, rules: seq<Rule>, sizes: nat -> nat)
    returns (delivered: bytes, notices: seq<string>, err: ReadError)
    requires forall k :: sizes(k) > 0
    modifies src
    ensures |src.data| <= |old(src.data)| && (err == EOF ==> src.data == [])
    ensures var taken := Taken(old(src.data), src.data);
            delivered == Kept(rules, Lines(taken)) && notices == Notices(rules, Lines(taken))
  {
    hide Kept, Notices, Lines, Open;
    var r := new FilteringReader(src, rules);
    assert [] + src.data == src.data;
    delivered := [];
    var k := 0;
    while true
      invariant r.Valid() && r.src == src && r.rules == rules && fresh(r)
      invariant delivered == r.handed && r.taken + src.data == old(src.data)
      decreases |Kept(rules, Lines(old(src.data)))| - |delivered|
    {
      var out, failed := r.Read(sizes(k));
      delivered, k := delivered + out, k + 1;
      if failed.Some? {
        return delivered, r.notified, failed.value;
      }
      HandedWithin(rules, r.taken, src.data);
    }
  }

  /** What is kept of the first part of the input is kept of all of it. */
  lemma HandedWithin(rules: seq<Rule>, s: bytes, more: bytes)
    ensures |Kept(rules, Lines(s))| <= |Kept(rules, Lines(s + more))|
  {
    LinesAppend(s, more);
    KeptConcat(rules, Lines(s), Lines(Open(s) + more));
  }

  lemma {:induction false} KeptConcat(rules: seq<Rule>, a: seq<bytes>, b: seq<bytes>)
    ensures Kept(rules, a + b) == Kept(rules, a) + Kept(rules, b)
  {
    hide Rejects;
    if a == [] {
      assert a + b == b;
    } else {
      assert (a + b)[1..] == a[1..] + b;
      KeptConcat(rules, a[1..], b);
    }
  }

  // ---------------------------------------------------------------- what is kept

  /** The positions of the lines that are rejected, or of those that are not, in order. */
  ghost predicate LinesAt(rules: seq<Rule>, lines: seq<bytes>, rejected: bool, pos: seq<nat>) {
    && (forall i, j :: 0 <= i < j < |pos| ==> pos[i] < pos[j])
    && (forall i :: i in pos <==> 0 <= i < |lines| && Rejects(rules, lines[i]) == rejected)
  }

  /** The lines at the positions, and the names of the rules that decided about them. */
  ghost predicate Picked(lines: seq<bytes>, pos: seq<nat>, out: seq<bytes>) {
    |out| == |pos| && forall k :: 0 <= k < |out| ==> pos[k] < |lines| && out[k] == lines[pos[k]]
  }

  ghost predicate Named(rules: seq<Rule>, lines: seq<bytes>, pos: seq<nat>, out: seq<string>) {
    |out| == |pos| && forall k :: 0 <= k < |out| ==>
      pos[k] < |lines| && Match(rules, lines[pos[k]]).Some? && out[k] == Match(rules, lines[pos[k]]).value.name
  }

  lemma LinesAtCons(rules: seq<Rule>, l: bytes, lines: seq<bytes>, rejected: bool, pos: seq<nat>)
    requires LinesAt(rules, lines, rejected, pos)
    ensures LinesAt(rules, [l] + lines, rejected,
                    if Rejects(rules, l) == rejected then [0] + Text.Shifted(pos) else Text.Shifted(pos))
  {
    hide Rejects;
    var all := if Rejects(rules, l) == rejected then [0] + Text.Shifted(pos) else Text.Shifted(pos);
    forall i ensures i in all <==> 0 <= i < |[l] + lines| && Rejects(rules, ([l] + lines)[i]) == rejected {
      Text.ShiftedIn(pos, i);
      assert i > 0 && i < |[l] + lines| ==> ([l] + lines)[i] == lines[i - 1];
    }
  }

  lemma ShiftedTakes(l: bytes, lines: seq<bytes>, pos: seq<nat>, out: seq<bytes>)
    requires Picked(lines, pos, out)
    ensures Picked([l] + lines, Text.Shifted(pos), out) && Picked([l] + lines, [0] + Text.Shifted(pos), [l] + out)
  {
    assert forall k :: 0 <= k < |pos| ==> ([l] + lines)[pos[k] + 1] == lines[pos[k]];
  }

  lemma ShiftedNames(rules: seq<Rule>, l: bytes, lines: seq<bytes>, pos: seq<nat>, out: seq<string>)
    requires Named(rules, lines, pos, out)
    ensures Named(rules, [l] + lines, Text.Shifted(pos), out)
    ensures Match(rules, l).Some? ==>
              Named(rules, [l] + lines, [0] + Text.Shifted(pos), [Match(rules, l).value.name] + out)
  {
    hide Match;
    assert forall k :: 0 <= k < |pos| ==> ([l] + lines)[pos[k] + 1] == lines[pos[k]];
  }

  lemma KeptCons(rules: seq<Rule>, l: bytes, lines: seq<bytes>)
    ensures Kept(rules, [l] + lines) == (if Rejects(rules, l) then [] else l) + Kept(rules, lines)
    ensures Notices(rules, [l] + lines)
            == (if Rejects(rules, l) then [Match(rules, l).value.name] else []) + Notices(rules, lines)
  {
    hide Rejects, Match;
    assert ([l] + lines)[1..] == lines;
  }

  /** Delivered are the lines that no rule rejects, whole and in order. */
  lemma {:induction false} KeptIs(rules: seq<Rule>, lines: seq<bytes>) returns (pos: seq<nat>, whole: seq<bytes>)
    ensures LinesAt(rules, lines, false, pos) && Picked(lines, pos, whole) && Kept(rules, lines) == Concat(whole)
  {
    if lines == [] {
      return [], [];
    }
    hide LinesAt, Picked, Kept, Concat, Rejects;
    var l := lines[0];
    var later, rest := KeptIs(rules, lines[1..]);
    assert [l] + lines[1..] == lines;
    LinesAtCons(rules, l, lines[1..], false, later);
    ShiftedTakes(l, lines[1..], later, rest);
    KeptCons(rules, l, lines[1..]);
    if Rejects(rules, l) {
      pos, whole := Text.Shifted(later), rest;
      assert [] + Concat(rest) == Concat(rest);
    } else {
      pos, whole := [0] + Text.Shifted(later), [l] + rest;
      ConcatCons(l, rest);
    }
  }

  /** Announced, in order, is each of the others, with the name of the rule that decided. */
  lemma {:induction false} NoticesAre(rules: seq<Rule>, lines: seq<bytes>) returns (pos: seq<nat>)
    ensures LinesAt(rules, lines, true, pos) && Named(rules, lines, pos, Notices(rules, lines))
  {
    if lines == [] {
      return [];
    }
    hide LinesAt, Named, Notices, Rejects, Match;
    var l := lines[0];
    var later := NoticesAre(rules, lines[1..]);
    assert [l] + lines[1..] == lines;
    LinesAtCons(rules, l, lines[1..], true, later);
    ShiftedNames(rules, l, lines[1..], later, Notices(rules, lines[1..]));
    RejectedIsMatched(rules, l);
    KeptCons(rules, l, lines[1..]);
    if Rejects(rules, l) {
      pos := [0] + Text.Shifted(later);
    } else {
      pos := Text.Shifted(later);
      assert [] + Notices(rules, lines[1..]) == Notices(rules, lines[1..]);
    }
  }

  lemma RejectedIsMatched(rules: seq<Rule>, line: bytes)
    ensures Rejects(rules, line) ==> Match(rules, line).Some?
  {
    hide Match;
  }

  /** Which rule decides: the first one that matches. */
  lemma {:induction false} FirstMatchIff(rules: seq<Rule>, cleaned: bytes, k: nat)
    requires k < |rules| && rules[k].matches(cleaned)
    requires forall i :: 0 <= i < k ==> !rules[i].matches(cleaned)
    ensures FirstMatch(rules, cleaned) == Some(rules[k])
    decreases k
  {
    if k > 0 {
      FirstMatchIff(rules[1..], cleaned, k - 1);
    }
  }

  lemma {:induction false} NoMatchIff(rules: seq<Rule>, cleaned: bytes)
    ensures FirstMatch(rules, cleaned).None? <==> forall i :: 0 <= i < |rules| ==> !rules[i].matches(cleaned)
    decreases |rules|
  {
    if rules != [] {
      NoMatchIff(rules[1..], cleaned);
      assert forall i :: 1 <= i < |rules| ==> rules[i] == rules[1..][i - 1];
    }
  }

  /** A line is rejected exactly when the first rule that matches it denies or rejects. */
  lemma RejectsIff(rules: seq<Rule>, line: bytes)
    ensures Rejects(rules, line) <==>
            exists k :: 0 <= k < |rules| && rules[k].matches(TrimSpace(StripControls(line)))
              && (forall i :: 0 <= i < k ==> !rules[i].matches(TrimSpace(StripControls(line))))
              && (rules[k].action == "deny" || rules[k].action == "reject")
  {
    var cleaned := TrimSpace(StripControls(line));
    NoMatchIff(rules, cleaned);
    forall k | 0 <= k < |rules| && rules[k].matches(cleaned) && (forall i :: 0 <= i < k ==> !rules[i].matches(cleaned))
      ensures FirstMatch(rules, cleaned) == Some(rules[k])
    {
      FirstMatchIff(rules, cleaned, k);
    }
    if exists k :: 0 <= k < |rules| && rules[k].matches(cleaned) {
      var k := LeastMatch(rules, cleaned);
    }
  }

  lemma LeastMatch(rules: seq<Rule>, cleaned: bytes) returns (k: nat)
    requires exists i :: 0 <= i < |rules| && rules[i].matches(cleaned)
    ensures k < |rules| && rules[k].matches(cleaned) && forall i :: 0 <= i < k ==> !rules[i].matches(cleaned)
  {
    var j :| 0 <= j < |rules| && rules[j].matches(cleaned);
    k := 0;
    while !rules[k].matches(cleaned)
      invariant k <= j && forall i :: 0 <= i < k ==> !rules[i].matches(cleaned)
      decreases j - k
    {
      k := k + 1;
    }
  }
}

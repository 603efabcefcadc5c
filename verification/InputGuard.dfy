/** usqlInputGuard: keeps backslash meta-commands typed by the user from being submitted. */
module InputGuard {
  import Text
  import opened Bytes

  const INTERRUPT: byte := 0x03
  const KILL: byte := 0x15
  const BACKSPACE: byte := 0x08
  const DELETE: byte := 0x7f
  const BACKSLASH: byte := 0x5c

  predicate Kills(b: byte) { b == INTERRUPT || b == KILL }
  predicate Erases(b: byte) { b == BACKSPACE || b == DELETE }

  /** A line the guard refuses to submit. */
  predicate IsMeta(line: bytes) { [BACKSLASH] <= TrimSpace(line) }

  // ------------------------------------------------ the line editor behind the guard

  /** A line handed to the shell and the key that ended it. */
  datatype Submission = Submission(line: bytes, key: byte)

  datatype Editor = Editor(line: bytes, submitted: seq<Submission>)

  function Press(e: Editor, b: byte): Editor {
    if EndsLine(b) then Editor([], e.submitted + [Submission(e.line, b)])
    else if Kills(b) then Editor([], e.submitted)
    else if Erases(b) then Editor(if e.line == [] then [] else e.line[..|e.line| - 1], e.submitted)
    else Editor(e.line + [b], e.submitted)
  }

  function Type(e: Editor, keys: bytes): Editor
    decreases |keys|
  {
    if keys == [] then e else Type(Press(e, keys[0]), keys[1..])
  }

  /** The submissions that are not meta-commands, in order. */
  function Allowed(subs: seq<Submission>): seq<Submission> {
    if subs == [] then []
    else (if IsMeta(subs[0].line) then [] else [subs[0]]) + Allowed(subs[1..])
  }

  // ------------------------------------------------ the guard

  /** What the guard passes on for one byte typed after `line`, and its next line. */
  function GuardByte(line: bytes, b: byte): (byte, bytes) {
    if EndsLine(b) then (if IsMeta(line) then KILL else b, [])
    else if Kills(b) then (b, [])
    else if Erases(b) then (b, if |line| > 0 then line[..|line| - 1] else line)
    else (b, line + [b])
  }

  function Guard(line: bytes, data: bytes): (out: (bytes, bytes))
    ensures |out.0| == |data|
    decreases |data|
  {
    if data == [] then ([], line)
    else
      var (b, l) := GuardByte(line, data[0]);
      var (rest, last) := Guard(l, data[1..]);
      ([b] + rest, last)
  }

  class UsqlInputGuard {
    var line: bytes

    constructor ()
      ensures line == []
    {
      line := [];
    }

    method Filter(data: bytes) returns (out: bytes)
      modifies this
      ensures (out, line) == Guard(old(line), data)
    {
      if |data| == 0 {
        return data;
      }
      out := [];
      assert data[0..] == data && [] + Guard(line, data).0 == Guard(line, data).0;
      for i := 0 to |data|
        invariant (out + Guard(line, data[i..]).0, Guard(line, data[i..]).1) == Guard(old(line), data)
      {
        var b := data[i];
        assert data[i..][0] == b && data[i..][1..] == data[i + 1..];
        ghost var before, rest := out, Guard(GuardByte(line, b).1, data[i + 1..]).0;
        ghost var sent := GuardByte(line, b).0;
        if b == CR || b == LF {
          var blocked := BlockCurrentLine();
          MetaIff(line);
          out := out + [if blocked then KILL else b];
          line := [];
        } else if b == INTERRUPT || b == KILL {
          line := [];
          out := out + [b];
        } else if b == BACKSPACE || b == DELETE {
          if |line| > 0 {
            line := line[..|line| - 1];
          }
          out := out + [b];
        } else {
          line := line + [b];
          out := out + [b];
        }
        Assoc(before, [sent], rest);
      }
      assert data[|data|..] == [];
      assert out + [] == out;
    }

    method BlockCurrentLine() returns (blocked: bool)
      ensures blocked <==>
              exists i :: 0 <= i < |line| && line[i] == 0x5c && forall k :: 0 <= k < i ==> line[k] in Text.WHITE
    {
      MetaIff(line);
      return [BACKSLASH] <= TrimSpace(line);
    }
  }

  // ------------------------------------------------ properties

  /** The guard depends on the bytes typed, not on how they are cut into messages. */
  lemma {:induction false} GuardConcat(line: bytes, a: bytes, b: bytes)
    ensures Guard(line, a + b) ==
            (Guard(line, a).0 + Guard(Guard(line, a).1, b).0, Guard(Guard(line, a).1, b).1)
    decreases |a|
  {
    if a == [] {
      assert a + b == b && [] + Guard(line, b).0 == Guard(line, b).0;
    } else {
      var (x, l) := GuardByte(line, a[0]);
      assert (a + b)[1..] == a[1..] + b;
      GuardConcat(l, a[1..], b);
      Assoc([x], Guard(l, a[1..]).0, Guard(Guard(l, a[1..]).1, b).0);
    }
  }

  lemma {:induction false} AllowedSnoc(subs: seq<Submission>, s: Submission)
    ensures Allowed(subs + [s]) == Allowed(subs) + (if IsMeta(s.line) then [] else [s])
  {
    assert Allowed([]) == [];
    hide IsMeta, Allowed;
    if subs == [] {
      AllowedCons(s, []);
      assert subs + [s] == [s] + [];
    } else {
      AllowedSnoc(subs[1..], s);
      AllowedCons(subs[0], subs[1..] + [s]);
      AllowedCons(subs[0], subs[1..]);
      assert subs + [s] == [subs[0]] + (subs[1..] + [s]) && subs == [subs[0]] + subs[1..];
    }
  }

  lemma AllowedCons(s: Submission, subs: seq<Submission>)
    ensures Allowed([s] + subs) == (if IsMeta(s.line) then [] else [s]) + Allowed(subs)
  {
    hide IsMeta;
    assert ([s] + subs)[1..] == subs;
  }

  /** An editor fed by the guard keeps the same open line as one fed directly, and has
      been given the same lines but for the meta-commands. */
  ghost predicate Follows(guarded: Editor, direct: Editor, line: bytes) {
    guarded.line == direct.line == line && guarded.submitted == Allowed(direct.submitted)
  }

  lemma PressFollows(guarded: Editor, direct: Editor, line: bytes, b: byte)
    requires Follows(guarded, direct, line)
    ensures var (x, l) := GuardByte(line, b); Follows(Press(guarded, x), Press(direct, b), l)
  {
    if EndsLine(b) {
      AllowedSnoc(direct.submitted, Submission(line, b));
    }
  }

  lemma {:induction false} TypeFollows(guarded: Editor, direct: Editor, line: bytes, data: bytes)
    requires Follows(guarded, direct, line)
    ensures var (out, l) := Guard(line, data); Follows(Type(guarded, out), Type(direct, data), l)
    decreases |data|
  {
    if data != [] {
      var (x, l) := GuardByte(line, data[0]);
      PressFollows(guarded, direct, line, data[0]);
      TypeFollows(Press(guarded, x), Press(direct, data[0]), l, data[1..]);
      assert Guard(line, data).0[1..] == Guard(l, data[1..]).0;
    }
  }

  /** The guard over a list of messages, one Filter call each. */
  function GuardAll(line: bytes, messages: seq<bytes>): seq<bytes>
    decreases |messages|
  {
    if messages == [] then []
    else var (out, l) := Guard(line, messages[0]); [out] + GuardAll(l, messages[1..])
  }

  lemma {:induction false} GuardAllIsGuard(line: bytes, messages: seq<bytes>)
    ensures Concat(GuardAll(line, messages)) == Guard(line, Concat(messages)).0
    decreases |messages|
  {
    if messages != [] {
      var (out, l) := Guard(line, messages[0]);
      GuardAllIsGuard(l, messages[1..]);
      GuardConcat(line, messages[0], Concat(messages[1..]));
    }
  }

  /** However the keys are cut into messages, the shell is given exactly the lines the
      user ended, in order, without those that are meta-commands. */
  lemma OnlyMetaCommandsDropped(messages: seq<bytes>)
    ensures var start := Editor([], []);
            Type(start, Concat(GuardAll([], messages))).submitted
            == Allowed(Type(start, Concat(messages)).submitted)
  {
    GuardAllIsGuard([], messages);
    TypeFollows(Editor([], []), Editor([], []), [], Concat(messages));
  }

  lemma SpaceIs(b: byte)
    ensures IsSpace(b) <==> b in Text.WHITE
  {
  }

  /** A meta-command is a line whose first byte that is not white space is a backslash. */
  lemma {:induction false} MetaIff(line: bytes)
    ensures IsMeta(line) <==>
            exists i :: 0 <= i < |line| && line[i] == 0x5c && forall k :: 0 <= k < i ==> line[k] in Text.WHITE
  {
    if line != [] {
      SpaceIs(line[0]);
    }
    if line != [] && IsSpace(line[0]) {
      var later := line[1..];
      MetaIff(later);
      if IsMeta(line) {
        var i :| 0 <= i < |later| && later[i] == 0x5c && forall k :: 0 <= k < i ==> later[k] in Text.WHITE;
        assert forall k :: 0 <= k < i + 1 ==> line[k] in Text.WHITE by {
          assert forall k :: 0 < k < i + 1 ==> line[k] == later[k - 1];
        }
        assert line[i + 1] == 0x5c;
      }
      if i :| 0 <= i < |line| && line[i] == 0x5c && forall k :: 0 <= k < i ==> line[k] in Text.WHITE {
        assert later[i - 1] == 0x5c;
      }
    } else {
      Text.TrimRightHead(line, IsSpace);
    }
  }

  // ------------------------------------------------ key by key

  /** What the editor's keys do: a return or a line feed hands the line over, Ctrl-C and Ctrl-U
      drop it, backspace and delete take the last byte back, any other byte is added. */
  lemma EditorKeys(e: Editor, b: byte)
    ensures b in {0x0d, 0x0a} ==> Press(e, b) == Editor([], e.submitted + [Submission(e.line, b)])
    ensures b in {0x03, 0x15} ==> Press(e, b) == Editor([], e.submitted)
    ensures b in {0x08, 0x7f} ==>
              (e.line == [] ==> Press(e, b) == e)
              && forall c :: c !in {0x0d, 0x0a, 0x03, 0x15, 0x08, 0x7f} ==> Press(Press(e, c), b) == e
    ensures b !in {0x0d, 0x0a, 0x03, 0x15, 0x08, 0x7f} ==> Press(e, b) == Editor(e.line + [b], e.submitted)
  {
    if b in {0x08, 0x7f} {
      forall c: byte | c !in {0x0d, 0x0a, 0x03, 0x15, 0x08, 0x7f} ensures Press(Press(e, c), b) == e {
        assert (e.line + [c])[..|e.line|] == e.line;
      }
    }
  }

  /** The line open after the keys, in an editor that had `line` open. */
  function OpenAfter(line: bytes, keys: bytes): bytes { Type(Editor(line, []), keys).line }

  lemma {:induction false} OpenIgnoresSubmitted(e: Editor, keys: bytes)
    ensures Type(e, keys).line == OpenAfter(e.line, keys)
    decreases |keys|
  {
    if keys != [] {
      var f := Editor(e.line, []);
      OpenIgnoresSubmitted(Press(e, keys[0]), keys[1..]);
      OpenIgnoresSubmitted(Press(f, keys[0]), keys[1..]);
      assert Press(e, keys[0]).line == Press(f, keys[0]).line;
    }
  }

  /** Byte by byte: the return or line feed that would submit a meta-command goes out as Ctrl-U,
      every other byte as it is; the guard's open line is the editor's. */
  lemma {:induction false} PassesAllBut(line: bytes, data: bytes, i: nat)
    requires i < |data|
    ensures var open := OpenAfter(line, data[..i]);
            Guard(line, data).0[i] ==
            if data[i] in {0x0d, 0x0a}
               && exists k :: 0 <= k < |open| && open[k] == 0x5c && forall m :: 0 <= m < k ==> open[m] in Text.WHITE
            then 0x15 else data[i]
    ensures Guard(line, data).1 == OpenAfter(line, data)
    decreases |data|
  {
    hide IsMeta;
    var (b, l) := GuardByte(line, data[0]);
    var e := Press(Editor(line, []), data[0]);
    assert e.line == l;
    OpenIgnoresSubmitted(e, data[1..]);
    if i == 0 {
      assert data[..0] == [] && OpenAfter(line, []) == line;
      MetaIff(line);
      if |data| > 1 {
        PassesAllBut(l, data[1..], 0);
      }
    } else {
      PassesAllBut(l, data[1..], i - 1);
      assert data[..i][1..] == data[1..][..i - 1];
      OpenIgnoresSubmitted(e, data[1..][..i - 1]);
      hide GuardByte;
      assert data[1..][i - 1] == data[i];
    }
  }
}

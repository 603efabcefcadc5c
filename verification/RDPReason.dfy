/** Finish reasons of native RDP sessions: sanitizing and the audit action they select. */
module RDPReason {
  import opened Text

  function LowerChar(c: char): char { if 'A' <= c <= 'Z' then c - 'A' + 'a' else c }

  function Lower(s: string): (r: string)
    ensures |r| == |s| && forall i :: 0 <= i < |s| ==> r[i] == LowerChar(s[i])
  {
    if s == "" then "" else [LowerChar(s[0])] + Lower(s[1..])
  }

  const MAX_REASON: nat := 64

  predicate IsClean(c: char) {
    'a' <= c <= 'z' || '0' <= c <= '9' || c == '_' || c == '-' || c == '.'
  }

  /** What one character of a reason becomes. */
  function CleanChar(c: char): (r: string)
    ensures |r| <= 1
  {
    if IsClean(c) then [c] else if c == ' ' then "_" else ""
  }

  /** The clean characters, until `room` of them are written. */
  function Keep(s: string, room: nat): string
    decreases |s|
  {
    if s == "" || room == 0 then ""
    else CleanChar(s[0]) + Keep(s[1..], room - |CleanChar(s[0])|)
  }

  function Sanitize(reason: string): string {
    var trimmed := TrimSpace(Lower(reason));
    var kept := Keep(trimmed, MAX_REASON);
    if kept == "" then "disconnect" else kept
  }

  method SanitizeNativeRDPReason(reason: string) returns (r: string)
    ensures r == Sanitize(reason)
  {
    var trimmed := TrimSpace(Lower(reason));
    SanitizeParts(reason);
    hide Sanitize, CleanChar, Lower, Keep, TrimSpace;
    if trimmed == "" {
      return "disconnect";
    }
    var b := "";
    var i := 0;
    assert trimmed[0..] == trimmed && b + Keep(trimmed, MAX_REASON) == Keep(trimmed, MAX_REASON);
    while i < |trimmed|
      invariant 0 <= i <= |trimmed| && |b| < MAX_REASON
      invariant b + Keep(trimmed[i..], MAX_REASON - |b|) == Keep(trimmed, MAX_REASON)
    {
      KeepStep(trimmed, i, b);
      b := b + CleanChar(trimmed[i]);
      i := i + 1;
      if |b| >= MAX_REASON {
        break;
      }
    }
    KeepNothing(trimmed[i..], MAX_REASON - |b|);
    assert b + "" == b && b == Keep(trimmed, MAX_REASON);
    if |b| == 0 {
      return "disconnect";
    }
    return b;
  }

  lemma SanitizeParts(reason: string)
    ensures var trimmed := TrimSpace(Lower(reason)); var kept := Keep(trimmed, MAX_REASON);
            && Sanitize(reason) == (if kept == "" then "disconnect" else kept)
            && (trimmed == "" ==> kept == "")
  {
    hide TrimSpace, Lower;
  }

  lemma KeepNothing(s: string, room: nat)
    ensures s == "" || room == 0 ==> Keep(s, room) == ""
  {
  }

  lemma KeepCons(s: string, room: nat)
    requires s != "" && room > 0
    ensures Keep(s, room) == CleanChar(s[0]) + Keep(s[1..], room - |CleanChar(s[0])|)
  {
    hide CleanChar;
  }

  /** One turn of the loop that keeps clean characters. */
  lemma KeepStep(s: string, i: nat, b: string)
    requires i < |s| && |b| < MAX_REASON
    ensures |b| + |CleanChar(s[i])| <= MAX_REASON
    ensures b + Keep(s[i..], MAX_REASON - |b|)
            == b + CleanChar(s[i]) + Keep(s[i + 1..], MAX_REASON - |b + CleanChar(s[i])|)
  {
    hide CleanChar, Keep;
    var room := MAX_REASON - |b|;
    KeepCons(s[i..], room);
    assert s[i..][0] == s[i] && s[i..][1..] == s[i + 1..];
    Regroup(b, CleanChar(s[i]), Keep(s[i + 1..], room - |CleanChar(s[i])|));
  }

  lemma Regroup(a: string, b: string, c: string)
    ensures a + (b + c) == a + b + c
  {
  }

  lemma {:induction false} KeepClean(s: string, room: nat)
    ensures |Keep(s, room)| <= room && AllClean(Keep(s, room))
    decreases |s|
  {
    if s != "" && room > 0 {
      KeepClean(s[1..], room - |CleanChar(s[0])|);
    }
  }

  predicate AllClean(s: string) { forall i :: 0 <= i < |s| ==> IsClean(s[i]) }

  lemma {:induction false} KeepWhole(s: string, room: nat)
    requires |s| <= room && AllClean(s)
    ensures Keep(s, room) == s
    decreases |s|
  {
    if s != "" {
      hide IsClean, Keep, CleanChar;
      KeepWhole(s[1..], room - 1);
      KeepCons(s, room);
      assert s == [s[0]] + s[1..];
    }
  }

  /** A sanitized reason is 1 to 64 clean characters. */
  lemma SanitizedIsClean(reason: string)
    ensures 1 <= |Sanitize(reason)| <= MAX_REASON && AllClean(Sanitize(reason))
  {
    KeepClean(TrimSpace(Lower(reason)), MAX_REASON);
  }

  lemma CleanUnchanged(s: string)
    requires s != "" && |s| <= MAX_REASON && AllClean(s)
    ensures Sanitize(s) == s
  {
    assert IsClean(s[0]) && IsClean(s[|s| - 1]);
    forall i | 0 <= i < |s| ensures Lower(s)[i] == s[i] {
      assert IsClean(s[i]);
    }
    assert Lower(s) == s && TrimSpace(s) == s;
    KeepWhole(s, MAX_REASON);
  }

  /** Sanitizing a sanitized reason changes nothing. */
  lemma SanitizeIdempotent(reason: string)
    ensures Sanitize(Sanitize(reason)) == Sanitize(reason)
  {
    SanitizedIsClean(reason);
    CleanUnchanged(Sanitize(reason));
  }

  // ---------------------------------------------------------------- what a reason becomes

  /** Lower-case letters, digits, the signs _ - and . are kept, and a space as an underscore. */
  predicate Kept(c: char) {
    c in {'_', '-', '.', ' '} || 'a' <= c <= 'z' || '0' <= c <= '9'
  }

  /** What is written for the first `room` of them. */
  predicate Written(t: string, pos: seq<nat>, room: nat, r: string) {
    && |r| == (if |pos| < room then |pos| else room)
    && forall k :: 0 <= k < |r| ==> pos[k] < |t| && r[k] == if t[pos[k]] == ' ' then '_' else t[pos[k]]
  }

  lemma CleanIs(c: char)
    ensures CleanChar(c) == if !Kept(c) then [] else if c == ' ' then ['_'] else [c]
  {
  }

  lemma {:induction false} KeepIs(t: string, room: nat) returns (pos: seq<nat>)
    ensures Positions(t, Kept, pos) && Written(t, pos, room, Keep(t, room))
    decreases |t|
  {
    if t == "" {
      return [];
    }
    CleanIs(t[0]);
    hide Keep, Positions, Written, CleanChar, Kept;
    var less := if room == 0 then 0 else room - |CleanChar(t[0])|;
    var later := KeepIs(t[1..], less);
    PositionsCons(t, Kept, later);
    pos := (if Kept(t[0]) then [0] else []) + Shifted(later);
    if room > 0 {
      KeepCons(t, room);
      WrittenCons(t, later, room, Keep(t[1..], less));
    } else {
      KeepNothing(t, 0);
      NothingWritten(t, pos);
    }
  }

  lemma NothingWritten(t: string, pos: seq<nat>)
    ensures Written(t, pos, 0, "")
  {
  }

  lemma WrittenCons(t: string, later: seq<nat>, room: nat, rest: string)
    requires t != "" && room > 0
    requires Written(t[1..], later, room - |CleanChar(t[0])|, rest)
    ensures Written(t, (if Kept(t[0]) then [0] else []) + Shifted(later), room, CleanChar(t[0]) + rest)
  {
    CleanIs(t[0]);
    hide *;
    WrittenShifted(t, later, room - |CleanChar(t[0])|, rest);
    if Kept(t[0]) {
      WrittenFirst(t, Shifted(later), room - 1, rest);
    } else {
      NothingFirst(Shifted(later), rest);
    }
  }

  lemma NothingFirst(pos: seq<nat>, rest: string)
    ensures [] + pos == pos && [] + rest == rest
  {
  }

  lemma WrittenShifted(t: string, later: seq<nat>, room: nat, rest: string)
    requires t != "" && Written(t[1..], later, room, rest)
    ensures Written(t, Shifted(later), room, rest)
  {
    assert forall k :: 0 <= k < |rest| ==> t[1..][later[k]] == t[later[k] + 1];
  }

  lemma WrittenFirst(t: string, pos: seq<nat>, room: nat, rest: string)
    requires t != "" && Written(t, pos, room, rest)
    ensures Written(t, [0] + pos, room + 1, [if t[0] == ' ' then '_' else t[0]] + rest)
  {
  }

  lemma LowerIs(s: string)
    ensures |Lower(s)| == |s|
    ensures forall i :: 0 <= i < |s| ==>
              Lower(s)[i] as int == if 'A' <= s[i] <= 'Z' then s[i] as int + 0x20 else s[i] as int
  {
  }

  /** The reason in lower case, without white space around it, of which the first 64 characters
      that are kept make up the result; without any of them it is disconnect. */
  lemma SanitizeIs(reason: string) returns (low: string, t: string, pos: seq<nat>)
    ensures |low| == |reason| && forall i :: 0 <= i < |low| ==>
              low[i] as int == if 'A' <= reason[i] <= 'Z' then reason[i] as int + 0x20 else reason[i] as int
    ensures exists a, b :: IsTrimmed(low, CodeOf, t, a, b)
    ensures Positions(t, Kept, pos)
    ensures if pos == [] then Sanitize(reason) == "disconnect" else Written(t, pos, 64, Sanitize(reason))
  {
    LowerIs(reason);
    low := Lower(reason);
    t := TrimSpace(low);
    TrimSpaceIs(low);
    SanitizeParts(reason);
    hide Lower, TrimSpace, Sanitize, Keep, Positions;
    pos := KeepIs(t, MAX_REASON);
  }

  // ---------------------------------------------------------------- the audit action

  function Digits(s: string, n: nat): (bool, nat) {
    if s == "" then (true, n)
    else if '0' <= s[0] <= '9' then Digits(s[1..], 10 * n + (s[0] - '0') as int)
    else (false, n)
  }

  /** strconv.ParseInt(s, 10, 64) succeeds. */
  predicate ParsesAsInt64(s: string) {
    var negative := s != "" && s[0] == '-';
    var digits := if s != "" && (s[0] == '-' || s[0] == '+') then s[1..] else s;
    var (ok, n) := Digits(digits, 0);
    digits != "" && ok && n <= (if negative then 0x8000_0000_0000_0000 else 0x7fff_ffff_ffff_ffff)
  }

  function FinishAction(reason: string): string {
    if reason in {"target_login_failed", "target_connect_failed", "target_dial_failed",
                  "idle_timeout", "proxy_shutdown"}
    then "rdp.native." + reason
    else if "target_" <= reason then "rdp.native.target_failure"
    else if ParsesAsInt64(reason) then "rdp.native.disconnect"
    else "rdp.native.complete"
  }

  const START_ACTION := "rdp.native.start"
  const DENIED_ACTION := "rdp.native.denied"

  // ---------------------------------------------------------------- which reason gets which action

  predicate AllDigits(s: string) { forall c :: c in s ==> c in "0123456789" }

  /** The number that decimal digits spell. */
  function Spelled(ds: string): nat
    requires AllDigits(ds)
  {
    if ds == "" then 0
    else
      assert AllDigits(ds[..|ds| - 1]) && ds[|ds| - 1] in ds;
      10 * Spelled(ds[..|ds| - 1]) + (ds[|ds| - 1] as int - 48)
  }

  /** A decimal integer of 64 bits: a sign or none, and one digit or more. */
  ghost predicate IsInt64(s: string) {
    exists sign, ds ::
      && s == sign + ds && ds != "" && AllDigits(ds)
      && ((sign == "-" && Spelled(ds) <= 0x8000_0000_0000_0000)
          || ((sign == "" || sign == "+") && Spelled(ds) < 0x8000_0000_0000_0000))
  }

  lemma {:induction false} DigitsSnoc(s: string, n: nat, c: char)
    ensures var d := Digits(s, n);
            Digits(s + [c], n) == if d.0 && '0' <= c <= '9' then (true, 10 * d.1 + (c as int - 48))
                                  else (false, Digits(s + [c], n).1)
    decreases |s|
  {
    if s == "" {
      assert s + [c] == [c] && [c][1..] == "";
    } else {
      assert (s + [c])[1..] == s[1..] + [c];
      if '0' <= s[0] <= '9' {
        DigitsSnoc(s[1..], 10 * n + (s[0] - '0') as int, c);
      }
    }
  }

  lemma IsDigit(c: char)
    ensures c in "0123456789" <==> '0' <= c <= '9'
  {
    assert '0' <= c <= '9' ==> "0123456789"[c as int - 48] == c;
  }

  lemma {:induction false} DigitsIs(ds: string)
    ensures Digits(ds, 0).0 <==> AllDigits(ds)
    ensures AllDigits(ds) ==> Digits(ds, 0).1 == Spelled(ds)
    decreases |ds|
  {
    if ds != "" {
      var init, c := ds[..|ds| - 1], ds[|ds| - 1];
      assert ds == init + [c];
      DigitsIs(init);
      DigitsSnoc(init, 0, c);
      IsDigit(c);
    }
  }

  lemma Int64Iff(s: string)
    ensures ParsesAsInt64(s) <==> IsInt64(s)
  {
    var ds := if s != "" && (s[0] == '-' || s[0] == '+') then s[1..] else s;
    DigitsIs(ds);
    hide Digits, Spelled;
    if ParsesAsInt64(s) {
      var sign := if s != "" && (s[0] == '-' || s[0] == '+') then [s[0]] else "";
      assert s == sign + ds;
    }
    if IsInt64(s) {
      var sign, x :| s == sign + x && x != "" && AllDigits(x)
        && ((sign == "-" && Spelled(x) <= 0x8000_0000_0000_0000)
            || ((sign == "" || sign == "+") && Spelled(x) < 0x8000_0000_0000_0000));
      assert x[0] in x && x[0] in "0123456789";
      IsDigit(x[0]);
      assert x == ds;
    }
  }

  /** The reasons that have an action of their own. */
  const NAMED: set<string> := {"target_login_failed", "target_connect_failed", "target_dial_failed",
                               "idle_timeout", "proxy_shutdown"}

  lemma SamePrefix(x: string, y: string)
    ensures "rdp.native." + x == "rdp.native." + y <==> x == y
  {
    assert ("rdp.native." + x)[11..] == x && ("rdp.native." + y)[11..] == y;
  }

  lemma OwnName(reason: string) returns (own: string)
    ensures own == if reason in NAMED then reason else if "target_" <= reason then "target_failure"
                   else if ParsesAsInt64(reason) then "disconnect" else "complete"
    ensures FinishAction(reason) == "rdp.native." + own
  {
    hide ParsesAsInt64;
    own := if reason in NAMED then reason else if "target_" <= reason then "target_failure"
           else if ParsesAsInt64(reason) then "disconnect" else "complete";
  }

  lemma WordsAreNoNumbers()
    ensures !IsInt64("disconnect") && !IsInt64("complete")
    ensures "target_" <= "target_failure" && !("target_" <= "disconnect") && !("target_" <= "complete")
  {
    NoNumber("disconnect");
    NoNumber("complete");
    assert "disconnect"[0] == 'd' && "complete"[0] == 'c' && "target_"[0] == 't';
  }

  lemma NamedAreNoNumbers(reason: string)
    requires reason in NAMED || "target_" <= reason
    ensures !IsInt64(reason)
  {
    NoNumber(reason);
  }

  /** A text that starts with a letter is no number. */
  lemma NoNumber(reason: string)
    requires reason != "" && reason[0] in {'t', 'i', 'p', 'd', 'c'}
    ensures !IsInt64(reason)
  {
    if IsInt64(reason) {
      var sign, ds :| reason == sign + ds && ds != "" && AllDigits(ds) && (sign == "-" || sign == "" || sign == "+");
      assert ds[0] in ds;
      IsDigit(ds[0]);
    }
  }

  /** Which reasons an action stands for: its own name for the five named ones, for complete
      and for target_failure alone. */
  lemma ActionStandsFor(reason: string)
    ensures FinishAction(reason) == "rdp.native." + reason
            <==> reason in NAMED || reason == "complete" || reason == "target_failure"
    ensures FinishAction(reason) == "rdp.native.target_failure" <==> "target_" <= reason && reason !in NAMED
    ensures FinishAction(reason) == "rdp.native.disconnect" <==> IsInt64(reason)
    ensures FinishAction(reason) == "rdp.native.complete"
            <==> reason !in NAMED && !("target_" <= reason) && !IsInt64(reason)
  {
    Int64Iff(reason);
    hide IsInt64, ParsesAsInt64;
    if reason in NAMED || "target_" <= reason {
      NamedAreNoNumbers(reason);
    }
    var own := OwnName(reason);
    WordsAreNoNumbers();
    SamePrefix(own, reason);
    SamePrefix(own, "target_failure");
    SamePrefix(own, "disconnect");
    SamePrefix(own, "complete");
  }

  lemma TargetWords()
    ensures "rdp.native." + "target_login_failed" == "rdp.native.target_login_failed"
    ensures "rdp.native." + "target_connect_failed" == "rdp.native.target_connect_failed"
  {
  }

  lemma OtherWords()
    ensures "rdp.native." + "target_dial_failed" == "rdp.native.target_dial_failed"
    ensures "rdp.native." + "idle_timeout" == "rdp.native.idle_timeout"
    ensures "rdp.native." + "proxy_shutdown" == "rdp.native.proxy_shutdown"
  {
  }

  lemma NamedAction(reason: string)
    requires reason in NAMED
    ensures FinishAction(reason) == "rdp.native." + reason
  {
  }

  /** The actions of the five named reasons. */
  lemma NamedActions()
    ensures FinishAction("target_login_failed") == "rdp.native.target_login_failed"
    ensures FinishAction("target_connect_failed") == "rdp.native.target_connect_failed"
    ensures FinishAction("target_dial_failed") == "rdp.native.target_dial_failed"
    ensures FinishAction("idle_timeout") == "rdp.native.idle_timeout"
    ensures FinishAction("proxy_shutdown") == "rdp.native.proxy_shutdown"
  {
    hide FinishAction;
    TargetWords();
    OtherWords();
    NamedAction("target_login_failed");
    NamedAction("target_connect_failed");
    NamedAction("target_dial_failed");
    NamedAction("idle_timeout");
    NamedAction("proxy_shutdown");
  }

  lemma LowerByChars(s: string, r: string)
    requires |r| == |s| && forall i :: 0 <= i < |s| ==> r[i] == LowerChar(s[i])
    ensures Lower(s) == r
  {
    hide LowerChar;
  }

  lemma TrimmedOnce(s: string)
    requires s != "" && !IsSpaceChar(s[0]) && !IsSpaceChar(s[|s| - 1])
    ensures TrimSpace(" " + s + " ") == s
  {
    var t := " " + s + " ";
    assert t[0] == ' ' && t[1..] == s + " " && (s + " ")[..|s|] == s && (s + " ")[0] == s[0];
    assert TrimLeft(t, IsSpaceChar) == TrimLeft(s + " ", IsSpaceChar) == s + " ";
    assert TrimRight(s + " ", IsSpaceChar) == TrimRight(s, IsSpaceChar) == s;
  }

  lemma LowerConcat(a: string, b: string)
    ensures Lower(a + b) == Lower(a) + Lower(b)
  {
    LowerByChars(a + b, Lower(a) + Lower(b));
  }

  lemma LowerUnchanged(s: string)
    requires forall c :: c in s ==> !('A' <= c <= 'Z')
    ensures Lower(s) == s
  {
    forall i | 0 <= i < |s| ensures s[i] == LowerChar(s[i]) {
      assert s[i] in s;
    }
    LowerByChars(s, s);
  }

  lemma LowerOne(c: char)
    ensures Lower([c]) == [LowerChar(c)]
  {
  }

  lemma ShutdownLower()
    ensures Lower(" Proxy_Shutdown ") == " proxy_shutdown "
  {
    hide Lower;
    LowerUnchanged(" ");
    LowerUnchanged("roxy_");
    LowerUnchanged("hutdown ");
    LowerOne('P');
    LowerOne('S');
    LowerConcat(" ", "P");
    LowerConcat(" P", "roxy_");
    LowerConcat(" Proxy_", "S");
    LowerConcat(" Proxy_S", "hutdown ");
    ShutdownWords();
  }

  lemma ShutdownWords()
    ensures " " + "P" == " P" && " P" + "roxy_" == " Proxy_" && " Proxy_" + "S" == " Proxy_S"
    ensures " Proxy_S" + "hutdown " == " Proxy_Shutdown "
    ensures " " + "p" + "roxy_" + "s" + "hutdown " == " proxy_shutdown "
  {
  }

  lemma ShutdownIsClean()
    ensures AllClean("proxy_shutdown")
  {
  }

  /** The plugin's shutdown, however it is spelled there. */
  lemma ShutdownReason()
    ensures Sanitize(" Proxy_Shutdown ") == "proxy_shutdown"
    ensures FinishAction(Sanitize(" Proxy_Shutdown ")) == "rdp.native.proxy_shutdown"
  {
    hide Lower, TrimSpace, Sanitize, Keep, AllClean, FinishAction, IsSpaceChar;
    var clean := "proxy_shutdown";
    ShutdownLower();
    assert " proxy_shutdown " == " " + clean + " ";
    EndsAreNoSpace(clean);
    TrimmedOnce(clean);
    SanitizeParts(" Proxy_Shutdown ");
    ShutdownIsClean();
    KeepWhole(clean, MAX_REASON);
    NamedActions();
  }

  lemma EndsAreNoSpace(s: string)
    requires s != "" && s[0] == 'p' && s[|s| - 1] == 'n'
    ensures !IsSpaceChar(s[0]) && !IsSpaceChar(s[|s| - 1])
  {
  }

  /** No finish reason selects the action of a start or a denial. */
  lemma FinishActionIsNeitherStartNorDenial(reason: string)
    ensures FinishAction(reason) != START_ACTION && FinishAction(reason) != DENIED_ACTION
  {
    var a := FinishAction(reason);
    assert a[11..] == reason || a == "rdp.native.target_failure"
           || a == "rdp.native.disconnect" || a == "rdp.native.complete";
    assert START_ACTION[11..] == "start" && DENIED_ACTION[11..] == "denied";
    assert |"rdp.native.target_failure"| == 25 && |"rdp.native.disconnect"| == 21 && |"rdp.native.complete"| == 19;
    assert |START_ACTION| == 16 && |DENIED_ACTION| == 17;
  }
}

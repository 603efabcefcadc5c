/** NormalizeActions and the LIKE test that searches what it stored. */
module ActionList {
  import opened Text

  // ---------------------------------------------------------------- NormalizeActions

  /** The trimmed, non-empty actions, each once, in order of first appearance. */
  function Cleaned(xs: seq<string>): seq<string> {
    if xs == [] then []
    else
      var before := Cleaned(xs[..|xs| - 1]);
      var a := TrimSpace(xs[|xs| - 1]);
      if a == "" || a in before then before else before + [a]
  }

  function Join(xs: seq<string>): string {
    if xs == [] then "" else if |xs| == 1 then xs[0] else xs[0] + "," + Join(xs[1..])
  }

  /** What the permission grants: the cleaned list, or the default. */
  function Granted(xs: seq<string>): seq<string> {
    if Cleaned(xs) == [] then ["connect"] else Cleaned(xs)
  }

  method NormalizeActions(actions: seq<string>) returns (r: string)
    ensures r == Join(Granted(actions))
  {
    if |actions| == 0 {
      return "connect";
    }
    var seen: set<string> := {};
    var out: seq<string> := [];
    for i := 0 to |actions|
      invariant out == Cleaned(actions[..i])
      invariant forall a :: a in seen <==> a in out
    {
      assert actions[..i + 1][..i] == actions[..i];
      var action := TrimSpace(actions[i]);
      if action == "" {
        continue;
      }
      if action in seen {
        continue;
      }
      seen := seen + {action};
      out := out + [action];
    }
    assert actions[..|actions|] == actions;
    if |out| == 0 {
      return "connect";
    }
    return Join(out);
  }

  /** The cleaned list holds exactly the non-empty trimmed actions, none twice. */
  lemma {:induction false} CleanedHolds(xs: seq<string>)
    ensures forall a :: a in Cleaned(xs) <==> a != "" && exists i :: 0 <= i < |xs| && TrimSpace(xs[i]) == a
    ensures forall i, j :: 0 <= i < j < |Cleaned(xs)| ==> Cleaned(xs)[i] != Cleaned(xs)[j]
  {
    hide TrimSpace;
    if xs != [] {
      var n := |xs| - 1;
      var init := xs[..n];
      CleanedHolds(init);
      forall a ensures a in Cleaned(xs) <==> a != "" && exists i :: 0 <= i < |xs| && TrimSpace(xs[i]) == a {
        if i :| 0 <= i < n && TrimSpace(xs[i]) == a {
          assert init[i] == xs[i];
        }
        if i :| 0 <= i < |init| && TrimSpace(init[i]) == a {
          assert init[i] == xs[i];
        }
        assert TrimSpace(xs[n]) == a ==> a != "" ==> a in Cleaned(xs);
      }
    }
  }

  /** Where each action of the cleaned list first appears. */
  ghost predicate FirstAt(xs: seq<string>, pos: seq<nat>, out: seq<string>) {
    && |pos| == |out|
    && (forall i, j :: 0 <= i < j < |pos| ==> pos[i] < pos[j])
    && (forall k :: 0 <= k < |pos| ==>
          pos[k] < |xs| && TrimSpace(xs[pos[k]]) == out[k]
          && forall j :: 0 <= j < pos[k] ==> TrimSpace(xs[j]) != out[k])
  }

  lemma FirstSnoc(xs: seq<string>, pos: seq<nat>, out: seq<string>)
    requires xs != [] && FirstAt(xs[..|xs| - 1], pos, out)
    ensures FirstAt(xs, pos, out)
    ensures var a := TrimSpace(xs[|xs| - 1]);
            (forall j :: 0 <= j < |xs| - 1 ==> TrimSpace(xs[j]) != a) ==> FirstAt(xs, pos + [|xs| - 1], out + [a])
  {
    hide TrimSpace;
    var init := xs[..|xs| - 1];
    forall k | 0 <= k < |pos|
      ensures pos[k] < |xs| - 1 && TrimSpace(xs[pos[k]]) == out[k]
              && forall j :: 0 <= j < pos[k] ==> TrimSpace(xs[j]) != out[k]
    {
      assert pos[k] < |init| && xs[pos[k]] == init[pos[k]];
      assert forall j :: 0 <= j < pos[k] ==> xs[j] == init[j];
    }
  }

  /** The cleaned list keeps the order in which its actions first appear. */
  lemma {:induction false} CleanedInOrder(xs: seq<string>) returns (pos: seq<nat>)
    ensures FirstAt(xs, pos, Cleaned(xs))
  {
    if xs == [] {
      return [];
    }
    var n := |xs| - 1;
    pos := CleanedInOrder(xs[..n]);
    FirstSnoc(xs, pos, Cleaned(xs[..n]));
    hide TrimSpace, FirstAt;
    var a := TrimSpace(xs[n]);
    if a != "" && a !in Cleaned(xs[..n]) {
      CleanedHolds(xs[..n]);
      forall j | 0 <= j < n ensures TrimSpace(xs[j]) != a {
        assert xs[..n][j] == xs[j];
      }
      pos := pos + [n];
    }
  }

  /** Granted is what is listed, trimmed; or connect if nothing but white space is. */
  lemma GrantedIs(xs: seq<string>, a: string)
    ensures a in Granted(xs)
            <==> (a != "" && exists i :: 0 <= i < |xs| && TrimSpace(xs[i]) == a)
                 || (a == "connect" && forall i :: 0 <= i < |xs| ==> TrimSpace(xs[i]) == "")
    ensures (forall i :: 0 <= i < |xs| ==> TrimSpace(xs[i]) == "") ==> Granted(xs) == ["connect"]
  {
    hide TrimSpace, Cleaned;
    CleanedHolds(xs);
    if Cleaned(xs) != [] {
      assert Cleaned(xs)[0] in Cleaned(xs);
    } else {
      forall i | 0 <= i < |xs| ensures TrimSpace(xs[i]) == "" {
        assert TrimSpace(xs[i]) !in Cleaned(xs);
      }
    }
  }

  // ---------------------------------------------------------------- LIKE

  /** SQL LIKE: '%' stands for any text, '_' for any one character. */
  predicate Like(s: string, p: string)
    decreases |s| + |p|
  {
    if p == "" then s == ""
    else if p[0] == '%' then Like(s, p[1..]) || (s != "" && Like(s[1..], p))
    else s != "" && (p[0] == '_' || p[0] == s[0]) && Like(s[1..], p[1..])
  }

  /** No wildcard, and no escape character either. */
  predicate Literal(x: string) { '%' !in x && '_' !in x && '\\' !in x }

  predicate OccursAt(s: string, x: string, i: int) { 0 <= i <= |s| - |x| && s[i..i + |x|] == x }

  ghost predicate Occurs(s: string, x: string) { exists i :: OccursAt(s, x, i) }

  lemma {:induction false} LikeAnything(s: string)
    ensures Like(s, "%")
  {
    assert "%"[1..] == "";
    if s != "" {
      LikeAnything(s[1..]);
    }
  }

  lemma {:induction false} LikePrefix(s: string, x: string)
    requires Literal(x)
    ensures Like(s, x + "%") <==> x <= s
    decreases |x|
  {
    if x == "" {
      assert x + "%" == "%";
      LikeAnything(s);
    } else {
      assert (x + "%")[1..] == x[1..] + "%" && (x + "%")[0] == x[0];
      if s != "" {
        LikePrefix(s[1..], x[1..]);
        assert x == [x[0]] + x[1..] && s == [s[0]] + s[1..];
        if x <= s {
          assert x[1..] == s[1..][..|x| - 1];
        }
      }
    }
  }

  lemma OccursStep(s: string, x: string)
    ensures Occurs(s, x) <==> x <= s || (s != "" && Occurs(s[1..], x))
  {
    if Occurs(s, x) {
      var i :| OccursAt(s, x, i);
      if i > 0 {
        assert s[1..][i - 1..i - 1 + |x|] == s[i..i + |x|];
        assert OccursAt(s[1..], x, i - 1);
      } else {
        assert s[0..|x|] == s[..|x|];
      }
    }
    if x <= s {
      assert s[0..|x|] == s[..|x|];
      assert OccursAt(s, x, 0);
    }
    if s != "" && Occurs(s[1..], x) {
      var i :| OccursAt(s[1..], x, i);
      assert s[1..][i..i + |x|] == s[i + 1..i + 1 + |x|];
      assert OccursAt(s, x, i + 1);
    }
  }

  /** Without wildcards in it, '%x%' matches exactly the texts that contain x. */
  lemma {:induction false} LikeIsOccurs(s: string, x: string)
    requires Literal(x)
    ensures Like(s, "%" + x + "%") <==> Occurs(s, x)
    decreases |s|
  {
    var p := "%" + x + "%";
    assert p[1..] == x + "%" && p[0] == '%';
    LikePrefix(s, x);
    OccursStep(s, x);
    if s != "" {
      LikeIsOccurs(s[1..], x);
    }
  }

  // ---------------------------------------------------------------- splitting at commas

  function Split(s: string): (r: seq<string>)
    ensures |r| >= 1
  {
    if s == "" then [""]
    else
      var rest := Split(s[1..]);
      if s[0] == ',' then [""] + rest else [[s[0]] + rest[0]] + rest[1..]
  }

  /** The first piece is `a` when `a` and a comma come first. */
  lemma {:induction false} FirstPiece(s: string, a: string)
    requires ',' !in a
    ensures a + "," <= s + "," <==> Split(s)[0] == a
    decreases |s|
  {
    if s != "" && s[0] != ',' && a != "" {
      FirstPiece(s[1..], a[1..]);
      assert s + "," == [s[0]] + (s[1..] + ",") && a + "," == [a[0]] + (a[1..] + ",");
      ConsPrefix(a[0], a[1..] + ",", s[0], s[1..] + ",");
      assert a == [a[0]] + a[1..];
    } else if a != "" {
      assert (s + ",")[0] == ',' && (a + ",")[0] == a[0] != ',';
    } else {
      assert a + "," == "," && ((s + ",")[0] == ',' <==> s == "" || s[0] == ',');
    }
  }

  lemma ConsPrefix(c: char, p: string, d: char, s: string)
    ensures [c] + p <= [d] + s <==> c == d && p <= s
  {
    if [c] + p <= [d] + s {
      assert c == ([c] + p)[0] == ([d] + s)[0] == d;
      assert p == ([c] + p)[1..] == ([d] + s)[1..|p| + 1] == s[..|p|];
    }
    if c == d && p <= s {
      assert [c] + p == ([d] + s)[..|p| + 1];
    }
  }

  /** Behind the first piece, `,a,` occurs when some later piece is `a`. */
  lemma {:induction false} LaterPiece(s: string, a: string)
    requires ',' !in a
    ensures Occurs(s + ",", "," + a + ",") <==> a in Split(s)[1..]
    decreases |s|
  {
    var x := "," + a + ",";
    OccursStep(s + ",", x);
    if s == "" {
      assert s + "," == "," && |x| >= 2;
      OccursStep("", x);
    } else {
      var t := s[1..];
      assert (s + ",")[1..] == t + "," && s + "," == [s[0]] + (t + ",") && x == [','] + (a + ",");
      ConsPrefix(',', a + ",", s[0], t + ",");
      LaterPiece(t, a);
      FirstPiece(t, a);
      assert Split(t) == [Split(t)[0]] + Split(t)[1..];
    }
  }

  lemma CommaSearch(s: string, a: string)
    requires ',' !in a
    ensures Occurs("," + s + ",", "," + a + ",") <==> a in Split(s)
  {
    var x, t := "," + a + ",", "," + s + ",";
    OccursStep(t, x);
    assert t[1..] == s + "," && t == [','] + (s + ",") && x == [','] + (a + ",");
    ConsPrefix(',', a + ",", ',', s + ",");
    FirstPiece(s, a);
    LaterPiece(s, a);
    assert Split(s) == [Split(s)[0]] + Split(s)[1..];
  }

  lemma {:induction false} SplitAtComma(s: string, t: string)
    ensures Split(s + "," + t) == Split(s) + Split(t)
    decreases |s|
  {
    assert Split("") == [""];
    hide Split;
    JoinedTail(s, t);
    SplitCons(s + "," + t);
    if s != "" {
      SplitAtComma(s[1..], t);
      SplitCons(s);
      var p, q := Split(s[1..]), Split(t);
      FirstOfSum(p, q);
      ConsAppend("", p, q);
      ConsAppend([s[0]] + p[0], p[1..], q);
    }
  }

  lemma JoinedTail(s: string, t: string)
    ensures var whole := s + "," + t;
            && whole != "" && whole[0] == (if s == "" then ',' else s[0])
            && whole[1..] == if s == "" then t else s[1..] + "," + t
  {
  }

  lemma FirstOfSum(p: seq<string>, q: seq<string>)
    requires p != []
    ensures (p + q)[0] == p[0] && (p + q)[1..] == p[1..] + q
  {
  }

  lemma ConsAppend(x: string, p: seq<string>, q: seq<string>)
    ensures [x] + (p + q) == ([x] + p) + q
  {
  }

  lemma {:induction false} SplitJoin(xs: seq<string>, a: string)
    requires xs != []
    ensures a in Split(Join(xs)) <==> exists x :: x in xs && a in Split(x)
    decreases |xs|
  {
    if |xs| == 1 {
      assert xs[0] in xs;
    } else {
      SplitAtComma(xs[0], Join(xs[1..]));
      SplitJoin(xs[1..], a);
      assert xs == [xs[0]] + xs[1..];
    }
  }

  lemma {:induction false} SplitCommaFree(x: string)
    requires ',' !in x
    ensures Split(x) == [x]
  {
    if x != "" {
      SplitCommaFree(x[1..]);
      assert x == [x[0]] + x[1..];
    }
  }

  /** The query's pattern finds an action in the stored text exactly when it is one of the
      comma-separated pieces of the granted list, whatever the caller listed. */
  lemma PatternFindsPiece(xs: seq<string>, a: string)
    requires Literal(a) && ',' !in a
    ensures Like("," + Join(Granted(xs)) + ",", "%," + a + ",%")
            <==> exists x :: x in Granted(xs) && a in Split(x)
  {
    hide Like, Split, Granted, Join, Occurs;
    var stored := Join(Granted(xs));
    assert "%" + ("," + a + ",") + "%" == "%," + a + ",%";
    LikeIsOccurs("," + stored + ",", "," + a + ",");
    CommaSearch(stored, a);
    GrantedNonEmpty(xs);
    SplitJoin(Granted(xs), a);
  }

  lemma GrantedNonEmpty(xs: seq<string>)
    ensures Granted(xs) != []
  {
  }

  /** For comma-free actions that is membership in the granted list. */
  lemma PatternFindsAction(xs: seq<string>, a: string)
    requires Literal(a) && ',' !in a
    requires forall x :: x in xs ==> ',' !in x
    ensures Like("," + Join(Granted(xs)) + ",", "%," + a + ",%") <==> a in Granted(xs)
  {
    hide Like, Split, Join;
    PatternFindsPiece(xs, a);
    CleanedHolds(xs);
    forall x | x in Granted(xs) ensures Split(x) == [x] {
      if x in Cleaned(xs) {
        var i :| 0 <= i < |xs| && TrimSpace(xs[i]) == x;
        TrimWithin(xs[i]);
      }
      SplitCommaFree(x);
    }
  }

  // ---------------------------------------------------------------- any action at all

  /** A run of consecutive pieces, commas between them, that the action is a pattern for. */
  predicate RunAt(pieces: seq<string>, a: string, i: int, j: int) {
    0 <= i < j <= |pieces| && Like(Join(pieces[i..j]), a)
  }

  /** The comma-separated pieces of what a list of actions grants. */
  function Pieces(xs: seq<string>): seq<string> { Split(Join(Granted(xs))) }

  /** What the query makes of an action, wildcards and commas included. */
  ghost predicate Grants(xs: seq<string>, a: string) { exists i, j :: RunAt(Pieces(xs), a, i, j) }

  ghost predicate LikeFront(v: string, a: string) { exists m :: m + "," <= v && Like(m, a) }

  lemma FrontLonger(c: char, m: string, v: string)
    ensures [c] + m + "," <= [c] + v <==> m + "," <= v
  {
    assert [c] + m + "," == [c] + (m + ",");
    ConsPrefix(c, m + ",", c, v);
  }

  lemma LikeFrontWild(v: string, a: string)
    requires a != "" && a[0] == '%'
    ensures LikeFront(v, a) <==> LikeFront(v, a[1..]) || (v != "" && LikeFront(v[1..], a))
  {
    if LikeFront(v, a) {
      var m :| m + "," <= v && Like(m, a);
      if !Like(m, a[1..]) {
        assert v == [m[0]] + v[1..] && m == [m[0]] + m[1..];
        FrontLonger(m[0], m[1..], v[1..]);
      }
    }
    if LikeFront(v, a[1..]) {
      var m :| m + "," <= v && Like(m, a[1..]);
      assert Like(m, a);
    }
    if v != "" && LikeFront(v[1..], a) {
      var m :| m + "," <= v[1..] && Like(m, a);
      var n := [v[0]] + m;
      FrontLonger(v[0], m, v[1..]);
      assert v == [v[0]] + v[1..] && n[1..] == m && n + "," <= v && Like(n, a);
    }
  }

  lemma LikeFrontChar(v: string, a: string)
    requires a != "" && a[0] != '%'
    ensures LikeFront(v, a) <==> v != "" && (a[0] == '_' || a[0] == v[0]) && LikeFront(v[1..], a[1..])
  {
    if LikeFront(v, a) {
      var m :| m + "," <= v && Like(m, a);
      assert v == [m[0]] + v[1..] && m == [m[0]] + m[1..];
      FrontLonger(m[0], m[1..], v[1..]);
    }
    if v != "" && (a[0] == '_' || a[0] == v[0]) && LikeFront(v[1..], a[1..]) {
      var m :| m + "," <= v[1..] && Like(m, a[1..]);
      var n := [v[0]] + m;
      FrontLonger(v[0], m, v[1..]);
      assert v == [v[0]] + v[1..] && n[1..] == m && n + "," <= v && Like(n, a);
    }
  }

  /** A pattern, a comma and anything: some text before a comma matches the pattern. */
  lemma {:induction false} LikeBefore(v: string, a: string)
    ensures Like(v, a + ",%") <==> LikeFront(v, a)
    decreases |a|, |v|
  {
    if a == "" {
      assert a + ",%" == ",%" && ",%"[1..] == "%";
      if v != "" {
        LikeAnything(v[1..]);
        assert v[0] == ',' ==> "" + "," <= v && Like("", a);
      }
    } else {
      assert (a + ",%")[1..] == a[1..] + ",%" && (a + ",%")[0] == a[0];
      if a[0] == '%' {
        LikeBefore(v, a[1..]);
        if v != "" {
          LikeBefore(v[1..], a);
        }
        LikeFrontWild(v, a);
      } else {
        if v != "" {
          LikeBefore(v[1..], a[1..]);
        }
        LikeFrontChar(v, a);
      }
    }
  }

  lemma JoinCons(x: string, xs: seq<string>)
    requires xs != []
    ensures Join([x] + xs) == x + "," + Join(xs)
  {
  }

  /** What precedes a comma in `s` and a last comma is the join of some first pieces. */
  ghost predicate FirstPieces(s: string, m: string) {
    exists j :: 1 <= j <= |Split(s)| && Join(Split(s)[..j]) == m
  }

  lemma SplitCons(s: string)
    requires s != ""
    ensures s[0] == ',' ==> Split(s) == [""] + Split(s[1..])
    ensures s[0] != ',' ==> Split(s) == [[s[0]] + Split(s[1..])[0]] + Split(s[1..])[1..]
  {
  }

  lemma JoinOne(x: string)
    ensures Join([x]) == x
  {
  }

  lemma JoinFirstLonger(c: char, x: string, q: seq<string>)
    ensures Join([[c] + x] + q) == [c] + Join([x] + q)
  {
    if q == [] {
      assert [[c] + x] + q == [[c] + x] && [x] + q == [x];
    } else {
      hide Join;
      JoinCons([c] + x, q);
      JoinCons(x, q);
      assert [c] + x + "," + Join(q) == [c] + (x + "," + Join(q));
    }
  }

  lemma JoinLonger(s: string, j: int)
    requires s != "" && 1 <= j <= |Split(s[1..])|
    ensures s[0] == ',' ==>
              |Split(s)| == |Split(s[1..])| + 1 && Join(Split(s)[..j + 1]) == "," + Join(Split(s[1..])[..j])
    ensures s[0] != ',' ==>
              |Split(s)| == |Split(s[1..])| && Join(Split(s)[..j]) == [s[0]] + Join(Split(s[1..])[..j])
  {
    hide Split, Join;
    SplitCons(s);
    var p, q := Split(s), Split(s[1..]);
    if s[0] == ',' {
      assert p[..j + 1] == [""] + q[..j];
      JoinCons("", q[..j]);
      assert "" + "," == ",";
    } else {
      assert p[..j] == [[s[0]] + q[0]] + q[1..j] && q[..j] == [q[0]] + q[1..j];
      JoinFirstLonger(s[0], q[0], q[1..j]);
    }
  }

  lemma FirstPiecesCons(s: string, m: string)
    requires s != ""
    ensures FirstPieces(s, m) <==>
            if m == "" then s[0] == ',' else m[0] == s[0] && FirstPieces(s[1..], m[1..])
  {
    hide Split, Join;
    SplitCons(s);
    var p, q := Split(s), Split(s[1..]);
    JoinOne("");
    if FirstPieces(s, m) {
      var j :| 1 <= j <= |p| && Join(p[..j]) == m;
      if s[0] != ',' {
        JoinLonger(s, j);
        assert m[1..] == Join(q[..j]);
      } else if j > 1 {
        JoinLonger(s, j - 1);
        assert m[1..] == Join(q[..j - 1]);
      } else {
        assert p[..1] == [""];
      }
    }
    if m == "" && s[0] == ',' {
      assert p[..1] == [""];
    }
    if m != "" && m[0] == s[0] && FirstPieces(s[1..], m[1..]) {
      var j :| 1 <= j <= |q| && Join(q[..j]) == m[1..];
      JoinLonger(s, j);
      assert m == [m[0]] + m[1..];
    }
  }

  lemma {:induction false} BeforeComma(s: string, m: string)
    ensures m + "," <= s + "," <==> FirstPieces(s, m)
    decreases |s|
  {
    if s == "" {
      assert s + "," == "," && Split(s) == [""] && Split(s)[..1] == [""];
      JoinOne("");
      assert FirstPieces(s, "");
      assert m != "" ==> |m + ","| > 1;
    } else {
      FirstPiecesCons(s, m);
      assert s + "," == [s[0]] + (s[1..] + ",");
      if m == "" {
        assert (s + ",")[0] == s[0] && m + "," == ",";
      } else {
        BeforeComma(s[1..], m[1..]);
        assert m + "," == [m[0]] + (m[1..] + ",");
        ConsPrefix(m[0], m[1..] + ",", s[0], s[1..] + ",");
      }
    }
  }

  ghost predicate RunFrom(pieces: seq<string>, a: string, from: int) {
    exists i, j :: from <= i && RunAt(pieces, a, i, j)
  }

  /** Where a comma stands, the pattern goes on with what follows it. */
  lemma AfterComma(s: string, a: string)
    ensures Like("," + (s + ","), "," + a + ",%") <==> exists j :: RunAt(Split(s), a, 0, j)
  {
    hide Split, Join, FirstPieces;
    var t := "," + (s + ",");
    assert t[1..] == s + "," && ("," + a + ",%")[1..] == a + ",%";
    LikeBefore(s + ",", a);
    if LikeFront(s + ",", a) {
      var m :| m + "," <= s + "," && Like(m, a);
      BeforeComma(s, m);
      FirstRun(s, m, a);
    }
    if j :| RunAt(Split(s), a, 0, j) {
      var m := Join(Split(s)[0..j]);
      FirstJoin(s, j);
      BeforeComma(s, m);
    }
  }

  lemma FirstRun(s: string, m: string, a: string)
    requires FirstPieces(s, m) && Like(m, a)
    ensures exists j :: RunAt(Split(s), a, 0, j)
  {
    hide Split, Join;
    var j :| 1 <= j <= |Split(s)| && Join(Split(s)[..j]) == m;
    assert Split(s)[0..j] == Split(s)[..j];
    assert RunAt(Split(s), a, 0, j);
  }

  lemma FirstJoin(s: string, j: int)
    requires 1 <= j <= |Split(s)|
    ensures FirstPieces(s, Join(Split(s)[0..j]))
  {
    hide Split, Join;
    assert Split(s)[0..j] == Split(s)[..j];
  }

  lemma ShiftRun(p: seq<string>, x: string, a: string)
    ensures RunFrom([x] + p, a, 1) <==> RunFrom(p, a, 0)
  {
    hide Like, Join;
    if RunFrom([x] + p, a, 1) {
      var i, j :| 1 <= i && RunAt([x] + p, a, i, j);
      assert ([x] + p)[i..j] == p[i - 1..j - 1];
      assert RunAt(p, a, i - 1, j - 1);
    }
    if RunFrom(p, a, 0) {
      var i, j :| 0 <= i && RunAt(p, a, i, j);
      assert ([x] + p)[i + 1..j + 1] == p[i..j];
      assert RunAt([x] + p, a, i + 1, j + 1);
    }
  }

  lemma WildStep(t: string, a: string)
    requires t != ""
    ensures Like(t, "%," + a + ",%") <==> Like(t, "," + a + ",%") || Like(t[1..], "%," + a + ",%")
    ensures Like(t, "," + a + ",%") ==> t[0] == ','
  {
    assert ("%," + a + ",%")[1..] == "," + a + ",%" && ("%," + a + ",%")[0] == '%';
  }

  lemma NoLaterRun(a: string)
    ensures !Like(",", "%," + a + ",%") && !RunFrom(Split(""), a, 1)
  {
    WildStep(",", a);
    var q := "," + a + ",%";
    assert ","[1..] == "" && q[1..] == a + ",%";
    LikeBefore("", a);
    assert !Like("", q) && ("%" + q)[1..] == q && "%" + q == "%," + a + ",%";
  }

  /** Behind the first piece, the search finds the runs that start at a later one. */
  lemma {:induction false} LaterRun(s: string, a: string)
    ensures Like(s + ",", "%," + a + ",%") <==> RunFrom(Split(s), a, 1)
    decreases |s|
  {
    if s == "" {
      NoLaterRun(a);
      assert s + "," == ",";
    } else {
      WildStep(s + ",", a);
      hide Join, RunAt, RunFrom;
      var t := s[1..];
      SplitCons(s);
      assert s + "," == [s[0]] + (t + ",") && (s + ",")[1..] == t + ",";
      LaterRun(t, a);
      if s[0] == ',' {
        AfterComma(t, a);
        assert s + "," == "," + (t + ",");
        ShiftRun(Split(t), "", a);
      } else {
        var x := [s[0]] + Split(t)[0];
        ShiftRun(Split(t)[1..], x, a);
        ShiftRun(Split(t)[1..], Split(t)[0], a);
        assert Split(t) == [Split(t)[0]] + Split(t)[1..];
      }
    }
  }

  /** The query's pattern, for any action at all, finds exactly the actions granted: those that
      are a pattern for consecutive pieces of the stored text. */
  lemma PatternFindsGranted(xs: seq<string>, a: string)
    ensures Like("," + Join(Granted(xs)) + ",", "%," + a + ",%") <==> Grants(xs, a)
  {
    hide Join, Granted, RunAt, Split;
    var s := Join(Granted(xs));
    var t := "," + s + ",";
    assert t == "," + (s + ",") && t[1..] == s + ",";
    WildStep(t, a);
    hide Like;
    AfterComma(s, a);
    LaterRun(s, a);
    assert t == "," + s + "," && s == Join(Granted(xs));
    assert Like(t, "%," + a + ",%") <==> (exists j :: RunAt(Split(s), a, 0, j)) || RunFrom(Split(s), a, 1);
    RunsStart(Split(s), a);
    assert Pieces(xs) == Split(s);
  }

  lemma RunsStart(p: seq<string>, a: string)
    ensures RunFrom(p, a, 0) <==> exists i, j :: RunAt(p, a, i, j)
  {
  }

  /** For an action without wildcards and commas, that is to be one of the pieces; when the
      listed actions have no commas either, one of the granted actions. */
  lemma GrantsPlainAction(xs: seq<string>, a: string)
    requires Literal(a) && ',' !in a
    ensures Grants(xs, a) <==> exists x :: x in Granted(xs) && a in Split(x)
    ensures (forall x :: x in xs ==> ',' !in x) ==> (Grants(xs, a) <==> a in Granted(xs))
  {
    hide Grants, Like, Granted, Join, Split;
    PatternFindsGranted(xs, a);
    PatternFindsPiece(xs, a);
    if forall x :: x in xs ==> ',' !in x {
      PatternFindsAction(xs, a);
    }
  }
}

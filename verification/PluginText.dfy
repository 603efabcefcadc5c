/** The text converters of the native RDP plugin, in their fixed buffers. */
module PluginText {
  import opened Options
  import opened Bytes
  import opened Utf8

  // ---------------------------------------------------------------- storing UTF-8

  /** Zero in every byte from j on, as calloc left it. */
  ghost predicate Cleared(out: array<byte>, j: nat)
    reads out
  {
    forall x :: j <= x < out.Length ==> out[x] == 0
  }

  /** Stores one byte. */
  method Put(out: array<byte>, j: nat, c: byte) returns (k: nat)
    requires j + 1 < out.Length && Cleared(out, j)
    modifies out
    ensures k == j + 1 && out[..k] == old(out[..j]) + [c] && Cleared(out, k)
  {
    out[j] := c;
    k := j + 1;
  }

  method Put2(out: array<byte>, j: nat, c: byte, d: byte) returns (k: nat)
    requires j + 2 < out.Length && Cleared(out, j)
    modifies out
    ensures k == j + 2 && out[..k] == old(out[..j]) + [c, d] && Cleared(out, k)
  {
    k := Put(out, j, c);
    k := Put(out, k, d);
  }

  /** Writes one code point and returns the next index. */
  method StoreUtf8(out: array<byte>, j: nat, cp: CodePoint) returns (k: nat)
    requires j + |EncodeCp(cp)| < out.Length && Cleared(out, j)
    modifies out
    ensures k == j + |EncodeCp(cp)| && out[..k] == old(out[..j]) + EncodeCp(cp) && Cleared(out, k)
  {
    if cp <= 0x7f {
      k := Put(out, j, cp);
    } else if cp <= 0x7ff {
      k := Put2(out, j, 0xc0 + cp / 0x40, 0x80 + cp % 0x40);
    } else if cp <= 0xffff {
      k := Put(out, j, 0xe0 + cp / 0x1000);
      k := Put2(out, k, 0x80 + cp / 0x40 % 0x40, 0x80 + cp % 0x40);
    } else {
      k := Put2(out, j, 0xf0 + cp / 0x40000, 0x80 + cp / 0x1000 % 0x40);
      k := Put2(out, k, 0x80 + cp / 0x40 % 0x40, 0x80 + cp % 0x40);
    }
  }

  lemma NextCodePoint(units: seq<Unit>, i: nat)
    requires i < |units|
    ensures var paired := IsHigh(units[i]) && i + 1 < |units| && IsLow(units[i + 1]);
            CodePoints(units[i..]) ==
            if paired then [Pair(units[i], units[i + 1])] + CodePoints(units[i + 2..])
            else [units[i]] + CodePoints(units[i + 1..])
  {
    var rest := units[i..];
    assert rest[1..] == units[i + 1..];
    if |rest| > 1 {
      assert rest[2..] == units[i + 2..];
    }
  }

  lemma EncodeCons(cp: CodePoint, cps: seq<CodePoint>)
    ensures Encode([cp] + cps) == EncodeCp(cp) + Encode(cps)
  {
    assert ([cp] + cps)[1..] == cps;
  }

  /** The unicode branch: the terminator's index stays inside 4 * length + 1 bytes. */
  method UnitsToUtf8(input: array<Unit>) returns (out: array<byte>, end: nat)
    ensures out.Length == 4 * input.Length + 1 && end < out.Length
    ensures out[..end] == Encode(CodePoints(input[..])) && Cleared(out, end)
  {
    hide EncodeCp, Encode, CodePoints, Pair;
    out := new byte[4 * input.Length + 1](_ => 0);
    ghost var all := Encode(CodePoints(input[..]));
    var i, j := 0, 0;
    assert input[0..] == input[..] && out[..0] + all == all;
    while i < input.Length
      invariant 0 <= i <= input.Length && 0 <= j <= 4 * i && Cleared(out, j)
      invariant out[..j] + Encode(CodePoints(input[i..])) == all
    {
      ghost var i0 := i;
      NextCodePoint(input[..], i);
      assert input[i..] == input[..][i..];
      var cp: CodePoint := input[i];
      if 0xd800 <= cp <= 0xdbff && i + 1 < input.Length {
        var low := input[i + 1];
        if 0xdc00 <= low <= 0xdfff {
          cp := Pair(cp, low);
          i := i + 1;
        }
      }
      i := i + 1;
      ghost var rest := CodePoints(input[i..]);
      assert input[i..] == input[..][i..];
      assert CodePoints(input[i0..]) == [cp] + rest;
      EncodeCons(cp, rest);
      Assoc(out[..j], EncodeCp(cp), Encode(rest));
      j := StoreUtf8(out, j, cp);
    }
    assert input[input.Length..] == [];
    EncodeNone();
    assert out[..j] + [] == out[..j];
    out[j] := 0;
    end := j;
  }

  lemma EncodeNone()
    ensures Encode(CodePoints([])) == []
  {
  }

  /** identity_part_to_utf8, with a null pointer as None. */
  method IdentityPartToUtf8(bytesIn: Option<seq<byte>>, units: array<Unit>, unicode: bool)
    returns (out: array<byte>, end: nat)
    ensures end < out.Length && Cleared(out, end)
    ensures unicode ==> out[..end] == Encode(CodePoints(units[..]))
    ensures !unicode ==> out[..end] == (if bytesIn.None? then [] else bytesIn.value)
  {
    EncodeNone();
    if unicode {
      out, end := UnitsToUtf8(units);
      return;
    }
    if bytesIn.None? {
      out := new byte[1](_ => 0);
      return out, 0;
    }
    var data := bytesIn.value;
    out := new byte[|data| + 1](i => if 0 <= i < |data| then data[i] else 0);
    end := |data|;
  }

  // ---------------------------------------------------------------- json_escape

  const QUOTE: byte := 0x22
  const BACKSLASH: byte := 0x5c

  /** A C string: bytes up to, and without, the terminator. */
  predicate IsCString(v: bytes) { 0 !in v }

  function HexDigit(n: int): byte
    requires 0 <= n < 16
  {
    if n < 10 then 0x30 + n else 0x61 + (n - 10)
  }

  /** The letter of a two-character escape, if the byte has one. */
  function ShortEscape(c: byte): Option<byte> {
    if c == QUOTE || c == BACKSLASH then Some(c)
    else if c == 0x08 then Some(0x62)
    else if c == 0x0c then Some(0x66)
    else if c == 0x0a then Some(0x6e)
    else if c == 0x0d then Some(0x72)
    else if c == 0x09 then Some(0x74)
    else None
  }

  function EscapeByte(c: byte): (e: bytes)
    ensures 1 <= |e| <= 6
  {
    if ShortEscape(c).Some? then [BACKSLASH, ShortEscape(c).value]
    else if c < 0x20 then [BACKSLASH, 0x75, 0x30, 0x30, HexDigit(c / 16), HexDigit(c % 16)]
    else [c]
  }

  function Escape(v: bytes): (e: bytes)
    ensures |v| <= |e| <= 6 * |v|
  {
    if v == [] then [] else EscapeByte(v[0]) + Escape(v[1..])
  }

  lemma {:induction false} EscapeConcat(a: bytes, b: bytes)
    ensures Escape(a + b) == Escape(a) + Escape(b)
    decreases |a|
  {
    hide EscapeByte;
    if a == [] {
      assert a + b == b;
    } else {
      assert (a + b)[1..] == a[1..] + b;
      EscapeConcat(a[1..], b);
      Assoc(EscapeByte(a[0]), Escape(a[1..]), Escape(b));
    }
  }

  lemma EscapeSnoc(v: bytes, i: nat)
    requires i < |v|
    ensures Escape(v[..i + 1]) == Escape(v[..i]) + EscapeByte(v[i])
  {
    hide EscapeByte;
    assert v[..i + 1] == v[..i] + [v[i]];
    EscapeConcat(v[..i], [v[i]]);
    assert [v[i]][1..] == [] && EscapeByte(v[i]) + [] == EscapeByte(v[i]);
  }

  /** snprintf of a \u00xx escape: six characters and a terminator. */
  method PutUnicode(out: array<byte>, j: nat, c: byte) returns (k: nat)
    requires j + 6 < out.Length && Cleared(out, j)
    modifies out
    ensures k == j + 6 && Cleared(out, k)
    ensures out[..k] == old(out[..j]) + [BACKSLASH, 0x75, 0x30, 0x30, HexDigit(c / 16), HexDigit(c % 16)]
  {
    hide HexDigit;
    out[j] := BACKSLASH;
    out[j + 1] := 0x75;
    out[j + 2] := 0x30;
    out[j + 3] := 0x30;
    out[j + 4] := HexDigit(c / 16);
    out[j + 5] := HexDigit(c % 16);
    out[j + 6] := 0;
    k := j + 6;
  }

  method PutEscaped(out: array<byte>, j: nat, c: byte) returns (k: nat)
    requires j + 6 < out.Length && Cleared(out, j)
    modifies out
    ensures k == j + |EscapeByte(c)| && out[..k] == old(out[..j]) + EscapeByte(c) && Cleared(out, k)
  {
    hide HexDigit;
    if c == QUOTE {
      k := Put2(out, j, BACKSLASH, QUOTE);
    } else if c == BACKSLASH {
      k := Put2(out, j, BACKSLASH, BACKSLASH);
    } else if c == 0x08 {
      k := Put2(out, j, BACKSLASH, 0x62);
    } else if c == 0x0c {
      k := Put2(out, j, BACKSLASH, 0x66);
    } else if c == 0x0a {
      k := Put2(out, j, BACKSLASH, 0x6e);
    } else if c == 0x0d {
      k := Put2(out, j, BACKSLASH, 0x72);
    } else if c == 0x09 {
      k := Put2(out, j, BACKSLASH, 0x74);
    } else if c < 0x20 {
      k := PutUnicode(out, j, c);
    } else {
      out[j] := c;
      k := j + 1;
    }
  }

  /** json_escape, with a null pointer as None. */
  method JsonEscape(value: Option<bytes>) returns (out: array<byte>, end: nat)
    ensures end < out.Length && Cleared(out, end)
    ensures out[..end] == Escape(if value.None? then [] else value.value)
  {
    hide EscapeByte;
    var v := if value.None? then [] else value.value;
    out := new byte[6 * |v| + 1](_ => 0);
    var j := 0;
    assert v[..0] == [] && out[..0] == [];
    for i := 0 to |v|
      invariant 0 <= j <= 6 * i && out[..j] == Escape(v[..i]) && Cleared(out, j)
    {
      EscapeSnoc(v, i);
      j := PutEscaped(out, j, v[i]);
    }
    assert v[..|v|] == v;
    out[j] := 0;
    end := j;
  }

  // ---------------------------------------------------------------- json_get_string

  /** The byte at p, or the terminator. */
  function CharAt(s: bytes, p: nat): byte { if p < |s| then s[p] else 0 }

  /** hex_value, with None for -1. */
  function HexValue(c: byte): (h: Option<nat>)
    ensures h.Some? ==> h.value < 16
  {
    if 0x30 <= c <= 0x39 then Some(c - 0x30)
    else if 0x61 <= c <= 0x66 then Some(c - 0x61 + 10)
    else if 0x41 <= c <= 0x46 then Some(c - 0x41 + 10)
    else None
  }

  /** The code point of four hex digits at p. */
  function Hex4(s: bytes, p: nat): Option<CodePoint> {
    var h0, h1 := HexValue(CharAt(s, p)), HexValue(CharAt(s, p + 1));
    var h2, h3 := HexValue(CharAt(s, p + 2)), HexValue(CharAt(s, p + 3));
    if h0.None? || h1.None? || h2.None? || h3.None? then None
    else Some(((h0.value * 16 + h1.value) * 16 + h2.value) * 16 + h3.value)
  }

  /** The byte a two-character escape stands for. */
  function Unshort(letter: byte): Option<byte> {
    if letter == QUOTE || letter == BACKSLASH || letter == 0x2f then Some(letter)
    else if letter == 0x62 then Some(0x08)
    else if letter == 0x66 then Some(0x0c)
    else if letter == 0x6e then Some(0x0a)
    else if letter == 0x72 then Some(0x0d)
    else if letter == 0x74 then Some(0x09)
    else None
  }

  /** One turn of the decoding loop: the bytes appended and the next position, or a stop. */
  datatype Turn = Stop | Item(text: bytes, next: nat)

  function ReadItem(s: bytes, p: nat, j: nat, cap: nat): Turn
    requires p < |s|
  {
    if s[p] != BACKSLASH then Item([s[p]], p + 1)
    else
      var letter := CharAt(s, p + 1);
      if Unshort(letter).Some? then Item([Unshort(letter).value], p + 2)
      else if letter == 0x75 && Hex4(s, p + 2).Some? && j + |EncodeCp(Hex4(s, p + 2).value)| < cap then
        Item(EncodeCp(Hex4(s, p + 2).value), p + 6)
      else Stop
  }

  /** What is in the buffer when the loop that holds `out` at position p ends. */
  function Unescape(s: bytes, p: nat, out: bytes, cap: nat): bytes
    decreases |s| - p
  {
    if p >= |s| || s[p] == QUOTE then out
    else
      match ReadItem(s, p, |out|, cap)
      case Stop => out
      case Item(text, next) =>
        if |out| + |text| + 4 >= cap then out + text else Unescape(s, next, out + text, cap)
  }

  /** append_utf8: stores a code point if it leaves room for the terminator. */
  method AppendUtf8(out: array<byte>, j: nat, cp: CodePoint) returns (ok: bool, k: nat)
    requires j < out.Length && Cleared(out, j)
    modifies out
    ensures ok <==> j + |EncodeCp(cp)| < out.Length
    ensures ok ==> k == j + |EncodeCp(cp)| && out[..k] == old(out[..j]) + EncodeCp(cp) && Cleared(out, k)
    ensures !ok ==> k == j && out[..] == old(out[..])
  {
    var size := if cp <= 0x7f then 1 else if cp <= 0x7ff then 2 else if cp <= 0xffff then 3 else 4;
    if j + size >= out.Length {
      return false, j;
    }
    k := StoreUtf8(out, j, cp);
    ok := true;
  }

  /** The value of a key, given the text from where json_find_value found it on: None when
      it is no string, else the decoded text, terminator included in the buffer. */
  method JsonGetString(text: bytes) returns (out: array?<byte>, end: nat)
    requires IsCString(text)
    ensures out == null <==> text == [] || text[0] != QUOTE
    ensures out != null ==> out.Length == |text| && end < out.Length && Cleared(out, end)
    ensures out != null ==> out[..end] == Unescape(text[1..], 0, [], |text|)
  {
    if |text| == 0 || text[0] != QUOTE {
      return null, 0;
    }
    var buf, n := DecodeString(text[1..]);
    return buf, n;
  }

  /** An escape that is read lies inside the text. */
  lemma EscapeWithin(s: bytes, p: nat)
    requires IsCString(s) && p < |s|
    ensures Unshort(CharAt(s, p + 1)).Some? ==> p + 2 <= |s|
    ensures Hex4(s, p + 2).Some? ==> p + 6 <= |s|
  {
  }

  /** One turn of the loop of json_get_string, up to its last test. */
  method ReadTurn(s: bytes, p: nat, out: array<byte>, j: nat) returns (ok: bool, q: nat, k: nat)
    requires IsCString(s) && p < |s| && j + 1 < out.Length && Cleared(out, j)
    modifies out
    ensures ok <==> ReadItem(s, p, j, out.Length).Item?
    ensures !ok ==> q == p && k == j && out[..] == old(out[..])
    ensures ok ==> k < out.Length && Cleared(out, k) && p < q <= |s|
    ensures ok ==> var item := ReadItem(s, p, j, out.Length);
                   q == item.next && k == j + |item.text| && out[..k] == old(out[..j]) + item.text
  {
    hide Hex4, Unshort, EncodeCp;
    EscapeWithin(s, p);
    ok, q, k := false, p, j;
    if s[p] == BACKSLASH {
      var letter := CharAt(s, p + 1);
      if Unshort(letter).Some? {
        k := Put(out, j, Unshort(letter).value);
        ok, q := true, p + 2;
      } else if letter == 0x75 && Hex4(s, p + 2).Some? {
        ok, k := AppendUtf8(out, j, Hex4(s, p + 2).value);
        q := if ok then p + 6 else p;
      }
    } else {
      k := Put(out, j, s[p]);
      ok, q := true, p + 1;
    }
  }

  method DecodeString(s: bytes) returns (out: array<byte>, end: nat)
    requires IsCString(s)
    ensures out.Length == |s| + 1 && end < out.Length && Cleared(out, end)
    ensures out[..end] == Unescape(s, 0, [], |s| + 1)
  {
    hide ReadItem;
    var cap := |s| + 1;
    out := new byte[cap](_ => 0);
    var p: nat, j: nat := 0, 0;
    assert out[..0] == [];
    var done := false;
    while !done && p < |s| && s[p] != QUOTE
      invariant p <= |s| && j < cap && Cleared(out, j)
      invariant !done ==> j == 0 || j + 4 < cap
      invariant done ==> out[..j] == Unescape(s, 0, [], cap)
      invariant !done ==> Unescape(s, p, out[..j], cap) == Unescape(s, 0, [], cap)
      decreases !done, |s| - p
    {
      UnescapeTurn(s, p, out[..j], cap);
      var ok, q, k := ReadTurn(s, p, out, j);
      if !ok {
        done := true;
      } else {
        p, j := q, k;
        done := j + 4 >= cap;
      }
    }
    out[j] := 0;
    end := j;
  }

  lemma UnescapeTurn(s: bytes, p: nat, out: bytes, cap: nat)
    requires p < |s| && s[p] != QUOTE
    ensures var item := ReadItem(s, p, |out|, cap);
            Unescape(s, p, out, cap) ==
            if item.Stop? then out
            else if |out| + |item.text| + 4 >= cap then out + item.text
            else Unescape(s, item.next, out + item.text, cap)
  {
    hide ReadItem;
  }
}

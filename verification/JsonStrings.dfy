/** JSON strings (section 7 of RFC 8259), and what the plugin's reader makes of them. */
module JsonStrings {
  import opened Options
  import opened Bytes
  import opened Utf8
  import opened PluginText

  // ---------------------------------------------------------------- section 7 of RFC 8259

  const QUOTATION: byte := 0x22
  const REVERSE_SOLIDUS: byte := 0x5c

  /** The letter behind a backslash, and the character it stands for. */
  const SIMPLE: map<int, byte> :=
    map[0x22 := 0x22, 0x5c := 0x5c, 0x2f := 0x2f, 0x62 := 0x08, 0x66 := 0x0c, 0x6e := 0x0a, 0x72 := 0x0d, 0x74 := 0x09]

  /** What a hexadecimal digit stands for: 0 to 9, A to F, a to f. */
  function HexOf(c: byte): (h: Option<nat>)
    ensures h.Some? ==> h.value < 16
  {
    if 48 <= c < 58 then Some(c - 48)
    else if 65 <= c < 71 then Some(c - 55)
    else if 97 <= c < 103 then Some(c - 87)
    else None
  }

  /** The 16-bit number of four hexadecimal digits at p. */
  function Four(s: bytes, p: nat): (n: Option<Unit>) {
    if p + 4 > |s| then None
    else
      var a, b, c, d := HexOf(s[p]), HexOf(s[p + 1]), HexOf(s[p + 2]), HexOf(s[p + 3]);
      if a.Some? && b.Some? && c.Some? && d.Some?
      then Some(0x1000 * a.value + 0x100 * b.value + 0x10 * c.value + d.value)
      else None
  }

  /** The number of a \u escape at p. */
  function UnicodeAt(s: bytes, p: nat): Option<Unit> {
    if p + 1 < |s| && s[p] == REVERSE_SOLIDUS && s[p + 1] == 0x75 then Four(s, p + 2) else None
  }

  /** One character in UTF-8, where the next one starts, and whether it was a surrogate pair. */
  datatype Character = Character(text: bytes, next: nat, paired: bool)

  /** The character at p: a byte that needs no escape, or an escape; surrogates only in pairs. */
  function CharacterAt(s: bytes, p: nat): Option<Character>
    requires p < |s|
  {
    var u := UnicodeAt(s, p);
    if s[p] != REVERSE_SOLIDUS then if s[p] < 0x20 then None else Some(Character([s[p]], p + 1, false))
    else if p + 1 < |s| && s[p + 1] in SIMPLE then Some(Character([SIMPLE[s[p + 1]]], p + 2, false))
    else if u.None? then None
    else if !IsSurrogate(u.value) then Some(Character(EncodeCp(u.value), p + 6, false))
    else
      var low := UnicodeAt(s, p + 6);
      if IsHigh(u.value) && low.Some? && IsLow(low.value)
      then Some(Character(EncodeCp(Pair(u.value, low.value)), p + 12, true)) else None
  }

  /** A string read from behind its opening quote: its characters, the position behind the
      closing quote, and whether some character is written as a pair. */
  datatype JsonText = JsonText(chars: seq<bytes>, end: nat, paired: bool)

  function JsonString(s: bytes, p: nat): Option<JsonText>
    decreases |s| - p
  {
    if p >= |s| then None
    else if s[p] == QUOTATION then Some(JsonText([], p + 1, false))
    else
      var c := CharacterAt(s, p);
      if c.None? then None
      else
        var rest := JsonString(s, c.value.next);
        if rest.None? then None
        else Some(JsonText([c.value.text] + rest.value.chars, rest.value.end, c.value.paired || rest.value.paired))
  }

  // ---------------------------------------------------------------- what the plugin reads

  /** The same without pairs: what the plugin takes for the character at p. Surrogates are read
      one by one, and control characters as they are. */
  function ReadAt(s: bytes, p: nat): Option<Character>
    requires p < |s|
  {
    if s[p] != REVERSE_SOLIDUS then Some(Character([s[p]], p + 1, false))
    else if p + 1 < |s| && s[p + 1] in SIMPLE then Some(Character([SIMPLE[s[p + 1]]], p + 2, false))
    else if UnicodeAt(s, p).Some? then Some(Character(EncodeCp(UnicodeAt(s, p).value), p + 6, false))
    else None
  }

  /** The characters up to the closing quote, the end of the text, or an escape that is none. */
  function ReadAll(s: bytes, p: nat): seq<bytes>
    decreases |s| - p
  {
    if p >= |s| || s[p] == QUOTATION || ReadAt(s, p).None? then []
    else [ReadAt(s, p).value.text] + ReadAll(s, ReadAt(s, p).value.next)
  }

  function Size(chars: seq<bytes>, n: nat): nat
    requires n <= |chars|
  {
    |Concat(chars[..n])|
  }

  lemma HexSame(c: byte)
    ensures HexValue(c) == HexOf(c) && HexOf(0).None?
  {
  }

  lemma FourSame(s: bytes, p: nat)
    ensures Hex4(s, p) == Four(s, p)
  {
    hide HexValue, HexOf;
    HexSame(CharAt(s, p));
    HexSame(CharAt(s, p + 1));
    HexSame(CharAt(s, p + 2));
    HexSame(CharAt(s, p + 3));
  }

  lemma SimpleSame(c: byte)
    ensures Unshort(c) == if c in SIMPLE then Some(SIMPLE[c]) else None
    ensures 0 !in SIMPLE && 0x75 !in SIMPLE
  {
  }

  /** A turn of the decoding loop reads what ReadAt says, if there is room for it. */
  lemma TurnReads(s: bytes, p: nat, j: nat, cap: nat)
    requires p < |s| && j <= p && cap == |s| + 1
    ensures ReadAt(s, p).None? ==> ReadItem(s, p, j, cap) == Stop
    ensures ReadAt(s, p).Some? ==>
              var c := ReadAt(s, p).value;
              && ReadItem(s, p, j, cap) == Item(c.text, c.next)
              && 1 <= |c.text| && p < c.next <= |s| && j + |c.text| <= c.next
  {
    hide Hex4, Four, Unshort, SIMPLE, EncodeCp;
    FourSame(s, p + 2);
    SimpleSame(CharAt(s, p + 1));
    FourWithin(s, p + 2);
    if UnicodeAt(s, p).Some? {
      EncodeSmall(UnicodeAt(s, p).value);
    }
  }

  lemma FourWithin(s: bytes, p: nat)
    ensures Four(s, p).Some? ==> p + 4 <= |s|
  {
  }

  lemma EncodeSmall(u: Unit)
    ensures 1 <= |EncodeCp(u)| <= 3
  {
  }

  // ---------------------------------------------------------------- where the plugin stops

  lemma ReadAllCons(s: bytes, p: nat)
    requires p < |s| && s[p] != QUOTATION && ReadAt(s, p).Some?
    ensures ReadAll(s, p) == [ReadAt(s, p).value.text] + ReadAll(s, ReadAt(s, p).value.next)
  {
    hide ReadAt;
  }

  lemma SizeCons(c: bytes, later: seq<bytes>, n: nat)
    requires n <= |later|
    ensures Size([c] + later, n + 1) == |c| + Size(later, n) && Size([c] + later, 0) == 0
    ensures Concat(([c] + later)[..n + 1]) == c + Concat(later[..n])
  {
    assert ([c] + later)[..n + 1] == [c] + later[..n];
    ConcatCons(c, later[..n]);
  }

  /** The loop stops behind n characters: the first, if any is not the last, that leaves fewer
      than five bytes of the buffer free. */
  ghost predicate Stops(chars: seq<bytes>, n: nat, used: nat, cap: nat) {
    && n <= |chars|
    && (forall m :: 0 < m < n ==> used + Size(chars, m) + 4 < cap)
    && (n < |chars| ==> n > 0 && used + Size(chars, n) + 4 >= cap)
  }

  lemma StopsCons(c: bytes, later: seq<bytes>, n: nat, used: nat, cap: nat)
    requires Stops(later, n, used + |c|, cap) && used + |c| + 4 < cap
    ensures Stops([c] + later, n + 1, used, cap)
  {
    hide Size;
    forall m | 0 < m < n + 1 ensures used + Size([c] + later, m) + 4 < cap {
      SizeCons(c, later, m - 1);
      if m == 1 {
        SizeNone(later);
      }
    }
    SizeCons(c, later, n);
  }

  lemma SizeNone(chars: seq<bytes>)
    ensures Size(chars, 0) == 0
  {
    assert chars[..0] == [];
  }

  lemma {:induction false} DecodeFrom(s: bytes, p: nat, out: bytes, cap: nat) returns (n: nat)
    requires |out| <= p && cap == |s| + 1
    ensures Stops(ReadAll(s, p), n, |out|, cap)
    ensures Unescape(s, p, out, cap) == out + Concat(ReadAll(s, p)[..n])
    decreases |s| - p
  {
    hide ReadItem, ReadAt;
    if p >= |s| || s[p] == QUOTATION {
      return 0;
    }
    TurnReads(s, p, |out|, cap);
    if ReadAt(s, p).None? {
      return 0;
    }
    var c := ReadAt(s, p).value;
    ReadAllCons(s, p);
    UnescapeTurn(s, p, out, cap);
    var later := ReadAll(s, c.next);
    hide ReadAll, Unescape, Stops, Size;
    SizeCons(c.text, later, 0);
    if |out| + |c.text| + 4 >= cap {
      n := 1;
      StopsOne(c.text, later, |out|, cap);
    } else {
      var k := DecodeFrom(s, c.next, out + c.text, cap);
      n := k + 1;
      SizeCons(c.text, later, k);
      StopsCons(c.text, later, k, |out|, cap);
      Assoc(out, c.text, Concat(later[..k]));
    }
  }

  lemma StopsOne(c: bytes, later: seq<bytes>, used: nat, cap: nat)
    requires used + |c| + 4 >= cap
    ensures Stops([c] + later, 1, used, cap)
    ensures Concat(([c] + later)[..1]) == c
  {
    SizeCons(c, later, 0);
    assert later[..0] == [] && c + [] == c;
  }

  /** For any text, what the plugin decodes is the characters it reads, from the first on, up to
      the first that leaves fewer than five bytes of its buffer free, or all of them. */
  lemma DecodeStops(s: bytes) returns (n: nat)
    ensures var chars := ReadAll(s, 0);
            && n <= |chars| && Unescape(s, 0, [], |s| + 1) == Concat(chars[..n])
            && (forall m :: 0 < m < n ==> |Concat(chars[..m])| + 4 <= |s|)
            && (n < |chars| ==> n > 0 && |Concat(chars[..n])| + 4 > |s|)
  {
    hide ReadAll, Unescape;
    n := DecodeFrom(s, 0, [], |s| + 1);
    var chars := ReadAll(s, 0);
    forall m | 0 < m < n ensures |Concat(chars[..m])| + 4 <= |s| {
      assert Size(chars, m) + 4 < |s| + 1;
    }
    assert n < |chars| ==> Size(chars, n) + 4 >= |s| + 1;
    assert [] + Concat(chars[..n]) == Concat(chars[..n]);
  }

  // ---------------------------------------------------------------- JSON strings decoded

  /** Characters are not empty. */
  predicate Full(chars: seq<bytes>) { forall c :: c in chars ==> c != [] }

  lemma CharacterRead(s: bytes, p: nat)
    requires p < |s| && s[p] != QUOTATION && CharacterAt(s, p).Some?
    ensures var c := CharacterAt(s, p).value;
            && p < c.next && c.text != []
            && (!c.paired ==> ReadAt(s, p) == Some(c))
            && (c.paired ==> ReadAt(s, p).Some? && ReadAt(s, p).value.text != []
                             && ReadAt(s, p).value.text[0] < 0xf0 <= c.text[0])
  {
    hide Four, SIMPLE;
  }

  /** Without pairs the plugin reads the characters of the string. */
  lemma {:induction false} ReadsString(s: bytes, p: nat)
    requires JsonString(s, p).Some?
    ensures Full(JsonString(s, p).value.chars)
    ensures !JsonString(s, p).value.paired ==> ReadAll(s, p) == JsonString(s, p).value.chars
    decreases |s| - p
  {
    hide CharacterAt, ReadAt;
    if s[p] != QUOTATION {
      CharacterRead(s, p);
      ReadsString(s, CharacterAt(s, p).value.next);
    }
  }

  lemma Differ(c: bytes, x: bytes, y: bytes)
    requires x != y
    ensures c + x != c + y
  {
    assert (c + x)[|c|..] == x && (c + y)[|c|..] == y;
  }

  /** With a pair it reads other bytes, or too few. */
  lemma {:induction false} PairMisread(s: bytes, p: nat, n: nat)
    requires JsonString(s, p).Some? && JsonString(s, p).value.paired && n <= |ReadAll(s, p)|
    ensures Concat(ReadAll(s, p)[..n]) != Concat(JsonString(s, p).value.chars)
    decreases |s| - p
  {
    hide CharacterAt, ReadAt;
    CharacterRead(s, p);
    var c, r := CharacterAt(s, p).value, ReadAt(s, p).value;
    var rest := JsonString(s, c.next).value;
    ConcatCons(c.text, rest.chars);
    if n > 0 {
      ReadAllCons(s, p);
      var later := ReadAll(s, r.next);
      SizeCons(r.text, later, n - 1);
      hide ReadAll, JsonString;
      if c.paired {
        assert (r.text + Concat(later[..n - 1]))[0] == r.text[0] && (c.text + Concat(rest.chars))[0] == c.text[0];
      } else {
        PairMisread(s, c.next, n - 1);
        Differ(c.text, Concat(later[..n - 1]), Concat(rest.chars));
      }
    }
  }

  lemma {:induction false} SizeGrows(chars: seq<bytes>, m: nat, n: nat)
    requires Full(chars) && m <= n <= |chars|
    ensures Size(chars, m) <= Size(chars, n) && (m < n ==> Size(chars, m) < Size(chars, n))
    decreases n
  {
    if m < n {
      SizeGrows(chars, m, n - 1);
      assert chars[..n] == chars[..n - 1] + [chars[n - 1]] && chars[n - 1] in chars;
      ConcatSnoc(chars[..n - 1], chars[n - 1]);
    }
  }

  /** A JSON string is decoded to its value exactly when it has no surrogate pair and either
      fewer than two characters or room for four bytes more than all but the last of them. */
  lemma StringDecodedIff(s: bytes)
    requires JsonString(s, 0).Some?
    ensures var t := JsonString(s, 0).value;
            Unescape(s, 0, [], |s| + 1) == Concat(t.chars)
            <==> !t.paired && (|t.chars| < 2 || |Concat(t.chars[..|t.chars| - 1])| + 4 <= |s|)
  {
    hide JsonString, ReadAll, Unescape;
    var t := JsonString(s, 0).value;
    var n := DecodeStops(s);
    ReadsString(s, 0);
    if t.paired {
      PairMisread(s, 0, n);
    } else {
      assert t.chars[..|t.chars|] == t.chars;
      SizeGrows(t.chars, n, |t.chars|);
      if n < |t.chars| {
        SizeGrows(t.chars, n, |t.chars| - 1);
      }
    }
  }

  // ---------------------------------------------------------------- escape, then decode

  /** Each byte a character. */
  function Singles(v: bytes): (chars: seq<bytes>)
    ensures |chars| == |v| && forall i :: 0 <= i < |v| ==> chars[i] == [v[i]]
  {
    if v == [] then [] else [[v[0]]] + Singles(v[1..])
  }

  lemma {:induction false} SinglesSpell(v: bytes, n: nat)
    requires n <= |v|
    ensures Concat(Singles(v)[..n]) == v[..n]
    decreases n
  {
    if n > 0 {
      SinglesSpell(v, n - 1);
      assert Singles(v)[..n] == Singles(v)[..n - 1] + [[v[n - 1]]] && v[..n] == v[..n - 1] + [v[n - 1]];
      ConcatSnoc(Singles(v)[..n - 1], [v[n - 1]]);
    } else {
      assert Singles(v)[..0] == [] && v[..0] == [];
    }
  }

  /** The text an escaped value stands in: the value, the closing quote, and what follows. */
  function Quoted(v: bytes, rest: bytes): bytes { Escape(v) + [QUOTATION] + rest }

  lemma QuotedParts(v: bytes, rest: bytes, k: nat)
    requires k < |v|
    ensures At(Quoted(v, rest), EscapeByte(v[k]), |Escape(v[..k])|)
    ensures |Escape(v[..k + 1])| == |Escape(v[..k])| + |EscapeByte(v[k])|
  {
    hide EscapeByte, Escape;
    EscapeSnoc(v, k);
    assert v == v[..k + 1] + v[k + 1..];
    EscapeConcat(v[..k + 1], v[k + 1..]);
    var a, e, b := Escape(v[..k]), EscapeByte(v[k]), Escape(v[k + 1..]);
    assert Quoted(v, rest) == a + e + (b + [QUOTATION] + rest);
    assert (a + e)[|a|..] == e;
  }

  lemma ByteAt(s: bytes, p: nat, e: bytes, i: nat)
    requires At(s, e, p) && i < |e|
    ensures p + i < |s| && s[p + i] == e[i]
  {
    assert s[p..p + |e|][i] == s[p + i];
  }

  lemma HexBack(c: byte)
    requires c < 0x20
    ensures HexOf(HexDigit(c / 16)) == Some(c / 16) && HexOf(HexDigit(c % 16)) == Some(c % 16)
    ensures HexOf(0x30) == Some(0)
  {
  }

  lemma UnicodeEscape(s: bytes, p: nat, c: byte)
    requires c < 0x20 && At(s, [REVERSE_SOLIDUS, 0x75, 0x30, 0x30, HexDigit(c / 16), HexDigit(c % 16)], p)
    ensures UnicodeAt(s, p) == Some(c)
  {
    hide HexDigit, HexOf;
    var e := [REVERSE_SOLIDUS, 0x75, 0x30, 0x30, HexDigit(c / 16), HexDigit(c % 16)];
    ByteAt(s, p, e, 0);
    ByteAt(s, p, e, 1);
    ByteAt(s, p, e, 2);
    ByteAt(s, p, e, 3);
    ByteAt(s, p, e, 4);
    ByteAt(s, p, e, 5);
    HexBack(c);
  }

  /** What was escaped for one byte is that character. */
  lemma EscapedCharacter(s: bytes, p: nat, c: byte)
    requires c != 0 && At(s, EscapeByte(c), p)
    ensures p < |s| && s[p] != QUOTATION
    ensures CharacterAt(s, p) == Some(Character([c], p + |EscapeByte(c)|, false))
  {
    hide Four, HexDigit;
    ByteAt(s, p, EscapeByte(c), 0);
    if ShortEscape(c).Some? {
      ByteAt(s, p, EscapeByte(c), 1);
    } else if c < 0x20 {
      ByteAt(s, p, EscapeByte(c), 1);
      UnicodeEscape(s, p, c);
      assert EncodeCp(c) == [c];
    }
  }

  lemma EscapedNext(v: bytes, rest: bytes, k: nat)
    requires IsCString(v) && k < |v|
    requires JsonString(Quoted(v, rest), |Escape(v[..k + 1])|)
             == Some(JsonText(Singles(v[k + 1..]), |Escape(v)| + 1, false))
    ensures JsonString(Quoted(v, rest), |Escape(v[..k])|) == Some(JsonText(Singles(v[k..]), |Escape(v)| + 1, false))
  {
    hide Quoted, Escape, EscapeByte, CharacterAt;
    QuotedParts(v, rest, k);
    EscapedCharacter(Quoted(v, rest), |Escape(v[..k])|, v[k]);
    assert v[k..][1..] == v[k + 1..] && v[k..][0] == v[k];
  }

  lemma EscapedEnd(v: bytes, rest: bytes)
    ensures JsonString(Quoted(v, rest), |Escape(v)|) == Some(JsonText([], |Escape(v)| + 1, false))
  {
    hide Escape;
    assert Quoted(v, rest)[|Escape(v)|] == QUOTATION;
  }

  lemma {:induction false} EscapedFrom(v: bytes, rest: bytes, k: nat)
    requires IsCString(v) && k <= |v|
    ensures JsonString(Quoted(v, rest), |Escape(v[..k])|) == Some(JsonText(Singles(v[k..]), |Escape(v)| + 1, false))
    decreases |v| - k
  {
    hide Quoted, Escape, JsonString;
    if k < |v| {
      EscapedFrom(v, rest, k + 1);
      EscapedNext(v, rest, k);
    } else {
      EscapedEnd(v, rest);
      assert v[..k] == v && v[k..] == [] && Singles([]) == [];
    }
  }

  /** An escaped value between quotes is a JSON string that stands for the value, byte by byte. */
  lemma EscapedIsJson(v: bytes, rest: bytes)
    requires IsCString(v)
    ensures JsonString(Quoted(v, rest), 0) == Some(JsonText(Singles(v), |Escape(v)| + 1, false))
    ensures Concat(Singles(v)) == v
  {
    hide JsonString, Quoted;
    assert v[..0] == [] && v[0..] == v;
    EscapedFrom(v, rest, 0);
    SinglesSpell(v, |v|);
    assert Singles(v)[..|v|] == Singles(v) && v[..|v|] == v;
  }

  /** Decoding an escaped value that ends in its closing quote gives the value exactly when
      the value is shorter than two bytes or the buffer, sized by the text that is left, is
      at least two bytes roomier than the value. Two bytes behind the quote always do. */
  lemma EscapeRoundTripIff(v: bytes, rest: bytes)
    requires IsCString(v)
    ensures var s := Quoted(v, rest);
            Unescape(s, 0, [], |s| + 1) == v <==> |v| < 2 || |Escape(v)| + |rest| >= |v| + 2
    ensures |rest| >= 2 ==> Unescape(Quoted(v, rest), 0, [], |Quoted(v, rest)| + 1) == v
  {
    hide Unescape, JsonString;
    var s := Quoted(v, rest);
    EscapedIsJson(v, rest);
    StringDecodedIff(s);
    if |v| >= 2 {
      SinglesSpell(v, |v| - 1);
    }
  }
}

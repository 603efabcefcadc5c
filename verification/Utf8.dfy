/** UTF-8 as the plugin writes it and as RFC 3629 reads it, and its UTF-16 source. */
module Utf8 {
  import opened Options
  import opened Bytes

  type Unit = u: int | 0 <= u < 0x10000

  /** What a unit or a surrogate pair can stand for. */
  type CodePoint = c: int | 0 <= c <= 0x10ffff

  predicate IsSurrogate(cp: int) { 0xd800 <= cp <= 0xdfff }

  predicate Scalars(cps: seq<CodePoint>) { forall c :: c in cps ==> !IsSurrogate(c) }

  // Shifts and masks of the C code are written as division and remainder; the lead and tail
  // marks occupy bits the shifted value leaves free, so `|` is addition.
  function EncodeCp(cp: CodePoint): (b: bytes)
    ensures 1 <= |b| <= 4
  {
    if cp <= 0x7f then [cp]
    else if cp <= 0x7ff then [0xc0 + cp / 0x40, 0x80 + cp % 0x40]
    else if cp <= 0xffff then [0xe0 + cp / 0x1000, 0x80 + cp / 0x40 % 0x40, 0x80 + cp % 0x40]
    else [0xf0 + cp / 0x40000, 0x80 + cp / 0x1000 % 0x40, 0x80 + cp / 0x40 % 0x40, 0x80 + cp % 0x40]
  }

  function Encode(cps: seq<CodePoint>): bytes {
    if cps == [] then [] else EncodeCp(cps[0]) + Encode(cps[1..])
  }

  // ---------------------------------------------------------------- RFC 3629, section 3

  /** Octets a lead octet announces; 0 for an octet that cannot lead. */
  function Announced(lead: byte): nat {
    if lead < 0x80 then 1
    else if 0xc0 <= lead < 0xe0 then 2
    else if 0xe0 <= lead < 0xf0 then 3
    else if 0xf0 <= lead < 0xf8 then 4
    else 0
  }

  predicate IsTail(b: byte) { 0x80 <= b < 0xc0 }

  function Low6(b: byte): int { b % 0x40 }

  function Assemble(b: bytes): nat
    requires b != [] && |b| == Announced(b[0])
  {
    var lead: int := b[0];
    if |b| == 1 then lead
    else if |b| == 2 then (lead - 0xc0) * 0x40 + Low6(b[1])
    else if |b| == 3 then (lead - 0xe0) * 0x1000 + Low6(b[1]) * 0x40 + Low6(b[2])
    else (lead - 0xf0) * 0x40000 + Low6(b[1]) * 0x1000 + Low6(b[2]) * 0x40 + Low6(b[3])
  }

  /** The shortest number of octets for a number. */
  function Shortest(n: nat): nat {
    if n <= 0x7f then 1 else if n <= 0x7ff then 2 else if n <= 0xffff then 3 else 4
  }

  /** The character number at the front: complete, shortest, in range, no surrogate. */
  function DecodeOne(b: bytes): Option<CodePoint>
    requires b != []
  {
    var n := Announced(b[0]);
    if n == 0 || |b| < n || !(forall i :: 1 <= i < n ==> IsTail(b[i])) then None
    else
      var cp := Assemble(b[..n]);
      if cp > 0x10ffff || IsSurrogate(cp) || Shortest(cp) != n then None else Some(cp)
  }

  function Decode(b: bytes): Option<seq<CodePoint>>
    decreases |b|
  {
    if b == [] then Some([])
    else
      var cp := DecodeOne(b);
      if cp.None? then None
      else
        var rest := Decode(b[Shortest(cp.value)..]);
        if rest.None? then None else Some([cp.value] + rest.value)
  }

  lemma DecodeOneEncoded(cp: CodePoint, rest: bytes)
    ensures DecodeOne(EncodeCp(cp) + rest) == if IsSurrogate(cp) then None else Some(cp)
    ensures |EncodeCp(cp)| == Shortest(cp)
  {
    var e := EncodeCp(cp);
    EncodeShape(cp);
    assert (e + rest)[..|e|] == e;
  }

  lemma EncodeShape(cp: CodePoint)
    ensures var e := EncodeCp(cp); |e| == Announced(e[0]) == Shortest(cp) && Assemble(e) == cp
    ensures var e := EncodeCp(cp); forall i :: 1 <= i < |e| ==> IsTail(e[i])
  {
    hide Assemble;
    if cp <= 0x7f {
      OneOctet(cp);
    } else if cp <= 0x7ff {
      TwoOctets(cp / 0x40, cp % 0x40);
    } else if cp <= 0xffff {
      Digits(cp);
      ThreeOctets(cp / 0x1000, cp / 0x40 % 0x40, cp % 0x40);
    } else {
      Digits(cp);
      FourOctets(cp / 0x40000, cp / 0x1000 % 0x40, cp / 0x40 % 0x40, cp % 0x40);
    }
  }

  lemma Digits(cp: nat)
    ensures cp == cp / 0x1000 * 0x1000 + cp / 0x40 % 0x40 * 0x40 + cp % 0x40
    ensures cp == cp / 0x40000 * 0x40000 + cp / 0x1000 % 0x40 * 0x1000 + cp / 0x40 % 0x40 * 0x40 + cp % 0x40
  {
    assert cp / 0x40 / 0x40 == cp / 0x1000 && cp / 0x1000 / 0x40 == cp / 0x40000;
  }

  lemma OneOctet(a: nat)
    requires a < 0x80
    ensures Announced(a) == 1 && Assemble([a]) == a
  {
  }

  lemma TwoOctets(a: nat, b: nat)
    requires a < 0x20 && b < 0x40
    ensures Announced(0xc0 + a) == 2 && IsTail(0x80 + b) && Assemble([0xc0 + a, 0x80 + b]) == a * 0x40 + b
  {
  }

  lemma ThreeOctets(a: nat, b: nat, c: nat)
    requires a < 0x10 && b < 0x40 && c < 0x40
    ensures Announced(0xe0 + a) == 3 && IsTail(0x80 + b) && IsTail(0x80 + c)
    ensures Assemble([0xe0 + a, 0x80 + b, 0x80 + c]) == a * 0x1000 + b * 0x40 + c
  {
  }

  lemma FourOctets(a: nat, b: nat, c: nat, d: nat)
    requires a < 0x08 && b < 0x40 && c < 0x40 && d < 0x40
    ensures Announced(0xf0 + a) == 4 && IsTail(0x80 + b) && IsTail(0x80 + c) && IsTail(0x80 + d)
    ensures Assemble([0xf0 + a, 0x80 + b, 0x80 + c, 0x80 + d]) == a * 0x40000 + b * 0x1000 + c * 0x40 + d
  {
  }

  /** A strict reader gets the code points back if none is a surrogate, else it rejects. */
  lemma {:induction false} DecodeEncoded(cps: seq<CodePoint>)
    ensures Decode(Encode(cps)) == if Scalars(cps) then Some(cps) else None
    decreases |cps|
  {
    hide EncodeCp, DecodeOne, Shortest;
    if cps != [] {
      var e, rest := EncodeCp(cps[0]), Encode(cps[1..]);
      DecodeOneEncoded(cps[0], rest);
      DecodeEncoded(cps[1..]);
      assert (e + rest)[|e|..] == rest && cps == [cps[0]] + cps[1..];
    }
  }

  // ---------------------------------------------------------------- UTF-16

  predicate IsHigh(u: Unit) { 0xd800 <= u <= 0xdbff }
  predicate IsLow(u: Unit) { 0xdc00 <= u <= 0xdfff }

  function Pair(high: Unit, low: Unit): CodePoint
    requires IsHigh(high) && IsLow(low)
  {
    0x10000 + (high - 0xd800) * 0x400 + (low - 0xdc00)
  }

  /** Encoding of one character number (RFC 2781, section 2.1). */
  function UnitsOf(cp: CodePoint): seq<Unit> {
    if cp < 0x10000 then [cp]
    else [0xd800 + (cp - 0x10000) / 0x400, 0xdc00 + (cp - 0x10000) % 0x400]
  }

  function Utf16(cps: seq<CodePoint>): seq<Unit> {
    if cps == [] then [] else UnitsOf(cps[0]) + Utf16(cps[1..])
  }

  /** The code points the plugin sees: pairs joined, any other unit taken as it is. */
  function CodePoints(units: seq<Unit>): seq<CodePoint>
    decreases |units|
  {
    if units == [] then []
    else if |units| > 1 && IsHigh(units[0]) && IsLow(units[1]) then
      [Pair(units[0], units[1])] + CodePoints(units[2..])
    else [units[0]] + CodePoints(units[1..])
  }

  lemma CodePointFirst(cp: CodePoint, units: seq<Unit>)
    requires !IsSurrogate(cp)
    ensures CodePoints(UnitsOf(cp) + units) == [cp] + CodePoints(units)
  {
    var u := UnitsOf(cp);
    assert (u + units)[|u|..] == units;
  }

  lemma {:induction false} CodePointsOfUtf16(cps: seq<CodePoint>)
    requires Scalars(cps)
    ensures CodePoints(Utf16(cps)) == cps
    decreases |cps|
  {
    if cps != [] {
      assert cps[0] in cps && Scalars(cps[1..]);
      hide UnitsOf, CodePoints, IsSurrogate, Scalars;
      CodePointsOfUtf16(cps[1..]);
      CodePointFirst(cps[0], Utf16(cps[1..]));
      assert cps == [cps[0]] + cps[1..];
    }
  }

  lemma UnitsBack(high: Unit, low: Unit)
    ensures UnitsOf(high) == [high]
    ensures IsHigh(high) && IsLow(low) ==> UnitsOf(Pair(high, low)) == [high, low]
  {
  }

  lemma {:induction false} Utf16OfCodePoints(units: seq<Unit>)
    ensures Utf16(CodePoints(units)) == units
    decreases |units|
  {
    if units != [] {
      hide UnitsOf, Pair, IsHigh, IsLow;
      var paired := |units| > 1 && IsHigh(units[0]) && IsLow(units[1]);
      var k := if paired then 2 else 1;
      UnitsBack(units[0], if paired then units[1] else 0);
      Utf16OfCodePoints(units[k..]);
      Utf16Cons(if paired then Pair(units[0], units[1]) else units[0], CodePoints(units[k..]));
      assert units == units[..k] + units[k..] && units[..k] == if paired then [units[0], units[1]] else [units[0]];
    }
  }

  lemma Utf16Cons(cp: CodePoint, cps: seq<CodePoint>)
    ensures Utf16([cp] + cps) == UnitsOf(cp) + Utf16(cps)
  {
    hide UnitsOf;
    assert ([cp] + cps)[1..] == cps;
  }

  /** What the plugin writes for any units is valid UTF-8 exactly when the units are
      well-formed UTF-16, and then it spells the same characters. */
  lemma TranscodingIff(units: seq<Unit>)
    ensures Decode(Encode(CodePoints(units))).Some?
            <==> exists cps :: Scalars(cps) && Utf16(cps) == units
    ensures forall cps :: Scalars(cps) && Utf16(cps) == units ==>
              Decode(Encode(CodePoints(units))) == Some(cps)
  {
    hide Decode, Encode, CodePoints, Utf16;
    DecodeEncoded(CodePoints(units));
    Utf16OfCodePoints(units);
    forall cps | Scalars(cps) && Utf16(cps) == units
      ensures Decode(Encode(CodePoints(units))) == Some(cps)
    {
      CodePointsOfUtf16(cps);
    }
  }
}

/** Length-encoded integers and strings, rows and column definitions of the MySQL protocol. */
module MySQLCodec {
  import opened Options
  import opened Bytes

  /** What a reader returns: the value, the next position, and whether it was there. */
  datatype Read<+T> = Read(value: T, next: nat, ok: bool)

  const MAX_PACKET: nat := 0xffffff
  const NULL_CELL: byte := 0xfb

  // ---------------------------------------------------------------- little-endian numbers

  function Pow256(k: nat): (p: nat)
    ensures p > 0
  {
    if k == 0 then 1 else 256 * Pow256(k - 1)
  }

  /** The k low bytes of n, least significant first. */
  function LE(n: nat, k: nat): (b: bytes)
    ensures |b| == k
  {
    if k == 0 then [] else [n % 256] + LE(n / 256, k - 1)
  }

  function FromLE(b: bytes): nat {
    if b == [] then 0 else b[0] + 256 * FromLE(b[1..])
  }

  lemma {:induction false} LERoundTrip(n: nat, k: nat)
    requires n < Pow256(k)
    ensures FromLE(LE(n, k)) == n
  {
    if k > 0 {
      LERoundTrip(n / 256, k - 1);
      assert LE(n, k)[1..] == LE(n / 256, k - 1);
    }
  }

  lemma Powers()
    ensures Pow256(2) == 0x1_0000 && Pow256(3) == 0x100_0000 && Pow256(8) == 0x1_0000_0000_0000_0000
  {
    assert Pow256(1) == 256 && Pow256(2) == 0x1_0000 && Pow256(3) == 0x100_0000;
    assert Pow256(4) == 0x1_0000_0000 && Pow256(5) == 0x100_0000_0000;
    assert Pow256(6) == 0x1_0000_0000_0000 && Pow256(7) == 0x100_0000_0000_0000;
  }

  // ---------------------------------------------------------------- length-encoded integers

  function LenEncInt(n: nat): bytes {
    if n < 251 then [n]
    else if n <= 0xffff then [0xfc] + LE(n, 2)
    else if n <= 0xffffff then [0xfd] + LE(n, 3)
    else [0xfe] + LE(n, 8)
  }

  /** One byte below 251, else a mark and two, three or eight bytes, the shortest that will do. */
  lemma LenEncIntIs(n: nat)
    requires n < 0x1_0000_0000_0000_0000
    ensures n < 0xfb ==> LenEncInt(n) == [n]
    ensures 0xfb <= n < 0x1_0000 ==> LenEncInt(n) == [0xfc, n % 0x100, n / 0x100]
    ensures 0x1_0000 <= n < 0x100_0000 ==> LenEncInt(n) == [0xfd, n % 0x100, n / 0x100 % 0x100, n / 0x1_0000]
    ensures n >= 0x100_0000 ==> |LenEncInt(n)| == 9 && LenEncInt(n)[0] == 0xfe && FromLE(LenEncInt(n)[1..]) == n
  {
    Powers();
    if n >= 0x100_0000 {
      LERoundTrip(n, 8);
    } else {
      assert LE(n, 3) == [n % 0x100] + LE(n / 0x100, 2);
      assert LE(n / 0x100, 2) == [n / 0x100 % 0x100] + LE(n / 0x1_0000, 1);
      assert LE(n, 2) == [n % 0x100] + LE(n / 0x100, 1);
    }
  }

  function ReadLenEncInt(payload: bytes, pos: nat): Read<nat> {
    if pos >= |payload| then Read(0, pos, false)
    else
      var first := payload[pos];
      if first == 0xfc then
        if pos + 3 > |payload| then Read(0, pos, false)
        else Read(FromLE(payload[pos + 1..pos + 3]), pos + 3, true)
      else if first == 0xfd then
        if pos + 4 > |payload| then Read(0, pos, false)
        else Read(FromLE(payload[pos + 1..pos + 4]), pos + 4, true)
      else if first == 0xfe then
        if pos + 9 > |payload| then Read(0, pos, false)
        else Read(FromLE(payload[pos + 1..pos + 9]), pos + 9, true)
      else Read(first as nat, pos + 1, true)
  }

  lemma AtParts(payload: bytes, pos: nat, a: bytes, b: bytes)
    requires At(payload, a + b, pos)
    ensures At(payload, a, pos) && At(payload, b, pos + |a|)
  {
    var s := payload[pos..pos + |a + b|];
    assert payload[pos..pos + |a|] == s[..|a|] == a;
    assert payload[pos + |a|..pos + |a + b|] == s[|a|..] == b;
  }

  lemma LenEncIntRoundTrip(payload: bytes, pos: nat, n: nat)
    requires n < 0x1_0000_0000_0000_0000 && At(payload, LenEncInt(n), pos)
    ensures ReadLenEncInt(payload, pos) == Read(n, pos + |LenEncInt(n)|, true)
  {
    Powers();
    var e := LenEncInt(n);
    assert payload[pos] == e[0] by { assert payload[pos..pos + |e|][0] == e[0]; }
    if n >= 251 {
      var k := if n <= 0xffff then 2 else if n <= 0xffffff then 3 else 8;
      LERoundTrip(n, k);
      AtParts(payload, pos, [e[0]], LE(n, k));
    }
  }

  /** A number whose bytes are cut off is not read. */
  lemma CutIntNotRead(payload: bytes, pos: nat, n: nat)
    requires n < 0x1_0000_0000_0000_0000 && pos <= |payload| < pos + |LenEncInt(n)|
    requires payload[pos..] <= LenEncInt(n)
    ensures !ReadLenEncInt(payload, pos).ok
  {
    if pos < |payload| {
      assert payload[pos] == payload[pos..][0] == LenEncInt(n)[0];
    }
  }

  // ---------------------------------------------------------------- strings and cells

  function LenEncString(s: bytes): (r: bytes)
    ensures |r| > |s|
  {
    LenEncInt(|s|) + s
  }

  function ReadLenEncString(payload: bytes, pos: nat): Read<bytes> {
    var n := ReadLenEncInt(payload, pos);
    if !n.ok || n.next + n.value > |payload| then Read([], pos, false)
    else Read(payload[n.next..n.next + n.value], n.next + n.value, true)
  }

  lemma LenEncStringRoundTrip(payload: bytes, pos: nat, s: bytes)
    requires |s| < 0x1_0000_0000_0000_0000 && At(payload, LenEncString(s), pos)
    ensures ReadLenEncString(payload, pos) == Read(s, pos + |LenEncString(s)|, true)
  {
    hide LenEncInt, ReadLenEncInt;
    AtParts(payload, pos, LenEncInt(|s|), s);
    LenEncIntRoundTrip(payload, pos, |s|);
  }

  /** Nor is a string. */
  lemma CutStringNotRead(payload: bytes, pos: nat, s: bytes)
    requires |s| < 0x1_0000_0000_0000_0000 && pos <= |payload| < pos + |LenEncString(s)|
    requires payload[pos..] <= LenEncString(s)
    ensures !ReadLenEncString(payload, pos).ok
  {
    hide LenEncInt, ReadLenEncInt;
    var e, got := LenEncInt(|s|), payload[pos..];
    if |got| < |e| {
      assert got == LenEncString(s)[..|got|] == e[..|got|];
      CutIntNotRead(payload, pos, |s|);
    } else {
      assert got[..|e|] == LenEncString(s)[..|e|] == e && payload[pos..pos + |e|] == got[..|e|];
      LenEncIntRoundTrip(payload, pos, |s|);
    }
  }

  type Cell = Option<bytes>

  function CellBytes(c: Cell): bytes {
    if c.None? then [NULL_CELL] else LenEncString(c.value)
  }

  function RowBytes(row: seq<Cell>): bytes {
    if row == [] then [] else CellBytes(row[0]) + RowBytes(row[1..])
  }

  /** A client reading `n` cells from `pos`; the row must end where the packet ends. */
  function ReadRow(payload: bytes, pos: nat, n: nat): Option<seq<Cell>>
    decreases n
  {
    if n == 0 then if pos == |payload| then Some([]) else None
    else if pos < |payload| && payload[pos] == NULL_CELL then
      var rest := ReadRow(payload, pos + 1, n - 1);
      if rest.None? then None else Some([None] + rest.value)
    else
      var s := ReadLenEncString(payload, pos);
      if !s.ok then None
      else
        var rest := ReadRow(payload, s.next, n - 1);
        if rest.None? then None else Some([Some(s.value)] + rest.value)
  }

  /** A row is read back if it ends where the payload ends, and not at all if it does not. */
  lemma {:induction false} RowRoundTrip(payload: bytes, pos: nat, row: seq<Cell>)
    requires |RowBytes(row)| <= MAX_PACKET && At(payload, RowBytes(row), pos)
    ensures ReadRow(payload, pos, |row|) == if pos + |RowBytes(row)| == |payload| then Some(row) else None
    decreases |row|
  {
    hide CellBytes, ReadLenEncString;
    if row != [] {
      var e := CellBytes(row[0]);
      AtParts(payload, pos, e, RowBytes(row[1..]));
      RowRoundTrip(payload, pos + |e|, row[1..]);
      RowStep(payload, pos, row[0], |row| - 1);
      assert row == [row[0]] + row[1..];
    }
  }

  lemma RowStep(payload: bytes, pos: nat, c: Cell, n: nat)
    requires |CellBytes(c)| <= MAX_PACKET && At(payload, CellBytes(c), pos)
    ensures var rest := ReadRow(payload, pos + |CellBytes(c)|, n);
            ReadRow(payload, pos, n + 1) == if rest.None? then None else Some([c] + rest.value)
  {
    hide CellBytes, ReadLenEncString;
    CellRead(payload, pos, c);
  }

  /** A cell is told from the others by its first byte and read back whole. */
  lemma CellRead(payload: bytes, pos: nat, c: Cell)
    requires |CellBytes(c)| <= MAX_PACKET && At(payload, CellBytes(c), pos)
    ensures pos < |payload| && (c.None? <==> payload[pos] == NULL_CELL)
    ensures c.None? ==> |CellBytes(c)| == 1
    ensures c.Some? ==> ReadLenEncString(payload, pos) == Read(c.value, pos + |CellBytes(c)|, true)
  {
    var e := CellBytes(c);
    assert payload[pos..pos + |e|][0] == e[0];
    if c.Some? {
      LenEncStringRoundTrip(payload, pos, c.value);
    }
  }

  /** A row that fits a packet never starts like an EOF or an ERR packet. */
  lemma RowIsNoMarker(row: seq<Cell>)
    requires row != [] && |RowBytes(row)| <= MAX_PACKET
    ensures RowBytes(row) != [] && RowBytes(row)[0] != 0xfe && RowBytes(row)[0] != 0xff
  {
    var c := CellBytes(row[0]);
    assert c != [] && RowBytes(row)[0] == c[0];
    if row[0].Some? {
      assert |row[0].value| <= |c| <= MAX_PACKET;
    }
  }

  // ---------------------------------------------------------------- column definitions

  /** "def" */
  const CATALOG: bytes := [0x64, 0x65, 0x66]

  function ColumnTail(typ: byte): bytes {
    [0x0c] + LE(33, 2) + LE(1024, 4) + [typ] + LE(0, 2) + [0] + [0, 0]
  }

  /** Length-encoded strings one after another. */
  function Strings(ss: seq<bytes>): bytes {
    if ss == [] then [] else LenEncString(ss[0]) + Strings(ss[1..])
  }

  /** Catalog, schema, table and original table, name and original name, fixed fields. */
  function ColumnDefinition(schema: bytes, table: bytes, name: bytes, typ: byte): bytes {
    Strings([CATALOG, schema, table, table, name, name]) + ColumnTail(typ)
  }

  function ReadStrings(payload: bytes, pos: nat, n: nat): Read<seq<bytes>>
    decreases n
  {
    if n == 0 then Read([], pos, true)
    else
      var s := ReadLenEncString(payload, pos);
      if !s.ok then Read([], pos, false)
      else
        var rest := ReadStrings(payload, s.next, n - 1);
        Read([s.value] + rest.value, rest.next, rest.ok)
  }

  datatype Column = Column(name: bytes, typ: byte)

  /** A client reading a column definition: the fifth string is the name. */
  function ReadColumn(payload: bytes): Option<Column> {
    var ss := ReadStrings(payload, 0, 6);
    if ss.ok && |ss.value| == 6 && ss.next + 13 == |payload| && payload[ss.next] == 0x0c
    then Some(Column(ss.value[4], payload[ss.next + 7]))
    else None
  }

  lemma {:induction false} StringsRoundTrip(payload: bytes, pos: nat, ss: seq<bytes>)
    requires |Strings(ss)| <= MAX_PACKET && At(payload, Strings(ss), pos)
    ensures ReadStrings(payload, pos, |ss|) == Read(ss, pos + |Strings(ss)|, true)
    decreases |ss|
  {
    hide LenEncString, ReadLenEncString;
    if ss != [] {
      AtParts(payload, pos, LenEncString(ss[0]), Strings(ss[1..]));
      LenEncStringRoundTrip(payload, pos, ss[0]);
      StringsRoundTrip(payload, pos + |LenEncString(ss[0])|, ss[1..]);
      assert ss == [ss[0]] + ss[1..];
    }
  }

  /** Twelve more bytes: character set 33, length 1024, the type, no flags, no decimals. */
  lemma ColumnTailIs(typ: byte)
    ensures ColumnTail(typ) == [0x0c, 33, 0, 0, 4, 0, 0, typ, 0, 0, 0, 0, 0]
  {
    assert LE(33, 2) == [33] + LE(0, 1) && LE(1024, 4) == [0] + LE(4, 3);
  }

  /** The whole packet: the word def and the five names, then those thirteen bytes. */
  lemma ColumnDefinitionIs(schema: bytes, table: bytes, name: bytes, typ: byte)
    ensures ColumnDefinition(schema, table, name, typ)
            == Strings([[0x64, 0x65, 0x66], schema, table, table, name, name])
               + [0x0c, 33, 0, 0, 4, 0, 0, typ, 0, 0, 0, 0, 0]
  {
    hide Strings, ColumnTail;
    ColumnTailIs(typ);
  }

  lemma ColumnRead(payload: bytes, ss: seq<bytes>, tail: bytes)
    requires |Strings(ss)| <= MAX_PACKET && payload == Strings(ss) + tail
    requires |ss| == 6 && |tail| >= 13 && tail[0] == 0x0c
    ensures ReadColumn(payload) == if |tail| == 13 then Some(Column(ss[4], tail[7])) else None
  {
    hide Strings, ReadStrings;
    var n := |Strings(ss)|;
    assert payload[0..n] == Strings(ss) && payload[n..] == tail;
    StringsRoundTrip(payload, 0, ss);
  }

  lemma ColumnRoundTrip(schema: bytes, table: bytes, name: bytes, typ: byte)
    requires |ColumnDefinition(schema, table, name, typ)| <= MAX_PACKET
    ensures ReadColumn(ColumnDefinition(schema, table, name, typ)) == Some(Column(name, typ))
  {
    hide ColumnTail, Strings, ReadColumn;
    ColumnTailIs(typ);
    var ss := [CATALOG, schema, table, table, name, name];
    ColumnRead(ColumnDefinition(schema, table, name, typ), ss, ColumnTail(typ));
  }

  /** With anything behind it, a column definition is not read as one. */
  lemma ColumnTooLong(schema: bytes, table: bytes, name: bytes, typ: byte, more: bytes)
    requires |ColumnDefinition(schema, table, name, typ)| <= MAX_PACKET && more != []
    ensures ReadColumn(ColumnDefinition(schema, table, name, typ) + more).None?
  {
    hide ColumnTail, Strings, ReadColumn;
    ColumnTailIs(typ);
    var ss := [CATALOG, schema, table, table, name, name];
    Assoc(Strings(ss), ColumnTail(typ), more);
    ColumnRead(ColumnDefinition(schema, table, name, typ) + more, ss, ColumnTail(typ) + more);
  }
}

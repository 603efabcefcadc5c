/** The proxy's writers, as they append to buffers and to the connection. */
module MySQLWriter {
  import opened Options
  import opened Bytes
  import opened MySQLCodec
  import opened MySQLResultSet

  class ByteBuffer {
    var data: bytes

    constructor ()
      ensures data == []
    {
      data := [];
    }

    method Write(b: bytes)
      modifies this
      ensures data == old(data) + b
    {
      data := data + b;
    }
  }

  /** A connection that breaks once it has taken `room` more bytes, in the middle of a write if
      need be. */
  class Conn {
    var written: bytes
    var room: nat

    method Write(b: bytes) returns (ok: bool)
      modifies this
      ensures ok <==> |b| <= old(room)
      ensures written == old(written) + (if ok then b else b[..old(room)])
      ensures room == if ok then old(room) - |b| else 0
    {
      ok := |b| <= room;
      var n := if ok then |b| else room;
      written := written + b[..n];
      room := room - n;
    }
  }

  method WriteLenEncInt(buf: ByteBuffer, n: nat)
    modifies buf
    ensures buf.data == old(buf.data) + LenEncInt(n)
  {
    hide LE;
    if n < 251 {
      buf.Write([n]);
    } else if n <= 0xffff {
      buf.Write([0xfc]);
      buf.Write(LE(n, 2));
    } else if n <= 0xffffff {
      buf.Write([0xfd]);
      buf.Write(LE(n, 3));
    } else {
      buf.Write([0xfe]);
      buf.Write(LE(n, 8));
    }
  }

  method WriteLenEncString(buf: ByteBuffer, s: bytes)
    modifies buf
    ensures buf.data == old(buf.data) + LenEncString(s)
  {
    hide LenEncInt;
    WriteLenEncInt(buf, |s|);
    buf.Write(s);
    Assoc(old(buf.data), LenEncInt(|s|), s);
  }

  lemma {:induction false} RowBytesSnoc(row: seq<Cell>, c: Cell)
    ensures RowBytes(row + [c]) == RowBytes(row) + CellBytes(c)
    decreases |row|
  {
    hide CellBytes;
    if row == [] {
      assert row + [c] == [c] && [c][1..] == [];
    } else {
      assert (row + [c])[1..] == row[1..] + [c];
      RowBytesSnoc(row[1..], c);
    }
  }

  method RowPacket(values: seq<Cell>) returns (payload: bytes)
    ensures payload == RowBytes(values)
  {
    hide LenEncString, RowBytes;
    var buf := new ByteBuffer();
    assert values[..0] == [];
    RowBytesNone();
    for i := 0 to |values|
      invariant buf.data == RowBytes(values[..i])
    {
      RowBytesSnoc(values[..i], values[i]);
      assert values[..i + 1] == values[..i] + [values[i]];
      if values[i].None? {
        buf.Write([NULL_CELL]);
        continue;
      }
      WriteLenEncString(buf, values[i].value);
    }
    assert values[..|values|] == values;
    payload := buf.data;
  }

  lemma RowBytesNone()
    ensures RowBytes([]) == []
  {
  }

  lemma {:induction false} StringsSnoc(ss: seq<bytes>, s: bytes)
    ensures Strings(ss + [s]) == Strings(ss) + LenEncString(s)
    decreases |ss|
  {
    hide LenEncString;
    if ss == [] {
      assert ss + [s] == [s] && [s][1..] == [];
    } else {
      assert (ss + [s])[1..] == ss[1..] + [s];
      StringsSnoc(ss[1..], s);
    }
  }

  method ColumnDefinitionPacket(schema: bytes, table: bytes, name: bytes, typ: byte) returns (payload: bytes)
    ensures payload == ColumnDefinition(schema, table, name, typ)
  {
    hide LenEncString, Strings;
    var buf := new ByteBuffer();
    StringsNone();
    ghost var ss: seq<bytes> := [];
    WriteLenEncString(buf, CATALOG);
    StringsSnoc(ss, CATALOG); ss := ss + [CATALOG];
    WriteLenEncString(buf, schema);
    StringsSnoc(ss, schema); ss := ss + [schema];
    WriteLenEncString(buf, table);
    StringsSnoc(ss, table); ss := ss + [table];
    WriteLenEncString(buf, table);
    StringsSnoc(ss, table); ss := ss + [table];
    WriteLenEncString(buf, name);
    StringsSnoc(ss, name); ss := ss + [name];
    WriteLenEncString(buf, name);
    StringsSnoc(ss, name); ss := ss + [name];
    assert ss == [CATALOG, schema, table, table, name, name];
    buf.Write(ColumnTail(typ));
    payload := buf.data;
  }

  lemma StringsNone()
    ensures Strings([]) == []
  {
  }

  method WriteMySQLPacket(conn: Conn, seqNo: byte, payload: bytes) returns (ok: bool)
    modifies conn
    ensures ok <==> |payload| <= 0xffffff && |Packet(seqNo, payload)| <= old(conn.room)
    ensures |payload| > 0xffffff ==> conn.written == old(conn.written) && conn.room == old(conn.room)
    ensures |payload| <= 0xffffff ==>
              && conn.written == old(conn.written)
                                 + (if ok then Packet(seqNo, payload) else Packet(seqNo, payload)[..old(conn.room)])
              && conn.room == if ok then old(conn.room) - |Packet(seqNo, payload)| else 0
  {
    if |payload| > MAX_PACKET {
      return false;
    }
    ok := conn.Write(LE(|payload|, 3) + [seqNo] + payload);
  }

  // ---------------------------------------------------------------- the column types

  const TYPE_DECIMAL: byte := 0x00
  const TYPE_LONG: byte := 0x03
  const TYPE_FLOAT: byte := 0x04
  const TYPE_DOUBLE: byte := 0x05
  const TYPE_TIMESTAMP: byte := 0x07
  const TYPE_LONGLONG: byte := 0x08
  const TYPE_DATE: byte := 0x0a
  const TYPE_TIME: byte := 0x0b
  const TYPE_DATETIME: byte := 0x0c
  const TYPE_VAR_STRING: byte := 0xfd
  const TYPE_JSON: byte := 0xf5

  /** strings.ToUpper on ASCII. */
  function ToUpper(s: string): string {
    if s == "" then ""
    else [if 'a' <= s[0] <= 'z' then s[0] - 'a' + 'A' else s[0]] + ToUpper(s[1..])
  }

  /** The wire type for a database type name. */
  function ColumnType(dbType: string): byte { UpperColumnType(ToUpper(dbType)) }

  function UpperColumnType(dbType: string): byte {
    if dbType in {"TINYINT", "SMALLINT", "MEDIUMINT", "INT", "INTEGER"} then TYPE_LONG
    else if dbType == "BIGINT" then TYPE_LONGLONG
    else if dbType == "FLOAT" then TYPE_FLOAT
    else if dbType in {"DOUBLE", "REAL"} then TYPE_DOUBLE
    else if dbType in {"DECIMAL", "NUMERIC", "NEWDECIMAL"} then TYPE_DECIMAL
    else if dbType == "DATE" then TYPE_DATE
    else if dbType == "TIME" then TYPE_TIME
    else if dbType == "DATETIME" then TYPE_DATETIME
    else if dbType == "TIMESTAMP" then TYPE_TIMESTAMP
    else if dbType == "JSON" then TYPE_JSON
    else TYPE_VAR_STRING
  }

  /** The protocol's type of a column for the database's name of it, in any letter case. */
  const WIRE_TYPES: map<string, int> :=
    map["TINYINT" := 3, "SMALLINT" := 3, "MEDIUMINT" := 3, "INT" := 3, "INTEGER" := 3, "BIGINT" := 8,
        "FLOAT" := 4, "DOUBLE" := 5, "REAL" := 5, "DECIMAL" := 0, "NUMERIC" := 0, "NEWDECIMAL" := 0,
        "DATE" := 10, "TIME" := 11, "DATETIME" := 12, "TIMESTAMP" := 7, "JSON" := 245]

  ghost predicate InUpperCase(s: string, upper: string) {
    && |upper| == |s|
    && forall i :: 0 <= i < |s| ==>
         upper[i] as int == if 'a' <= s[i] <= 'z' then s[i] as int - 0x20 else s[i] as int
  }

  lemma {:induction false} ToUpperIs(s: string)
    ensures InUpperCase(s, ToUpper(s))
  {
    if s != "" {
      ToUpperIs(s[1..]);
    }
  }

  /** Any other name stands for a string of variable length. */
  lemma ColumnTypeIs(dbType: string) returns (upper: string)
    ensures InUpperCase(dbType, upper)
    ensures ColumnType(dbType) as int == if upper in WIRE_TYPES then WIRE_TYPES[upper] else 253
  {
    upper := ToUpper(dbType);
    ToUpperIs(dbType);
  }

  // ---------------------------------------------------------------- the result set

  /** A query result as database/sql hands it out: column names and (for a prefix of the
      columns) type names, rows of one cell a column, a scan that may fail at some row,
      and the error found after the last row. */
  datatype Rows = Rows(names: Option<seq<bytes>>, dbTypes: seq<string>, rows: seq<Row>,
                       scanFailsAt: Option<nat>, endError: bool)
  {
    ghost predicate Shaped() {
      names.Some? ==> forall r :: r in rows ==> |r| == |names.value|
    }
  }

  function ColumnsOf(names: seq<bytes>, dbTypes: seq<string>): seq<Column> {
    if names == [] then []
    else
      var t := if dbTypes == [] then "" else dbTypes[0];
      [Column(names[0], ColumnType(t))] + ColumnsOf(names[1..], if dbTypes == [] then [] else dbTypes[1..])
  }

  lemma {:induction false} ColumnsOfAt(names: seq<bytes>, dbTypes: seq<string>, i: nat)
    requires i < |names|
    ensures |ColumnsOf(names, dbTypes)| == |names|
    ensures ColumnsOf(names, dbTypes)[i]
            == Column(names[i], ColumnType(if i < |dbTypes| then dbTypes[i] else ""))
    decreases |names|
  {
    hide ColumnType;
    var rest := if dbTypes == [] then [] else dbTypes[1..];
    if i > 0 {
      ColumnsOfAt(names[1..], rest, i - 1);
    } else if |names| > 1 {
      ColumnsOfAt(names[1..], rest, 0);
    }
  }

  lemma {:induction false} ColumnPayloadsAt(cols: seq<Column>)
    ensures |ColumnPayloads(cols)| == |cols|
    ensures forall i :: 0 <= i < |cols| ==>
              ColumnPayloads(cols)[i] == ColumnDefinition([], [], cols[i].name, cols[i].typ)
    decreases |cols|
  {
    hide ColumnDefinition;
    if cols != [] {
      ColumnPayloadsAt(cols[1..]);
    }
  }

  lemma {:induction false} RowPayloadsAt(rows: seq<Row>)
    ensures |RowPayloads(rows)| == |rows|
    ensures forall i :: 0 <= i < |rows| ==> RowPayloads(rows)[i] == RowBytes(rows[i])
    decreases |rows|
  {
    hide RowBytes;
    if rows != [] {
      RowPayloadsAt(rows[1..]);
    }
  }

  /** Where each payload of a result set stands. */
  lemma PayloadsAt(cols: seq<Column>, rows: seq<Row>)
    ensures var ps := Payloads(cols, rows); var n := |cols|;
            && |ps| == n + |rows| + 3
            && ps[0] == LenEncInt(n) && ps[n + 1] == [0xfe, 0, 0, 2, 0] && ps[|ps| - 1] == [0xfe, 0, 0, 2, 0]
            && (forall i :: 0 <= i < n ==> ps[i + 1] == ColumnDefinition([], [], cols[i].name, cols[i].typ))
            && (forall i :: 0 <= i < |rows| ==> ps[n + 2 + i] == RowBytes(rows[i]))
  {
    hide LenEncInt, ColumnDefinition, RowBytes, ColumnPayloads, RowPayloads;
    ColumnPayloadsAt(cols);
    RowPayloadsAt(rows);
  }

  /** The stream of the first `k` payloads behind what was on a connection that could take
      `room` bytes before, and can take `left` now. */
  ghost predicate Sent(written: bytes, left: nat, before: bytes, room: nat, ps: seq<bytes>, k: nat) {
    && k <= |ps| && Fit(ps[..k]) && written == before + Frame(ps[..k], 1)
    && left + |Frame(ps[..k], 1)| == room
  }

  /** Payload number k could not be sent behind the ones before it: it is too long for a packet,
      or the connection broke in it, with as much of it written as there was room for. */
  ghost predicate Stuck(written: bytes, before: bytes, room: nat, ps: seq<bytes>, k: nat) {
    && k < |ps| && Fit(ps[..k]) && |Frame(ps[..k], 1)| <= room
    && if |ps[k]| > 0xffffff then written == before + Frame(ps[..k], 1)
       else room < |Frame(ps[..k + 1], 1)| && written == before + Frame(ps[..k + 1], 1)[..room]
  }

  lemma FrameSplit(ps: seq<bytes>, k: nat)
    requires k < |ps|
    ensures Frame(ps[..k + 1], 1) == Frame(ps[..k], 1) + Packet(SeqAfter(1, k), ps[k])
  {
    hide Packet, Frame, SeqAfter;
    assert ps[..k + 1] == ps[..k] + [ps[k]];
    FrameConcat(ps[..k], [ps[k]], 1);
    FrameOne(ps[k], SeqAfter(1, k));
  }

  lemma SentNext(written: bytes, left: nat, before: bytes, room: nat, ps: seq<bytes>, k: nat)
    requires Sent(written, left, before, room, ps, k) && k < |ps|
    ensures var p := Packet(SeqAfter(1, k), ps[k]);
            if |ps[k]| > 0xffffff then Stuck(written, before, room, ps, k)
            else if |p| <= left then Sent(written + p, left - |p|, before, room, ps, k + 1)
            else Stuck(written + p[..left], before, room, ps, k)
  {
    hide Packet, Frame, SeqAfter;
    var p := Packet(SeqAfter(1, k), ps[k]);
    var done := Frame(ps[..k], 1);
    FrameSplit(ps, k);
    assert ps[..k + 1] == ps[..k] + [ps[k]];
    Assoc(before, done, p);
    if left < |p| {
      assert (done + p)[..room] == done + p[..left];
      Assoc(before, done, p[..left]);
    }
  }

  lemma FrameOne(p: bytes, seqNo: byte)
    ensures Frame([p], seqNo) == Packet(seqNo, p)
  {
    hide Packet;
    assert [p][1..] == [];
  }

  /** Sends the next payload of a result set. */
  method Send(conn: Conn, seqNo: byte, payload: bytes,
              ghost before: bytes, ghost room: nat, ghost ps: seq<bytes>, ghost k: nat)
    returns (ok: bool)
    requires Sent(conn.written, conn.room, before, room, ps, k) && k < |ps|
    requires payload == ps[k] && seqNo == SeqAfter(1, k)
    modifies conn
    ensures ok ==> Sent(conn.written, conn.room, before, room, ps, k + 1)
    ensures !ok ==> Stuck(conn.written, before, room, ps, k)
  {
    hide Packet, Sent, Frame, Stuck;
    SentNext(conn.written, conn.room, before, room, ps, k);
    ok := WriteMySQLPacket(conn, seqNo, payload);
  }

  /** Column count, column definitions and the EOF packet behind them. */
  method WriteColumns(conn: Conn, cols: seq<bytes>, dbTypes: seq<string>, ghost ps: seq<bytes>)
    returns (seqNo: byte, ok: bool)
    requires exists rows :: ps == Payloads(ColumnsOf(cols, dbTypes), rows)
    modifies conn
    ensures ok ==> seqNo == SeqAfter(1, |cols| + 2)
                   && Sent(conn.written, conn.room, old(conn.written), old(conn.room), ps, |cols| + 2)
    ensures !ok ==> exists k: nat :: k < |cols| + 2 && Stuck(conn.written, old(conn.written), old(conn.room), ps, k)
  {
    hide Payloads, Sent, Stuck, LenEncInt, ColumnDefinition, RowBytes, ColumnsOf, ColumnType, SeqAfter, NextSeq;
    ghost var before, room := conn.written, conn.room;
    ghost var rows :| ps == Payloads(ColumnsOf(cols, dbTypes), rows);
    ColumnsLength(cols, dbTypes);
    PayloadsAt(ColumnsOf(cols, dbTypes), rows);
    SentNone(before, room, ps);
    SeqStep(1, 0);
    seqNo := 1;
    var header := new ByteBuffer();
    WriteLenEncInt(header, |cols|);
    assert header.data == LenEncInt(|cols|);
    ok := Send(conn, seqNo, header.data, before, room, ps, 0);
    if !ok {
      return;
    }
    seqNo := NextSeq(seqNo);
    for i := 0 to |cols|
      invariant ok && Sent(conn.written, conn.room, before, room, ps, i + 1) && seqNo == SeqAfter(1, i + 1)
    {
      ColumnsOfAt(cols, dbTypes, i);
      var dbType := if i < |dbTypes| then dbTypes[i] else "";
      var def := ColumnDefinitionPacket([], [], cols[i], ColumnType(dbType));
      ok := Send(conn, seqNo, def, before, room, ps, i + 1);
      if !ok {
        return;
      }
      SeqStep(1, i + 1);
      seqNo := NextSeq(seqNo);
    }
    ok := Send(conn, seqNo, EOF_PAYLOAD, before, room, ps, |cols| + 1);
    SeqStep(1, |cols| + 1);
    seqNo := NextSeq(seqNo);
  }

  /** The payloads of a result set. */
  function PayloadsOf(rows: Rows): seq<bytes>
    requires rows.names.Some?
  {
    Payloads(ColumnsOf(rows.names.value, rows.dbTypes), rows.rows)
  }

  /** Nothing goes wrong with row number `count`, or behind the last one. */
  predicate Smooth(rows: Rows, count: nat) {
    if count < |rows.rows| then rows.scanFailsAt != Some(count) else !rows.endError
  }

  /** The first k payloads are written. */
  ghost predicate Whole(written: bytes, before: bytes, room: nat, ps: seq<bytes>, k: nat) {
    && k <= |ps| && Fit(ps[..k]) && |Frame(ps[..k], 1)| <= room && written == before + Frame(ps[..k], 1)
  }

  /** How writing a result set ends: all of it is written and every row counted; or row number
      `count` could not be scanned, or an error came behind the last row, with what precedes it
      written; or a payload could not be sent, with the rows before it counted. */
  ghost predicate Ends(rows: Rows, written: bytes, before: bytes, room: nat, count: nat, failed: bool)
    requires rows.names.Some?
  {
    var n, ps := |rows.names.value|, PayloadsOf(rows);
    && count <= |rows.rows| && (rows.scanFailsAt.Some? ==> count <= rows.scanFailsAt.value)
    && if !failed then count == |rows.rows| && Smooth(rows, count) && Whole(written, before, room, ps, |ps|)
       else
         || (!Smooth(rows, count) && Whole(written, before, room, ps, n + 2 + count))
         || (Smooth(rows, count) && Stuck(written, before, room, ps, n + 2 + count))
         || (count == 0 && exists k: nat :: k < n + 2 && Stuck(written, before, room, ps, k))
  }

  /** Writes a result set. */
  method WriteResultSet(conn: Conn, rows: Rows) returns (count: nat, failed: bool)
    requires rows.Shaped()
    modifies conn
    ensures rows.names.None? ==> failed && count == 0 && conn.written == old(conn.written)
    ensures rows.names.Some? ==> Ends(rows, conn.written, old(conn.written), old(conn.room), count, failed)
  {
    hide Payloads, Sent, Stuck, LenEncInt, ColumnDefinition, RowBytes, ColumnsOf, SeqAfter, NextSeq, Ends;
    count := 0;
    if rows.names.None? {
      return count, true;
    }
    var cols := rows.names.value;
    ghost var before, room := conn.written, conn.room;
    ghost var table := ColumnsOf(cols, rows.dbTypes);
    ghost var ps := PayloadsOf(rows);
    ColumnsLength(cols, rows.dbTypes);
    PayloadsAt(table, rows.rows);
    var seqNo, ok := WriteColumns(conn, cols, rows.dbTypes, ps);
    if !ok {
      EndsEarly(rows, conn.written, before, room);
      return count, true;
    }
    while count < |rows.rows|
      invariant count <= |rows.rows| && (rows.scanFailsAt.Some? ==> count <= rows.scanFailsAt.value)
      invariant Sent(conn.written, conn.room, before, room, ps, |cols| + 2 + count)
      invariant seqNo == SeqAfter(1, |cols| + 2 + count)
    {
      if rows.scanFailsAt == Some(count) {
        EndsInError(rows, conn.written, conn.room, before, room, count);
        return count, true;
      }
      var packet := RowPacket(rows.rows[count]);
      ok := Send(conn, seqNo, packet, before, room, ps, |cols| + 2 + count);
      if !ok {
        EndsStuck(rows, conn.written, before, room, count);
        return count, true;
      }
      SeqStep(1, |cols| + 2 + count);
      seqNo := NextSeq(seqNo);
      count := count + 1;
    }
    if rows.endError {
      EndsInError(rows, conn.written, conn.room, before, room, count);
      return count, true;
    }
    ok := Send(conn, seqNo, EOF_PAYLOAD, before, room, ps, |cols| + 2 + count);
    if ok {
      EndsWell(rows, conn.written, conn.room, before, room, ps);
    } else {
      EndsStuck(rows, conn.written, before, room, count);
    }
    return count, !ok;
  }

  lemma {:induction false} ColumnsLength(names: seq<bytes>, dbTypes: seq<string>)
    ensures |ColumnsOf(names, dbTypes)| == |names|
  {
    if names != [] {
      ColumnsOfAt(names, dbTypes, 0);
    }
  }

  lemma SentNone(before: bytes, room: nat, ps: seq<bytes>)
    ensures Sent(before, room, before, room, ps, 0)
  {
    assert ps[..0] == [] && before + [] == before;
  }

  lemma EndsEarly(rows: Rows, written: bytes, before: bytes, room: nat)
    requires rows.names.Some?
    requires exists k: nat :: k < |rows.names.value| + 2 && Stuck(written, before, room, PayloadsOf(rows), k)
    ensures Ends(rows, written, before, room, 0, true)
  {
    hide PayloadsOf, Stuck, Whole;
  }

  lemma EndsInError(rows: Rows, written: bytes, left: nat, before: bytes, room: nat, count: nat)
    requires rows.names.Some? && count <= |rows.rows| && (rows.scanFailsAt.Some? ==> count <= rows.scanFailsAt.value)
    requires Sent(written, left, before, room, PayloadsOf(rows), |rows.names.value| + 2 + count)
    requires !Smooth(rows, count)
    ensures Ends(rows, written, before, room, count, true)
  {
    hide PayloadsOf, Stuck, Frame, Smooth;
  }

  lemma EndsStuck(rows: Rows, written: bytes, before: bytes, room: nat, count: nat)
    requires rows.names.Some? && count <= |rows.rows| && (rows.scanFailsAt.Some? ==> count <= rows.scanFailsAt.value)
    requires Smooth(rows, count) && Stuck(written, before, room, PayloadsOf(rows), |rows.names.value| + 2 + count)
    ensures Ends(rows, written, before, room, count, true)
  {
    hide PayloadsOf, Stuck, Whole, Smooth;
  }

  lemma EndsWell(rows: Rows, written: bytes, left: nat, before: bytes, room: nat, ps: seq<bytes>)
    requires rows.names.Some? && ps == PayloadsOf(rows) && Smooth(rows, |rows.rows|)
    requires rows.scanFailsAt.Some? ==> |rows.rows| <= rows.scanFailsAt.value
    requires Sent(written, left, before, room, ps, |ps|)
    ensures Ends(rows, written, before, room, |rows.rows|, false)
  {
    hide PayloadsOf, Stuck, Frame;
    assert ps[..|ps|] == ps;
  }

  lemma {:induction false} FrameGrows(ps: seq<bytes>, j: nat, k: nat)
    requires j <= k <= |ps|
    ensures |Frame(ps[..j], 1)| <= |Frame(ps[..k], 1)| && (Fit(ps[..k]) ==> Fit(ps[..j]))
    decreases k
  {
    hide Frame, Packet, SeqAfter;
    if j < k {
      FrameSplit(ps, k - 1);
      assert forall p :: p in ps[..k - 1] ==> p in ps[..k];
      FrameGrows(ps, j, k - 1);
    }
  }

  /** A payload that cannot be sent leaves no room for anything behind it. */
  lemma StuckHere(written: bytes, before: bytes, room: nat, ps: seq<bytes>, k: nat, m: nat)
    requires Stuck(written, before, room, ps, k) && k < m <= |ps|
    ensures !(Fit(ps[..m]) && |Frame(ps[..m], 1)| <= room)
  {
    hide Frame;
    FrameGrows(ps, k + 1, m);
    assert ps[k] in ps[..m];
  }

  lemma StuckOnce(w: bytes, v: bytes, before: bytes, room: nat, ps: seq<bytes>, j: nat, k: nat)
    requires Stuck(w, before, room, ps, j) && Stuck(v, before, room, ps, k)
    ensures j == k && w == v
  {
    hide Frame;
    if j < k {
      StuckHere(w, before, room, ps, j, k);
    } else if k < j {
      StuckHere(v, before, room, ps, k, j);
    }
  }

  lemma WholeOrStuck(w: bytes, v: bytes, before: bytes, room: nat, ps: seq<bytes>, j: nat, k: nat)
    requires Whole(w, before, room, ps, j) && Stuck(v, before, room, ps, k)
    ensures j <= k
  {
    hide Frame;
    if k < j {
      StuckHere(v, before, room, ps, k, j);
    }
  }

  /** The places where the writing of a result set can stop, and what is there then. */
  ghost predicate StopsAt(rows: Rows, w: bytes, before: bytes, room: nat, c: nat, f: bool, k: nat)
    requires rows.names.Some?
  {
    var n, ps := |rows.names.value|, PayloadsOf(rows);
    if k < n + 2 then c == 0 && f && Stuck(w, before, room, ps, k)
    else
      && c == k - n - 2 <= |rows.rows|
      && if !Smooth(rows, c) then f && Whole(w, before, room, ps, k)
         else if f then Stuck(w, before, room, ps, k)
         else c == |rows.rows| && Whole(w, before, room, ps, k + 1)
  }

  lemma EndStops(rows: Rows, w: bytes, before: bytes, room: nat, c: nat, f: bool) returns (k: nat)
    requires rows.names.Some? && Ends(rows, w, before, room, c, f)
    requires |PayloadsOf(rows)| == |rows.names.value| + |rows.rows| + 3
    ensures StopsAt(rows, w, before, room, c, f, k)
  {
    hide PayloadsOf, Stuck, Whole, Smooth;
    var n, ps := |rows.names.value|, PayloadsOf(rows);
    k := n + 2 + c;
    if f && !(if Smooth(rows, c) then Stuck(w, before, room, ps, k) else Whole(w, before, room, ps, k)) {
      k :| 0 <= k < n + 2 && Stuck(w, before, room, ps, k);
    }
  }

  /** Writing does not stop at one place when it would have stopped at an earlier one. */
  lemma StopsNotEarlier(rows: Rows, before: bytes, room: nat,
                        w: bytes, c: nat, f: bool, j: nat, v: bytes, d: nat, g: bool, k: nat)
    requires rows.names.Some? && j < k && (rows.scanFailsAt.Some? ==> d <= rows.scanFailsAt.value)
    ensures !(StopsAt(rows, w, before, room, c, f, j) && StopsAt(rows, v, before, room, d, g, k))
  {
    hide PayloadsOf, Stuck, Whole;
    var ps := PayloadsOf(rows);
    if StopsAt(rows, w, before, room, c, f, j) && StopsAt(rows, v, before, room, d, g, k) {
      if Stuck(w, before, room, ps, j) {
        if Stuck(v, before, room, ps, k) {
          StuckOnce(w, v, before, room, ps, j, k);
        } else if Whole(v, before, room, ps, k) {
          WholeOrStuck(v, w, before, room, ps, k, j);
        } else {
          WholeOrStuck(v, w, before, room, ps, k + 1, j);
        }
      }
    }
  }

  lemma StopsOneWay(rows: Rows, before: bytes, room: nat,
                    w: bytes, c: nat, f: bool, v: bytes, d: nat, g: bool, k: nat)
    requires rows.names.Some?
    requires StopsAt(rows, w, before, room, c, f, k) && StopsAt(rows, v, before, room, d, g, k)
    ensures w == v && c == d && f == g
  {
    hide PayloadsOf, Stuck, Frame, Whole;
    var ps := PayloadsOf(rows);
    if Stuck(w, before, room, ps, k) && Whole(v, before, room, ps, k + 1) {
      WholeOrStuck(v, w, before, room, ps, k + 1, k);
    } else if Stuck(v, before, room, ps, k) && Whole(w, before, room, ps, k + 1) {
      WholeOrStuck(w, v, before, room, ps, k + 1, k);
    } else if Stuck(w, before, room, ps, k) && Stuck(v, before, room, ps, k) {
      StuckOnce(w, v, before, room, ps, k, k);
    } else {
      WholeOnce(w, v, before, room, ps);
    }
  }

  lemma WholeOnce(w: bytes, v: bytes, before: bytes, room: nat, ps: seq<bytes>)
    ensures forall k :: Whole(w, before, room, ps, k) && Whole(v, before, room, ps, k) ==> w == v
  {
  }

  lemma PayloadsLength(rows: Rows)
    requires rows.names.Some?
    ensures |PayloadsOf(rows)| == |rows.names.value| + |rows.rows| + 3
  {
    hide Payloads, ColumnsOf, ColumnDefinition, LenEncInt, RowBytes;
    ColumnsLength(rows.names.value, rows.dbTypes);
    PayloadsAt(ColumnsOf(rows.names.value, rows.dbTypes), rows.rows);
  }

  lemma EndsCount(rows: Rows, w: bytes, before: bytes, room: nat, c: nat, f: bool)
    requires rows.names.Some? && Ends(rows, w, before, room, c, f)
    ensures rows.scanFailsAt.Some? ==> c <= rows.scanFailsAt.value
  {
    hide PayloadsOf, Stuck, Whole, Smooth;
  }

  /** So the result and everything on the connection are determined by the query, the error it
      meets and the room there is. */
  lemma EndsOneWay(rows: Rows, before: bytes, room: nat,
                   w: bytes, c: nat, f: bool, v: bytes, d: nat, g: bool)
    requires rows.names.Some? && Ends(rows, w, before, room, c, f) && Ends(rows, v, before, room, d, g)
    ensures w == v && c == d && f == g
  {
    hide *;
    PayloadsLength(rows);
    EndsCount(rows, w, before, room, c, f);
    EndsCount(rows, v, before, room, d, g);
    var j := EndStops(rows, w, before, room, c, f);
    var k := EndStops(rows, v, before, room, d, g);
    if j < k {
      StopsNotEarlier(rows, before, room, w, c, f, j, v, d, g, k);
    } else if k < j {
      StopsNotEarlier(rows, before, room, v, d, g, k, w, c, f, j);
    } else {
      StopsOneWay(rows, before, room, w, c, f, v, d, g, k);
    }
  }

  /** What a client makes of a result set written without an error, whatever follows:
      the column names and types and every row, or no result set if there is no column. */
  lemma WrittenReadsBack(rows: Rows, before: bytes, written: bytes, room: nat, count: nat, rest: bytes, joins: bool)
    requires rows.names.Some? && rows.Shaped() && |rows.names.value| < 0x1_0000_0000_0000_0000
    requires Ends(rows, written, before, room, count, false)
    ensures var cols := ColumnsOf(rows.names.value, rows.dbTypes);
            && before <= written
            && Decode(written[|before|..] + rest, joins)
               == if rows.names.value == [] || (joins && HasFull(Payloads(cols, rows.rows))) then None
                  else Some(ResultSet(cols, rows.rows, rest))
  {
    hide Payloads, Frame, Decode, ColumnsOf;
    var cols := ColumnsOf(rows.names.value, rows.dbTypes);
    ColumnsLength(rows.names.value, rows.dbTypes);
    var ps := PayloadsOf(rows);
    assert ps == Payloads(cols, rows.rows) && ps[..|ps|] == ps && Whole(written, before, room, ps, |ps|);
    SplitSum(before, Frame(ps, 1));
    DecodeWritten(cols, rows.rows, rest, joins);
  }
}

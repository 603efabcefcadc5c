/** Packets of a MySQL result set: what the proxy writes and how a client reads it back. */
module MySQLResultSet {
  import opened Options
  import opened Bytes
  import opened MySQLCodec

  // ---------------------------------------------------------------- framing

  function Packet(seqNo: byte, payload: bytes): bytes {
    LE(|payload|, 3) + [seqNo] + payload
  }

  datatype Framed = Framed(seqNo: byte, payload: bytes, rest: bytes)

  /** Reads one packet from the front of a stream; None when the stream ends inside it. */
  function ReadPacket(stream: bytes): Option<Framed> {
    if |stream| < 4 then None
    else
      var length := FromLE(stream[..3]);
      if |stream| < 4 + length then None
      else Some(Framed(stream[3], stream[4..4 + length], stream[4 + length..]))
  }

  lemma PacketRoundTrip(seqNo: byte, payload: bytes, rest: bytes)
    requires |payload| <= MAX_PACKET
    ensures ReadPacket(Packet(seqNo, payload) + rest) == Some(Framed(seqNo, payload, rest))
  {
    Powers();
    LERoundTrip(|payload|, 3);
    var s := Packet(seqNo, payload) + rest;
    assert s[..3] == LE(|payload|, 3) && s[3] == seqNo;
    assert s[4..4 + |payload|] == payload && s[4 + |payload|..] == rest;
  }

  function NextSeq(s: byte): byte { (s + 1) % 256 }

  /** Payloads framed with consecutive sequence numbers, modulo 256. */
  function Frame(ps: seq<bytes>, seqNo: byte): bytes {
    if ps == [] then [] else Packet(seqNo, ps[0]) + Frame(ps[1..], NextSeq(seqNo))
  }

  function SeqAfter(seqNo: byte, n: nat): byte { (seqNo + n) % 256 }

  lemma SeqStep(seqNo: byte, n: nat)
    ensures SeqAfter(NextSeq(seqNo), n) == SeqAfter(seqNo, n + 1) == NextSeq(SeqAfter(seqNo, n))
    ensures SeqAfter(seqNo, 0) == seqNo && SeqAfter(seqNo, 1) == NextSeq(seqNo)
  {
    if seqNo == 255 {
      assert NextSeq(seqNo) == 0 && seqNo + (n + 1) == 256 + n;
    } else {
      assert NextSeq(seqNo) == seqNo + 1;
    }
    WrapsOnce(seqNo + n);
  }

  lemma WrapsOnce(n: nat)
    ensures (n % 256 + 1) % 256 == (n + 1) % 256
  {
    if n % 256 == 255 {
      assert n + 1 == 256 * (n / 256 + 1);
    } else {
      assert n + 1 == 256 * (n / 256) + (n % 256 + 1);
    }
  }

  lemma FrameCons(p: bytes, ps: seq<bytes>, seqNo: byte)
    ensures Frame([p] + ps, seqNo) == Packet(seqNo, p) + Frame(ps, NextSeq(seqNo))
  {
    assert ([p] + ps)[1..] == ps;
  }

  lemma FrameNone(seqNo: byte)
    ensures Frame([], seqNo) == []
  {
  }

  lemma {:induction false} FrameConcat(a: seq<bytes>, b: seq<bytes>, seqNo: byte)
    ensures Frame(a + b, seqNo) == Frame(a, seqNo) + Frame(b, SeqAfter(seqNo, |a|))
    decreases |a|
  {
    hide Packet, Frame, SeqAfter, NextSeq;
    if a == [] {
      FrameNone(seqNo);
      SeqStep(seqNo, 0);
      assert a + b == b && [] + Frame(b, seqNo) == Frame(b, seqNo);
    } else {
      assert a + b == [a[0]] + (a[1..] + b) && a == [a[0]] + a[1..];
      FrameCons(a[0], a[1..] + b, seqNo);
      FrameCons(a[0], a[1..], seqNo);
      SeqStep(seqNo, |a| - 1);
      FrameConcat(a[1..], b, NextSeq(seqNo));
      Assoc(Packet(seqNo, a[0]), Frame(a[1..], NextSeq(seqNo)), Frame(b, SeqAfter(seqNo, |a|)));
    }
  }

  ghost predicate Fit(ps: seq<bytes>) {
    forall p :: p in ps ==> |p| <= MAX_PACKET
  }

  // ---------------------------------------------------------------- what the proxy writes

  type Row = seq<Cell>

  const EOF_PAYLOAD: bytes := [0xfe, 0, 0, 2, 0]

  function ColumnPayloads(cols: seq<Column>): seq<bytes> {
    if cols == [] then []
    else [ColumnDefinition([], [], cols[0].name, cols[0].typ)] + ColumnPayloads(cols[1..])
  }

  function RowPayloads(rows: seq<Row>): seq<bytes> {
    if rows == [] then [] else [RowBytes(rows[0])] + RowPayloads(rows[1..])
  }

  function Payloads(cols: seq<Column>, rows: seq<Row>): seq<bytes> {
    [LenEncInt(|cols|)] + (ColumnPayloads(cols) + ([EOF_PAYLOAD] + (RowPayloads(rows) + [EOF_PAYLOAD])))
  }

  // ---------------------------------------------------------------- how a client reads it

  predicate IsEOF(p: bytes) { p != [] && p[0] == 0xfe }
  predicate IsERR(p: bytes) { p != [] && p[0] == 0xff }

  datatype Decoded<+T> = Decoded(value: T, seqNo: byte, rest: bytes)

  /** The next payload. A client that joins takes a packet of full length to be continued by
      the next one; without joining, packets are read as readMySQLPacket reads them. */
  function ReadPayload(stream: bytes, seqNo: byte, joins: bool): (p: Option<Decoded<bytes>>)
    ensures p.Some? ==> |p.value.rest| < |stream|
    decreases |stream|
  {
    var f := ReadPacket(stream);
    if f.None? || f.value.seqNo != seqNo then None
    else if !joins || |f.value.payload| < MAX_PACKET then
      Some(Decoded(f.value.payload, NextSeq(seqNo), f.value.rest))
    else
      var more := ReadPayload(f.value.rest, NextSeq(seqNo), joins);
      if more.None? then None else Some(more.value.(value := f.value.payload + more.value.value))
  }

  function DecodeColumns(stream: bytes, seqNo: byte, n: nat, joins: bool): Option<Decoded<seq<Column>>>
    decreases n
  {
    if n == 0 then Some(Decoded([], seqNo, stream))
    else
      var p := ReadPayload(stream, seqNo, joins);
      if p.None? || IsERR(p.value.value) then None
      else
        var c := ReadColumn(p.value.value);
        var more := DecodeColumns(p.value.rest, p.value.seqNo, n - 1, joins);
        if c.None? || more.None? then None
        else Some(more.value.(value := [c.value] + more.value.value))
  }

  /** Rows of `n` cells up to the EOF packet. */
  function DecodeRows(stream: bytes, seqNo: byte, n: nat, joins: bool): Option<Decoded<seq<Row>>>
    decreases |stream|
  {
    var p := ReadPayload(stream, seqNo, joins);
    if p.None? || IsERR(p.value.value) then None
    else if IsEOF(p.value.value) then Some(Decoded([], p.value.seqNo, p.value.rest))
    else
      var row := ReadRow(p.value.value, 0, n);
      var more := DecodeRows(p.value.rest, p.value.seqNo, n, joins);
      if row.None? || more.None? then None
      else Some(more.value.(value := [row.value] + more.value.value))
  }

  datatype ResultSet = ResultSet(cols: seq<Column>, rows: seq<Row>, rest: bytes)

  /** The column count; a first byte of 0 is an OK packet and 0xff an error, not a result set. */
  function DecodeCount(stream: bytes, joins: bool): Option<Decoded<nat>> {
    var p := ReadPayload(stream, 1, joins);
    if p.None? || p.value.value == [] then None
    else if p.value.value[0] == 0 || IsERR(p.value.value) then None
    else
      var n := ReadLenEncInt(p.value.value, 0);
      if n.ok && n.next == |p.value.value| then Some(Decoded(n.value, p.value.seqNo, p.value.rest)) else None
  }

  function DecodeBody(stream: bytes, seqNo: byte, n: nat, joins: bool): Option<ResultSet> {
    var cols := DecodeColumns(stream, seqNo, n, joins);
    if cols.None? then None
    else
      var eof := ReadPayload(cols.value.rest, cols.value.seqNo, joins);
      if eof.None? || !IsEOF(eof.value.value) then None
      else
        var rows := DecodeRows(eof.value.rest, eof.value.seqNo, n, joins);
        if rows.None? then None
        else Some(ResultSet(cols.value.value, rows.value.value, rows.value.rest))
  }

  function Decode(stream: bytes, joins: bool): Option<ResultSet> {
    var n := DecodeCount(stream, joins);
    if n.None? then None else DecodeBody(n.value.rest, n.value.seqNo, n.value.value, joins)
  }

  // ---------------------------------------------------------------- reading what was written

  /** A payload that such a client takes to be complete. */
  predicate Whole(p: bytes, joins: bool) { |p| <= MAX_PACKET && (joins ==> |p| < MAX_PACKET) }

  ghost predicate AllWhole(ps: seq<bytes>, joins: bool) {
    forall p :: p in ps ==> Whole(p, joins)
  }

  lemma WholeRead(seqNo: byte, p: bytes, rest: bytes, joins: bool)
    requires Whole(p, joins)
    ensures ReadPayload(Packet(seqNo, p) + rest, seqNo, joins) == Some(Decoded(p, NextSeq(seqNo), rest))
  {
    hide Packet, ReadPacket, NextSeq;
    PacketRoundTrip(seqNo, p, rest);
  }

  lemma ColumnsEnd(seqNo: byte, rest: bytes, joins: bool)
    ensures DecodeColumns(rest, seqNo, 0, joins) == Some(Decoded([], seqNo, rest))
  {
  }

  lemma RowsEnd(seqNo: byte, rest: bytes, n: nat, joins: bool)
    ensures DecodeRows(Packet(seqNo, EOF_PAYLOAD) + rest, seqNo, n, joins)
            == Some(Decoded([], NextSeq(seqNo), rest))
  {
    hide ReadPayload, Packet, NextSeq;
    WholeRead(seqNo, EOF_PAYLOAD, rest, joins);
  }

  lemma ColumnStep(seqNo: byte, p: bytes, more: bytes, c: Column, n: nat, joins: bool)
    requires Whole(p, joins) && !IsERR(p) && ReadColumn(p) == Some(c)
    ensures var d := DecodeColumns(more, NextSeq(seqNo), n, joins);
            DecodeColumns(Packet(seqNo, p) + more, seqNo, n + 1, joins)
            == if d.None? then None else Some(d.value.(value := [c] + d.value.value))
  {
    hide ReadPayload, Packet, NextSeq, ReadColumn;
    WholeRead(seqNo, p, more, joins);
  }

  lemma {:induction false} ColumnsDecode(cols: seq<Column>, seqNo: byte, rest: bytes, joins: bool)
    requires AllWhole(ColumnPayloads(cols), joins)
    ensures |ColumnPayloads(cols)| == |cols|
    ensures DecodeColumns(Frame(ColumnPayloads(cols), seqNo) + rest, seqNo, |cols|, joins)
            == Some(Decoded(cols, SeqAfter(seqNo, |cols|), rest))
    decreases |cols|
  {
    hide Packet, ReadPacket, ColumnDefinition, ReadColumn, DecodeColumns, Frame, SeqAfter, NextSeq;
    SeqStep(seqNo, if cols == [] then 0 else |cols| - 1);
    var ps := ColumnPayloads(cols);
    if cols == [] {
      FrameNone(seqNo);
      assert [] + rest == rest;
      ColumnsEnd(seqNo, rest, joins);
    } else {
      assert ps[1..] == ColumnPayloads(cols[1..]) && ps[0] in ps;
      var next := Frame(ps[1..], NextSeq(seqNo));
      FrameCons(ps[0], ps[1..], seqNo);
      assert ps == [ps[0]] + ps[1..];
      ColumnIsNoMarker(cols[0]);
      ColumnRoundTrip([], [], cols[0].name, cols[0].typ);
      ColumnsDecode(cols[1..], NextSeq(seqNo), rest, joins);
      ColumnStep(seqNo, ps[0], next + rest, cols[0], |cols| - 1, joins);
      Assoc(Packet(seqNo, ps[0]), next, rest);
      assert cols == [cols[0]] + cols[1..];
    }
  }

  lemma ColumnIsNoMarker(c: Column)
    ensures !IsERR(ColumnDefinition([], [], c.name, c.typ))
  {
    var ss := [CATALOG, [], [], [], c.name, c.name];
    assert Strings(ss)[0] == 3;
  }

  lemma RowStep(seqNo: byte, p: bytes, more: bytes, row: Row, n: nat, joins: bool)
    requires Whole(p, joins) && !IsERR(p) && !IsEOF(p) && ReadRow(p, 0, n) == Some(row)
    ensures var d := DecodeRows(more, NextSeq(seqNo), n, joins);
            DecodeRows(Packet(seqNo, p) + more, seqNo, n, joins)
            == if d.None? then None else Some(d.value.(value := [row] + d.value.value))
  {
    hide ReadPayload, Packet, NextSeq, ReadRow;
    WholeRead(seqNo, p, more, joins);
  }

  lemma {:induction false} RowsDecode(rows: seq<Row>, n: nat, seqNo: byte, rest: bytes, joins: bool)
    requires n > 0 && (forall r :: r in rows ==> |r| == n) && AllWhole(RowPayloads(rows), joins)
    ensures |RowPayloads(rows)| == |rows|
    ensures DecodeRows(Frame(RowPayloads(rows) + [EOF_PAYLOAD], seqNo) + rest, seqNo, n, joins)
            == Some(Decoded(rows, SeqAfter(seqNo, |rows| + 1), rest))
    decreases |rows|
  {
    hide Packet, ReadPacket, RowBytes, ReadRow, DecodeRows, Frame, SeqAfter, NextSeq;
    SeqStep(seqNo, |rows|);
    var ps := RowPayloads(rows) + [EOF_PAYLOAD];
    var next := Frame(ps[1..], NextSeq(seqNo));
    FrameCons(ps[0], ps[1..], seqNo);
    assert ps == [ps[0]] + ps[1..];
    Assoc(Packet(seqNo, ps[0]), next, rest);
    if rows == [] {
      FrameNone(NextSeq(seqNo));
      assert [] + rest == rest;
      RowsEnd(seqNo, rest, n, joins);
    } else {
      assert ps[1..] == RowPayloads(rows[1..]) + [EOF_PAYLOAD] && ps[0] in RowPayloads(rows);
      OneRow(rows[0], n);
      RowsDecode(rows[1..], n, NextSeq(seqNo), rest, joins);
      RowStep(seqNo, ps[0], next + rest, rows[0], n, joins);
      assert rows == [rows[0]] + rows[1..];
    }
  }

  lemma OneRow(row: Row, n: nat)
    requires n > 0 && |row| == n && |RowBytes(row)| <= MAX_PACKET
    ensures !IsEOF(RowBytes(row)) && !IsERR(RowBytes(row)) && ReadRow(RowBytes(row), 0, n) == Some(row)
  {
    RowIsNoMarker(row);
    assert RowBytes(row)[0..|RowBytes(row)|] == RowBytes(row);
    RowRoundTrip(RowBytes(row), 0, row);
  }

  // The five parts of a result set, as bytes.
  lemma FrameParts(cols: seq<Column>, rows: seq<Row>, rest: bytes)
    requires |ColumnPayloads(cols)| == |cols|
    ensures Frame(Payloads(cols, rows), 1) + rest
            == Packet(1, LenEncInt(|cols|)) + (Frame(ColumnPayloads(cols), 2)
               + (Packet(SeqAfter(2, |cols|), EOF_PAYLOAD)
                  + (Frame(RowPayloads(rows) + [EOF_PAYLOAD], SeqAfter(3, |cols|)) + rest)))
  {
    hide Packet, ColumnPayloads, RowPayloads, LenEncInt, Frame, SeqAfter, NextSeq;
    SeqsOfParts(|cols|, |rows|);
    SeqStep(1, 0);
    SeqStep(1, 1);
    var tail := RowPayloads(rows) + [EOF_PAYLOAD];
    var body := ColumnPayloads(cols) + ([EOF_PAYLOAD] + tail);
    var s := SeqAfter(2, |cols|);
    FrameCons(LenEncInt(|cols|), body, 1);
    FrameConcat(ColumnPayloads(cols), [EOF_PAYLOAD] + tail, 2);
    FrameCons(EOF_PAYLOAD, tail, s);
    Regroup(Packet(1, LenEncInt(|cols|)), Frame(ColumnPayloads(cols), 2),
            Packet(s, EOF_PAYLOAD), Frame(tail, NextSeq(s)), rest);
  }

  lemma Regroup(a: bytes, b: bytes, c: bytes, d: bytes, e: bytes)
    ensures (a + (b + (c + d))) + e == a + (b + (c + (d + e)))
  {
  }

  lemma SeqsOfParts(n: nat, m: nat)
    ensures NextSeq(1) == 2 && SeqAfter(3, n) == NextSeq(SeqAfter(2, n))
    ensures SeqAfter(SeqAfter(3, n), m + 1) == SeqAfter(SeqAfter(2, n), m + 2)
  {
  }

  lemma CountDecode(n: nat, body: bytes, joins: bool)
    requires n < 0x1_0000_0000_0000_0000
    ensures DecodeCount(Packet(1, LenEncInt(n)) + body, joins)
            == if n == 0 then None else Some(Decoded(n, 2, body))
  {
    hide ReadPayload, Packet;
    var p := LenEncInt(n);
    WholeRead(1, p, body, joins);
    assert p[0..|p|] == p;
    LenEncIntRoundTrip(p, 0, n);
  }

  lemma BodyDecode(cols: seq<Column>, body: bytes, afterEOF: bytes, joins: bool)
    requires var s := SeqAfter(2, |cols|);
             DecodeColumns(body, 2, |cols|, joins) == Some(Decoded(cols, s, Packet(s, EOF_PAYLOAD) + afterEOF))
    ensures var rows := DecodeRows(afterEOF, SeqAfter(3, |cols|), |cols|, joins);
            DecodeBody(body, 2, |cols|, joins)
            == if rows.None? then None else Some(ResultSet(cols, rows.value.value, rows.value.rest))
  {
    hide ReadPayload, Packet, DecodeColumns, DecodeRows;
    SeqsOfParts(|cols|, 0);
    WholeRead(SeqAfter(2, |cols|), EOF_PAYLOAD, afterEOF, joins);
  }

  /** A result set whose payloads a client takes to be complete is decoded. */
  lemma DecodeWhole(cols: seq<Column>, rows: seq<Row>, rest: bytes, joins: bool)
    requires AllWhole(Payloads(cols, rows), joins) && |cols| < 0x1_0000_0000_0000_0000
    requires forall r :: r in rows ==> |r| == |cols|
    ensures Decode(Frame(Payloads(cols, rows), 1) + rest, joins)
            == if cols == [] then None else Some(ResultSet(cols, rows, rest))
  {
    hide Packet, ReadPayload, ColumnPayloads, RowPayloads, LenEncInt, Frame, Payloads, SeqAfter, NextSeq;
    hide DecodeCount, DecodeBody, DecodeColumns, DecodeRows;
    var n := |cols|;
    WholeParts(cols, rows, joins);
    var afterEOF := Frame(RowPayloads(rows) + [EOF_PAYLOAD], SeqAfter(3, n)) + rest;
    var afterCols := Packet(SeqAfter(2, n), EOF_PAYLOAD) + afterEOF;
    var body := Frame(ColumnPayloads(cols), 2) + afterCols;
    ColumnsDecode(cols, 2, afterCols, joins);
    FrameParts(cols, rows, rest);
    CountDecode(n, body, joins);
    if n > 0 {
      RowsDecode(rows, n, SeqAfter(3, n), rest, joins);
      BodyDecode(cols, body, afterEOF, joins);
    }
  }

  lemma WholeParts(cols: seq<Column>, rows: seq<Row>, joins: bool)
    requires AllWhole(Payloads(cols, rows), joins)
    ensures AllWhole(ColumnPayloads(cols), joins) && AllWhole(RowPayloads(rows), joins)
  {
    hide ColumnPayloads, RowPayloads, Whole;
    forall p | p in ColumnPayloads(cols) || p in RowPayloads(rows) ensures Whole(p, joins) {
      assert p in Payloads(cols, rows);
    }
  }

  // ---------------------------------------------------------------- payloads of full length

  /** A payload a joining client takes to be continued. */
  ghost predicate HasFull(ps: seq<bytes>) {
    exists p :: p in ps && |p| == MAX_PACKET
  }

  /** Payloads that fit, of which none is empty and the last is not full. */
  ghost predicate Closed(ps: seq<bytes>) {
    ps != [] && Fit(ps) && [] !in ps && |ps[|ps| - 1]| < MAX_PACKET
  }

  lemma FrameFirst(ps: seq<bytes>, seqNo: byte, rest: bytes)
    requires ps != []
    ensures Frame(ps, seqNo) + rest == Packet(seqNo, ps[0]) + (Frame(ps[1..], NextSeq(seqNo)) + rest)
  {
    hide Packet, NextSeq;
    Assoc(Packet(seqNo, ps[0]), Frame(ps[1..], NextSeq(seqNo)), rest);
  }

  /** What a joining client reads first starts with the first payload, and goes on behind it
      if that is full. */
  lemma {:induction false} JoinedRead(ps: seq<bytes>, seqNo: byte, rest: bytes) returns (more: bytes)
    requires Closed(ps)
    ensures var p := ReadPayload(Frame(ps, seqNo) + rest, seqNo, true);
            p.Some? && p.value.value == ps[0] + more && (|ps[0]| == MAX_PACKET ==> more != [])
    decreases |ps|
  {
    hide Packet, ReadPacket, Frame, NextSeq;
    FrameFirst(ps, seqNo, rest);
    var next := Frame(ps[1..], NextSeq(seqNo)) + rest;
    assert ps[0] in ps;
    if |ps[0]| < MAX_PACKET {
      WholeRead(seqNo, ps[0], next, true);
      more := [];
    } else {
      PacketRoundTrip(seqNo, ps[0], next);
      assert ps[1..] != [] && ps[1..][|ps| - 2] == ps[|ps| - 1] && ps[1] in ps;
      var behind := JoinedRead(ps[1..], NextSeq(seqNo), rest);
      more := ps[1] + behind;
    }
  }

  lemma ClosedRest(ps: seq<bytes>)
    requires Closed(ps) && |ps| > 1
    ensures Closed(ps[1..])
  {
    assert ps[1..][|ps| - 2] == ps[|ps| - 1];
  }

  lemma FullColumnFails(ps: seq<bytes>, c: Column, seqNo: byte, n: nat, rest: bytes)
    requires Closed(ps) && ps[0] == ColumnDefinition([], [], c.name, c.typ) && |ps[0]| == MAX_PACKET
    ensures DecodeColumns(Frame(ps, seqNo) + rest, seqNo, n + 1, true).None?
  {
    hide ReadPayload, ColumnDefinition, ReadColumn, Frame;
    var more := JoinedRead(ps, seqNo, rest);
    ColumnTooLong([], [], c.name, c.typ, more);
  }

  lemma WholeColumnPasses(ps: seq<bytes>, c: Column, seqNo: byte, n: nat, rest: bytes)
    requires Closed(ps) && ps[0] == ColumnDefinition([], [], c.name, c.typ) && |ps[0]| != MAX_PACKET
    requires DecodeColumns(Frame(ps[1..], NextSeq(seqNo)) + rest, NextSeq(seqNo), n, true).None?
    ensures DecodeColumns(Frame(ps, seqNo) + rest, seqNo, n + 1, true).None?
  {
    hide Packet, ColumnDefinition, ReadColumn, Frame, NextSeq, DecodeColumns;
    assert ps[0] in ps;
    ColumnIsNoMarker(c);
    ColumnRoundTrip([], [], c.name, c.typ);
    FrameFirst(ps, seqNo, rest);
    ColumnStep(seqNo, ps[0], Frame(ps[1..], NextSeq(seqNo)) + rest, c, n, true);
  }

  /** A full column definition is not read as one when packets are joined. */
  lemma {:induction false} ColumnsFail(cols: seq<Column>, follow: seq<bytes>, seqNo: byte, rest: bytes)
    requires HasFull(ColumnPayloads(cols)) && follow != [] && Closed(ColumnPayloads(cols) + follow)
    ensures DecodeColumns(Frame(ColumnPayloads(cols) + follow, seqNo) + rest, seqNo, |cols|, true).None?
    decreases |cols|
  {
    hide Packet, ReadPayload, ColumnDefinition, ReadColumn, Frame, NextSeq, DecodeColumns;
    FirstColumn(cols);
    hide ColumnPayloads;
    var c, p, later := cols[0], ColumnPayloads(cols)[0], ColumnPayloads(cols[1..]);
    var ps := [p] + later + follow;
    assert ps == ColumnPayloads(cols) + follow;
    if |p| == MAX_PACKET {
      FullColumnFails(ps, c, seqNo, |cols| - 1, rest);
    } else {
      FullLater([p] + later);
      ClosedRest(ps);
      hide HasFull, Closed;
      assert ps[1..] == later + follow;
      ColumnsFail(cols[1..], follow, NextSeq(seqNo), rest);
      WholeColumnPasses(ps, c, seqNo, |cols| - 1, rest);
    }
  }

  lemma FirstColumn(cols: seq<Column>)
    requires HasFull(ColumnPayloads(cols))
    ensures cols != []
    ensures ColumnPayloads(cols)
            == [ColumnDefinition([], [], cols[0].name, cols[0].typ)] + ColumnPayloads(cols[1..])
  {
  }

  lemma FullLater(ps: seq<bytes>)
    requires HasFull(ps) && ps != [] && |ps[0]| != MAX_PACKET
    ensures HasFull(ps[1..])
  {
    var p :| p in ps && |p| == MAX_PACKET;
    assert ps == [ps[0]] + ps[1..];
  }

  /** Nor is a full row. */
  lemma {:induction false} RowsFail(rows: seq<Row>, n: nat, seqNo: byte, rest: bytes)
    requires HasFull(RowPayloads(rows)) && n > 0 && (forall r :: r in rows ==> |r| == n)
    requires Closed(RowPayloads(rows) + [EOF_PAYLOAD])
    ensures DecodeRows(Frame(RowPayloads(rows) + [EOF_PAYLOAD], seqNo) + rest, seqNo, n, true).None?
    decreases |rows|
  {
    hide Packet, ReadPayload, RowBytes, ReadRow, Frame, NextSeq;
    var ps, p := RowPayloads(rows) + [EOF_PAYLOAD], RowBytes(rows[0]);
    assert ps[0] == p && ps[1..] == RowPayloads(rows[1..]) + [EOF_PAYLOAD] && p in ps;
    OneRow(rows[0], n);
    if |p| == MAX_PACKET {
      var more := JoinedRead(ps, seqNo, rest);
      RowTooLong(rows[0], more);
    } else {
      FullLater(RowPayloads(rows));
      ClosedRest(ps);
      RowsFail(rows[1..], n, NextSeq(seqNo), rest);
      FrameFirst(ps, seqNo, rest);
      hide DecodeRows;
      RowStep(seqNo, p, Frame(ps[1..], NextSeq(seqNo)) + rest, rows[0], n, true);
    }
  }

  lemma RowTooLong(row: Row, more: bytes)
    requires row != [] && |RowBytes(row)| <= MAX_PACKET && more != []
    ensures var p := RowBytes(row) + more; !IsEOF(p) && !IsERR(p) && ReadRow(p, 0, |row|).None?
  {
    RowIsNoMarker(row);
    var p := RowBytes(row) + more;
    assert p[0..|RowBytes(row)|] == RowBytes(row) && p[0] == RowBytes(row)[0];
    RowRoundTrip(p, 0, row);
  }

  lemma FullWhere(cols: seq<Column>, rows: seq<Row>)
    requires HasFull(Payloads(cols, rows))
    ensures HasFull(ColumnPayloads(cols)) || HasFull(RowPayloads(rows))
  {
    hide ColumnPayloads, RowPayloads;
    var p :| p in Payloads(cols, rows) && |p| == MAX_PACKET;
    assert p in ColumnPayloads(cols) || p in RowPayloads(rows);
  }

  lemma {:induction false} NoColumnEmpty(cols: seq<Column>)
    ensures [] !in ColumnPayloads(cols)
  {
    if cols != [] {
      NoColumnEmpty(cols[1..]);
    }
  }

  lemma {:induction false} NoRowEmpty(rows: seq<Row>, n: nat)
    requires n > 0 && forall r :: r in rows ==> |r| == n
    ensures [] !in RowPayloads(rows)
  {
    hide CellBytes;
    if rows != [] {
      assert RowBytes(rows[0]) == CellBytes(rows[0][0]) + RowBytes(rows[0][1..]);
      CellNotEmpty(rows[0][0]);
      NoRowEmpty(rows[1..], n);
    }
  }

  lemma CellNotEmpty(c: Cell)
    ensures CellBytes(c) != []
  {
  }

  lemma ClosedParts(cols: seq<Column>, rows: seq<Row>)
    requires Fit(Payloads(cols, rows)) && cols != [] && forall r :: r in rows ==> |r| == |cols|
    ensures Closed(ColumnPayloads(cols) + ([EOF_PAYLOAD] + (RowPayloads(rows) + [EOF_PAYLOAD])))
    ensures Closed(RowPayloads(rows) + [EOF_PAYLOAD])
  {
    hide ColumnPayloads, RowPayloads;
    NoColumnEmpty(cols);
    NoRowEmpty(rows, |cols|);
    var tail := RowPayloads(rows) + [EOF_PAYLOAD];
    var ps := ColumnPayloads(cols) + ([EOF_PAYLOAD] + tail);
    forall p | p in tail || p in ps ensures |p| <= MAX_PACKET && p != [] {
      assert p in Payloads(cols, rows) && (p == EOF_PAYLOAD || p in ColumnPayloads(cols) || p in RowPayloads(rows));
    }
    assert ps[|ps| - 1] == EOF_PAYLOAD == tail[|tail| - 1];
  }

  /** A full payload makes a joining client read no result set. */
  lemma FullFails(cols: seq<Column>, rows: seq<Row>, rest: bytes)
    requires Fit(Payloads(cols, rows)) && HasFull(Payloads(cols, rows))
    requires 0 < |cols| < 0x1_0000_0000_0000_0000 && forall r :: r in rows ==> |r| == |cols|
    ensures Decode(Frame(Payloads(cols, rows), 1) + rest, true).None?
  {
    hide Packet, ReadPayload, ColumnPayloads, RowPayloads, LenEncInt, Frame, SeqAfter, NextSeq;
    hide DecodeCount, DecodeBody, DecodeColumns, DecodeRows, Closed, HasFull;
    var n := |cols|;
    FullWhere(cols, rows);
    ClosedParts(cols, rows);
    if HasFull(ColumnPayloads(cols)) {
      var follow := [EOF_PAYLOAD] + (RowPayloads(rows) + [EOF_PAYLOAD]);
      var body := Frame(ColumnPayloads(cols) + follow, 2) + rest;
      SeqsOfParts(n, 0);
      FrameFirst(Payloads(cols, rows), 1, rest);
      assert Payloads(cols, rows)[1..] == ColumnPayloads(cols) + follow;
      CountDecode(n, body, true);
      ColumnsFail(cols, follow, 2, rest);
      NoColumnsNoBody(body, n);
    } else {
      RowsMisread(cols, rows, rest);
    }
  }

  lemma NoColumnsNoBody(body: bytes, n: nat)
    requires DecodeColumns(body, 2, n, true).None?
    ensures DecodeBody(body, 2, n, true).None?
  {
  }

  lemma RowsMisread(cols: seq<Column>, rows: seq<Row>, rest: bytes)
    requires Fit(Payloads(cols, rows)) && HasFull(RowPayloads(rows)) && !HasFull(ColumnPayloads(cols))
    requires 0 < |cols| < 0x1_0000_0000_0000_0000 && forall r :: r in rows ==> |r| == |cols|
    ensures Decode(Frame(Payloads(cols, rows), 1) + rest, true).None?
  {
    hide Packet, ReadPayload, ColumnPayloads, RowPayloads, LenEncInt, Frame, Payloads, SeqAfter, NextSeq;
    hide DecodeCount, DecodeBody, DecodeColumns, DecodeRows;
    var n := |cols|;
    WholeColumns(cols, rows);
    ClosedParts(cols, rows);
    var afterEOF := Frame(RowPayloads(rows) + [EOF_PAYLOAD], SeqAfter(3, n)) + rest;
    var afterCols := Packet(SeqAfter(2, n), EOF_PAYLOAD) + afterEOF;
    var body := Frame(ColumnPayloads(cols), 2) + afterCols;
    ColumnsDecode(cols, 2, afterCols, true);
    FrameParts(cols, rows, rest);
    CountDecode(n, body, true);
    RowsFail(rows, n, SeqAfter(3, n), rest);
    BodyDecode(cols, body, afterEOF, true);
  }

  lemma WholeColumns(cols: seq<Column>, rows: seq<Row>)
    requires Fit(Payloads(cols, rows)) && !HasFull(ColumnPayloads(cols))
    ensures AllWhole(ColumnPayloads(cols), true)
  {
    hide ColumnPayloads, RowPayloads;
    forall p | p in ColumnPayloads(cols) ensures Whole(p, true) {
      assert p in Payloads(cols, rows);
    }
  }

  /** A client decodes a written result set, whatever follows it on the connection, to
      exactly its columns and rows when there is a column and, if the client joins packets,
      no payload is full; else it decodes no result set. */
  lemma DecodeWritten(cols: seq<Column>, rows: seq<Row>, rest: bytes, joins: bool)
    requires Fit(Payloads(cols, rows)) && |cols| < 0x1_0000_0000_0000_0000
    requires forall r :: r in rows ==> |r| == |cols|
    ensures Decode(Frame(Payloads(cols, rows), 1) + rest, joins)
            == if cols == [] || (joins && HasFull(Payloads(cols, rows))) then None
               else Some(ResultSet(cols, rows, rest))
  {
    hide Decode, Frame, Payloads;
    if cols != [] && joins && HasFull(Payloads(cols, rows)) {
      FullFails(cols, rows, rest);
    } else if cols == [] {
      NoColumns(rows, rest, joins);
    } else {
      DecodeWhole(cols, rows, rest, joins);
    }
  }

  lemma NoColumns(rows: seq<Row>, rest: bytes, joins: bool)
    ensures Decode(Frame(Payloads([], rows), 1) + rest, joins).None?
  {
    hide Packet, Frame, NextSeq, DecodeCount, DecodeBody, LenEncInt, RowPayloads;
    FrameFirst(Payloads([], rows), 1, rest);
    CountDecode(0, Frame(Payloads([], rows)[1..], NextSeq(1)) + rest, joins);
  }

  /** A row with one cell of 16777211 bytes makes such a payload. */
  lemma FullRow(s: bytes)
    requires |s| == 16777211
    ensures |RowBytes([Some(s)])| == 16777215
    ensures HasFull(Payloads([Column([], 0)], [[Some(s)]]))
  {
    var row: Row := [Some(s)];
    assert row[1..] == [] && RowBytes(row) == LenEncString(s) + [];
    assert |LenEncInt(|s|)| == 4;
    var ps := Payloads([Column([], 0)], [row]);
    assert RowPayloads([row]) == [RowBytes(row)] + RowPayloads([row][1..]);
    assert RowBytes(row) in ps;
  }
}

/** Link cells (pkg/cell/cell.go, section 3 of tor-spec): fixed cells carry 509 bytes, variable
    cells a two-byte length and a body; circuit IDs take two bytes before version negotiation
    and four after it. */
module LinkCells {
  import opened Bytes
  import opened Options
  import opened RelayCells

  const MAX_VARIABLE_BODY := 16384
  const CMD_VERSIONS: byte := 7

  datatype Cell = Cell(circID: u32, command: byte, payload: seq<byte>)

  predicate IsVariable(command: byte) {
    command == CMD_VERSIONS || command >= 128
  }

  /** A payload cut or zero-padded to 509 bytes. */
  function Fixed(p: seq<byte>): (q: Payload) {
    if |p| >= PAYLOAD_LEN then p[..PAYLOAD_LEN] else p + Zeros(PAYLOAD_LEN - |p|)
  }

  function IdBytes(id: u32, wide: bool): (b: seq<byte>) {
    if wide then PutU32(id) else PutU16(id % 0x1_0000)
  }

  function Encode(c: Cell, wide: bool): (b: seq<byte>) {
    IdBytes(c.circID, wide) + [c.command] + BodyBytes(c)
  }

  datatype ReadError = Short | TooLong

  datatype Read = Read(cell: Cell, rest: seq<byte>) | Bad(error: ReadError)

  function IdLen(wide: bool): (n: nat) {
    if wide then 4 else 2
  }

  function GetId(b: seq<byte>, wide: bool): (id: u32)
    requires |b| >= IdLen(wide)
  {
    if wide then GetU32(b) else GetU16(b)
  }

  function ReadCell(b: seq<byte>, wide: bool): (r: Read) {
    var h := IdLen(wide);
    if |b| < h + 1 then Bad(Short)
    else
      var id, command, body := GetId(b, wide), b[h], b[h + 1..];
      if IsVariable(command) then
        if |body| < 2 then Bad(Short)
        else
          var n := GetU16(body);
          if n > MAX_VARIABLE_BODY then Bad(TooLong)
          else if |body| < 2 + n then Bad(Short)
          else Read(Cell(id, command, body[2..2 + n]), body[2 + n..])
      else if |body| < PAYLOAD_LEN then Bad(Short)
      else Read(Cell(id, command, body[..PAYLOAD_LEN]), body[PAYLOAD_LEN..])
  }

  /** What a cell is read back as. */
  function Normal(c: Cell): (r: Cell) {
    if IsVariable(c.command) then c else c.(payload := Fixed(c.payload))
  }

  /** The cells that survive the wire. */
  predicate Fits(c: Cell, wide: bool) {
    && (wide || c.circID < 0x1_0000)
    && (IsVariable(c.command) ==> |c.payload| <= MAX_VARIABLE_BODY)
  }

  function WireId(id: u32, wide: bool): (r: u32) {
    if wide then id else id % 0x1_0000
  }

  lemma IdOfHead(id: u32, wide: bool, tail: seq<byte>)
    ensures GetId(IdBytes(id, wide) + tail, wide) == WireId(id, wide)
  {
    var b, head := IdBytes(id, wide) + tail, IdBytes(id, wide);
    if wide {
      assert b[..2] == head[..2] && b[2..4] == head[2..4];
    } else {
      assert b[0] == head[0] && b[1] == head[1];
    }
  }

  lemma HeaderOf(c: Cell, wide: bool, rest: seq<byte>)
    ensures var b := Encode(c, wide) + rest; var h := IdLen(wide);
      && |b| >= h + 1 && b[h] == c.command
      && GetId(b, wide) == WireId(c.circID, wide)
      && b[h + 1..] == BodyBytes(c) + rest
  {
    var tail := [c.command] + (BodyBytes(c) + rest);
    assert Encode(c, wide) + rest == IdBytes(c.circID, wide) + tail;
    IdOfHead(c.circID, wide, tail);
  }

  /** The length field and the body of a variable cell, with `rest` behind them. */
  lemma VariableBody(payload: seq<byte>, rest: seq<byte>)
    ensures var n := |payload| % 0x1_0000; var body := PutU16(n) + payload + rest;
      && |body| >= 2 + n && GetU16(body) == n
      && body[2..2 + n] == payload[..n] && body[2 + n..] == payload[n..] + rest
  {
    var n := |payload| % 0x1_0000;
    var body := PutU16(n) + payload + rest;
    assert body[2..] == payload + rest;
    assert body[2..2 + n] == body[2..][..n];
    assert body[2 + n..] == body[2..][n..];
  }

  lemma ReadVariable(c: Cell, wide: bool, rest: seq<byte>)
    requires IsVariable(c.command)
    ensures var n := |c.payload| % 0x1_0000;
      ReadCell(Encode(c, wide) + rest, wide)
        == if n > MAX_VARIABLE_BODY then Bad(TooLong)
           else Read(Cell(WireId(c.circID, wide), c.command, c.payload[..n]), c.payload[n..] + rest)
  {
    HeaderOf(c, wide, rest);
    VariableBody(c.payload, rest);
  }

  lemma ReadFixed(c: Cell, wide: bool, rest: seq<byte>)
    requires !IsVariable(c.command)
    ensures ReadCell(Encode(c, wide) + rest, wide)
         == Read(Cell(WireId(c.circID, wide), c.command, Fixed(c.payload)), rest)
  {
    HeaderOf(c, wide, rest);
    var body := Fixed(c.payload) + rest;
    assert body[..PAYLOAD_LEN] == Fixed(c.payload) && body[PAYLOAD_LEN..] == rest;
  }

  /** Command 7 and the commands from 128 on have a two-byte length and a body of that length, all
      others 509 bytes. */
  lemma BodyLayout(c: Cell)
    ensures var b := BodyBytes(c);
      if c.command == 7 || c.command >= 128
      then |b| == 2 + |c.payload| && 256 * b[0] as int + b[1] as int == |c.payload| % 0x1_0000 && b[2..] == c.payload
      else |b| == 509 && forall k :: 0 <= k < 509 ==> b[k] == if k < |c.payload| then c.payload[k] else 0
  {
  }

  lemma IdLayout(id: u32, wide: bool)
    ensures var b := IdBytes(id, wide);
      if wide
      then |b| == 4 && 0x100_0000 * b[0] as int + 0x1_0000 * b[1] as int + 256 * b[2] as int + b[3] as int == id
      else |b| == 2 && 256 * b[0] as int + b[1] as int == id % 0x1_0000
  {
  }

  /** The frame of a cell: a circuit ID of 4 or 2 bytes, the command, then the body; see IdLayout and
      BodyLayout for their bytes. */
  lemma FrameLayout(c: Cell, wide: bool)
    ensures var b := Encode(c, wide); var h := if wide then 4 else 2;
      && |b| == h + 1 + (if c.command == 7 || c.command >= 128 then 2 + |c.payload| else 509)
      && b[..h] == IdBytes(c.circID, wide) && b[h] == c.command && b[h + 1..] == BodyBytes(c)
  {
    IdLayout(c.circID, wide);
    BodyLayout(c);
  }

  /** One cell comes back as it was sent, with what follows it untouched, exactly when it fits. */
  lemma ReadOfEncode(c: Cell, wide: bool, rest: seq<byte>)
    ensures ReadCell(Encode(c, wide) + rest, wide) == Read(Normal(c), rest) <==>
      (wide || c.circID < 0x1_0000) && (c.command == 7 || c.command >= 128 ==> |c.payload| <= 16384)
  {
    if IsVariable(c.command) {
      ReadVariable(c, wide, rest);
      if |c.payload| < 0x1_0000 {
        assert c.payload[..|c.payload|] == c.payload && c.payload[|c.payload|..] + rest == rest;
      }
    } else {
      ReadFixed(c, wide, rest);
    }
  }

  lemma IdCanonical(b: seq<byte>, wide: bool)
    requires |b| >= IdLen(wide)
    ensures IdBytes(GetId(b, wide), wide) == b[..IdLen(wide)]
    ensures !wide ==> GetId(b, wide) < 0x1_0000
  {
    if wide {
      assert b[..4][..2] == b[..2] && b[..4][2..4] == b[2..4];
      PutGetU32(b[..4]);
    } else {
      PutGetU16(b[..2]);
    }
  }

  /** The part of a cell after its command. */
  function BodyBytes(c: Cell): (b: seq<byte>) {
    if IsVariable(c.command) then PutU16(|c.payload| % 0x1_0000) + c.payload else Fixed(c.payload)
  }

  lemma VariableCanonical(body: seq<byte>)
    requires |body| >= 2 && |body| >= 2 + GetU16(body)
    ensures var n := GetU16(body); PutU16(n) + body[2..2 + n] + body[2 + n..] == body
  {
    PutGetU16(body[..2]);
    assert GetU16(body[..2]) == GetU16(body);
    var n := GetU16(body);
    assert body == body[..2] + body[2..2 + n] + body[2 + n..];
  }

  lemma FixedCanonical(body: seq<byte>)
    requires |body| >= PAYLOAD_LEN
    ensures Fixed(body[..PAYLOAD_LEN]) == body[..PAYLOAD_LEN]
    ensures body[..PAYLOAD_LEN] + body[PAYLOAD_LEN..] == body
  {
  }

  lemma BodyCanonical(b: seq<byte>, wide: bool)
    requires ReadCell(b, wide).Read?
    ensures var r := ReadCell(b, wide);
      BodyBytes(r.cell) + r.rest == b[IdLen(wide) + 1..] && Normal(r.cell) == r.cell
      && (IsVariable(r.cell.command) ==> |r.cell.payload| <= MAX_VARIABLE_BODY)
  {
    var body := b[IdLen(wide) + 1..];
    if IsVariable(b[IdLen(wide)]) {
      VariableCanonical(body);
    } else {
      FixedCanonical(body);
    }
  }

  lemma Reassociate(a: seq<byte>, b: seq<byte>, c: seq<byte>)
    ensures (a + b) + c == a + (b + c)
  {
  }

  lemma SplitAt(b: seq<byte>, h: nat)
    requires h < |b|
    ensures b[..h] + [b[h]] + b[h + 1..] == b
  {
  }

  /** Encodings are canonical: encoding what was read gives the bytes that were read. */
  lemma EncodeOfRead(b: seq<byte>, wide: bool)
    requires ReadCell(b, wide).Read?
    ensures var r := ReadCell(b, wide);
      Encode(r.cell, wide) + r.rest == b && Fits(r.cell, wide) && Normal(r.cell) == r.cell && |r.rest| < |b|
  {
    var r, h := ReadCell(b, wide), IdLen(wide);
    IdCanonical(b, wide);
    BodyCanonical(b, wide);
    Reassociate(b[..h] + [b[h]], BodyBytes(r.cell), r.rest);
    SplitAt(b, h);
  }

  /* ----- Streams of cells ----- */

  function EncodeAll(cells: seq<Cell>, wide: bool): (b: seq<byte>) {
    if cells == [] then [] else Encode(cells[0], wide) + EncodeAll(cells[1..], wide)
  }

  datatype ReadMany = ReadMany(cells: seq<Cell>, rest: seq<byte>)

  /** Reads cells until the bytes run out or one is bad. */
  function ReadAll(b: seq<byte>, wide: bool): (r: ReadMany)
    decreases |b|
  {
    var one := ReadCell(b, wide);
    if one.Bad? || |one.rest| >= |b| then ReadMany([], b)
    else
      var more := ReadAll(one.rest, wide);
      ReadMany([one.cell] + more.cells, more.rest)
  }

  function NormalAll(cells: seq<Cell>): (r: seq<Cell>) {
    if cells == [] then [] else [Normal(cells[0])] + NormalAll(cells[1..])
  }

  /** Framing round trip: reading concatenated encodings yields the same cells, nothing left. */
  lemma {:induction false} FramingRoundTrip(cells: seq<Cell>, wide: bool)
    requires forall i :: 0 <= i < |cells| ==> Fits(cells[i], wide)
    ensures ReadAll(EncodeAll(cells, wide), wide) == ReadMany(NormalAll(cells), [])
    decreases |cells|
  {
    if cells == [] {
    } else {
      var rest := EncodeAll(cells[1..], wide);
      ReadOfEncode(cells[0], wide, rest);
      EncodeOfRead(Encode(cells[0], wide) + rest, wide);
      FramingRoundTrip(cells[1..], wide);
    }
  }

  lemma ConsAll(c: Cell, cells: seq<Cell>, wide: bool)
    ensures EncodeAll([c] + cells, wide) == Encode(c, wide) + EncodeAll(cells, wide)
    ensures NormalAll([c] + cells) == [Normal(c)] + NormalAll(cells)
  {
    assert ([c] + cells)[1..] == cells;
  }

  /** One step of ReadAll. */
  lemma ReadAllStep(b: seq<byte>, wide: bool)
    requires ReadCell(b, wide).Read?
    ensures var one := ReadCell(b, wide); var more := ReadAll(one.rest, wide);
      && |one.rest| < |b|
      && ReadAll(b, wide) == ReadMany([one.cell] + more.cells, more.rest)
      && Encode(one.cell, wide) + one.rest == b && Normal(one.cell) == one.cell
  {
    EncodeOfRead(b, wide);
  }

  /** Any bytes at all are the encodings of the cells read from them, and the part not read. */
  lemma {:induction false} FramingCanonical(b: seq<byte>, wide: bool)
    ensures EncodeAll(ReadAll(b, wide).cells, wide) + ReadAll(b, wide).rest == b
    ensures NormalAll(ReadAll(b, wide).cells) == ReadAll(b, wide).cells
    decreases |b|
  {
    var one := ReadCell(b, wide);
    if one.Bad? {
      assert ReadAll(b, wide) == ReadMany([], b);
    } else {
      ReadAllStep(b, wide);
      FramingCanonical(one.rest, wide);
      var more := ReadAll(one.rest, wide);
      ConsAll(one.cell, more.cells, wide);
      Reassociate(Encode(one.cell, wide), EncodeAll(more.cells, wide), more.rest);
    }
  }

  /* ----- The code in place ----- */

  /** An append-only buffer (internal/byteutil/byteutil.go:7-52). */
  class Writer {
    var buf: seq<byte>

    constructor ()
      ensures buf == []
    {
      buf := [];
    }

    method Byte(b: byte)
      modifies this
      ensures buf == old(buf) + [b]
    {
      buf := buf + [b];
    }

    method U16(v: u16)
      modifies this
      ensures buf == old(buf) + PutU16(v)
    {
      buf := buf + [v / 256, v % 256];
    }

    method U32(v: u32)
      modifies this
      ensures buf == old(buf) + PutU32(v)
    {
      U16(v / 0x1_0000);
      U16(v % 0x1_0000);
      assert buf == old(buf) + (PutU16(v / 0x1_0000) + PutU16(v % 0x1_0000));
    }

    method Write(p: seq<byte>)
      modifies this
      ensures buf == old(buf) + p
    {
      buf := buf + p;
    }
  }

  method EncodeCell(c: Cell, wide: bool) returns (b: seq<byte>)
    ensures b == Encode(c, wide)
  {
    var w := new Writer();
    if wide {
      w.U32(c.circID);
    } else {
      w.U16(c.circID % 0x1_0000);
    }
    w.Byte(c.command);
    ghost var header := w.buf;
    assert header == IdBytes(c.circID, wide) + [c.command];
    if IsVariable(c.command) {
      w.U16(|c.payload| % 0x1_0000);
      w.Write(c.payload);
      assert w.buf == header + BodyBytes(c);
      return w.buf;
    }
    if |c.payload| >= PAYLOAD_LEN {
      w.Write(c.payload[..PAYLOAD_LEN]);
    } else {
      w.Write(c.payload);
      w.Write(Zeros(PAYLOAD_LEN - |c.payload|));
    }
    assert w.buf == header + BodyBytes(c);
    b := w.buf;
  }

  /** The connection read from: `rest` is what has not been consumed. */
  class Source {
    var rest: seq<byte>

    constructor (b: seq<byte>)
      ensures rest == b
    {
      rest := b;
    }

    /** io.ReadFull of n bytes. */
    method ReadFull(n: nat) returns (r: Option<seq<byte>>)
      modifies this
      ensures |old(rest)| >= n ==> r == Some(old(rest)[..n]) && rest == old(rest)[n..]
      ensures |old(rest)| < n ==> r == None && rest == []
    {
      if |rest| < n {
        rest := [];
        return None;
      }
      r := Some(rest[..n]);
      rest := rest[n..];
    }
  }

  /** ReadCell, consuming its source step by step. */
  method ReadCellFrom(src: Source, wide: bool) returns (r: Read)
    modifies src
    ensures r == ReadCell(old(src.rest), wide)
    ensures r.Read? ==> src.rest == r.rest
  {
    ghost var b := src.rest;
    var h := IdLen(wide);
    var header := src.ReadFull(h + 1);
    if header.None? {
      return Bad(Short);
    }
    var id, command := GetId(header.value, wide), header.value[h];
    assert id == GetId(b, wide) by {
      assert header.value[..2] == b[..2];
      assert wide ==> header.value[2..4] == b[2..4];
    }
    if IsVariable(command) {
      var lenBuf := src.ReadFull(2);
      if lenBuf.None? {
        return Bad(Short);
      }
      var n := GetU16(lenBuf.value);
      if n > MAX_VARIABLE_BODY {
        return Bad(TooLong);
      }
      var body := src.ReadFull(n);
      if body.None? {
        return Bad(Short);
      }
      assert b[h + 1..][2..][..n] == b[h + 1..][2..2 + n];
      return Read(Cell(id, command, body.value), src.rest);
    }
    var payload := src.ReadFull(PAYLOAD_LEN);
    if payload.None? {
      return Bad(Short);
    }
    return Read(Cell(id, command, payload.value), src.rest);
  }
}

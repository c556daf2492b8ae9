/** The file of a variable-length column: src/ds_var_field.c, src/_ds_var_field.c. */
module VarField {
  import opened Words
  import opened FileWriter

  const HEADER: nat := 24
  const TYPE_VAR: int := 10
  const TYPE_ARRAY: int := 11

  type int64 = x: int | -0x8000_0000_0000_0000 <= x < 0x8000_0000_0000_0000

  function EncI64(x: int64): (r: Bytes)
    ensures |r| == 8
  {
    Enc64(if x < 0 then x + 0x1_0000_0000_0000_0000 else x)
  }

  function I64(mem: Bytes, a: nat): (x: int64)
    requires a + 8 <= |mem|
  {
    var u := U64(mem, a);
    if u < 0x8000_0000_0000_0000 then u else u - 0x1_0000_0000_0000_0000
  }

  function Header(kind: int64, table: uint64, elementType: int64): (r: Bytes)
    ensures |r| == HEADER
  {
    EncI64(kind) + Enc64(table) + EncI64(elementType)
  }

  function EncTable(t: seq<uint64>): (r: Bytes)
    ensures |r| == 8 * |t|
  {
    if t == [] then [] else EncTable(t[..|t| - 1]) + Enc64(t[|t| - 1])
  }

  // ---------- words inside a longer memory ----------

  lemma U64OfSlice(m: Bytes, a: nat)
    requires a + 8 <= |m|
    ensures U64(m, a) == U64(m[a..a + 8], 0)
  {
  }

  lemma SameU64(m: Bytes, a: nat, m': Bytes, a': nat)
    requires a + 8 <= |m| && a' + 8 <= |m'| && m[a..a + 8] == m'[a'..a' + 8]
    ensures U64(m, a) == U64(m', a')
  {
    U64OfSlice(m, a);
    U64OfSlice(m', a');
  }

  lemma {:induction false} TableAt(t: seq<uint64>, i: nat)
    requires i < |t|
    ensures U64(EncTable(t), 8 * i) == t[i]
  {
    var front, last := t[..|t| - 1], Enc64(t[|t| - 1]);
    if i < |t| - 1 {
      TableAt(front, i);
      assert EncTable(t)[8 * i..8 * i + 8] == EncTable(front)[8 * i..8 * i + 8];
      SameU64(EncTable(t), 8 * i, EncTable(front), 8 * i);
    } else {
      assert EncTable(t)[8 * i..8 * i + 8] == last[0..8];
      SameU64(EncTable(t), 8 * i, last, 0);
    }
  }

  // ---------- the format ----------

  lemma {:induction false} FlatPrefix(rows: seq<Bytes>, i: nat)
    requires i <= |rows|
    ensures |Flat(rows[..i])| <= |Flat(rows)| && Flat(rows)[..|Flat(rows[..i])|] == Flat(rows[..i])
  {
    if i < |rows| {
      var front := rows[..|rows| - 1];
      assert front[..i] == rows[..i];
      FlatPrefix(front, i);
    } else {
      assert rows[..i] == rows;
    }
  }

  /** Row `i` lies between its start and the start of the next. */
  lemma RowInFlat(rows: seq<Bytes>, i: nat)
    requires i < |rows|
    ensures |Flat(rows[..i])| <= |Flat(rows[..i + 1])| <= |Flat(rows)|
    ensures Flat(rows)[|Flat(rows[..i])|..|Flat(rows[..i + 1])|] == rows[i]
  {
    FlatPrefix(rows, i + 1);
    assert rows[..i + 1][..i] == rows[..i];
    var a, b := |Flat(rows[..i])|, |Flat(rows[..i + 1])|;
    assert Flat(rows)[..b] == Flat(rows[..i]) + rows[i];
    assert Flat(rows)[a..b] == Flat(rows)[..b][a..];
  }

  /** A column: bytes in front of the first row, if there are any, and the rows. */
  datatype Column = Column(kind: int64, elementType: int64, lead: Bytes, rows: seq<Bytes>) {
    ghost function Data(): Bytes { lead + Flat(rows) }

    ghost function DataEnd(): nat { HEADER + |Data()| }

    ghost function TableStart(): nat { Align8(DataEnd()) }

    ghost predicate Fits() { TableStart() + 8 * (|rows| + 1) < 0x1_0000_0000_0000_0000 }

    /** Where row `i` starts, which is where row `i - 1` ends. */
    ghost function Start(i: nat): (r: nat)
      requires i <= |rows|
      ensures r <= DataEnd()
    {
      FlatPrefix(rows, i);
      HEADER + |lead| + |Flat(rows[..i])|
    }

    ghost function Offsets(): (r: seq<uint64>)
      requires Fits()
      ensures |r| == |rows| + 1 && forall i | 0 <= i <= |rows| :: r[i] == Start(i)
    {
      seq(|rows| + 1, i requires 0 <= i <= |rows| => Start(i))
    }

    /** The finalised file. */
    ghost function Format(): (r: Bytes)
      requires Fits()
      ensures |r| == TableStart() + 8 * (|rows| + 1)
    {
      Header(kind, TableStart(), elementType) + Data() + Zeros(TableStart() - DataEnd()) + EncTable(Offsets())
    }
  }

  // ---------- the reader ----------

  datatype Opened = Corrupted | Opened(table: nat, numElements: nat)

  /** The checks of ds_var_field_init. */
  function Open(file: Bytes): (r: Opened)
    ensures r.Opened? ==> HEADER <= |file| && r.table + 8 * (r.numElements + 1) == |file|
  {
    if |file| < HEADER || U64(file, 8) >= |file| then Corrupted
    else
      var table := U64(file, 8);
      var tableSize := |file| - table;
      if tableSize % 8 > 0 || tableSize < 8 then Corrupted
      else
        var n := tableSize / 8 - 1;
        var last := U64(file, table + 8 * n);
        if (last + 7) % 0x1_0000_0000_0000_0000 / 8 * 8 != table then Corrupted
        else if I64(file, 0) != TYPE_VAR && I64(file, 0) != TYPE_ARRAY then Corrupted
        else Opened(table, n)
  }

  /** ds_var_field_get: where row `i` is, and its size. */
  function Get(file: Bytes, field: Opened, i: nat): (r: (nat, nat))
    requires field.Opened? && field == Open(file) && i < field.numElements
  {
    var ofs := U64(file, field.table + 8 * i);
    (ofs, (U64(file, field.table + 8 * (i + 1)) - ofs) % 0x1_0000_0000_0000_0000)
  }

  lemma HeaderFields(kind: int64, table: uint64, elementType: int64, file: Bytes)
    requires HEADER <= |file| && file[..HEADER] == Header(kind, table, elementType)
    ensures I64(file, 0) == kind && U64(file, 8) == table && I64(file, 16) == elementType
  {
    hide U64;
    var h := Header(kind, table, elementType);
    assert file[0..8] == h[0..8] == EncI64(kind)[0..8];
    SameU64(file, 0, EncI64(kind), 0);
    assert file[8..16] == h[8..16] == Enc64(table)[0..8];
    SameU64(file, 8, Enc64(table), 0);
    assert file[16..24] == h[16..24] == EncI64(elementType)[0..8];
    SameU64(file, 16, EncI64(elementType), 0);
  }

  /** The parts of a finalised file. */
  lemma FormatParts(c: Column)
    requires c.Fits()
    ensures var file := c.Format();
            && file[..HEADER] == Header(c.kind, c.TableStart(), c.elementType)
            && file[HEADER..c.DataEnd()] == c.Data()
            && file[c.TableStart()..] == EncTable(c.Offsets())
  {
    hide Header, EncTable, Zeros, Align8, Flat;
    var h, data, pad, table := Header(c.kind, c.TableStart(), c.elementType), c.Data(),
      Zeros(c.TableStart() - c.DataEnd()), EncTable(c.Offsets());
    var file := h + data + pad + table;
    assert c.Format() == file;
    assert file[..|h|] == h && file[|h|..|h| + |data|] == data && file[|h| + |data| + |pad|..] == table;
  }

  lemma FormatTable(c: Column, i: nat)
    requires c.Fits() && i <= |c.rows|
    ensures U64(c.Format(), c.TableStart() + 8 * i) == c.Start(i)
  {
    hide *;
    var file, t, at := c.Format(), c.Offsets(), c.TableStart();
    FormatParts(c);
    TableAt(t, i);
    assert file[at + 8 * i..at + 8 * i + 8] == file[at..][8 * i..8 * i + 8];
    SameU64(file, at + 8 * i, EncTable(t), 8 * i);
  }

  lemma OpensWhen(file: Bytes, table: nat, n: nat, last: nat)
    requires HEADER <= |file| && U64(file, 8) == table && table + 8 * (n + 1) == |file|
    requires U64(file, table + 8 * n) == last && Align8(last) == table && last + 7 < 0x1_0000_0000_0000_0000
    requires I64(file, 0) == TYPE_VAR || I64(file, 0) == TYPE_ARRAY
    ensures Open(file) == Opened(table, n)
  {
    hide U64, I64;
  }

  lemma ColumnEnds(c: Column)
    requires c.Fits()
    ensures c.Start(|c.rows|) == c.DataEnd() && Align8(c.DataEnd()) == c.TableStart()
    ensures HEADER <= c.DataEnd() <= |c.Format()| && c.DataEnd() + 7 < 0x1_0000_0000_0000_0000
  {
    hide Flat, Align8;
    assert c.rows[..|c.rows|] == c.rows;
  }

  /** A finalised file passes the reader's checks. */
  lemma FormatOpens(c: Column)
    requires c.Fits() && (c.kind == TYPE_VAR || c.kind == TYPE_ARRAY)
    ensures Open(c.Format()) == Opened(c.TableStart(), |c.rows|)
  {
    hide *;
    ColumnEnds(c);
    FormatParts(c);
    HeaderFields(c.kind, c.TableStart(), c.elementType, c.Format());
    FormatTable(c, |c.rows|);
    OpensWhen(c.Format(), c.TableStart(), |c.rows|, c.DataEnd());
  }

  lemma StartsRise(c: Column, i: nat)
    requires i < |c.rows|
    ensures HEADER <= c.Start(i) <= c.Start(i + 1) <= c.DataEnd()
    ensures c.Data()[c.Start(i) - HEADER..c.Start(i + 1) - HEADER] == c.rows[i]
  {
    RowInFlat(c.rows, i);
    hide Flat;
    var data, flat := c.Data(), Flat(c.rows);
    assert data[|c.lead|..] == flat;
    var a, b := |Flat(c.rows[..i])|, |Flat(c.rows[..i + 1])|;
    assert data[|c.lead| + a..|c.lead| + b] == flat[a..b];
  }

  /** Reading a row of a finalised file gives back exactly its bytes. */
  lemma FormatReads(c: Column, i: nat)
    requires c.Fits() && (c.kind == TYPE_VAR || c.kind == TYPE_ARRAY) && i < |c.rows|
    ensures Open(c.Format()) == Opened(c.TableStart(), |c.rows|)
    ensures var (ofs, size) := Get(c.Format(), Open(c.Format()), i);
            ofs + size <= |c.Format()| && c.Format()[ofs..ofs + size] == c.rows[i]
  {
    hide *;
    ColumnEnds(c);
    FormatOpens(c);
    GetIs(c, i);
    StartsRise(c, i);
    FormatParts(c);
    Slice(c.Format(), HEADER, c.DataEnd(), c.Start(i), c.Start(i + 1));
  }

  lemma Slice(s: Bytes, lo: nat, hi: nat, a: nat, b: nat)
    requires lo <= a <= b <= hi <= |s|
    ensures s[a..b] == s[lo..hi][a - lo..b - lo]
  {
    forall k | 0 <= k < b - a
      ensures s[a..b][k] == s[lo..hi][a - lo..b - lo][k]
    {
      assert s[lo..hi][a - lo + k] == s[a + k];
    }
  }

  lemma GetIs(c: Column, i: nat)
    requires c.Fits() && i < |c.rows| && Open(c.Format()) == Opened(c.TableStart(), |c.rows|)
    ensures Get(c.Format(), Open(c.Format()), i) == (c.Start(i), c.Start(i + 1) - c.Start(i))
  {
    hide Open, U64, Align8, Flat, EncTable, Header, Zeros;
    StartsRise(c, i);
    FormatTable(c, i);
    FormatTable(c, i + 1);
  }

  /** A file that has not been finalised is refused. */
  lemma UnfinishedIsRefused(kind: int64, elementType: int64, file: Bytes)
    requires 0 <= kind && HEADER <= |file| && file[..HEADER] == Header(-kind, 0xffff_ffff_ffff_ffff, elementType)
    ensures Open(file) == Corrupted
  {
    HeaderFields(-kind, 0xffff_ffff_ffff_ffff, elementType, file);
    hide U64, I64, Header;
  }

  // ---------- the writer ----------

  /** What ds_var_field_writer has put into the file before it is finalised. */
  ghost function Draft(c: Column): (r: Bytes)
    requires 0 <= c.kind
    ensures |r| == c.DataEnd()
  {
    Header(-c.kind, 0xffff_ffff_ffff_ffff, c.elementType) + c.Data()
  }

  /** A new row is empty; what is appended goes to the last row. */
  ghost function WithRow(c: Column): (r: Column)
    ensures r.kind == c.kind
  {
    c.(rows := c.rows + [[]])
  }

  ghost function WithBytes(c: Column, data: Bytes): (r: Column)
    ensures r.kind == c.kind
  {
    if c.rows == [] then c.(lead := c.lead + data)
    else c.(rows := c.rows[..|c.rows| - 1] + [c.rows[|c.rows| - 1] + data])
  }

  lemma RowThenBytes(c: Column, data: Bytes)
    ensures WithBytes(WithRow(c), data) == c.(rows := c.rows + [data])
  {
    assert (c.rows + [[]])[..|c.rows|] == c.rows && [] + data == data;
  }

  /** The offsets recorded so far: the start of every row. */
  ghost predicate Recorded(c: Column, offsets: seq<uint64>)
  {
    |offsets| == |c.rows| && forall i | 0 <= i < |offsets| :: offsets[i] == c.Start(i)
  }

  lemma RowRecorded(c: Column, offsets: seq<uint64>, end: uint64)
    requires 0 <= c.kind && Recorded(c, offsets) && end == c.DataEnd()
    ensures Draft(WithRow(c)) == Draft(c) && Recorded(WithRow(c), offsets + [end])
  {
    var d := WithRow(c);
    assert d.rows[..|c.rows|] == c.rows;
    forall i | 0 <= i <= |c.rows|
      ensures d.Start(i) == if i < |c.rows| then c.Start(i) else c.DataEnd()
    {
      assert d.rows[..i] == c.rows[..i];
      assert c.rows[..|c.rows|] == c.rows;
    }
  }

  lemma BytesRecorded(c: Column, offsets: seq<uint64>, data: Bytes)
    requires 0 <= c.kind && Recorded(c, offsets)
    ensures Draft(WithBytes(c, data)) == Draft(c) + data && Recorded(WithBytes(c, data), offsets)
  {
    var d := WithBytes(c, data);
    if c.rows != [] {
      var n := |c.rows| - 1;
      assert d.rows[..n] == c.rows[..n];
      assert Flat(d.rows) == Flat(c.rows) + data;
      forall i | 0 <= i <= n
        ensures d.Start(i) == c.Start(i)
      {
        assert d.rows[..i] == c.rows[..i];
      }
    }
  }

  /** The finalised file, but for the first two fields of the header. */
  ghost function Complete(c: Column): (r: Bytes)
    requires 0 <= c.kind && c.Fits()
    ensures HEADER <= |r| == |c.Format()|
  {
    Draft(c) + Zeros(c.TableStart() - c.DataEnd()) + EncTable(c.Offsets())
  }

  lemma AllRecorded(c: Column, offsets: seq<uint64>, end: uint64)
    requires c.Fits() && Recorded(c, offsets) && end == c.DataEnd()
    ensures offsets + [end] == c.Offsets()
  {
    ColumnEnds(c);
  }

  lemma Finalise(c: Column)
    requires 0 <= c.kind && c.Fits()
    ensures Complete(c)[..HEADER] == Header(-c.kind, 0xffff_ffff_ffff_ffff, c.elementType)
    ensures EncI64(c.kind) + Enc64(c.TableStart()) + Complete(c)[16..] == c.Format()
  {
    hide EncI64, Enc64, EncTable, Zeros, Align8, Flat;
    var draft := Header(-c.kind, 0xffff_ffff_ffff_ffff, c.elementType);
    var rest := c.Data() + Zeros(c.TableStart() - c.DataEnd()) + EncTable(c.Offsets());
    assert Complete(c) == draft + rest;
    assert (draft + rest)[16..] == EncI64(c.elementType) + rest;
    assert c.Format() == Header(c.kind, c.TableStart(), c.elementType) + rest;
  }

  class VarFieldWriter {
    const data: FileWriter
    var ofsTable: seq<uint64>
    ghost var column: Column

    ghost predicate Valid()
      reads this, data
    {
      && data.Valid() && AtEnd(data.View())
      && 0 <= column.kind
      && data.writeLoc == column.DataEnd()
      && Padded(data.file, Draft(column))
      && Recorded(column, ofsTable)
    }

    /** ds_var_field_writer_init2 */
    constructor (kind: int64, elementType: int64, initialSize: nat)
      requires 0 <= kind
      ensures Valid() && fresh(data) && column == Column(kind, elementType, [], [])
    {
      hide Header;
      ofsTable := [];
      column := Column(kind, elementType, [], []);
      data := new FileWriter(initialSize);
      new;
      var header := Header(-kind, 0xffff_ffff_ffff_ffff, elementType);
      AtEndInside(data.View(), |header|);
      PaddedNothing(data.bufferSize);
      data.Write(header);
      PaddedWrite(Zeros(data.bufferSize), [], data.capacity - data.bufferSize, header);
      assert Draft(column) == [] + header;
    }

    /** ds_var_field_writer_append: more bytes for the last row. */
    method Append(bytes: Bytes)
      requires Valid()
      modifies this, data
      ensures Valid() && column == WithBytes(old(column), bytes)
    {
      hide Column.Data, Column.DataEnd, Draft, WithBytes, Recorded, Padded, Store, Zeros, AtEnd, WriteIsInside,
           Reachable;
      AtEndInside(data.View(), |bytes|);
      ghost var file, contents, capacity := data.file, Draft(column), data.capacity;
      data.Write(bytes);
      PaddedWrite(file, contents, data.capacity - capacity, bytes);
      BytesRecorded(column, ofsTable, bytes);
      column := WithBytes(column, bytes);
    }

    /** ds_var_field_writer_new_row */
    method NewRow()
      requires Valid() && column.DataEnd() < 0x1_0000_0000_0000_0000
      modifies this
      ensures Valid() && column == WithRow(old(column))
    {
      hide Column.Data, Column.DataEnd, Draft, WithRow, Recorded, Padded, AtEnd, Reachable;
      RowRecorded(column, ofsTable, data.writeLoc);
      ofsTable := ofsTable + [data.writeLoc];
      column := WithRow(column);
    }

    /** ds_var_field_writer_write */
    method Write(bytes: Bytes)
      requires Valid() && column.DataEnd() < 0x1_0000_0000_0000_0000
      modifies this, data
      ensures Valid() && column == old(column).(rows := old(column).rows + [bytes])
    {
      hide FileWriter.Valid, WithBytes, WithRow, Draft, Recorded, Padded, AtEnd, Reachable;
      NewRow();
      Append(bytes);
      RowThenBytes(old(column), bytes);
    }

    /** ds_var_field_writer_close */
    method Close() returns (file: Bytes)
      requires Valid() && column.Fits()
      modifies this, data
      ensures file == old(column).Format()
    {
      hide Column.Data, Column.DataEnd, Column.Offsets, Column.Format, Column.Start, Draft, Recorded, Padded, Store,
           AtEnd, WriteIsInside, Reachable, Align8, Header, EncTable, Sought, Zeros, EncI64, Enc64, I64, Complete;
      ghost var c, draft, end := column, Draft(column), data.writeLoc;
      ColumnEnds(c);
      AllRecorded(c, ofsTable, end);
      ofsTable := ofsTable + [data.writeLoc];

      ghost var f, capacity := data.file, data.capacity;
      data.Align();
      PaddedSkip(f, draft, data.capacity - capacity, data.writeLoc - end);
      draft := draft + Zeros(data.writeLoc - end);

      var table := data.writeLoc;
      f, capacity := data.file, data.capacity;
      var bytes := EncTable(ofsTable);
      AtEndInside(data.View(), |bytes|);
      data.Write(bytes);
      PaddedWrite(f, draft, data.capacity - capacity, bytes);
      draft := draft + bytes;
      CompleteIs(c, draft);
      file := Seal(c, table);
    }

    /** The second half of closing: the header is patched in place, and the file is cut to its length. */
    method Seal(ghost c: Column, table: uint64) returns (file: Bytes)
      requires data.Valid() && AtEnd(data.View())
      requires 0 <= c.kind && c.Fits() && table == c.TableStart()
      requires Padded(data.file, Complete(c)) && data.writeLoc == |Complete(c)|
      modifies data
      ensures file == c.Format()
    {
      hide Column.Data, Column.DataEnd, Column.TableStart, Column.Fits, Column.Offsets, Column.Format, Padded, Store,
           AtEnd, Reachable, Header, Sought, Zeros, EncI64, Enc64, I64, Complete;
      Finalise(c);
      SeekAndReturn(data.View());
      var last := data.writeLoc;
      ghost var f := data.file;
      var sought := data.Lseek(0, SeekSet);
      PaddedFront(f, Complete(c), HEADER);
      HeaderFields(-c.kind, 0xffff_ffff_ffff_ffff, c.elementType, data.file);
      var head := EncI64(-I64(data.file, 0)) + Enc64(table);
      data.Poke(head);
      PaddedPatch(f, Complete(c), head);
      sought := data.Lseek(last, SeekSet);
      file := data.Close();
    }
  }

  lemma CompleteIs(c: Column, draft: Bytes)
    requires 0 <= c.kind && c.Fits() && draft == Draft(c) + Zeros(c.TableStart() - c.DataEnd()) + EncTable(c.Offsets())
    ensures draft == Complete(c)
  {
  }

  // ---------- the round trip ----------

  ghost function Joined(rows: seq<seq<Bytes>>): (r: seq<Bytes>)
    ensures |r| == |rows|
  {
    seq(|rows|, i requires 0 <= i < |rows| => Flat(rows[i]))
  }

  lemma FlatOne(parts: seq<Bytes>)
    requires parts != []
    ensures Flat(parts[..1]) == parts[0]
  {
    assert parts[..1][..0] == [];
    assert Flat(parts[..1]) == Flat([]) + parts[0];
  }

  lemma FlatNext(parts: seq<Bytes>, j: nat)
    requires j < |parts|
    ensures Flat(parts[..j + 1]) == Flat(parts[..j]) + parts[j]
  {
    assert parts[..j + 1][..j] == parts[..j];
  }

  lemma PrefixFits(kind: int64, elementType: int64, rows: seq<Bytes>, i: nat)
    requires i <= |rows| && Column(kind, elementType, [], rows).Fits()
    ensures Column(kind, elementType, [], rows[..i]).DataEnd() < 0x1_0000_0000_0000_0000
  {
    FlatPrefix(rows, i);
  }

  /** A row: a write of its first part, and an append for each of the others. */
  method WriteRow(w: VarFieldWriter, parts: seq<Bytes>)
    requires w.Valid() && parts != [] && w.column.DataEnd() < 0x1_0000_0000_0000_0000
    modifies w, w.data
    ensures w.Valid() && w.column == old(w.column).(rows := old(w.column).rows + [Flat(parts)])
  {
    hide Flat, VarFieldWriter.Valid, Column.DataEnd, WithBytes;
    FlatOne(parts);
    w.Write(parts[0]);
    for j := 1 to |parts|
      invariant w.Valid() && w.column == old(w.column).(rows := old(w.column).rows + [Flat(parts[..j])])
    {
      FlatNext(parts, j);
      MoreOfRow(old(w.column), Flat(parts[..j]), parts[j]);
      w.Append(parts[j]);
    }
    assert parts[..|parts|] == parts;
  }

  lemma MoreOfRow(c: Column, row: Bytes, data: Bytes)
    ensures WithBytes(c.(rows := c.rows + [row]), data) == c.(rows := c.rows + [row + data])
  {
    assert (c.rows + [row])[..|c.rows|] == c.rows;
  }

  /** Writing a column and reading it: the file is accepted, with as many rows, and row `i` is
  exactly the bytes written for it. */
  method WriteColumn(kind: int64, elementType: int64, initialSize: nat, rows: seq<seq<Bytes>>) returns (file: Bytes)
    requires kind == TYPE_VAR || kind == TYPE_ARRAY
    requires forall i | 0 <= i < |rows| :: rows[i] != []
    requires Column(kind, elementType, [], Joined(rows)).Fits()
    ensures Open(file).Opened? && Open(file).numElements == |rows|
    ensures forall i | 0 <= i < |rows| :: ReadsAs(file, i, Flat(rows[i]))
  {
    hide VarFieldWriter.Valid, Column.DataEnd, Column.Fits, Column.Format, Open, ReadsAs, Flat;
    var w := new VarFieldWriter(kind, elementType, initialSize);
    ghost var all := Joined(rows);
    for i := 0 to |rows|
      invariant w.Valid() && fresh(w) && fresh(w.data) && w.column == Column(kind, elementType, [], all[..i])
    {
      PrefixFits(kind, elementType, all, i);
      WriteRow(w, rows[i]);
      assert all[..i] + [Flat(rows[i])] == all[..i + 1];
    }
    assert all[..|rows|] == all;
    ghost var c := w.column;
    FormatOpens(c);
    forall i | 0 <= i < |rows|
      ensures ReadsAs(c.Format(), i, Flat(rows[i]))
    {
      FormatReadsAs(c, i);
    }
    file := w.Close();
  }

  ghost predicate ReadsAs(file: Bytes, i: nat, row: Bytes)
    requires Open(file).Opened? && i < Open(file).numElements
  {
    var (ofs, size) := Get(file, Open(file), i);
    ofs + size <= |file| && file[ofs..ofs + size] == row
  }

  lemma FormatReadsAs(c: Column, i: nat)
    requires c.Fits() && (c.kind == TYPE_VAR || c.kind == TYPE_ARRAY) && i < |c.rows|
    ensures Open(c.Format()) == Opened(c.TableStart(), |c.rows|) && ReadsAs(c.Format(), i, c.rows[i])
  {
    FormatReads(c, i);
    hide Open, Get, Column.Format;
  }
}

/** Random access to the records of an indexed smiles file
    (descriptastorus/MolFileIndex.py, class `MolFileIndex` and
    `MakeSmilesIndex`). The object's fields are assigned once, by the
    constructor, and never change afterwards, so the index is a value built by
    `Open`; the file's contents and the offset store's rows are values too. */
module MolFileReader {
  import opened ByteSearch
  import opened OffsetTable
  import Scanner

  /** The exceptions the source raises. */
  datatype Error =
    | RowOutOfRange     // the offset store has no such row
    | NameNotFound      // ValueError from `index` on the column names
    | ColumnPastRow     // IndexError: a column beyond the sampled row's fields
    | NoHeader          // ValueError from `header()` without a header
    | AttributeUnset    // AttributeError: an attribute the constructor never set
    | FieldOutOfRange   // IndexError from indexing into a record

  datatype Result<T> = Ok(value: T) | Err(error: Error) {
    predicate IsFailure() { Err? }
    function PropagateFailure<U>(): Result<U> requires Err? { Err(error) }
    function Extract(): T requires Ok? { value }
  }

  /** What `_get` returns: the line itself when no separator is set, its
      fields when one is. */
  datatype Record = Line(text: Bytes) | Fields(fields: seq<Bytes>)

  /** Python's `len` of a record. */
  function Size(r: Record): nat
  {
    match r
    case Line(t) => |t|
    case Fields(fs) => |fs|
  }

  /** A column given either as a number or as a string, which may itself spell
      a number; `Num(-1)` is the source's "no such column". */
  datatype Selector = Num(n: int) | Text(name: Bytes)

  /** What reading a row depends on: the file, the rows of the offset store,
      whether line 0 is a header, and the separator (empty for `None`). */
  datatype Source = Source(file: Bytes, db: seq<nat>, hasHeader: bool, sep: Bytes)

  /** The fields of an opened `MolFileIndex`. An unassigned attribute is `None`. */
  datatype MolFileIndex = MolFileIndex(
    src: Source,
    n: int,
    colnames: Record,
    smilesColIdx: Option<int>,
    nameIdx: Option<int>)

  /** `f.seek(start); f.read(n)`: a negative count reads to the end of file. */
  function Read(file: Bytes, start: nat, n: int): Bytes
  {
    if start >= |file| then []
    else if n < 0 || start + n > |file| then file[start..]
    else file[start..start + n]
  }

  /** A line as `_get` hands it back: split on the separator when one is set. */
  function Shape(sep: Bytes, line: Bytes): Record
  {
    if |sep| > 0 then Fields(Split(line, sep)) else Line(line)
  }

  /** The span of physical row `k`: from its offset up to one byte before the
      next row's offset, the terminator being dropped. */
  function ReadRow(src: Source, k: int): Result<Record>
  {
    if 0 <= k && k + 1 < |src.db| then
      var start: nat, end: int := src.db[k], src.db[k + 1];
      Ok(Shape(src.sep, Read(src.file, start, end - start - 1)))
    else
      Err(RowOutOfRange)
  }

  /** `_get(idx)`: `None` reads row 0 (the header); otherwise a header moves
      every index down one row. */
  function RawGet(src: Source, idx: Option<int>): Result<Record>
  {
    match idx
    case None => ReadRow(src, 0)
    case Some(i) => ReadRow(src, if src.hasHeader then i + 1 else i)
  }

  /** `get(idx)`, as written: it adds one for a header and `_get` adds one
      again. */
  function Get(src: Source, i: int): Result<Record>
  {
    RawGet(src, Some(if src.hasHeader then i + 1 else i))
  }

  /** `get(idx)` with the header counted once: the data record `i`. */
  function GetRecord(src: Source, i: int): Result<Record>
  {
    RawGet(src, Some(i))
  }

  /** `header()`. */
  function Header(src: Source): (r: Result<Record>)
    ensures !src.hasHeader ==> r == Err(NoHeader)
    ensures src.hasHeader ==> r == ReadRow(src, 0)
    ensures src.hasHeader ==> (r.Ok? <==> 1 < |src.db|)
    ensures src.hasHeader && |src.db| <= 1 ==> r == Err(RowOutOfRange)
  {
    if src.hasHeader then RawGet(src, None) else Err(NoHeader)
  }

  /** The record count as the constructor computes it. */
  function CountAsWritten(src: Source): int
  {
    if src.hasHeader then |src.db| - 3 else |src.db| - 2
  }

  /** The number of data records: every row of the store but the end
      sentinel, less the header row. */
  function RecordCount(src: Source): int
  {
    |src.db| - 1 - if src.hasHeader then 1 else 0
  }

  /** The store holds the offsets `MakeSmilesIndex` writes for `file`: one
      row per line plus one, the rows up to the last newline written, and the
      row after them left as the store was created. */
  ghost predicate Built(src: Source)
  {
    |src.db| == LineCount(src.file) + 1 &&
    |SmilesOffsets(src.file)| <= |src.db| &&
    src.db[..|SmilesOffsets(src.file)|] == SmilesOffsets(src.file)
  }

  /** The line the last row of the store delimits is readable: either the
      file ends with a newline, or the unwritten last row of the store is
      zero (the store being zero-filled at creation). */
  ghost predicate LastLineReadable(src: Source)
  {
    |src.db| > 0 &&
    (src.file == [] || src.file[|src.file| - 1] == Newline || src.db[|src.db| - 1] == 0)
  }

  /** Reading physical row `k` of a built store gives line `k` of the file
      without its newline, split on the separator when one is set. */
  lemma ReadRowIsLine(src: Source, k: nat)
    requires Built(src)
    requires k < |NewlineOffsets(src.file)|
    ensures k < |Lines(src.file)|
    ensures ReadRow(src, k) == Ok(Shape(src.sep, Lines(src.file)[k]))
  {
    LineBetweenOffsets(src.file, k);
    var o := SmilesOffsets(src.file);
    assert src.db[k] == o[k] && src.db[k + 1] == o[k + 1];
  }

  /** The row before the sentinel delimits the last line of a file without a
      final newline, provided the sentinel row reads as zero. */
  lemma ReadRowIsTail(src: Source)
    requires Built(src)
    requires src.file != [] && src.file[|src.file| - 1] != Newline
    requires src.db[|src.db| - 1] == 0
    ensures |Lines(src.file)| == |NewlineOffsets(src.file)| + 1
    ensures ReadRow(src, |NewlineOffsets(src.file)|) ==
      Ok(Shape(src.sep, Lines(src.file)[|NewlineOffsets(src.file)|]))
  {
    var k := |NewlineOffsets(src.file)|;
    LineBetweenOffsets(src.file, k);
    var o := SmilesOffsets(src.file);
    assert src.db[k] == o[k];
    TailStartsInFile(src.file);
  }

  /** Line `k` of the file is physical row `k` of a built store, for every row
      the store delimits; past the sentinel there is no row. */
  lemma RowsAreLines(src: Source, k: int)
    requires Built(src) && LastLineReadable(src)
    requires 0 <= k
    ensures ReadRow(src, k).Ok? <==> k < |src.db| - 1
    ensures k < |src.db| - 1 ==> k < |Lines(src.file)| && ReadRow(src, k) == Ok(Shape(src.sep, Lines(src.file)[k]))
  {
    if k < |src.db| - 1 {
      if k < |NewlineOffsets(src.file)| {
        ReadRowIsLine(src, k);
      } else {
        assert k == |NewlineOffsets(src.file)|;
        ReadRowIsTail(src);
      }
    }
  }

  /** On a built store with a header, `header()` returns line 0 of the
      file, split on the separator when one is set. */
  lemma HeaderIsFirstLine(src: Source)
    requires Built(src) && LastLineReadable(src)
    requires src.hasHeader && |src.db| >= 2
    ensures 0 < |Lines(src.file)| && Header(src) == Ok(Shape(src.sep, Lines(src.file)[0]))
  {
    RowsAreLines(src, 0);
  }

  /** As written, `get(i)` with a header reads physical row i+2: data record
      i+1. The first data record (line 1) is returned by no `get(i)` with
      i >= 0, while `_get(0)` returns it. */
  lemma GetSkipsFirstRecord(src: Source)
    requires Built(src) && LastLineReadable(src) && src.hasHeader
    requires |src.db| > 3
    ensures forall i :: 0 <= i ==> Get(src, i) == ReadRow(src, i + 2)
    ensures 2 < |Lines(src.file)|
    ensures Get(src, 0) == Ok(Shape(src.sep, Lines(src.file)[2]))
    ensures GetRecord(src, 0) == Ok(Shape(src.sep, Lines(src.file)[1]))
    ensures Get(src, 0) == GetRecord(src, 0) ==> Lines(src.file)[1] == Lines(src.file)[2]
  {
    RowsAreLines(src, 1);
    RowsAreLines(src, 2);
    if Get(src, 0) == GetRecord(src, 0) {
      ShapeInjective(src.sep, Lines(src.file)[1], Lines(src.file)[2]);
    }
  }

  /** Distinct lines give distinct records. */
  lemma ShapeInjective(sep: Bytes, a: Bytes, b: Bytes)
    requires Shape(sep, a) == Shape(sep, b)
    ensures a == b
  {
    if |sep| > 0 {
      JoinSplit(a, sep);
      JoinSplit(b, sep);
    }
  }

  /** `_get(i)` reads data record i: line i of the file, or line i+1 when
      line 0 is the header. It succeeds for exactly the indices below
      `RecordCount`. */
  lemma GetRecordReadsDataRecord(src: Source, i: int)
    requires Built(src) && LastLineReadable(src)
    requires 0 <= i
    ensures GetRecord(src, i).Ok? <==> i < RecordCount(src)
    ensures i < RecordCount(src) ==>
      var k := if src.hasHeader then i + 1 else i;
      k < |Lines(src.file)| && GetRecord(src, i) == Ok(Shape(src.sep, Lines(src.file)[k]))
  {
    RowsAreLines(src, if src.hasHeader then i + 1 else i);
  }

  /** As written, the constructor's count is one less than the number of data
      records: for a file ending with a newline, the record at index `n`
      (the file's last line) is readable but lies outside `[0, n)`. */
  lemma CountAsWrittenMissesLastRecord(src: Source)
    requires Built(src) && src.file != [] && src.file[|src.file| - 1] == Newline
    requires CountAsWritten(src) >= 0
    ensures CountAsWritten(src) == RecordCount(src) - 1
    ensures |Lines(src.file)| == |src.db|
    ensures GetRecord(src, CountAsWritten(src)) == Ok(Shape(src.sep, Lines(src.file)[|src.db| - 2]))
  {
    var k := |src.db| - 2;
    LineBetweenOffsets(src.file, 0);
    RowsAreLines(src, k);
  }

  /** The three-line file `a,1\nbb,2\ncc,3\n` split on `,`, with its store
      rows `0, 4, 9, 14`. */
  const Sample: Bytes := [97, 44, 49, 10, 98, 98, 44, 50, 10, 99, 99, 44, 51, 10]
  const SampleRows: seq<nat> := [0, 4, 9, 14]

  /** `MakeSmilesIndex` writes `SampleRows` for the sample: it has three
      lines, and its rows are 0 and one past each of its three newlines. */
  lemma SampleOffsets()
    ensures NewlineOffsets(Sample) == [3, 8, 13]
    ensures SmilesOffsets(Sample) == SampleRows && LineCount(Sample) == 3
  {
    SampleNewlines(Sample);
    assert Shift([3, 8, 13], 1) == [4, 9, 14];
  }

  /** The newlines of `a,1\nbb,2\ncc,3\n`. */
  lemma SampleNewlines(s: Bytes)
    requires s == [97, 44, 49, 10, 98, 98, 44, 50, 10, 99, 99, 44, 51, 10]
    ensures NewlineOffsets(s) == [3, 8, 13]
  {
    var s1: Bytes := s[4..];
    FirstNewline(s, 3);
    NewlinesAfterFirstLine(s, 3);
    SampleTailOffsets(s1);
    assert Shift([4, 9], 4) == [8, 13];
  }

  /** The newlines of `bb,2\ncc,3\n`, the sample after its first line. */
  lemma SampleTailOffsets(s1: Bytes)
    requires s1 == [98, 98, 44, 50, 10, 99, 99, 44, 51, 10]
    ensures NewlineOffsets(s1) == [4, 9]
  {
    var s2: Bytes := s1[5..];
    FirstNewline(s1, 4);
    NewlinesAfterFirstLine(s1, 4);
    SampleLastOffsets(s2);
  }

  /** The newline of `cc,3\n`, the sample's last line. */
  lemma SampleLastOffsets(s2: Bytes)
    requires s2 == [99, 99, 44, 51, 10]
    ensures NewlineOffsets(s2) == [4]
  {
    FirstNewline(s2, 4);
    NewlinesAfterFirstLine(s2, 4);
    assert s2[5..] == [];
  }

  /** `i` is the first newline of `s`, in terms of `MatchAt`. */
  lemma FirstNewline(s: Bytes, i: nat)
    requires i < |s| && s[i] == Newline && forall p :: 0 <= p < i ==> s[p] != Newline
    ensures MatchAt(s, [Newline], i) && forall p: nat :: p < i ==> !MatchAt(s, [Newline], p)
  {
    assert s[i..i + 1] == [Newline];
    forall p: nat | p < i
      ensures !MatchAt(s, [Newline], p)
    {
      assert s[p..p + 1][0] == s[p];
    }
  }

  /** `cc,3` and `bb,2` split on `,`. */
  lemma SplitSampleLines()
    ensures Split([99, 99, 44, 51], [44]) == [[99, 99], [51]]
    ensures Split([98, 98, 44, 50], [44]) == [[98, 98], [50]]
  {
    forall a: bv8, b: bv8, c: bv8 | a != 44 && b != 44 && c != 44
      ensures Split([a, b, 44, c], [44]) == [[a, b], [c]]
    {
      var s: Bytes := [a, b, 44, c];
      assert s[0..1] == [a] && s[1..2] == [b] && s[2..3] == [44];
      assert Find(s, [44], 1) == 2;
      assert Find(s, [44], 0) == 2;
      assert s[3..] == [c];
      assert !MatchAt([c], [44], 0);
      assert Find([c], [44], 1) == -1;
      assert Find([c], [44], 0) == -1;
      assert s[..2] == [a, b];
    }
  }

  /** The bytes of the sample's second and third lines, without terminators. */
  lemma SampleLines()
    ensures Read(Sample, 4, 4) == [98, 98, 44, 50]
    ensures Read(Sample, 9, 4) == [99, 99, 44, 51]
  {
  }

  /** Without a header the sample holds three records, but the count as
      written is 2 while record 2, `cc,3`, is readable. */
  lemma SampleCount()
    ensures CountAsWritten(Source(Sample, SampleRows, false, [44])) == 2
    ensures RecordCount(Source(Sample, SampleRows, false, [44])) == 3
    ensures GetRecord(Source(Sample, SampleRows, false, [44]), 2) == Ok(Fields([[99, 99], [51]]))
  {
    SampleLines();
    SplitSampleLines();
  }

  /** With a header (`a,1`) the sample holds the records `bb,2` and `cc,3`:
      `get(0)` returns `cc,3`, and `get(1)` runs past the store. */
  lemma SampleGet()
    ensures Get(Source(Sample, SampleRows, true, [44]), 0) == Ok(Fields([[99, 99], [51]]))
    ensures GetRecord(Source(Sample, SampleRows, true, [44]), 0) == Ok(Fields([[98, 98], [50]]))
    ensures Get(Source(Sample, SampleRows, true, [44]), 1) == Err(RowOutOfRange)
  {
    SampleLines();
    SplitSampleLines();
  }

  /** `"column_"`, the prefix of the names given to the columns of a file
      without a header. */
  const ColumnPrefix: Bytes := [99, 111, 108, 117, 109, 110, 95]

  /** `["column_%d" % x for x in range(count)]`. */
  function GeneratedNames(count: nat): (names: seq<Bytes>)
    ensures |names| == count
  {
    seq(count, x requires 0 <= x => ColumnPrefix + ShowNat(x))
  }

  /** Python's `list.index`: the first position holding `name`, or -1 where
      Python raises. */
  function FirstIndex(names: seq<Bytes>, name: Bytes): (r: int)
    ensures -1 <= r < |names|
    ensures r == -1 <==> name !in names
    ensures r >= 0 ==> names[r] == name && forall j :: 0 <= j < r ==> names[j] != name
  {
    if names == [] then -1
    else if names[0] == name then 0
    else
      var r := FirstIndex(names[1..], name);
      if r == -1 then -1 else r + 1
  }

  /** `colnames.index(name)`: on a list of names, the position of the first
      equal one; on a header line left unsplit, `str.index`, the position of
      the first occurrence of `name` as a substring. Both raise ValueError
      when there is none. */
  function IndexOfName(colnames: Record, name: Bytes): (r: Result<int>)
    ensures r.Ok? ==> 0 <= r.value
    ensures colnames.Fields? ==> (r.Ok? <==> name in colnames.fields)
    ensures colnames.Fields? && r.Ok? ==>
      r.value < |colnames.fields| && colnames.fields[r.value] == name &&
      forall j :: 0 <= j < r.value ==> colnames.fields[j] != name
    ensures colnames.Line? ==> (r.Ok? <==> exists p: nat :: MatchAt(colnames.text, name, p))
    ensures colnames.Line? && r.Ok? ==>
      MatchAt(colnames.text, name, r.value) && forall p: nat :: p < r.value ==> !MatchAt(colnames.text, name, p)
    ensures r.Err? ==> r.error == NameNotFound
  {
    match colnames
    case Fields(fs) =>
      var k := FirstIndex(fs, name);
      if k == -1 then Err(NameNotFound) else Ok(k)
    case Line(t) =>
      var k := Find(t, name, 0);
      if k == -1 then Err(NameNotFound) else Ok(k)
  }

  /** `int(column)`, falling back to looking the column up by name. */
  function ColumnIndex(sel: Selector, colnames: Record): Result<int>
  {
    match sel
    case Num(n) => Ok(n)
    case Text(t) =>
      match ParseInt(t)
      case Some(n) => Ok(n)
      case None => IndexOfName(colnames, t)
  }

  /** The constructor's handling of one column selector against the column
      names and the sampled row: `Num(-1)` leaves the attribute unset,
      anything else resolves to an index that must lie below the row's field
      count (a negative index passes the check), else `tooBig` is raised. */
  function Resolve(sel: Selector, colnames: Record, row: Record, tooBig: Error): (r: Result<Option<int>>)
    ensures r == Ok(None) <==> sel == Num(-1)
    ensures r.Ok? && r.value.Some? ==> r.value.value < Size(row) && ColumnIndex(sel, colnames) == Ok(r.value.value)
    ensures sel != Num(-1) && ColumnIndex(sel, colnames).Err? ==> r == Err(ColumnIndex(sel, colnames).error)
    ensures sel != Num(-1) && ColumnIndex(sel, colnames).Ok? && ColumnIndex(sel, colnames).value >= Size(row) ==>
      r == Err(tooBig)
    ensures sel != Num(-1) && ColumnIndex(sel, colnames).Ok? && ColumnIndex(sel, colnames).value < Size(row) ==>
      r == Ok(Some(ColumnIndex(sel, colnames).value))
  {
    if sel == Num(-1) then Ok(None)
    else
      var idx :- ColumnIndex(sel, colnames);
      if Size(row) <= idx then Err(tooBig) else Ok(Some(idx))
  }

  /** Appending the same prefix keeps distinct names distinct. */
  lemma PrefixCancel(p: Bytes, a: Bytes, b: Bytes)
    requires p + a == p + b
    ensures a == b
  {
    assert a == (p + a)[|p|..];
    assert b == (p + b)[|p|..];
  }

  /** On a file without a header, naming a column `column_x` selects column
      `x`: the name is not read as a number, and the generated names are
      distinct. */
  lemma GeneratedNameResolves(count: nat, x: nat, row: Record, tooBig: Error)
    requires x < count && x < Size(row)
    ensures Resolve(Text(ColumnPrefix + ShowNat(x)), Fields(GeneratedNames(count)), row, tooBig) == Ok(Some(x))
  {
    var names := GeneratedNames(count);
    var name := ColumnPrefix + ShowNat(x);
    assert names[x] == name;
    assert ParseInt(name) == None by {
      assert name[0] == 99;
    }
    var k := FirstIndex(names, name);
    assert name in names;
    PrefixCancel(ColumnPrefix, ShowNat(k), ShowNat(x));
    ShowNatInjective(k, x);
  }

  /** The column names: the header line, or `column_0 ...` over the fields
      of row 0 when there is no header. */
  function ColumnNames(src: Source): Result<Record>
  {
    if src.hasHeader then RawGet(src, None)
    else
      var first :- RawGet(src, Some(0));
      Ok(Fields(GeneratedNames(Size(first))))
  }

  /** The row the constructor checks the columns against: `_get(1)` with a
      header (physical row 2, the second data record), `_get(0)` without. So
      a file with a header opens only when it has two data records. */
  function SampledRow(src: Source): Result<Record>
  {
    RawGet(src, Some(if src.hasHeader then 1 else 0))
  }

  /** A selector the constructor accepts: -1, or a column it resolves to an
      index below the sampled row's field count. */
  predicate Fits(sel: Selector, colnames: Record, row: Record)
  {
    sel == Num(-1) || (ColumnIndex(sel, colnames).Ok? && ColumnIndex(sel, colnames).value < Size(row))
  }

  /** The exception for a selector the constructor rejects: the lookup's own
      when the name is not found, `tooBig` when the index is past the row. */
  function ColumnError(sel: Selector, colnames: Record, tooBig: Error): Error
  {
    match ColumnIndex(sel, colnames)
    case Err(e) => e
    case Ok(_) => tooBig
  }

  /** `MolFileIndex(filename, indexDirectory, smilesColumn, nameColumn,
      hasHeader, sep)`, the file and the store's rows given as values. The
      count is `RecordCount`. When the name column is too wide and no smiles
      column was set, building the error message reads the unset smiles
      attribute, so AttributeError is raised instead of IndexError. */
  function Open(file: Bytes, db: seq<nat>, smilesColumn: Selector, nameColumn: Selector,
                hasHeader: bool, sep: Bytes): (r: Result<MolFileIndex>)
    ensures r.Ok? ==> r.value.src == Source(file, db, hasHeader, sep)
    ensures r.Ok? ==> r.value.n == RecordCount(r.value.src)
    ensures r.Ok? ==> ColumnNames(r.value.src) == Ok(r.value.colnames) && SampledRow(r.value.src).Ok?
    ensures r.Ok? ==> (r.value.smilesColIdx == None <==> smilesColumn == Num(-1))
    ensures r.Ok? ==> (r.value.nameIdx == None <==> nameColumn == Num(-1))
    ensures r.Ok? && r.value.smilesColIdx.Some? ==>
      r.value.smilesColIdx.value < Size(SampledRow(r.value.src).value) &&
      ColumnIndex(smilesColumn, r.value.colnames) == Ok(r.value.smilesColIdx.value)
    ensures r.Ok? && r.value.nameIdx.Some? ==>
      r.value.nameIdx.value < Size(SampledRow(r.value.src).value) &&
      ColumnIndex(nameColumn, r.value.colnames) == Ok(r.value.nameIdx.value)
    ensures |db| < (if hasHeader then 4 else 2) ==> r == Err(RowOutOfRange)
    ensures var src := Source(file, db, hasHeader, sep);
      |db| >= (if hasHeader then 4 else 2) ==>
        ColumnNames(src).Ok? && SampledRow(src).Ok? &&
        var colnames, row := ColumnNames(src).value, SampledRow(src).value;
        (r.Ok? <==> Fits(smilesColumn, colnames, row) && Fits(nameColumn, colnames, row)) &&
        (!Fits(smilesColumn, colnames, row) ==> r == Err(ColumnError(smilesColumn, colnames, ColumnPastRow))) &&
        (Fits(smilesColumn, colnames, row) && !Fits(nameColumn, colnames, row) ==>
          r == Err(ColumnError(nameColumn, colnames, if smilesColumn == Num(-1) then AttributeUnset else ColumnPastRow)))
  {
    var src := Source(file, db, hasHeader, sep);
    var colnames :- ColumnNames(src);
    var row :- SampledRow(src);
    var smilesIdx :- Resolve(smilesColumn, colnames, row, ColumnPastRow);
    var nameIdx :- Resolve(nameColumn, colnames, row, if smilesIdx.None? then AttributeUnset else ColumnPastRow);
    Ok(MolFileIndex(src, RecordCount(src), colnames, smilesIdx, nameIdx))
  }

  /** Python's `record[k]`: a field of a split record, a one-character string
      of an unsplit one; negative indices count from the end. */
  function Item(rec: Record, k: int): Result<Record>
  {
    var j := if k < 0 then k + Size(rec) else k;
    if 0 <= j < Size(rec) then
      match rec
      case Line(t) => Ok(Line([t[j]]))
      case Fields(fs) => Ok(Line(fs[j]))
    else Err(FieldOutOfRange)
  }

  /** `getMol(idx)`: the smiles field of record `idx` (read with `_get`), the
      whole record when the smiles column is -1, AttributeError when the
      constructor never set it. */
  function GetMol(m: MolFileIndex, idx: int): Result<Record>
  {
    match m.smilesColIdx
    case None => Err(AttributeUnset)
    case Some(k) =>
      if k == -1 then RawGet(m.src, Some(idx))
      else
        var rec :- RawGet(m.src, Some(idx));
        Item(rec, k)
  }

  /** `getName(idx)`: the name field of record `idx`. Without a name column
      the source reads attributes the constructor never assigns (`nameidx`,
      `_nameGetter`), so both of those paths raise AttributeError. */
  function GetName(m: MolFileIndex, idx: int): Result<Record>
  {
    match m.nameIdx
    case None => Err(AttributeUnset)
    case Some(k) =>
      if k == -1 then Err(AttributeUnset)
      else
        var rec :- RawGet(m.src, Some(idx));
        Item(rec, k)
  }

  /** On a built store, `getMol(i)` for a data record is the whole record
      when the smiles column is -1, and otherwise field `smilesColIdx` of
      that record's line (a character without a separator, counted from the
      end when negative); past the last record it raises, and without a
      smiles column it raises AttributeError. */
  lemma GetMolIsField(m: MolFileIndex, i: int)
    requires Built(m.src) && LastLineReadable(m.src)
    requires 0 <= i
    ensures m.smilesColIdx.None? ==> GetMol(m, i) == Err(AttributeUnset)
    ensures m.smilesColIdx.Some? && RecordCount(m.src) <= i ==> GetMol(m, i) == Err(RowOutOfRange)
    ensures m.smilesColIdx.Some? && i < RecordCount(m.src) ==>
      var k := if m.src.hasHeader then i + 1 else i;
      k < |Lines(m.src.file)| &&
      var line, c := Lines(m.src.file)[k], m.smilesColIdx.value;
      GetMol(m, i) == if c == -1 then Ok(Shape(m.src.sep, line)) else Item(Shape(m.src.sep, line), c)
  {
    if m.smilesColIdx.Some? {
      GetRecordReadsDataRecord(m.src, i);
    }
  }

  /** The same for `getName(i)` and the name column, except that a name
      column of -1 raises AttributeError for every record: the name getter it
      falls back to is never assigned. */
  lemma GetNameIsField(m: MolFileIndex, i: int)
    requires Built(m.src) && LastLineReadable(m.src)
    requires 0 <= i
    ensures m.nameIdx.None? || m.nameIdx == Some(-1) ==> GetName(m, i) == Err(AttributeUnset)
    ensures m.nameIdx.Some? && m.nameIdx.value != -1 && RecordCount(m.src) <= i ==>
      GetName(m, i) == Err(RowOutOfRange)
    ensures m.nameIdx.Some? && m.nameIdx.value != -1 && i < RecordCount(m.src) ==>
      var k := if m.src.hasHeader then i + 1 else i;
      k < |Lines(m.src.file)| &&
      GetName(m, i) == Item(Shape(m.src.sep, Lines(m.src.file)[k]), m.nameIdx.value)
  {
    if m.nameIdx.Some? && m.nameIdx.value != -1 {
      GetRecordReadsDataRecord(m.src, i);
    }
  }

  /** `MakeSmilesIndex`: choose the width from the line count, write row 0 as
      0 and row i+1 as one past the i-th newline found by the scanner, then
      open the index. `store` is the store `raw.MakeStore` created with one
      row per line plus one; the row after the last newline's is not written. */
  method MakeSmilesIndex(file: Bytes, store: array<nat>, hasHeader: bool,
                         smilesColumn: Selector, nameColumn: Selector, sep: Bytes)
    returns (width: Width, r: Result<MolFileIndex>)
    requires store.Length == LineCount(file) + 1
    modifies store
    ensures width == WidthFor(LineCount(file))
    ensures Built(Source(file, store[..], hasHeader, sep))
    ensures store[|SmilesOffsets(file)|..] == old(store[|SmilesOffsets(file)|..])
    ensures r == Open(file, store[..], smilesColumn, nameColumn, hasHeader, sep)
  {
    width := WidthFor(LineCount(file));
    WriteOffsets(file, store);
    r := Open(file, store[..], smilesColumn, nameColumn, hasHeader, sep);
  }

  /** The rows `MakeSmilesIndex` writes: row 0 is 0 and row i+1 is one past
      the i-th newline the scanner finds; the rows after those keep their
      contents. */
  method WriteOffsets(file: Bytes, store: array<nat>)
    requires store.Length == LineCount(file) + 1
    modifies store
    ensures |SmilesOffsets(file)| <= store.Length
    ensures store[..|SmilesOffsets(file)|] == SmilesOffsets(file)
    ensures store[|SmilesOffsets(file)|..] == old(store[|SmilesOffsets(file)|..])
  {
    store[0] := 0;
    var offsets := Scanner.Index(file, [Newline], Scanner.BlockSize);
    var i := 0;
    while i < |offsets|
      invariant i <= |offsets| == |NewlineOffsets(file)|
      invariant store[0] == 0
      invariant forall k :: 0 <= k < i ==> store[k + 1] == offsets[k] + 1
      invariant forall k :: i + 1 <= k < store.Length ==> store[k] == old(store[k])
    {
      store[i + 1] := offsets[i] + 1;
      i := i + 1;
    }
    assert store[..|SmilesOffsets(file)|] == SmilesOffsets(file);
  }
}

# descriptastorus smiles index and batch driver, in Dafny

This project models two parts of descriptastorus.

The first is the random-access index over a smiles file
(`descriptastorus/MolFileIndex.py`). `index` scans the file in 64 KiB blocks.
Before each block after the first it seeks back `len(word) - 1` bytes. It
reports the start of every occurrence of the terminator. `MakeSmilesIndex`
works in three steps:

- it picks the narrowest unsigned integer width that can hold the line count;
- it writes the store rows: row 0 is 0 and row i+1 is one past the i-th
  newline;
- it opens a `MolFileIndex`.

The `MolFileIndex` constructor resolves the smiles and name columns, by number
or by header name. `_get`, `get`, `header`, `getMol` and `getName` then read
single records through the stored offsets.

The second part is the driver loop of `scripts/storus.py`. It cuts the records
`[0, N)` into batches of at most 10000, one batch per CPU in each round. It
filters each batch through `process` and writes every kept record with one
`putRow`.

Modules:

- `ByteSearch` (`byte_search.dfy`) holds the byte-string primitives:
  - `bytes.find`;
  - the list of every occurrence of a pattern;
  - `split` and its inverse, `Join`;
  - `int()` and `"%d"`.
- `Scanner` (`scanner.dfy`) models the `index` generator as a method. The
  method keeps the file position and a buffer. Its inner `find` loop is a
  method of its own, `ScanBlock`.
- `OffsetTable` (`offset_table.dfy`) holds the width rule, the line count and
  the offsets `MakeSmilesIndex` stores. It also relates each stored row to a
  line of the file, using `Lines`, the file split on `\n`, as an independent
  reference.
- `MolFileReader` (`mol_file_reader.dfy`) covers the reader.
  - The constructor assigns the object's fields once and nothing changes them
    later, so an opened index is a value returned by `Open`.
  - `MakeSmilesIndex` fills an `array` in place.
- `Storus` (`storus.dfy`) models `process` and the batch loop as methods. The
  descriptor calculator and the molecule reader are parameters of those
  methods. The script's loops all share one module-level variable `i`. The
  result loop `for i,v in result` rebinds it, and the next round's
  `count = i+1` reads it. After the round that reaches `N`, `count` therefore
  moves back to one past the last record written. With two or more CPUs the
  records from there to `N` are dispatched again. All of them have empty
  descriptor vectors, so the rows written are unchanged. `Run` models the loop
  as written and `RunOnce` the loop with a result variable of its own.

The store has one row per line plus one, yet the constructor sets the record
count to `db.N - 2` (`db.N - 3` with a header). On a newline-terminated file
that is one less than the number of records. The batch loop in
`scripts/storus.py` runs up to `sm.N`, so it never dispatches the last record.
`CountAsWritten` models the count as written, and Findings records the
discrepancy. `Open` uses the corrected count, `RecordCount`.

The constructor checks both columns against `_get(1)` when the file has a
header. Because `_get` shifts by one again, that is the second data record.
A file with a header therefore opens only when it holds at least two data
records. `Open`'s contract states this as written. This is the same double
shift as in `get`, but it is not listed under Findings. The sampled row only
bounds the column indices. The effects are that the columns are checked
against the second data record rather than the first, and that a header file
with a single data record cannot be opened. The model keeps the constructor as
written (`SampledRow`).

## Model

| member | source | states |
|---|---|---|
| ByteSearch.Find | descriptastorus/MolFileIndex.py:148 | `bytes.find`: the result is -1 or a position at or after `from` where the word occurs, and no occurrence lies between `from` and it (none at all when it is -1) |
| ByteSearch.OccExact | descriptastorus/MolFileIndex.py:149-151 | the reference list of occurrences holds exactly the positions in range where the word occurs, each once, in strictly increasing order |
| ByteSearch.JoinSplit | descriptastorus/MolFileIndex.py:97 | splitting a line on the separator and joining the pieces back gives the line again |
| ByteSearch.SplitPiecesFree | descriptastorus/MolFileIndex.py:97 | no field produced by `split` contains the separator |
| ByteSearch.SplitFirstPiece | descriptastorus/MolFileIndex.py:97 | `split` is the leftmost split: the first field is the line up to the first occurrence of the separator (the whole line when there is none), and the remaining fields are the split of what follows that occurrence |
| ByteSearch.ParseShowNat | descriptastorus/MolFileIndex.py:56 | `int()` reads back what `"%d"` writes for every natural number |
| ByteSearch.ShowNatInjective | descriptastorus/MolFileIndex.py:45 | distinct column numbers give distinct `"%d"` texts |
| Scanner.ScanBlock | descriptastorus/MolFileIndex.py:147-151 | the inner `find` loop over one block yields exactly the absolute offsets of the occurrences that start in the part of the block not re-read by the next block, in increasing order |
| Scanner.Index | descriptastorus/MolFileIndex.py:135-154 | the generator yields exactly the occurrences of the word in the whole file, each once and in increasing order, including overlapping ones and ones straddling a block boundary; the result does not depend on the block size; an empty file or one without the word yields nothing |
| OffsetTable.WidthFor | descriptastorus/MolFileIndex.py:160-168 | the chosen width is the narrowest of uint8/16/32/64 whose range exceeds the line count (uint64 when none does) |
| OffsetTable.LineCount | descriptastorus/MolFileIndex.py:129-133 | the line count is the number of newlines or one more, and equals the number of newlines exactly when the file is empty or ends with a newline |
| OffsetTable.LineCountIsLines | descriptastorus/MolFileIndex.py:129-133 | the line count is the number of lines of the file, the piece after the last newline counting only when it is non-empty |
| OffsetTable.SmilesOffsetsIncrease | descriptastorus/MolFileIndex.py:172-176 | the stored offsets start at 0, strictly increase and stay within the file |
| OffsetTable.LineBetweenOffsets | descriptastorus/MolFileIndex.py:172-176 | row k of the offsets is the start of line k of the file: the bytes between rows k and k+1, minus the terminator, are line k, and the bytes after the last row are the unterminated tail line |
| MolFileReader.MakeSmilesIndex | descriptastorus/MolFileIndex.py:156-180 | the method picks the width from the line count, leaves the store built (row 0 is 0 and row i+1 is one past the i-th newline) and other rows untouched, and returns the index opened on that store |
| MolFileReader.WriteOffsets | descriptastorus/MolFileIndex.py:172-176 | the `putRow` loop leaves the store's first rows equal to the offsets (0, then one past each newline the scanner reports) and the rows after them unchanged |
| MolFileReader.ReadRowIsLine | descriptastorus/MolFileIndex.py:92-97 | on a built store, reading row k yields line k of the file without its terminator, split on the separator when one is set |
| MolFileReader.RowsAreLines | descriptastorus/MolFileIndex.py:86-98 | on a built store whose last row is readable, reading row k succeeds exactly when k is below the last row, and then yields line k |
| MolFileReader.GetRecordReadsDataRecord | descriptastorus/MolFileIndex.py:86-98 | `_get(i)` succeeds exactly for `0 <= i < RecordCount` and yields line i, or line i+1 when line 0 is the header |
| MolFileReader.Header | descriptastorus/MolFileIndex.py:100-104 | `header()` raises ValueError without a header; with one it succeeds exactly when the store has a row after row 0, and otherwise raises on the missing row |
| MolFileReader.HeaderIsFirstLine | descriptastorus/MolFileIndex.py:100-104 | on a built store with a header, `header()` returns line 0 of the file, split on the separator when one is set |
| MolFileReader.GetSkipsFirstRecord | descriptastorus/MolFileIndex.py:106-113 | with a header, `get(i)` reads row i+2, so it yields line 2 for `get(0)` where `_get(0)` yields line 1 |
| MolFileReader.SampleGet | descriptastorus/MolFileIndex.py:106-113 | on `a,1\nbb,2\ncc,3\n` with a header, `get(0)` returns `[cc, 3]`, `_get(0)` returns `[bb, 2]`, and `get(1)` runs off the store |
| MolFileReader.CountAsWrittenMissesLastRecord | descriptastorus/MolFileIndex.py:34-37 | on a newline-terminated file the constructor's count is one less than the number of records, and the record at index `N` is readable |
| MolFileReader.SampleCount | descriptastorus/MolFileIndex.py:34-37 | on `a,1\nbb,2\ncc,3\n` without a header the count as written is 2, the number of records is 3, and record 2 reads `[cc, 3]` |
| MolFileReader.SampleOffsets | descriptastorus/MolFileIndex.py:170-176 | on `a,1\nbb,2\ncc,3\n` the newlines are at 3, 8 and 13, the rows written are `0, 4, 9, 14`, and the line count is 3 |
| MolFileReader.FirstIndex | descriptastorus/MolFileIndex.py:58 | `list.index`: the first position of the name, and "not found" exactly when the name is absent |
| MolFileReader.IndexOfName | descriptastorus/MolFileIndex.py:74 | `list.index` on a list of column names: found exactly when present, at the first position holding it; `str.index` on an unsplit header line: found exactly when the name occurs as a substring, at its first occurrence; ValueError otherwise |
| MolFileReader.Resolve | descriptastorus/MolFileIndex.py:54-82 | a selector leaves the column unset exactly when it is the number -1; any other selector is resolved, to the number it spells or its position among the names, exactly when that index lies below the sampled row's length; a lookup failure raises its own error and an index past the row raises IndexError |
| MolFileReader.GeneratedNameResolves | descriptastorus/MolFileIndex.py:45 | without a header, the selector `column_x` resolves to column x |
| MolFileReader.Open | descriptastorus/MolFileIndex.py:8-85 | an opened index keeps the file, store, header flag and separator, counts `RecordCount` records, takes its column names from the header or generates them, and has each column unset exactly when its selector is -1 and otherwise resolved below the sampled row's length; too short a store raises; otherwise opening succeeds exactly when both selectors are -1 or resolve below the sampled row's length, and else raises the smiles column's error first: the name lookup's ValueError, or IndexError for a column past the row, or AttributeError for a too-wide name column when no smiles column is set |
| MolFileReader.GetMolIsField | descriptastorus/MolFileIndex.py:115-118 | on a built store, `getMol(i)` raises AttributeError when the smiles column was never set and raises past the last record; otherwise, for data record `i`, it is the whole record (split when a separator is set) for a smiles column of -1, and else Python indexing into that record: a field of the split line, or one character of the unsplit line, counted from the end when negative, raising when out of range |
| MolFileReader.GetNameIsField | descriptastorus/MolFileIndex.py:120-127 | on a built store, `getName(i)` raises AttributeError for every record when the name column is unset or -1; otherwise it raises past the last record and is Python indexing, negatives included, into data record `i` |
| Storus.Process | scripts/storus.py:29-37 | `process` returns the reference filter of the job: the `(index, counts)` pairs whose counts are non-empty, in job order |
| Storus.KeptFilters | scripts/storus.py:29-37 | every returned pair comes from the job with that entry's own non-empty counts, every entry with non-empty counts is returned, and increasing indices stay increasing |
| Storus.Batch | scripts/storus.py:148-151 | one `for` loop collects the records `[count, min(count + batchsize, N))` and leaves `count` one past the loop variable: at the end of that range, or, when the range is empty, one past the index `i` was last bound to |
| Storus.Round | scripts/storus.py:145-153 | one round covers the records from `count` (or from one past `i`, once `count` has reached `N`) in at most `num_cpus` batches, each non-empty, contiguous, at most `batchsize` long and short only at the last record; before `N` it advances `count` by `num_cpus * batchsize` up to `N`; at `N` the first CPU moves `count` back to `i + 1` and the other `num_cpus - 1` CPUs advance it by `batchsize` each, up to `N`; the round is empty exactly when `count` has reached `N` and either `i` is the last record or there is one CPU |
| Storus.RoundEndStep | scripts/storus.py:148-151 | a round from `count` before `N` ends at `min(count + num_cpus * batchsize, N)` |
| Storus.PutRows | scripts/storus.py:186-187 | the inner result loop calls `putRow` once per pair, in order, and leaves `i` at the last index written, or unchanged when the result is empty |
| Storus.PutResults | scripts/storus.py:182-187 | the `putRow` calls of one round are the kept records of its batches, in order, and `i` is left at the last of them, or unchanged when none is kept |
| Storus.RedispatchedFiltered | scripts/storus.py:144-155 | every record the loop dispatches a second time has an empty descriptor vector |
| Storus.Run | scripts/storus.py:144-155 | as written: the batches of all rounds together are the records `[0, N)` in order, followed by the records from `Redispatched(...)` to `N` again; every round has between one and `num_cpus` batches, each a valid batch; the `putRow` calls are exactly the kept records of `[0, N)` |
| Storus.RedispatchExample | scripts/storus.py:144-155 | with 3 records, 2 CPUs and only record 2 without descriptors, record 2 is dispatched twice |
| Storus.RunOnce | scripts/storus.py:144-155 | with a result variable of its own, the batches of all rounds together are the records `[0, N)`, each exactly once and in order; every round has between one and `num_cpus` batches, each a valid batch; the `putRow` calls are exactly the kept records of `[0, N)` |
| Storus.RunWritesEachRowOnce | scripts/storus.py:186-187 | the `putRow` calls name strictly increasing records below `N`, so no descriptor row is written twice, each with its own non-empty counts, and every record with non-empty counts is written |

## Left out

- The offset store (`raw.RawStore`, `raw.MakeStore`, `putRow`, `db.get`) is a sequence of naturals, or an `array` while it is written. Disk storage and numpy types are not modelled, and neither is Python's negative indexing into the store: a negative row is an error here.
- Store values are unbounded. The width covers the line count while the stored values are byte offsets, which can exceed that width; the wrap-around numpy would apply is not modelled.
- The store is not assumed to start zeroed. The row after the last newline is never written, and the lemmas about the last line state what they need of it (`LastLineReadable`).
- The file is a byte sequence. The source reads records through a text-mode file. Decoding, universal-newline translation (`\r`, `\r\n`) and counting characters rather than bytes are not modelled.
- OffsetTable.LineCount: `simplecount` iterates over a text-mode file. The model counts the newlines, plus one for an unterminated last line, and does not model `\r` as a line break.
- ByteSearch.ParseInt: `int()` also accepts surrounding whitespace, `_` between digits and non-ASCII digits. The model accepts only an optional sign followed by ASCII digits.
- Scanner.Index: requires a non-empty word no longer than the block. An empty word, for which the source seeks forward by one byte, is not modelled. The source only ever scans for `\n` in 64 KiB blocks.
- Opening, seeking and closing files, `os.path.getsize`, and the unused `sz` are left out; the file's contents are a parameter.
- `MolFileIndex` keeps `filename`, `nameFxn` and the open file handle; these are not modelled. The `_nameGetter` path of `getName` is never assigned, so it is modelled as the AttributeError it raises.
- `MakeSDFIndex` and `SDFNameGetter` are left out. `MakeSDFIndex` uses an undefined name (`pos`) and cannot run.
- Storus.Run: requires `N >= 1`, because the loop variable is unbound at `count = i + 1` when `N == 0`. It also requires at least one CPU and a batch size of at least 1; the script fixes 10000.
- Storus.Process: the calculator's result is a sequence, and any falsy result (`None`, an empty vector) is the empty sequence.
- `getMol` inside the batch loop is an opaque total function parameter. Its own errors, and the status printing around it, are not modelled.
- Storus.Run: the call `sm.getName(i)` after each `putRow` (scripts/storus.py:188-193) and the name store are not modelled. With the default name column of -1, `getName` raises AttributeError (see `GetName`), so the script as written stops after its first `putRow`. The model goes on as if the call succeeded.
- Storus.Run: Python 3 scoping is assumed for the list comprehension in the bad-column warning (scripts/storus.py:170). Under Python 2 that comprehension also rebinds `i`, to `min(N, 10) - 1`. Suppose the round had reached `N` and no later result of it is non-empty. The next round then starts at `min(N, 10)` and can write kept rows a second time. The warning itself is left out.
- `multiprocessing.Pool.map` runs the batches in parallel but returns the results in batch order. The model runs them sequentially in that order.
- The rest of `storus.py` is left out: argument parsing, RDKit, `processInchi` and the InChI key index, kyotocabinet name stores, the bad-column warning and printing.

## Findings

| source | as written | input that shows it | evidently intended | confidence | as-written member | corrected member |
|---|---|---|---|---|---|---|
| descriptastorus/MolFileIndex.py:106-113 | `get` adds 1 for the header and `_get` adds 1 again, so `get(i)` reads physical row i+2 | `a,1\nbb,2\ncc,3\n` with a header and separator `,`: `get(0)` returns `[cc, 3]`, `get(1)` fails, and `[bb, 2]` is returned for no index `i >= 0` | `get(i)` returns data record i, as `_get(i)` does | not executed | MolFileReader.Get (exhibited by MolFileReader.GetSkipsFirstRecord and MolFileReader.SampleGet) | MolFileReader.GetRecord (proved by MolFileReader.GetRecordReadsDataRecord) |
| scripts/storus.py:144-155 | the result loop `for i,v in result` rebinds the variable `i` that the batch loop's `count = i+1` reads, so after the round that reaches `N` the next round moves `count` back to one past the last record written | 3 records, 2 CPUs, batch size 10000, only record 2 without descriptors: the rounds dispatch `[0, 1, 2]` and then `[2]` | every record dispatched once | not executed | Storus.Run (exhibited by Storus.RedispatchExample) | Storus.RunOnce |
| descriptastorus/MolFileIndex.py:34-37 | `N = db.N - 3` with a header and `db.N - 2` without, one less than the number of records | `a,1\nbb,2\ncc,3\n` without a header: `N == 2`, yet `_get(2)` reads `[cc, 3]` | `N` is the number of data records (3 here) | not executed | MolFileReader.CountAsWritten (exhibited by MolFileReader.CountAsWrittenMissesLastRecord and MolFileReader.SampleCount) | MolFileReader.RecordCount (proved by MolFileReader.GetRecordReadsDataRecord; used by MolFileReader.Open) |

/** The offset table behind a smiles index (descriptastorus/MolFileIndex.py,
    `MakeSmilesIndex`): the integer width chosen from the line count, and the
    table itself, whose row 0 is 0 and whose row i+1 is one past the i-th
    newline, so that row k is where line k starts. */
module OffsetTable {
  import opened ByteSearch

  /** The unsigned element types the store can be created with. */
  datatype Width = UInt8 | UInt16 | UInt32 | UInt64

  /** One more than the largest value the width can hold. */
  function Bound(w: Width): nat
  {
    match w
    case UInt8 => 0x100
    case UInt16 => 0x1_0000
    case UInt32 => 0x1_0000_0000
    case UInt64 => 0x1_0000_0000_0000_0000
  }

  /** The dtype chosen for a file of `n` lines: the narrowest of the four
      widths that can hold `n`, and the widest when none can. */
  function WidthFor(n: nat): (w: Width)
    ensures n < Bound(w) || w == UInt64
    ensures forall v: Width :: Bound(v) < Bound(w) ==> Bound(v) <= n
  {
    if n < 0x100 then UInt8
    else if n < 0x1_0000 then UInt16
    else if n < 0x1_0000_0000 then UInt32
    else UInt64
  }

  /** The newline positions of a file, in order. */
  function NewlineOffsets(file: Bytes): seq<nat>
  {
    Occurrences(file, [Newline])
  }

  /** The number of lines Python counts when iterating over the file: one per
      newline, plus one for a final line that lacks its newline. */
  function LineCount(file: Bytes): (n: nat)
    ensures |NewlineOffsets(file)| <= n <= |NewlineOffsets(file)| + 1
    ensures n == |NewlineOffsets(file)| <==> file == [] || file[|file| - 1] == Newline
  {
    |NewlineOffsets(file)| + if file != [] && file[|file| - 1] != Newline then 1 else 0
  }

  /** The rows `MakeSmilesIndex` writes: 0, then one past each newline. */
  function SmilesOffsets(file: Bytes): seq<nat>
  {
    [0] + Shift(NewlineOffsets(file), 1)
  }

  /** The lines of the file: the pieces between newlines. The last piece is
      the unterminated tail, empty when the file ends with a newline. */
  function Lines(file: Bytes): (r: seq<Bytes>)
    ensures |r| >= 1
  {
    Split(file, [Newline])
  }

  /** The written offsets strictly increase, the first is 0 and all lie
      within the file. */
  lemma SmilesOffsetsIncrease(file: Bytes)
    ensures SmilesOffsets(file)[0] == 0
    ensures forall i, j :: 0 <= i < j < |SmilesOffsets(file)| ==> SmilesOffsets(file)[i] < SmilesOffsets(file)[j]
    ensures forall i :: 0 <= i < |SmilesOffsets(file)| ==> SmilesOffsets(file)[i] <= |file|
  {
    OccExact(file, [Newline], 0, |file|);
  }

  /** The offsets of a file that starts with a first line ending at `i` are
      those of the rest of the file, moved past that line. */
  lemma OffsetsAfterFirstLine(s: Bytes, i: nat)
    requires i < |s| && MatchAt(s, [Newline], i) && forall p: nat :: p < i ==> !MatchAt(s, [Newline], p)
    ensures |SmilesOffsets(s)| == |SmilesOffsets(s[i + 1..])| + 1
    ensures SmilesOffsets(s)[1] == i + 1
    ensures forall k :: 1 <= k < |SmilesOffsets(s)| ==>
      SmilesOffsets(s)[k] == SmilesOffsets(s[i + 1..])[k - 1] + i + 1
  {
    NewlinesAfterFirstLine(s, i);
  }

  lemma NewlinesAfterFirstLine(s: Bytes, i: nat)
    requires i < |s| && MatchAt(s, [Newline], i) && forall p: nat :: p < i ==> !MatchAt(s, [Newline], p)
    ensures NewlineOffsets(s) == [i] + Shift(NewlineOffsets(s[i + 1..]), i + 1)
  {
    var nl: Bytes := [Newline];
    var rest := s[i + 1..];
    OccEmpty(s, nl, 0, i);
    OccAppend(s, nl, 0, i, |s|);
    OccAppend(s, nl, i, i + 1, |s|);
    assert Occ(s, nl, i, i + 1) == [i];
    OccDrop(s, nl, i + 1, 0, |rest|);
    assert Occ(s, nl, i + 1, |s|) == Shift(Occ(rest, nl, 0, |rest|), i + 1);
    assert NewlineOffsets(s) == Occ(s, nl, 0, |s|);
    assert NewlineOffsets(rest) == Occ(rest, nl, 0, |rest|);
  }

  /** Row k of the table and row k+1, less the newline, delimit line k; the
      last row starts the unterminated tail. */
  lemma {:induction false} LineBetweenOffsets(s: Bytes, k: nat)
    requires k <= |NewlineOffsets(s)|
    ensures |Lines(s)| == |NewlineOffsets(s)| + 1 == |SmilesOffsets(s)|
    ensures SmilesOffsets(s)[k] <= |s|
    ensures k < |NewlineOffsets(s)| ==>
      SmilesOffsets(s)[k] < SmilesOffsets(s)[k + 1] <= |s| &&
      s[SmilesOffsets(s)[k]..SmilesOffsets(s)[k + 1] - 1] == Lines(s)[k]
    ensures k == |NewlineOffsets(s)| ==> s[SmilesOffsets(s)[k]..] == Lines(s)[k]
    decreases |s|
  {
    var nl: Bytes := [Newline];
    var i := Find(s, nl, 0);
    if i == -1 {
      OccEmpty(s, nl, 0, |s|);
    } else {
      var rest := s[i + 1..];
      OffsetsAfterFirstLine(s, i);
      assert Lines(s) == [s[..i]] + Lines(rest);
      if k == 0 {
        LineBetweenOffsets(rest, 0);
      } else {
        LineBetweenOffsets(rest, k - 1);
        var o, o' := SmilesOffsets(s), SmilesOffsets(rest);
        if k < |NewlineOffsets(s)| {
          assert s[o[k]..o[k + 1] - 1] == rest[o'[k - 1]..o'[k] - 1];
        } else {
          assert s[o[k]..] == rest[o'[k - 1]..];
        }
      }
    }
  }

  /** The line count is the number of lines of the file, the last piece
      counting only when it is non-empty: a file ending with a newline has
      no further line. */
  lemma LineCountIsLines(file: Bytes)
    ensures var lines := Lines(file);
      LineCount(file) == |lines| - (if lines[|lines| - 1] == [] then 1 else 0)
  {
    var k := |NewlineOffsets(file)|;
    LineBetweenOffsets(file, k);
    var start := SmilesOffsets(file)[k];
    assert file[start..] == Lines(file)[k];
    if file != [] && file[|file| - 1] != Newline {
      TailStartsInFile(file);
    } else if file != [] {
      LastOffsetIsEnd(file);
    }
  }

  /** In a file ending with a newline, the last row written is the end of
      the file. */
  lemma LastOffsetIsEnd(file: Bytes)
    requires file != [] && file[|file| - 1] == Newline
    ensures |NewlineOffsets(file)| > 0
    ensures SmilesOffsets(file)[|NewlineOffsets(file)|] == |file|
  {
    var occ := NewlineOffsets(file);
    OccExact(file, [Newline], 0, |file|);
    assert file[|file| - 1..] == [Newline];
    assert MatchAt(file, [Newline], |file| - 1);
    assert |file| - 1 in occ;
    var j :| 0 <= j < |occ| && occ[j] == |file| - 1;
    assert occ[|occ| - 1] == |file| - 1;
  }

  /** A file whose last byte is not a newline has a non-empty last line: the
      last row written starts before the end of the file. */
  lemma TailStartsInFile(file: Bytes)
    requires file != [] && file[|file| - 1] != Newline
    ensures SmilesOffsets(file)[|NewlineOffsets(file)|] < |file|
  {
    var occ := NewlineOffsets(file);
    OccExact(file, [Newline], 0, |file|);
    SmilesOffsetsIncrease(file);
    if |occ| > 0 {
      var p := occ[|occ| - 1];
      assert p in occ;
      assert file[p..p + 1] == [Newline];
      assert file[p] == Newline;
    }
  }
}

/** The record-offset scanner of descriptastorus/MolFileIndex.py (`index`): it
    reads a file in fixed-size blocks, stepping back `|word| - 1` bytes before
    each read so that a terminator straddling a block boundary is seen whole,
    and reports the absolute start of every occurrence of the terminator. */
module Scanner {
  import opened ByteSearch

  /** The block size the source reads with. */
  const BlockSize: nat := 0x1_0000

  /** Positions inside a block correspond to positions in the file, as long as
      the pattern fits inside the block or the block runs to the end of file. */
  lemma BlockMatch(file: Bytes, w: Bytes, start: nat, end: nat, q: nat)
    requires start <= end <= |file|
    requires q + |w| <= end - start || end == |file|
    ensures MatchAt(file[start..end], w, q) == MatchAt(file, w, start + q)
  {
    if end == |file| {
      assert file[start..end] == file[start..];
      MatchAtDrop(file, w, start, q);
    } else {
      var inBlock := file[start..end][q..q + |w|];
      var inFile := file[start + q..start + q + |w|];
      forall j | 0 <= j < |inBlock|
        ensures inBlock[j] == inFile[j]
      {
      }
      assert inBlock == inFile;
    }
  }

  /** No occurrence in the block between `a` and `b` means no occurrence in the
      file between `start + a` and `start + b`. */
  lemma NoneInBlock(file: Bytes, w: Bytes, start: nat, end: nat, a: nat, b: nat)
    requires start <= end <= |file| && a <= b
    requires b + |w| <= end - start + 1 || end == |file|
    requires forall q :: a <= q < b ==> !MatchAt(file[start..end], w, q)
    ensures Occ(file, w, start + a, start + b) == []
  {
    forall p | start + a <= p < start + b
      ensures !MatchAt(file, w, p)
    {
      BlockMatch(file, w, start, end, p - start);
    }
    OccEmpty(file, w, start + a, start + b);
  }

  /** How many leading start positions of the file have been fully examined
      once the scan has read up to byte `tell`. */
  function Examined(fileLen: nat, overlap: nat, tell: nat): nat
  {
    if tell == fileLen then fileLen
    else if tell >= overlap then tell - overlap
    else 0
  }

  /** The number of block positions whose occurrence, if any, lies wholly
      inside the block: all of them for the last block of the file, otherwise
      all but the final `|word| - 1`, which the next block re-reads. */
  function Limit(fileLen: nat, overlap: nat, start: nat, end: nat): nat
    requires start <= end
    requires end - start > overlap || end == fileLen
  {
    if end == fileLen then end - start else end - start - overlap
  }

  /** A hit at `p` after none since `mid` adds exactly `p`. */
  lemma OccHit(file: Bytes, word: Bytes, lo: nat, mid: nat, p: nat)
    requires lo <= mid <= p && MatchAt(file, word, p) && Occ(file, word, mid, p) == []
    ensures Occ(file, word, lo, p + 1) == Occ(file, word, lo, mid) + [p]
  {
    OccAppend(file, word, lo, mid, p);
    OccAppend(file, word, lo, p, p + 1);
    assert Occ(file, word, p, p + 1) == [p];
  }

  /** A `buffer.find(word, from)` on the block `file[start..tell]` that
      finds nothing: no occurrence starts in the rest of the examined
      positions. */
  lemma ScanMiss(file: Bytes, word: Bytes, start: nat, tell: nat, from: nat)
    requires |word| >= 1
    requires start < tell <= |file|
    requires tell - start >= |word| || tell == |file|
    requires from <= Limit(|file|, |word| - 1, start, tell)
    requires Find(file[start..tell], word, from) == -1
    ensures Occ(file, word, start, start + Limit(|file|, |word| - 1, start, tell)) == Occ(file, word, start, start + from)
  {
    var limit := Limit(|file|, |word| - 1, start, tell);
    NoneInBlock(file, word, start, tell, from, limit);
    OccAppend(file, word, start, start + from, start + limit);
  }

  /** A `buffer.find(word, from)` on the block `file[start..tell]` that
      finds `pos`: the hit lies among the examined positions and extends the
      occurrences found so far by exactly its own position. */
  lemma ScanHit(file: Bytes, word: Bytes, start: nat, tell: nat, from: nat, pos: nat)
    requires |word| >= 1
    requires start < tell <= |file|
    requires tell - start >= |word| || tell == |file|
    requires Find(file[start..tell], word, from) == pos
    ensures from <= pos < Limit(|file|, |word| - 1, start, tell)
    ensures Occ(file, word, start, start + pos + 1) == Occ(file, word, start, start + from) + [start + pos]
  {
    var block := file[start..tell];
    assert MatchAt(block, word, pos);
    assert pos + |word| <= tell - start;
    BlockMatch(file, word, start, tell, pos);
    NoneInBlock(file, word, start, tell, from, pos);
    OccHit(file, word, start, start + from, start + pos);
  }

  /** The inner loop of `index` over one block `file[start..tell]` that the
      file position has just passed: it yields the absolute start of each
      occurrence found in the block, resuming the search one past the
      previous hit. The source's `find` before the loop and at the end of its
      body are the one `find` at the top of this loop. */
  method ScanBlock(file: Bytes, word: Bytes, start: nat, tell: nat) returns (found: seq<nat>)
    requires |word| >= 1
    requires start < tell <= |file|
    requires tell - start >= |word| || tell == |file|
    ensures found == Occ(file, word, start, start + Limit(|file|, |word| - 1, start, tell))
  {
    var buffer := file[start..tell];
    ghost var limit := Limit(|file|, |word| - 1, start, tell);
    found := [];
    var from := 0;
    while true
      invariant from <= limit
      invariant found == Occ(file, word, start, start + from)
      decreases limit - from
    {
      var pos := Find(buffer, word, from);
      if pos == -1 {
        ScanMiss(file, word, start, tell, from);
        break;
      }
      ScanHit(file, word, start, tell, from, pos);
      found := found + [tell - (|buffer| - pos)];
      from := pos + 1;
    }
  }

  /** The positions of one block read at file position `tell`: it starts
      where the examined prefix ends, is long enough to hold a whole
      occurrence unless it reaches the end of file, and extends the examined
      prefix to what the next position reports. */
  lemma BlockBounds(fileLen: nat, overlap: nat, bsize: nat, tell: nat)
    requires overlap < bsize && tell < fileLen
    requires 0 < tell ==> bsize <= tell
    ensures var start := if tell >= overlap then tell - overlap else tell;
      var end := if start + bsize <= fileLen then start + bsize else fileLen;
      start == Examined(fileLen, overlap, tell) && start < end &&
      (end - start > overlap || end == fileLen) &&
      start + Limit(fileLen, overlap, start, end) == Examined(fileLen, overlap, end) &&
      (0 < end < fileLen ==> bsize <= end)
  {
  }

  /** The `index(fname, word)` generator, with the block size as a parameter:
      the values it yields, in order. The result is every occurrence of `word`
      (overlapping ones included), whatever the block size. */
  method Index(file: Bytes, word: Bytes, bsize: nat) returns (offsets: seq<nat>)
    requires 1 <= |word| <= bsize
    ensures offsets == Occurrences(file, word)
  {
    var overlap := |word| - 1;
    var tell := 0;
    offsets := [];
    while true
      invariant tell <= |file|
      invariant 0 < tell < |file| ==> bsize <= tell
      invariant offsets == Occ(file, word, 0, Examined(|file|, overlap, tell))
      decreases |file| - tell
    {
      ghost var before := tell;
      if tell >= overlap && tell < |file| {
        tell := tell - overlap;
      }
      var start := tell;
      var buffer := file[start..if tell + bsize <= |file| then tell + bsize else |file|];
      tell := tell + |buffer|;
      if |buffer| > 0 {
        BlockBounds(|file|, overlap, bsize, before);
        var found := ScanBlock(file, word, start, tell);
        OccAppend(file, word, 0, start, start + Limit(|file|, overlap, start, tell));
        offsets := offsets + found;
      } else {
        break;
      }
    }
  }
}

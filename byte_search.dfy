/** Byte-string primitives the indexer is built from: Python's `bytes.find`, the
    list of every (possibly overlapping) occurrence of a pattern, `bytes.split`,
    `int()` applied to a column selector, and `"%d"` formatting. A file is a
    sequence of bytes; text is treated as one byte per character. */
module ByteSearch {

  type Bytes = seq<bv8>

  /** The record terminator the smiles indexer scans for. */
  const Newline: bv8 := 10

  datatype Option<T> = None | Some(value: T)

  /** `w` occurs in `s` starting at position `p`. */
  predicate MatchAt(s: Bytes, w: Bytes, p: nat)
  {
    p + |w| <= |s| && s[p..p + |w|] == w
  }

  /** Python's `s.find(w, from)`: the first start at or after `from` of an
      occurrence of `w`, or -1 when there is none. */
  function Find(s: Bytes, w: Bytes, from: nat): (r: int)
    ensures r == -1 || (from <= r && MatchAt(s, w, r))
    ensures r == -1 ==> forall p :: from <= p ==> !MatchAt(s, w, p)
    ensures r != -1 ==> forall p :: from <= p < r ==> !MatchAt(s, w, p)
    decreases |s| - from
  {
    if from + |w| > |s| then -1
    else if MatchAt(s, w, from) then from
    else Find(s, w, from + 1)
  }

  /** The start positions in [lo, hi) of every occurrence of `w` in `s`, in
      increasing order; overlapping occurrences are all listed. */
  function Occ(s: Bytes, w: Bytes, lo: nat, hi: nat): seq<nat>
    requires lo <= hi
    decreases hi - lo
  {
    if lo == hi then []
    else (if MatchAt(s, w, lo) then [lo] else []) + Occ(s, w, lo + 1, hi)
  }

  /** The list holds exactly the occurrences in range, strictly increasing. */
  lemma {:induction false} OccExact(s: Bytes, w: Bytes, lo: nat, hi: nat)
    requires lo <= hi
    ensures forall p :: p in Occ(s, w, lo, hi) <==> lo <= p < hi && MatchAt(s, w, p)
    ensures forall i :: 0 <= i < |Occ(s, w, lo, hi)| ==> lo <= Occ(s, w, lo, hi)[i] < hi
    ensures forall i, j :: 0 <= i < j < |Occ(s, w, lo, hi)| ==> Occ(s, w, lo, hi)[i] < Occ(s, w, lo, hi)[j]
    decreases hi - lo
  {
    if lo < hi {
      OccExact(s, w, lo + 1, hi);
    }
  }

  /** Every occurrence of `w` anywhere in `s`. */
  function Occurrences(s: Bytes, w: Bytes): seq<nat>
  {
    Occ(s, w, 0, |s|)
  }

  /** Adds `d` to every element. */
  function Shift(xs: seq<nat>, d: nat): (r: seq<nat>)
    ensures |r| == |xs| && forall i :: 0 <= i < |xs| ==> r[i] == xs[i] + d
  {
    seq(|xs|, i requires 0 <= i < |xs| => xs[i] + d)
  }

  /** Occurrence lists of adjacent ranges concatenate. */
  lemma {:induction false} OccAppend(s: Bytes, w: Bytes, lo: nat, mid: nat, hi: nat)
    requires lo <= mid <= hi
    ensures Occ(s, w, lo, hi) == Occ(s, w, lo, mid) + Occ(s, w, mid, hi)
    decreases mid - lo
  {
    if lo < mid {
      OccAppend(s, w, lo + 1, mid, hi);
    }
  }

  /** A range holding no occurrence has an empty occurrence list. */
  lemma {:induction false} OccEmpty(s: Bytes, w: Bytes, lo: nat, hi: nat)
    requires lo <= hi
    requires forall p :: lo <= p < hi ==> !MatchAt(s, w, p)
    ensures Occ(s, w, lo, hi) == []
    decreases hi - lo
  {
    if lo < hi {
      OccEmpty(s, w, lo + 1, hi);
    }
  }

  /** Dropping a prefix of `d` bytes moves every occurrence `d` places left. */
  lemma {:induction false} OccDrop(s: Bytes, w: Bytes, d: nat, lo: nat, hi: nat)
    requires d <= |s| && lo <= hi
    ensures Occ(s, w, lo + d, hi + d) == Shift(Occ(s[d..], w, lo, hi), d)
    decreases hi - lo
  {
    if lo < hi {
      OccDrop(s, w, d, lo + 1, hi);
      MatchAtDrop(s, w, d, lo);
      var head := if MatchAt(s[d..], w, lo) then [lo] else [];
      ShiftAppend(head, Occ(s[d..], w, lo + 1, hi), d);
    }
  }

  lemma MatchAtDrop(s: Bytes, w: Bytes, d: nat, p: nat)
    requires d <= |s|
    ensures MatchAt(s, w, p + d) == MatchAt(s[d..], w, p)
  {
    if p + |w| <= |s| - d {
      assert s[d..][p..p + |w|] == s[p + d..p + d + |w|];
    }
  }

  lemma MatchAtPrefix(s: Bytes, w: Bytes, i: nat, p: nat)
    requires i <= |s|
    ensures MatchAt(s[..i], w, p) ==> MatchAt(s, w, p)
  {
    if MatchAt(s[..i], w, p) {
      assert s[..i][p..p + |w|] == s[p..p + |w|];
    }
  }

  lemma ShiftAppend(xs: seq<nat>, ys: seq<nat>, d: nat)
    ensures Shift(xs + ys, d) == Shift(xs, d) + Shift(ys, d)
  {
  }

  /** Python's `s.split(sep)` for a non-empty separator: the pieces between
      non-overlapping occurrences of `sep`, scanned left to right. */
  function Split(s: Bytes, sep: Bytes): (r: seq<Bytes>)
    requires |sep| >= 1
    ensures |r| >= 1
    decreases |s|
  {
    var i := Find(s, sep, 0);
    if i == -1 then [s] else [s[..i]] + Split(s[i + |sep|..], sep)
  }

  /** Python's `sep.join(parts)`. */
  function Join(parts: seq<Bytes>, sep: Bytes): Bytes
    requires |parts| >= 1
  {
    if |parts| == 1 then parts[0] else parts[0] + sep + Join(parts[1..], sep)
  }

  /** The first separator cuts the input into the first piece, the
      separator and the rest. */
  lemma SplitAt(s: Bytes, sep: Bytes, i: nat)
    requires |sep| >= 1 && Find(s, sep, 0) == i
    ensures i + |sep| <= |s|
    ensures Split(s, sep) == [s[..i]] + Split(s[i + |sep|..], sep)
    ensures s == s[..i] + sep + s[i + |sep|..]
  {
    assert s[i..i + |sep|] == sep;
    assert s == s[..i] + s[i..i + |sep|] + s[i + |sep|..];
  }

  /** Splitting loses nothing: joining the pieces back gives the input. */
  lemma {:induction false} JoinSplit(s: Bytes, sep: Bytes)
    requires |sep| >= 1
    ensures Join(Split(s, sep), sep) == s
    decreases |s|
  {
    var i := Find(s, sep, 0);
    if i != -1 {
      var rest := s[i + |sep|..];
      SplitAt(s, sep, i);
      JoinSplit(rest, sep);
      assert Split(s, sep)[1..] == Split(rest, sep);
    }
  }

  /** The split is the leftmost one: the first piece is the input up to the
      first occurrence of the separator (all of it when there is none), and
      the other pieces are the split of what follows that occurrence. */
  lemma SplitFirstPiece(s: Bytes, sep: Bytes)
    requires |sep| >= 1
    ensures var pieces := Split(s, sep);
      |pieces[0]| <= |s| && pieces[0] == s[..|pieces[0]|] &&
      (forall p: nat :: p < |pieces[0]| ==> !MatchAt(s, sep, p)) &&
      (|pieces| == 1 <==> forall p: nat :: !MatchAt(s, sep, p)) &&
      (|pieces| > 1 ==>
        MatchAt(s, sep, |pieces[0]|) && pieces[1..] == Split(s[|pieces[0]| + |sep|..], sep))
  {
    var i := Find(s, sep, 0);
    if i != -1 {
      SplitAt(s, sep, i);
      assert Split(s, sep)[0] == s[..i];
    }
  }

  /** No piece of a split contains the separator. */
  lemma {:induction false} SplitPiecesFree(s: Bytes, sep: Bytes, k: nat, p: nat)
    requires |sep| >= 1 && k < |Split(s, sep)|
    ensures !MatchAt(Split(s, sep)[k], sep, p)
    decreases |s|
  {
    var i := Find(s, sep, 0);
    if i != -1 {
      if k == 0 {
        MatchAtPrefix(s, sep, i, p);
      } else {
        SplitPiecesFree(s[i + |sep|..], sep, k - 1, p);
      }
    }
  }

  predicate IsDigit(b: bv8)
  {
    48 <= b <= 57
  }

  predicate AllDigits(s: Bytes)
  {
    forall i :: 0 <= i < |s| ==> IsDigit(s[i])
  }

  /** The value of a string of decimal digits. */
  function DigitsValue(s: Bytes): nat
    requires AllDigits(s)
  {
    if s == [] then 0 else DigitsValue(s[..|s| - 1]) * 10 + (s[|s| - 1] as int - 48)
  }

  /** Python's `"%d" % n` for a natural number. */
  function ShowNat(n: nat): (r: Bytes)
    ensures |r| >= 1 && AllDigits(r)
  {
    DigitByte(n % 10);
    if n < 10 then [48 + n as bv8] else ShowNat(n / 10) + [48 + (n % 10) as bv8]
  }

  /** Python's `int(t)` on a string: an optional sign followed by one or more
      decimal digits; anything else fails (Python raises ValueError). */
  function ParseInt(t: Bytes): Option<int>
  {
    if |t| >= 2 && t[0] == 45 && AllDigits(t[1..]) then Some(-(DigitsValue(t[1..]) as int))
    else if |t| >= 2 && t[0] == 43 && AllDigits(t[1..]) then Some(DigitsValue(t[1..]))
    else if |t| >= 1 && AllDigits(t) then Some(DigitsValue(t))
    else None
  }

  /** Appending a digit multiplies the value by ten and adds the digit. */
  lemma DigitsValueSnoc(s: Bytes, d: bv8)
    requires AllDigits(s) && IsDigit(d)
    ensures AllDigits(s + [d])
    ensures DigitsValue(s + [d]) == DigitsValue(s) * 10 + (d as int - 48)
  {
    assert (s + [d])[..|s|] == s;
  }

  /** The byte `"%d"` writes for the digit `d`, and back. */
  lemma DigitByte(d: nat)
    requires d < 10
    ensures IsDigit(48 + d as bv8) && (48 + d as bv8) as int - 48 == d
  {
  }

  lemma {:induction false} DigitsOfShowNat(n: nat)
    ensures DigitsValue(ShowNat(n)) == n
  {
    if n < 10 {
      DigitByte(n);
      assert ShowNat(n)[..0] == [];
    } else {
      var q, d := n / 10, n % 10;
      DigitsOfShowNat(q);
      DigitByte(d);
      DigitsValueSnoc(ShowNat(q), 48 + d as bv8);
    }
  }

  /** `int("%d" % n) == n`. */
  lemma ParseShowNat(n: nat)
    ensures ParseInt(ShowNat(n)) == Some(n)
  {
    DigitsOfShowNat(n);
  }

  /** Distinct numbers print differently. */
  lemma ShowNatInjective(m: nat, n: nat)
    requires ShowNat(m) == ShowNat(n)
    ensures m == n
  {
    ParseShowNat(m);
    ParseShowNat(n);
  }
}

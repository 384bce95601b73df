/**
  The driver loop of the storus script: the smiles records `[0, n)` are cut
  into contiguous batches of at most `batchsize` indices, `numCpus` batches
  per round; each batch is run through `process`, which keeps the records
  whose descriptor vector is non-empty, and every kept `(index, counts)` pair
  is written to the descriptor store with one `putRow`.

  The descriptor calculator (`props.process`) and the molecule reader
  (`sm.getMol`) are parameters: total functions the model does not look into.
  An empty result of `props.process` stands for every falsy value it can
  return.
*/
module Storus {

  /** The batch size the script fixes. */
  const BatchSize: nat := 10000

  /** The jobs of records `[lo, hi)`: each index with its molecule. */
  function Jobs<M>(lo: nat, hi: nat, getMol: nat -> M): (r: seq<(nat, M)>)
    requires lo <= hi
    ensures |r| == hi - lo
    ensures forall t :: 0 <= t < |r| ==> r[t] == (lo + t, getMol(lo + t))
  {
    seq(hi - lo, t requires 0 <= t => (lo + t, getMol(lo + t)))
  }

  /** Concatenation of a sequence of sequences. */
  function Flatten<T>(xss: seq<seq<T>>): seq<T>
  {
    if xss == [] then [] else Flatten(xss[..|xss| - 1]) + xss[|xss| - 1]
  }

  lemma FlattenSnoc<T>(xss: seq<seq<T>>, xs: seq<T>)
    ensures Flatten(xss + [xs]) == Flatten(xss) + xs
  {
    assert (xss + [xs])[..|xss|] == xss;
  }

  lemma {:induction false} FlattenAppend<T>(a: seq<seq<T>>, b: seq<seq<T>>)
    ensures Flatten(a + b) == Flatten(a) + Flatten(b)
    decreases |b|
  {
    if b == [] {
      assert a + b == a;
    } else {
      var b' := b[..|b| - 1];
      assert a + b == (a + b') + [b[|b| - 1]];
      FlattenAppend(a, b');
      FlattenSnoc(a + b', b[|b| - 1]);
      FlattenSnoc(b', b[|b| - 1]);
      assert b == b' + [b[|b| - 1]];
    }
  }

  /** What `process` returns for a job: in order, `(index, counts)` for every
      entry whose descriptor vector is non-empty. */
  function Kept<M, V>(job: seq<(nat, M)>, props: M -> seq<V>): seq<(nat, seq<V>)>
  {
    if job == [] then []
    else
      var last := job[|job| - 1];
      Kept(job[..|job| - 1], props) + (if props(last.1) == [] then [] else [(last.0, props(last.1))])
  }

  lemma {:induction false} KeptAppend<M, V>(a: seq<(nat, M)>, b: seq<(nat, M)>, props: M -> seq<V>)
    ensures Kept(a + b, props) == Kept(a, props) + Kept(b, props)
    decreases |b|
  {
    if b == [] {
      assert a + b == a;
    } else {
      var b' := b[..|b| - 1];
      assert (a + b)[..|a + b| - 1] == a + b';
      KeptAppend(a, b', props);
    }
  }

  /** Indices listed in strictly increasing order. */
  predicate Increasing<X>(xs: seq<(nat, X)>)
  {
    forall p, q :: 0 <= p < q < |xs| ==> xs[p].0 < xs[q].0
  }

  /** `process` keeps exactly the entries with a non-empty descriptor vector,
      pairs each with its own vector, and keeps the input's order. */
  lemma KeptFilters<M, V>(job: seq<(nat, M)>, props: M -> seq<V>)
    ensures forall w :: w in Kept(job, props) ==>
      w.1 != [] && exists j :: 0 <= j < |job| && job[j].0 == w.0 && props(job[j].1) == w.1
    ensures forall j :: 0 <= j < |job| && props(job[j].1) != [] ==>
      (job[j].0, props(job[j].1)) in Kept(job, props)
    ensures Increasing(job) ==> Increasing(Kept(job, props))
    ensures |Kept(job, props)| <= |job|
  {
    KeptSound(job, props);
    KeptComplete(job, props);
    KeptOrdered(job, props);
  }

  /** Every kept pair comes from an entry of the job, with its own vector. */
  lemma {:induction false} KeptSound<M, V>(job: seq<(nat, M)>, props: M -> seq<V>)
    ensures forall w :: w in Kept(job, props) ==>
      w.1 != [] && exists j :: 0 <= j < |job| && job[j].0 == w.0 && props(job[j].1) == w.1
    ensures |Kept(job, props)| <= |job|
  {
    if job != [] {
      var init := job[..|job| - 1];
      KeptSound(init, props);
      forall w | w in Kept(job, props)
        ensures w.1 != [] && exists j :: 0 <= j < |job| && job[j].0 == w.0 && props(job[j].1) == w.1
      {
        if w in Kept(init, props) {
          var j :| 0 <= j < |init| && init[j].0 == w.0 && props(init[j].1) == w.1;
          assert job[j] == init[j];
        } else {
          assert job[|job| - 1].0 == w.0;
        }
      }
    }
  }

  /** Every entry with a non-empty vector is kept. */
  lemma {:induction false} KeptComplete<M, V>(job: seq<(nat, M)>, props: M -> seq<V>)
    ensures forall j :: 0 <= j < |job| && props(job[j].1) != [] ==>
      (job[j].0, props(job[j].1)) in Kept(job, props)
  {
    if job != [] {
      var init := job[..|job| - 1];
      KeptComplete(init, props);
      forall j | 0 <= j < |init| && props(job[j].1) != []
        ensures (job[j].0, props(job[j].1)) in Kept(job, props)
      {
        assert init[j] == job[j];
      }
    }
  }

  /** Increasing indices stay increasing. */
  lemma {:induction false} KeptOrdered<M, V>(job: seq<(nat, M)>, props: M -> seq<V>)
    ensures Increasing(job) ==> Increasing(Kept(job, props))
  {
    if job != [] && Increasing(job) {
      var init := job[..|job| - 1];
      var last := job[|job| - 1];
      KeptOrdered(init, props);
      KeptSound(init, props);
      forall w | w in Kept(init, props)
        ensures w.0 < last.0
      {
        var j :| 0 <= j < |init| && init[j].0 == w.0 && props(init[j].1) == w.1;
        assert job[j] == init[j];
      }
    }
  }

  /** `process(job)`: one pass over the job, skipping entries whose
      descriptor vector is empty. */
  method Process<M, V>(job: seq<(nat, M)>, props: M -> seq<V>) returns (res: seq<(nat, seq<V>)>)
    ensures res == Kept(job, props)
  {
    res := [];
    var k := 0;
    while k < |job|
      invariant k <= |job|
      invariant res == Kept(job[..k], props)
    {
      var (index, smiles) := job[k];
      assert job[..k + 1][..k] == job[..k];
      var counts := props(smiles);
      if counts != [] {
        res := res + [(index, counts)];
      }
      k := k + 1;
    }
    assert job[..k] == job;
  }

  /** A dispatched batch: non-empty, at most `batchsize` consecutive indices,
      and short only when it ends at the last record. */
  predicate IsBatch<M>(b: seq<(nat, M)>, batchsize: nat, n: nat)
  {
    1 <= |b| <= batchsize &&
    (forall t :: 0 <= t < |b| ==> b[t].0 == b[0].0 + t) &&
    (|b| == batchsize || b[|b| - 1].0 == n - 1)
  }

  predicate AllBatches<M>(joblist: seq<seq<(nat, M)>>, batchsize: nat, n: nat)
  {
    forall b :: 0 <= b < |joblist| ==> IsBatch(joblist[b], batchsize, n)
  }

  lemma AllBatchesSnoc<M>(joblist: seq<seq<(nat, M)>>, jobs: seq<(nat, M)>, batchsize: nat, n: nat)
    requires AllBatches(joblist, batchsize, n) && IsBatch(jobs, batchsize, n)
    ensures AllBatches(joblist + [jobs], batchsize, n)
  {
    assert forall b :: 0 <= b < |joblist| ==> (joblist + [jobs])[b] == joblist[b];
  }

  /** The records `[lo, hi)` taken by one non-empty `for` loop form a batch. */
  lemma JobsAreBatch<M>(lo: nat, hi: nat, batchsize: nat, n: nat, getMol: nat -> M)
    requires lo < hi && hi == (if lo + batchsize < n then lo + batchsize else n)
    ensures IsBatch(Jobs(lo, hi, getMol), batchsize, n)
  {
  }

  /** Where the next round's first non-empty batch starts: at `count`, or,
      once `count` has reached `n`, at `i + 1`, to which the first empty
      batch's `count = i + 1` moves `count` back. */
  function Start(count: nat, i: nat, n: nat): nat
  {
    if count == n then i + 1 else count
  }

  /** One batch: `for i in range(count, min(count + batchsize, n))` collecting
      `(i, getMol(i))`, then `count = i + 1`. `i` is the script's one
      module-level variable, which outlives every loop that binds it: after an
      empty range `count = i + 1` reads whatever index was bound to it last,
      and Python raises NameError when none was, so an unbound `i` needs
      `count < n`. */
  method Batch<M>(n: nat, batchsize: nat, getMol: nat -> M, count: nat, i: nat, ghost iBound: bool)
    returns (jobs: seq<(nat, M)>, count': nat, i': nat, ghost iBound': bool)
    requires batchsize >= 1 && count <= n
    requires !iBound ==> count < n
    ensures iBound' && count' == i' + 1
    ensures count < n ==>
      count' == (if count + batchsize < n then count + batchsize else n) && jobs == Jobs(count, count', getMol)
    ensures count == n ==> jobs == [] && i' == i
  {
    jobs := [];
    i', iBound' := i, iBound;
    var hi := if count + batchsize < n then count + batchsize else n;
    var j := count;
    while j < hi
      invariant j == count || (count < j <= hi && iBound' && i' == j - 1)
      invariant j == count ==> i' == i && iBound' == iBound
      invariant jobs == Jobs(count, j, getMol)
    {
      i' := j;
      iBound' := true;
      jobs := jobs + [(i', getMol(i'))];
      j := j + 1;
    }
    count' := i' + 1;
  }

  /** One round of the script's `while` loop, the part that builds
      `joblist`: one batch per CPU, kept when non-empty. `i` is the index
      last bound to the script's loop variable, below `count`. The round
      covers the records from `Start(count, i, n)` on in valid batches: the
      next `numCpus * batchsize` records while `count < n`; once `count` has
      reached `n`, the first batch is empty and moves `count` back to
      `i + 1`, and the other `numCpus - 1` CPUs dispatch the next
      `(numCpus - 1) * batchsize` records from there again. */
  method Round<M>(n: nat, batchsize: nat, numCpus: nat, getMol: nat -> M,
                  count: nat, i: nat, ghost iBound: bool)
    returns (joblist: seq<seq<(nat, M)>>, count': nat, i': nat, ghost iBound': bool)
    requires batchsize >= 1 && numCpus >= 1 && count <= n
    requires iBound ==> i < count
    requires !iBound ==> count == 0 < n
    ensures iBound' && count' == i' + 1
    ensures Start(count, i, n) <= count' <= n
    ensures Flatten(joblist) == Jobs(Start(count, i, n), count', getMol)
    ensures |joblist| <= numCpus
    ensures AllBatches(joblist, batchsize, n)
    ensures count < n ==> count' == RoundEnd(count, n, batchsize, numCpus)
    ensures count == n ==> i + 1 <= n && count' == RoundEnd(i + 1, n, batchsize, numCpus - 1)
    ensures joblist == [] <==> count' == Start(count, i, n)
    ensures joblist == [] <==> count == n && (i + 1 == n || numCpus == 1)
  {
    joblist := [];
    count', i', iBound' := count, i, iBound;
    var cpu := 0;
    while cpu < numCpus
      invariant cpu <= numCpus
      invariant RoundSoFar(n, batchsize, getMol, count, i, iBound, cpu, joblist, count', i', iBound')
    {
      var jobs;
      ghost var (c0, i0, b0, js0) := (count', i', iBound', joblist);
      jobs, count', i', iBound' := Batch(n, batchsize, getMol, count', i', iBound');
      if jobs != [] {
        joblist := joblist + [jobs];
      }
      RoundStep(n, batchsize, getMol, count, i, iBound, cpu, js0, c0, i0, b0, jobs, count', i');
      cpu := cpu + 1;
    }
  }

  /** The state of a round after `cpu` batches: `c` and `j` are the current
      `count` and `i`. The batches kept so far cover the records from
      `Start(count, i, n)` to `c`, and are empty exactly when the first
      non-empty batch is still to come. */
  ghost predicate RoundSoFar<M>(n: nat, batchsize: nat, getMol: nat -> M, count: nat, i: nat, iBound: bool,
                                cpu: nat, joblist: seq<seq<(nat, M)>>, c: nat, j: nat, jBound: bool)
  {
    var s := Start(count, i, n);
    (cpu == 0 ==> c == count && j == i && jBound == iBound && joblist == []) &&
    (cpu > 0 ==>
      jBound && c == j + 1 && s <= c <= n && Flatten(joblist) == Jobs(s, c, getMol) && (joblist == [] <==> c == s)) &&
    (count < n && cpu > 0 ==> c == RoundEnd(count, n, batchsize, cpu)) &&
    (count == n && cpu > 0 ==> (c == s <==> s == n || cpu == 1)) &&
    (count == n && cpu > 0 ==> i + 1 <= n && c == RoundEnd(i + 1, n, batchsize, cpu - 1)) &&
    |joblist| <= cpu && AllBatches(joblist, batchsize, n)
  }

  /** One more batch keeps the round's state. */
  lemma RoundStep<M>(n: nat, batchsize: nat, getMol: nat -> M, count: nat, i: nat, iBound: bool,
                     cpu: nat, joblist: seq<seq<(nat, M)>>, c: nat, j: nat, jBound: bool,
                     jobs: seq<(nat, M)>, c': nat, j': nat)
    requires batchsize >= 1 && count <= n && (iBound ==> i < count) && (!iBound ==> count == 0 < n)
    requires RoundSoFar(n, batchsize, getMol, count, i, iBound, cpu, joblist, c, j, jBound)
    requires c' == j' + 1
    requires c < n ==> c' == (if c + batchsize < n then c + batchsize else n) && jobs == Jobs(c, c', getMol)
    requires c == n ==> jobs == [] && j' == j
    ensures RoundSoFar(n, batchsize, getMol, count, i, iBound, cpu + 1,
                       if jobs != [] then joblist + [jobs] else joblist, c', j', true)
  {
    if c < n {
      RoundStepTaken(n, batchsize, getMol, count, i, iBound, cpu, joblist, c, j, jBound, c');
    } else {
      RoundStepEmpty(n, batchsize, getMol, count, i, iBound, cpu, joblist, c, j, jBound, c', j');
    }
  }

  /** A batch taken below `n` extends the round. */
  lemma RoundStepTaken<M>(n: nat, batchsize: nat, getMol: nat -> M, count: nat, i: nat, iBound: bool,
                          cpu: nat, joblist: seq<seq<(nat, M)>>, c: nat, j: nat, jBound: bool, c': nat)
    requires batchsize >= 1 && count <= n && (iBound ==> i < count) && (!iBound ==> count == 0 < n)
    requires RoundSoFar(n, batchsize, getMol, count, i, iBound, cpu, joblist, c, j, jBound)
    requires c < n && c' == (if c + batchsize < n then c + batchsize else n)
    ensures RoundSoFar(n, batchsize, getMol, count, i, iBound, cpu + 1,
                       joblist + [Jobs(c, c', getMol)], c', c' - 1, true)
  {
    BatchSnoc(joblist, Start(count, i, n), c, c', batchsize, n, getMol);
  }

  /** An empty batch at `n` only moves `count` to `i + 1`. */
  lemma RoundStepEmpty<M>(n: nat, batchsize: nat, getMol: nat -> M, count: nat, i: nat, iBound: bool,
                          cpu: nat, joblist: seq<seq<(nat, M)>>, c: nat, j: nat, jBound: bool, c': nat, j': nat)
    requires batchsize >= 1 && count <= n && (iBound ==> i < count) && (!iBound ==> count == 0 < n)
    requires RoundSoFar(n, batchsize, getMol, count, i, iBound, cpu, joblist, c, j, jBound)
    requires c == n && c' == j' + 1 && j' == j
    ensures RoundSoFar(n, batchsize, getMol, count, i, iBound, cpu + 1, joblist, c', j', true)
  {
  }

  /** Appending the batch `[before, after)` to batches covering
      `[s, before)` covers `[s, after)` in valid batches. */
  lemma BatchSnoc<M>(joblist: seq<seq<(nat, M)>>, s: nat, before: nat, after: nat,
                     batchsize: nat, n: nat, getMol: nat -> M)
    requires s <= before < after && after == (if before + batchsize < n then before + batchsize else n)
    requires Flatten(joblist) == Jobs(s, before, getMol) && AllBatches(joblist, batchsize, n)
    ensures Flatten(joblist + [Jobs(before, after, getMol)]) == Jobs(s, after, getMol)
    ensures AllBatches(joblist + [Jobs(before, after, getMol)], batchsize, n)
  {
    FlattenSnoc(joblist, Jobs(before, after, getMol));
    JobsSplit(s, before, after, getMol);
    JobsAreBatch(before, after, batchsize, n, getMol);
    AllBatchesSnoc(joblist, Jobs(before, after, getMol), batchsize, n);
  }

  lemma KeptFlattenSnoc<M, V>(joblist: seq<seq<(nat, M)>>, k: nat, props: M -> seq<V>)
    requires k < |joblist|
    ensures Kept(Flatten(joblist[..k + 1]), props) == Kept(Flatten(joblist[..k]), props) + Kept(joblist[k], props)
  {
    assert joblist[..k + 1] == joblist[..k] + [joblist[k]];
    FlattenSnoc(joblist[..k], joblist[k]);
    KeptAppend(Flatten(joblist[..k]), joblist[k], props);
  }

  /** `for i, v in result: s.putRow(i, v)`: `writes` gains the pairs in
      order, and the loop leaves the script's `i` at the last index written,
      or unchanged when `result` is empty. */
  method PutRows<V>(result: seq<(nat, seq<V>)>, writes: seq<(nat, seq<V>)>, i: nat)
    returns (writes': seq<(nat, seq<V>)>, i': nat)
    ensures writes' == writes + result
    ensures result == [] ==> i' == i
    ensures result != [] ==> i' == result[|result| - 1].0
  {
    writes', i' := writes, i;
    var t := 0;
    while t < |result|
      invariant t <= |result|
      invariant writes' == writes + result[..t]
      invariant t == 0 ==> i' == i
      invariant t > 0 ==> i' == result[t - 1].0
    {
      var v;
      i', v := result[t].0, result[t].1;
      writes' := writes' + [(i', v)];
      t := t + 1;
    }
    assert result[..t] == result;
  }

  /** The script's result loop for one round: `process` on each batch in
      order, then the `putRow` loop over each result. `writes` lists the
      `putRow` arguments in call order; `i'` is where the loops leave the
      script's `i`. */
  method PutResults<M, V>(joblist: seq<seq<(nat, M)>>, props: M -> seq<V>, i: nat)
    returns (writes: seq<(nat, seq<V>)>, i': nat)
    ensures writes == Kept(Flatten(joblist), props)
    ensures writes == [] ==> i' == i
    ensures writes != [] ==> i' == writes[|writes| - 1].0
  {
    writes := [];
    i' := i;
    var k := 0;
    while k < |joblist|
      invariant k <= |joblist|
      invariant writes == Kept(Flatten(joblist[..k]), props)
      invariant writes == [] ==> i' == i
      invariant writes != [] ==> i' == writes[|writes| - 1].0
    {
      var result := Process(joblist[k], props);
      writes, i' := PutRows(result, writes, i');
      KeptFlattenSnoc(joblist, k, props);
      k := k + 1;
    }
    assert joblist[..k] == joblist;
  }

  /** Every round holds between one and `numCpus` batches, each a valid
      batch. */
  predicate WellFormed<M>(rounds: seq<seq<seq<(nat, M)>>>, batchsize: nat, numCpus: nat, n: nat)
  {
    (forall r :: 0 <= r < |rounds| ==> 1 <= |rounds[r]| <= numCpus) &&
    (forall r :: 0 <= r < |rounds| ==> AllBatches(rounds[r], batchsize, n))
  }

  /** The index the result loop leaves in `i` after a round over `job`: the
      last kept index, or `i` itself when nothing is kept. */
  function LastKept<M, V>(job: seq<(nat, M)>, props: M -> seq<V>, i: nat): nat
  {
    var w := Kept(job, props);
    if w == [] then i else w[|w| - 1].0
  }

  /** The last kept index of the records `[lo, hi)` lies among them, and no
      record after it is kept. */
  lemma LastKeptBounds<M, V>(lo: nat, hi: nat, getMol: nat -> M, props: M -> seq<V>, i: nat)
    requires lo <= hi
    ensures Kept(Jobs(lo, hi, getMol), props) != [] ==> lo <= LastKept(Jobs(lo, hi, getMol), props, i) < hi
    ensures forall k :: lo <= k < hi && (Kept(Jobs(lo, hi, getMol), props) != [] ==> LastKept(Jobs(lo, hi, getMol), props, i) < k) ==>
      props(getMol(k)) == []
  {
    var job := Jobs(lo, hi, getMol);
    var w := Kept(job, props);
    KeptFilters(job, props);
    if w != [] {
      assert w[|w| - 1] in w;
    }
    forall k | lo <= k < hi && (w != [] ==> w[|w| - 1].0 < k)
      ensures props(getMol(k)) == []
    {
      assert job[k - lo] == (k, getMol(k));
    }
  }

  /** Records that all have empty descriptor vectors write nothing. */
  lemma {:induction false} KeptNone<M, V>(lo: nat, hi: nat, getMol: nat -> M, props: M -> seq<V>)
    requires lo <= hi
    requires forall k :: lo <= k < hi ==> props(getMol(k)) == []
    ensures Kept(Jobs(lo, hi, getMol), props) == []
    decreases hi - lo
  {
    if lo < hi {
      KeptNone(lo, hi - 1, getMol, props);
      assert Jobs(lo, hi, getMol)[..hi - 1 - lo] == Jobs(lo, hi - 1, getMol);
    }
  }

  /** Where a round of `numCpus` batches from `count` stops. */
  function RoundEnd(count: nat, n: nat, batchsize: nat, numCpus: nat): (r: nat)
    requires count <= n
    ensures count <= r <= n
    ensures batchsize >= 1 && numCpus >= 1 && count < n ==> count < r
  {
    if numCpus == 0 then count
    else
      var e := RoundEnd(count, n, batchsize, numCpus - 1);
      if e + batchsize < n then e + batchsize else n
  }

  /** A round moves `count` on by `numCpus * batchsize`, up to `n`. */
  lemma {:induction false} RoundEndStep(count: nat, n: nat, batchsize: nat, numCpus: nat)
    requires count <= n
    ensures RoundEnd(count, n, batchsize, numCpus) ==
      if count + numCpus * batchsize < n then count + numCpus * batchsize else n
  {
    if numCpus > 0 {
      RoundEndStep(count, n, batchsize, numCpus - 1);
      MulPred(numCpus, batchsize);
    }
  }

  lemma MulPred(k: nat, b: nat)
    requires k >= 1
    ensures k * b == (k - 1) * b + b
  {
  }

  /** Where the round that reaches `n` starts, rounds being taken from
      `count` on. */
  function LastRoundStart(count: nat, n: nat, batchsize: nat, numCpus: nat): (r: nat)
    requires batchsize >= 1 && numCpus >= 1 && count < n
    ensures count <= r < n && RoundEnd(r, n, batchsize, numCpus) == n
    decreases n - count
  {
    RoundEndStep(count, n, batchsize, numCpus);
    var e := RoundEnd(count, n, batchsize, numCpus);
    if e == n then count else LastRoundStart(e, n, batchsize, numCpus)
  }

  /** The first record the script dispatches a second time: one past the last
      record kept by the round that reaches `n`, or `n` when none is (a
      single CPU never dispatches twice). */
  function Redispatched<M, V>(n: nat, batchsize: nat, numCpus: nat, getMol: nat -> M, props: M -> seq<V>): (m: nat)
    requires n >= 1 && batchsize >= 1 && numCpus >= 1
    ensures m <= n
  {
    if numCpus == 1 then n
    else
      var last := LastRoundStart(0, n, batchsize, numCpus);
      LastKeptBounds(last, n, getMol, props, n - 1);
      LastKept(Jobs(last, n, getMol), props, n - 1) + 1
  }

  /** Every record the script dispatches a second time has an empty
      descriptor vector. */
  lemma RedispatchedFiltered<M, V>(n: nat, batchsize: nat, numCpus: nat, getMol: nat -> M, props: M -> seq<V>)
    requires n >= 1 && batchsize >= 1 && numCpus >= 1
    ensures forall k :: Redispatched(n, batchsize, numCpus, getMol, props) <= k < n ==> props(getMol(k)) == []
  {
    if numCpus > 1 {
      LastKeptBounds(LastRoundStart(0, n, batchsize, numCpus), n, getMol, props, n - 1);
    }
  }

  /** The script's `while` loop and its `putRow` calls, as written: `rounds`
      lists each round's job list and `writes` the `putRow` arguments. The
      result loop rebinds `i`, so after the round that reaches `n` the next
      round moves `count` back to one past the last kept record and
      dispatches the records from there to `n` again. The batches are
      therefore the records `[0, n)` in order followed by the records
      `[Redispatched(...), n)`; those all have empty descriptor vectors, so
      the `putRow` calls are still exactly the kept records of `[0, n)`. */
  method Run<M, V>(n: nat, batchsize: nat, numCpus: nat, getMol: nat -> M, props: M -> seq<V>)
    returns (rounds: seq<seq<seq<(nat, M)>>>, writes: seq<(nat, seq<V>)>)
    requires n >= 1 && batchsize >= 1 && numCpus >= 1
    ensures Flatten(Flatten(rounds)) ==
      Jobs(0, n, getMol) + Jobs(Redispatched(n, batchsize, numCpus, getMol, props), n, getMol)
    ensures WellFormed(rounds, batchsize, numCpus, n)
    ensures writes == Kept(Jobs(0, n, getMol), props)
  {
    var count: nat := 0;
    var i: nat := 0;
    ghost var iBound := false;
    ghost var reached := false;
    rounds := [];
    writes := [];
    while true
      invariant RunSoFar(n, batchsize, numCpus, getMol, props, count, i, iBound, reached, Flatten(Flatten(rounds)), writes)
      invariant WellFormed(rounds, batchsize, numCpus, n)
      decreases n - Start(count, i, n)
    {
      ghost var (c0, i0, b0, done) := (count, i, iBound, Flatten(Flatten(rounds)));
      var joblist;
      joblist, count, i, iBound := Round(n, batchsize, numCpus, getMol, count, i, iBound);
      if joblist == [] {
        RunDone(n, batchsize, numCpus, getMol, props, c0, i0, b0, reached, done, writes);
        break;
      }
      var results;
      ghost var last := i;
      results, i := PutResults(joblist, props, i);
      RunStep(n, batchsize, numCpus, getMol, props, c0, i0, b0, reached, done, writes, count, last, i, results);
      writes := writes + results;
      RoundsSnoc(rounds, joblist, batchsize, numCpus, n);
      rounds := rounds + [joblist];
      reached := reached || count == n;
    }
  }

  /** The state of the script's loop at the head of a round, `dispatched`
      being the batches so far, in order: before `count` first reaches `n`
      it is `RunBefore`, from then on `RunAfter`. */
  ghost predicate RunSoFar<M, V>(n: nat, batchsize: nat, numCpus: nat, getMol: nat -> M, props: M -> seq<V>,
                                 count: nat, i: nat, iBound: bool, reached: bool,
                                 dispatched: seq<(nat, M)>, writes: seq<(nat, seq<V>)>)
    requires n >= 1 && batchsize >= 1 && numCpus >= 1
  {
    count <= n && (iBound ==> i < count) && (!iBound ==> count == 0) &&
    if reached then
      iBound &&
      RunAfter(n, numCpus, getMol, props, Redispatched(n, batchsize, numCpus, getMol, props), count, i, dispatched, writes)
    else RunBefore(n, batchsize, numCpus, getMol, props, count, dispatched, writes)
  }

  /** Before `count` reaches `n` the batches are the records `[0, count)`,
      and rounds start on the grid that leads to `LastRoundStart`. */
  ghost predicate RunBefore<M, V>(n: nat, batchsize: nat, numCpus: nat, getMol: nat -> M, props: M -> seq<V>,
                                  count: nat, dispatched: seq<(nat, M)>, writes: seq<(nat, seq<V>)>)
    requires n >= 1 && batchsize >= 1 && numCpus >= 1
  {
    count < n && LastRoundStart(count, n, batchsize, numCpus) == LastRoundStart(0, n, batchsize, numCpus) &&
    dispatched == Jobs(0, count, getMol) && writes == Kept(Jobs(0, count, getMol), props)
  }

  /** Once `count` has reached `n` the batches are the records `[0, n)`
      followed by the records dispatched again, which start at `m` and run up
      to where the next round starts. */
  ghost predicate RunAfter<M, V>(n: nat, numCpus: nat, getMol: nat -> M, props: M -> seq<V>, m: nat,
                                 count: nat, i: nat, dispatched: seq<(nat, M)>, writes: seq<(nat, seq<V>)>)
  {
    writes == Kept(Jobs(0, n, getMol), props) &&
    if numCpus == 1 then count == n && dispatched == Jobs(0, n, getMol)
    else m <= Start(count, i, n) && dispatched == Jobs(0, n, getMol) + Jobs(m, Start(count, i, n), getMol)
  }

  /** A non-empty round and its `putRow` calls keep the loop's state, and the
      next round starts further on. */
  lemma RunStep<M, V>(n: nat, batchsize: nat, numCpus: nat, getMol: nat -> M, props: M -> seq<V>,
                      count: nat, i: nat, iBound: bool, reached: bool,
                      dispatched: seq<(nat, M)>, writes: seq<(nat, seq<V>)>,
                      count': nat, last: nat, i': nat, results: seq<(nat, seq<V>)>)
    requires n >= 1 && batchsize >= 1 && numCpus >= 1
    requires RunSoFar(n, batchsize, numCpus, getMol, props, count, i, iBound, reached, dispatched, writes)
    requires last + 1 == count' && Start(count, i, n) < count' <= n
    requires count < n ==> count' == RoundEnd(count, n, batchsize, numCpus)
    requires count == n ==> numCpus > 1
    requires results == Kept(Jobs(Start(count, i, n), count', getMol), props)
    requires results == [] ==> i' == last
    requires results != [] ==> i' == results[|results| - 1].0
    ensures Start(count, i, n) < Start(count', i', n)
    ensures RunSoFar(n, batchsize, numCpus, getMol, props, count', i', true, reached || count' == n,
                     dispatched + Jobs(Start(count, i, n), count', getMol), writes + results)
  {
    if !reached {
      assert Start(count, i, n) == count;
      assert i' == LastKept(Jobs(count, count', getMol), props, last);
      LastKeptBounds(count, count', getMol, props, last);
      if count' < n {
        RunStepFirst(n, batchsize, numCpus, getMol, props, count, dispatched, writes, count', results);
      } else {
        RunStepLast(n, batchsize, numCpus, getMol, props, count, dispatched, writes, i', results);
      }
    } else {
      RedispatchedFiltered(n, batchsize, numCpus, getMol, props);
      RunStepAgain(n, numCpus, getMol, props, Redispatched(n, batchsize, numCpus, getMol, props),
                   count, i, dispatched, writes, count', last, i', results);
    }
  }

  /** A round that starts and ends before `n` covers the records from
      `count` to its end and stays on the grid. */
  lemma RunStepFirst<M, V>(n: nat, batchsize: nat, numCpus: nat, getMol: nat -> M, props: M -> seq<V>,
                           count: nat, dispatched: seq<(nat, M)>, writes: seq<(nat, seq<V>)>,
                           count': nat, results: seq<(nat, seq<V>)>)
    requires n >= 1 && batchsize >= 1 && numCpus >= 1
    requires RunBefore(n, batchsize, numCpus, getMol, props, count, dispatched, writes)
    requires count' == RoundEnd(count, n, batchsize, numCpus) < n
    requires results == Kept(Jobs(count, count', getMol), props)
    ensures RunBefore(n, batchsize, numCpus, getMol, props, count', dispatched + Jobs(count, count', getMol), writes + results)
  {
    KeptJobsSplit(count, count', getMol, props);
    JobsSplit(0, count, count', getMol);
  }

  /** The round that reaches `n` is the last round of the grid, and the
      result loop leaves `i` at its last kept record, so the next round starts
      at `Redispatched(...)`. */
  lemma RunStepLast<M, V>(n: nat, batchsize: nat, numCpus: nat, getMol: nat -> M, props: M -> seq<V>,
                          count: nat, dispatched: seq<(nat, M)>, writes: seq<(nat, seq<V>)>,
                          i': nat, results: seq<(nat, seq<V>)>)
    requires n >= 1 && batchsize >= 1 && numCpus >= 1
    requires RunBefore(n, batchsize, numCpus, getMol, props, count, dispatched, writes)
    requires n == RoundEnd(count, n, batchsize, numCpus)
    requires results == Kept(Jobs(count, n, getMol), props)
    requires i' == LastKept(Jobs(count, n, getMol), props, n - 1)
    requires count <= i' < n
    ensures RunAfter(n, numCpus, getMol, props, Redispatched(n, batchsize, numCpus, getMol, props),
                     n, i', dispatched + Jobs(count, n, getMol), writes + results)
  {
    if numCpus > 1 {
      assert LastRoundStart(0, n, batchsize, numCpus) == count;
    }
    RunReaches(n, numCpus, getMol, props, Redispatched(n, batchsize, numCpus, getMol, props),
               count, dispatched, writes, i', results);
  }

  /** The state once the round from `count` has reached `n`, for a
      re-dispatch start `m` one past the index the result loop left in `i`. */
  lemma RunReaches<M, V>(n: nat, numCpus: nat, getMol: nat -> M, props: M -> seq<V>, m: nat,
                         count: nat, dispatched: seq<(nat, M)>, writes: seq<(nat, seq<V>)>,
                         i': nat, results: seq<(nat, seq<V>)>)
    requires numCpus >= 1 && count <= i' < n
    requires dispatched == Jobs(0, count, getMol) && writes == Kept(Jobs(0, count, getMol), props)
    requires results == Kept(Jobs(count, n, getMol), props)
    requires numCpus > 1 ==> m == i' + 1
    ensures RunAfter(n, numCpus, getMol, props, m, n, i', dispatched + Jobs(count, n, getMol), writes + results)
  {
    KeptJobsSplit(count, n, getMol, props);
    JobsSplit(0, count, n, getMol);
    assert Start(n, i', n) == i' + 1;
    assert Jobs(i' + 1, i' + 1, getMol) == [];
    assert dispatched + Jobs(count, n, getMol) == Jobs(0, n, getMol) + Jobs(i' + 1, i' + 1, getMol);
  }

  /** A round taken after `count` has reached `n` dispatches only records
      with empty descriptor vectors: it writes nothing, and leaves `i` at its
      last record. */
  lemma RunStepAgain<M, V>(n: nat, numCpus: nat, getMol: nat -> M, props: M -> seq<V>, m: nat,
                           count: nat, i: nat,
                           dispatched: seq<(nat, M)>, writes: seq<(nat, seq<V>)>,
                           count': nat, last: nat, i': nat, results: seq<(nat, seq<V>)>)
    requires numCpus > 1 && i < count <= n
    requires forall k :: m <= k < n ==> props(getMol(k)) == []
    requires RunAfter(n, numCpus, getMol, props, m, count, i, dispatched, writes)
    requires last + 1 == count' && Start(count, i, n) < count' <= n
    requires results == Kept(Jobs(Start(count, i, n), count', getMol), props)
    requires results == [] ==> i' == last
    ensures results == [] && i' + 1 == count'
    ensures RunAfter(n, numCpus, getMol, props, m, count', i',
                     dispatched + Jobs(Start(count, i, n), count', getMol), writes + results)
  {
    var s := Start(count, i, n);
    KeptNone(s, count', getMol, props);
    JobsSplit(m, s, count', getMol);
  }

  /** An empty round ends the loop: every record was dispatched, then the
      records from `Redispatched(...)` on once more. */
  lemma RunDone<M, V>(n: nat, batchsize: nat, numCpus: nat, getMol: nat -> M, props: M -> seq<V>,
                      count: nat, i: nat, iBound: bool, reached: bool,
                      dispatched: seq<(nat, M)>, writes: seq<(nat, seq<V>)>)
    requires n >= 1 && batchsize >= 1 && numCpus >= 1
    requires RunSoFar(n, batchsize, numCpus, getMol, props, count, i, iBound, reached, dispatched, writes)
    requires count == n && (i + 1 == n || numCpus == 1)
    ensures dispatched == Jobs(0, n, getMol) + Jobs(Redispatched(n, batchsize, numCpus, getMol, props), n, getMol)
    ensures writes == Kept(Jobs(0, n, getMol), props)
  {
    if numCpus == 1 {
      assert Jobs(n, n, getMol) == [];
    }
  }

  /** The loop as evidently intended: the result loop binds a variable of
      its own (`for j, v in result`), so `count` never moves back and the
      batches are the records `[0, n)`, each exactly once and in order. */
  method RunOnce<M, V>(n: nat, batchsize: nat, numCpus: nat, getMol: nat -> M, props: M -> seq<V>)
    returns (rounds: seq<seq<seq<(nat, M)>>>, writes: seq<(nat, seq<V>)>)
    requires n >= 1 && batchsize >= 1 && numCpus >= 1
    ensures Flatten(Flatten(rounds)) == Jobs(0, n, getMol)
    ensures WellFormed(rounds, batchsize, numCpus, n)
    ensures writes == Kept(Jobs(0, n, getMol), props)
  {
    var count: nat := 0;
    var i: nat := 0;
    ghost var iBound := false;
    rounds := [];
    writes := [];
    while true
      invariant count <= n
      invariant iBound ==> count == i + 1
      invariant !iBound ==> count == 0
      invariant Flatten(Flatten(rounds)) == Jobs(0, count, getMol)
      invariant WellFormed(rounds, batchsize, numCpus, n)
      invariant writes == Kept(Jobs(0, count, getMol), props)
      decreases n - count
    {
      var lastcount := count;
      var joblist;
      joblist, count, i, iBound := Round(n, batchsize, numCpus, getMol, count, i, iBound);
      if joblist == [] {
        break;
      }
      var results, j := PutResults(joblist, props, i);
      KeptJobsSplit(lastcount, count, getMol, props);
      JobsSplit(0, lastcount, count, getMol);
      writes := writes + results;
      RoundsSnoc(rounds, joblist, batchsize, numCpus, n);
      rounds := rounds + [joblist];
    }
  }

  /** Three records, two CPUs, and only record 2 without descriptors: the
      round that reaches `n` keeps records 0 and 1, so the script as written
      dispatches record 2 a second time. */
  lemma RedispatchExample()
    ensures Redispatched(3, BatchSize, 2, (k: nat) => k, (k: nat) => if k < 2 then [k] else []) == 2
    ensures var all := Jobs(0, 3, (k: nat) => k) + Jobs(2, 3, (k: nat) => k);
      |all| == 4 && all[2] == (2, 2) && all[3] == (2, 2)
  {
    var getMol: nat -> nat := (k: nat) => k;
    var props: nat -> seq<nat> := (k: nat) => if k < 2 then [k] else [];
    assert RoundEnd(0, 3, BatchSize, 2) == 3;
    assert LastRoundStart(0, 3, BatchSize, 2) == 0;
    assert Jobs(0, 3, getMol) == [(0, 0), (1, 1), (2, 2)];
    ExampleKept(Jobs(0, 3, getMol), props);
  }

  /** The example's single round keeps records 0 and 1. */
  lemma ExampleKept(job: seq<(nat, nat)>, props: nat -> seq<nat>)
    requires job == [(0, 0), (1, 1), (2, 2)]
    requires forall k: nat :: props(k) == if k < 2 then [k] else []
    ensures Kept(job, props) == [(0, [0]), (1, [1])]
  {
    assert job[..2] == [(0, 0), (1, 1)] && job[..2][..1] == job[..1] == [(0, 0)];
    assert Kept(job[..1], props) == [(0, [0])];
    assert Kept(job[..2], props) == [(0, [0]), (1, [1])];
  }

  /** What the run writes: each `putRow` names a record below `n` with that
      record's own descriptor vector, the indices strictly increase so no
      row is written twice, and every record with a non-empty vector is
      written. */
  lemma RunWritesEachRowOnce<M, V>(n: nat, getMol: nat -> M, props: M -> seq<V>)
    ensures Increasing(Kept(Jobs(0, n, getMol), props))
    ensures forall w :: w in Kept(Jobs(0, n, getMol), props) ==>
      w.0 < n && w.1 == props(getMol(w.0)) && w.1 != []
    ensures forall k :: 0 <= k < n && props(getMol(k)) != [] ==>
      (k, props(getMol(k))) in Kept(Jobs(0, n, getMol), props)
  {
    var jobs := Jobs(0, n, getMol);
    KeptFilters(jobs, props);
    forall k | 0 <= k < n && props(getMol(k)) != []
      ensures (k, props(getMol(k))) in Kept(jobs, props)
    {
      assert jobs[k] == (k, getMol(k));
    }
  }

  /** The records written up to `count` are those written up to `lastcount`
      followed by those of the records in between. */
  lemma KeptJobsSplit<M, V>(lastcount: nat, count: nat, getMol: nat -> M, props: M -> seq<V>)
    requires lastcount <= count
    ensures Kept(Jobs(0, count, getMol), props) ==
      Kept(Jobs(0, lastcount, getMol), props) + Kept(Jobs(lastcount, count, getMol), props)
  {
    JobsSplit(0, lastcount, count, getMol);
    KeptAppend(Jobs(0, lastcount, getMol), Jobs(lastcount, count, getMol), props);
  }

  /** Appending a round keeps the rounds well-formed and appends its
      batches to theirs. */
  lemma RoundsSnoc<M>(rounds: seq<seq<seq<(nat, M)>>>, joblist: seq<seq<(nat, M)>>,
                      batchsize: nat, numCpus: nat, n: nat)
    requires WellFormed(rounds, batchsize, numCpus, n)
    requires 1 <= |joblist| <= numCpus && AllBatches(joblist, batchsize, n)
    ensures Flatten(Flatten(rounds + [joblist])) == Flatten(Flatten(rounds)) + Flatten(joblist)
    ensures WellFormed(rounds + [joblist], batchsize, numCpus, n)
  {
    RoundsFlattenSnoc(rounds, joblist);
    var rs := rounds + [joblist];
    forall r | 0 <= r < |rs|
      ensures 1 <= |rs[r]| <= numCpus && AllBatches(rs[r], batchsize, n)
    {
      if r < |rounds| {
        assert rs[r] == rounds[r];
      }
    }
  }

  lemma RoundsFlattenSnoc<M>(rounds: seq<seq<seq<(nat, M)>>>, joblist: seq<seq<(nat, M)>>)
    ensures Flatten(Flatten(rounds + [joblist])) == Flatten(Flatten(rounds)) + Flatten(joblist)
  {
    FlattenSnoc(rounds, joblist);
    FlattenAppend(Flatten(rounds), joblist);
  }

  lemma JobsSplit<M>(lo: nat, mid: nat, hi: nat, getMol: nat -> M)
    requires lo <= mid <= hi
    ensures Jobs(lo, hi, getMol) == Jobs(lo, mid, getMol) + Jobs(mid, hi, getMol)
  {
  }
}

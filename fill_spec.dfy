/** What one run of the fill-to-target loop of `generateStringCountRequest`
    does, stated as functions of the count it starts from: how many records
    it adds, which keys and values they get, and at which loop indices it
    reports progress. The loop itself is `Worker.WorkerScope.GenerateStringCountRequest`. */
module FillSpec {
  import opened RandomString

  /** Every record is `getRandomString(100)`. */
  const RecordLength: nat := 100
  /** A progress message is posted when the loop index is a multiple of this. */
  const ProgressEvery: nat := 10

  /** The shape of every value the fill stores. */
  predicate IsRecordValue(s: string) {
    |s| == RecordLength && IsPrintableString(s)
  }

  function Max(a: nat, b: nat): nat { if a < b then b else a }
  function Min(a: nat, b: nat): nat { if a < b then a else b }

  /** How many records the fill adds when nothing stops it: one per loop
      index from the current record count up to, but not including, the
      target. */
  function Deficit(count: nat, target: nat): (d: nat)
    ensures count + d == Max(count, target)
    ensures d == 0 <==> target <= count
  {
    if count < target then target - count else 0
  }

  /** How many records a fill adds when `available` random bytes are all the
      entropy there is: it stops short when a record's 100 bytes cannot be drawn. */
  function InsertionCount(count: nat, target: nat, available: nat): (n: nat)
    ensures n <= Deficit(count, target)
    ensures RecordLength * n <= available
    ensures n == Deficit(count, target) <==> RecordLength * Deficit(count, target) <= available
    ensures n < Deficit(count, target) ==> available < RecordLength * (n + 1)
  {
    Min(Deficit(count, target), available / RecordLength)
  }

  /** The random bytes that the `j`-th insertion of a fill draws. */
  function Chunk(entropy: seq<Byte>, j: nat): (c: seq<Byte>)
    requires RecordLength * (j + 1) <= |entropy|
    ensures |c| == RecordLength
  {
    entropy[RecordLength * j .. RecordLength * (j + 1)]
  }

  /** The "strings" store after `n` insertions into `stored`, starting with
      the key generator at `firstKey`: the `j`-th insertion stores the string
      encoded from the `j`-th chunk of entropy under key `firstKey + j`. */
  function AfterInserts(stored: map<nat, string>, firstKey: nat, entropy: seq<Byte>, n: nat): map<nat, string>
    requires RecordLength * n <= |entropy|
  {
    if n == 0 then stored
    else AfterInserts(stored, firstKey, entropy, n - 1)[firstKey + n - 1 := GetRandomString(Chunk(entropy, n - 1))]
  }

  /** `n` insertions add exactly the keys `firstKey .. firstKey + n - 1`. */
  lemma {:induction false} AfterInsertsKeys(stored: map<nat, string>, firstKey: nat, entropy: seq<Byte>, n: nat)
    requires RecordLength * n <= |entropy|
    ensures forall k :: k in AfterInserts(stored, firstKey, entropy, n) <==> k in stored || firstKey <= k < firstKey + n
  {
    if n > 0 {
      AfterInsertsKeys(stored, firstKey, entropy, n - 1);
    }
  }

  /** When the key generator is past every stored key, `n` insertions grow
      the store by exactly `n`: no insertion overwrites a record. */
  lemma {:induction false} AfterInsertsSize(stored: map<nat, string>, firstKey: nat, entropy: seq<Byte>, n: nat)
    requires RecordLength * n <= |entropy|
    requires forall k :: k in stored ==> k < firstKey
    ensures |AfterInserts(stored, firstKey, entropy, n)| == |stored| + n
  {
    if n > 0 {
      AfterInsertsSize(stored, firstKey, entropy, n - 1);
      AfterInsertsKeys(stored, firstKey, entropy, n - 1);
      assert firstKey + n - 1 !in AfterInserts(stored, firstKey, entropy, n - 1);
    }
  }

  /** Insertions past the key generator never touch an old record. */
  lemma {:induction false} AfterInsertsKeepsOld(stored: map<nat, string>, firstKey: nat, entropy: seq<Byte>, n: nat)
    requires RecordLength * n <= |entropy|
    requires forall k :: k in stored ==> k < firstKey
    ensures forall k :: k in stored ==> k in AfterInserts(stored, firstKey, entropy, n) && AfterInserts(stored, firstKey, entropy, n)[k] == stored[k]
  {
    if n > 0 {
      AfterInsertsKeepsOld(stored, firstKey, entropy, n - 1);
    }
  }

  /** The `j`-th insertion stores, under key `firstKey + j`, the string
      encoded from the `j`-th chunk of entropy, a record-shaped value; later
      insertions do not overwrite it. */
  lemma {:induction false} AfterInsertsAt(stored: map<nat, string>, firstKey: nat, entropy: seq<Byte>, n: nat, j: nat)
    requires RecordLength * n <= |entropy|
    requires j < n
    ensures firstKey + j in AfterInserts(stored, firstKey, entropy, n)
    ensures AfterInserts(stored, firstKey, entropy, n)[firstKey + j] == GetRandomString(Chunk(entropy, j))
    ensures IsRecordValue(AfterInserts(stored, firstKey, entropy, n)[firstKey + j])
  {
    if j < n - 1 {
      AfterInsertsAt(stored, firstKey, entropy, n - 1, j);
    }
  }

  /** Together: a fill whose key generator is past every stored key only
      adds records; the old ones keep their keys and values, and each new one
      is record-shaped. */
  lemma AfterInsertsOnlyAdds(stored: map<nat, string>, firstKey: nat, entropy: seq<Byte>, n: nat)
    requires RecordLength * n <= |entropy|
    requires forall k :: k in stored ==> k < firstKey
    ensures var m := AfterInserts(stored, firstKey, entropy, n);
      && |m| == |stored| + n
      && (forall k :: k in stored ==> k in m && m[k] == stored[k])
      && (forall k :: k in m && k !in stored ==> IsRecordValue(m[k]))
  {
    AfterInsertsKeys(stored, firstKey, entropy, n);
    AfterInsertsSize(stored, firstKey, entropy, n);
    AfterInsertsKeepsOld(stored, firstKey, entropy, n);
    var m := AfterInserts(stored, firstKey, entropy, n);
    forall k | k in m && k !in stored
      ensures IsRecordValue(m[k])
    {
      AfterInsertsAt(stored, firstKey, entropy, n, k - firstKey);
    }
  }

  /** The indices in `r` are exactly the multiples of ten in `[lo, hi)`, each
      once, in increasing order. */
  ghost predicate PostsAtMultiples(r: seq<int>, lo: nat, hi: nat) {
    && (forall j :: 0 <= j < |r| ==> lo <= r[j] < hi && r[j] % ProgressEvery == 0)
    && (forall i :: lo <= i < hi && i % ProgressEvery == 0 ==> i in r)
    && (forall j, k :: 0 <= j < k < |r| ==> r[j] < r[k])
  }

  /** The loop indices in `[lo, hi)` after whose insertion the fill posts a
      progress message (those divisible by ten), in the order they are posted. */
  function ProgressIndices(lo: nat, hi: nat): (r: seq<int>)
    decreases hi
    ensures |r| <= if lo <= hi then hi - lo else 0
  {
    if hi <= lo then []
    else ProgressIndices(lo, hi - 1) + (if (hi - 1) % ProgressEvery == 0 then [hi - 1] else [])
  }

  /** A run over `[lo, hi)` posts exactly at the multiples of ten in that
      range, each once, in increasing order. */
  lemma {:induction false} ProgressIndicesExact(lo: nat, hi: nat)
    decreases hi
    ensures PostsAtMultiples(ProgressIndices(lo, hi), lo, hi)
  {
    if lo < hi {
      ProgressIndicesExact(lo, hi - 1);
      var prev := ProgressIndices(lo, hi - 1);
      var step: seq<int> := if (hi - 1) % ProgressEvery == 0 then [hi - 1] else [];
      assert ProgressIndices(lo, hi) == prev + step;
      forall i | lo <= i < hi && i % ProgressEvery == 0
        ensures i in prev + step
      {
        if i < hi - 1 {
          assert i in prev;
        } else {
          assert (prev + step)[|prev|] == i;
        }
      }
    }
  }

  /** The number of progress messages of a run over `[lo, hi)` is the number
      of multiples of ten in that range; it depends on where the run starts,
      not only on how many records it adds. */
  lemma {:induction false} ProgressCount(lo: nat, hi: nat)
    requires lo <= hi
    ensures |ProgressIndices(lo, hi)| == (hi + ProgressEvery - 1) / ProgressEvery - (lo + ProgressEvery - 1) / ProgressEvery
  {
    if lo < hi {
      ProgressCount(lo, hi - 1);
      var i := hi - 1;
      if i % ProgressEvery == 0 {
        assert (i + ProgressEvery) / ProgressEvery == (i + ProgressEvery - 1) / ProgressEvery + 1;
      } else {
        assert (i + ProgressEvery) / ProgressEvery == (i + ProgressEvery - 1) / ProgressEvery;
      }
    }
  }

  /** Resuming from three records, ten insertions post one message (at index
      10); a run from an empty store that adds ten records also posts one, at
      index 0: the cadence follows the absolute index. */
  lemma CadenceFollowsAbsoluteIndex()
    ensures ProgressIndices(3, 13) == [10]
    ensures ProgressIndices(0, 10) == [0]
    ensures ProgressIndices(1, 10) == []
  {
    ProgressCount(3, 13);
    ProgressCount(0, 10);
    ProgressCount(1, 10);
    ProgressIndicesExact(3, 13);
    ProgressIndicesExact(0, 10);
    var r := ProgressIndices(3, 13);
    assert 10 in r;
    var r0 := ProgressIndices(0, 10);
    assert 0 in r0;
  }

  /** A fill that completed leaves at least `target` records, so a second
      fill with the same or a smaller target adds nothing and posts nothing. */
  lemma RefillIsNoOp(count: nat, target: nat, target2: nat, stored: map<nat, string>, entropy: seq<Byte>, firstKey: nat)
    requires target2 <= target
    ensures var after := count + Deficit(count, target);
      && Deficit(after, target2) == 0
      && InsertionCount(after, target2, |entropy|) == 0
      && AfterInserts(stored, firstKey, entropy, 0) == stored
      && ProgressIndices(after, after) == []
  {
  }

  /** Two completed fills with targets `t1` and then `t2` end at the larger
      of the start count and both targets, and never lower the count. */
  lemma TopUpIsMonotone(count: nat, t1: nat, t2: nat)
    ensures var c1 := count + Deficit(count, t1);
      var c2 := c1 + Deficit(c1, t2);
      && count <= c1 <= c2
      && c2 == Max(count, Max(t1, t2))
      && c2 >= t2
  {
  }
}

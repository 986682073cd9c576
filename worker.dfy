/** The worker's global scope: the database handle it fills, and the stream
    of messages it posts back to the page. `GenerateStringCountRequest` is the
    fill-to-target loop; `AddString` is one insertion. */
module Worker {
  import opened RandomString
  import opened FillSpec
  import opened RecordStore

  /** The only message the worker posts. */
  const CheckProgress: string := "checkProgress"

  /** How a fill ends: its promise resolves, the database open is rejected,
      or drawing random bytes fails part way (the loop stops and the promise
      never settles). */
  datatype FillOutcome = Resolved | Rejected(error: OpenError) | EntropyUnavailable

  /** `n` progress messages in a row. */
  function Posts(n: nat): (msgs: seq<string>)
    ensures |msgs| == n
    ensures forall j :: 0 <= j < n ==> msgs[j] == CheckProgress
  {
    if n == 0 then [] else Posts(n - 1) + [CheckProgress]
  }

  /** Reaching loop index `i + 1` extends the progress indices and the
      messages posted by the report for index `i`. */
  lemma LogStep(count: nat, i: nat)
    requires count <= i
    ensures ProgressIndices(count, i + 1) == ProgressIndices(count, i) + if i % ProgressEvery == 0 then [i] else []
    ensures Posts(|ProgressIndices(count, i + 1)|) == Posts(|ProgressIndices(count, i)|) + if i % ProgressEvery == 0 then [CheckProgress] else []
  {
  }

  /** Regrouping a concatenation; `LoopBody` calls it so that the solver
      does not have to find the regrouping of the progress log by itself. */
  lemma AppendAssoc<T>(a: seq<T>, b: seq<T>, c: seq<T>)
    ensures a + b + c == a + (b + c)
  {
  }

  class WorkerScope {
    const db: StringDB
    /** Messages passed to `self.postMessage`, oldest first. */
    var outbox: seq<string>
    /** For each posted message, the loop index at which it was posted. */
    ghost var postedAt: seq<int>

    /** The database is valid, every stored value has the shape of a
        generated record, and every message posted is a progress report. */
    ghost predicate Valid()
      reads this, db
    {
      && db.Valid()
      && (forall k :: k in db.strings ==> IsRecordValue(db.strings[k]))
      && |outbox| == |postedAt|
      && (forall j :: 0 <= j < |outbox| ==> outbox[j] == CheckProgress)
    }

    constructor (db: StringDB)
      requires db.Valid()
      requires forall k :: k in db.strings ==> IsRecordValue(db.strings[k])
      ensures Valid()
      ensures this.db == db && outbox == [] && postedAt == []
    {
      this.db := db;
      outbox := [];
      postedAt := [];
    }

    /** `addString`: store `getRandomString(100)` under the next generated
        key. `randomValues` are the 100 bytes the entropy source delivers. */
    method AddString(randomValues: seq<Byte>) returns (key: nat)
      requires Valid() && StoreName in db.storeNames
      requires |randomValues| == RecordLength
      modifies db
      ensures Valid()
      ensures key == old(db.nextKey) && db.nextKey == key + 1
      ensures key !in old(db.strings) && forall k :: k in old(db.strings) ==> k < key
      ensures db.strings == old(db.strings)[key := GetRandomString(randomValues)]
      ensures IsRecordValue(db.strings[key])
      ensures db.version == old(db.version) && db.storeNames == old(db.storeNames)
    {
      var value := GetRandomString(randomValues);
      key := db.Add(value);
    }

    /** The progress report after the insertion at loop index `i`: one
        message when `i` is a multiple of ten, none otherwise. */
    method PostProgress(i: nat)
      requires Valid()
      modifies this
      ensures Valid()
      ensures outbox == old(outbox) + (if i % ProgressEvery == 0 then [CheckProgress] else [])
      ensures postedAt == old(postedAt) + (if i % ProgressEvery == 0 then [i] else [])
    {
      if i % ProgressEvery == 0 {
        outbox := outbox + [CheckProgress];
        postedAt := postedAt + [i];
      }
    }

    /** `generateStringCountRequest(stringArraySize)`: open the database,
        read the record count, then for every index `i` from that count up to
        the target add one record, posting a progress message after each
        insertion whose index is a multiple of ten. `entropy` is every random
        byte the entropy source will deliver, 100 per record; when fewer than
        100 remain the fill stops there. */
    method GenerateStringCountRequest(stringArraySize: nat, available: bool, entropy: seq<Byte>)
      returns (outcome: FillOutcome)
      requires Valid()
      modifies this, db
      ensures Valid()
      ensures outcome.Rejected? <==> !available || old(db.version) > DatabaseVersion
      ensures outcome.Rejected? ==>
        && outcome.error == (if available then VersionError else StorageUnavailable)
        && db.version == old(db.version) && db.storeNames == old(db.storeNames)
        && db.strings == old(db.strings) && db.nextKey == old(db.nextKey)
        && outbox == old(outbox) && postedAt == old(postedAt)
      ensures !outcome.Rejected? ==>
        var count := |old(db.strings)|;
        var n := InsertionCount(count, stringArraySize, |entropy|);
        && (outcome == Resolved <==> n == Deficit(count, stringArraySize))
        && db.version == DatabaseVersion && db.storeNames == old(db.storeNames) + {StoreName}
        && db.strings == AfterInserts(old(db.strings), old(db.nextKey), entropy, n)
        && db.nextKey == old(db.nextKey) + n
        && |db.strings| == count + n
        && postedAt == old(postedAt) + ProgressIndices(count, count + n)
        && outbox == old(outbox) + Posts(|ProgressIndices(count, count + n)|)
      ensures outcome == Resolved ==> |db.strings| == Max(|old(db.strings)|, stringArraySize)
      ensures !outcome.Rejected? && stringArraySize <= |old(db.strings)| ==>
        && outcome == Resolved
        && db.strings == old(db.strings) && db.nextKey == old(db.nextKey)
        && outbox == old(outbox) && postedAt == old(postedAt)
      ensures forall k :: k in old(db.strings) ==> k in db.strings && db.strings[k] == old(db.strings)[k]
    {
      var openResult := db.Open(available);
      if openResult.OpenFailed? {
        return Rejected(openResult.error);
      }
      outcome := CountAndFill(stringArraySize, entropy);
      if stringArraySize <= |old(db.strings)| {
        // Nothing to add: the fill is empty and so is its progress log.
        assert ProgressIndices(|old(db.strings)|, |old(db.strings)|) == [];
        assert postedAt == old(postedAt) + [] == old(postedAt);
        assert outbox == old(outbox) + Posts(0) == old(outbox);
      }
    }

    /** The promise that `generateStringCountRequest` returns once the
        database is open: count the records of "strings", then run the fill
        from that count. */
    method CountAndFill(stringArraySize: nat, entropy: seq<Byte>) returns (outcome: FillOutcome)
      requires Valid() && StoreName in db.storeNames
      modifies this, db
      ensures Valid()
      ensures outcome != Resolved ==> outcome == EntropyUnavailable
      ensures var count := |old(db.strings)|;
        var n := InsertionCount(count, stringArraySize, |entropy|);
        && (outcome == Resolved <==> n == Deficit(count, stringArraySize))
        && db.version == old(db.version) && db.storeNames == old(db.storeNames)
        && db.strings == AfterInserts(old(db.strings), old(db.nextKey), entropy, n)
        && db.nextKey == old(db.nextKey) + n
        && |db.strings| == count + n
        && postedAt == old(postedAt) + ProgressIndices(count, count + n)
        && outbox == old(outbox) + Posts(|ProgressIndices(count, count + n)|)
      ensures forall k :: k in old(db.strings) ==> k in db.strings && db.strings[k] == old(db.strings)[k]
    {
      var count := db.Count();
      assert count == |old(db.strings)|;
      ghost var progress := ProgressIndices(count, count + InsertionCount(count, stringArraySize, |entropy|));
      outcome := OnCountSuccess(count, stringArraySize, entropy);
      assert postedAt == old(postedAt) + progress;
      AfterInsertsOnlyAdds(old(db.strings), old(db.nextKey), entropy, InsertionCount(count, stringArraySize, |entropy|));
    }

    /** The `onsuccess` handler of the count request: from index `count` up
        to the target, add a record and post progress at multiples of ten. */
    method OnCountSuccess(count: nat, stringArraySize: nat, entropy: seq<Byte>) returns (outcome: FillOutcome)
      requires Valid() && StoreName in db.storeNames && count == |db.strings|
      modifies this, db
      ensures Valid()
      ensures var n := InsertionCount(count, stringArraySize, |entropy|);
        && (outcome == if n == Deficit(count, stringArraySize) then Resolved else EntropyUnavailable)
        && db.version == old(db.version) && db.storeNames == old(db.storeNames)
        && db.strings == AfterInserts(old(db.strings), old(db.nextKey), entropy, n)
        && db.nextKey == old(db.nextKey) + n
        && postedAt == old(postedAt) + ProgressIndices(count, count + n)
        && outbox == old(outbox) + Posts(|ProgressIndices(count, count + n)|)
    {
      ghost var stored, firstKey := db.strings, db.nextKey;
      ghost var outbox0, postedAt0 := outbox, postedAt;
      var i := count;
      // Records added so far, which is also the number of 100-byte draws made.
      var added := 0;
      outcome := Resolved;
      while i < stringArraySize
        invariant outcome == Resolved
        invariant i == count + added && added <= Deficit(count, stringArraySize)
        invariant RecordLength * added <= |entropy|
        invariant Valid()
        invariant db.version == old(db.version) && db.storeNames == old(db.storeNames)
        invariant db.strings == AfterInserts(stored, firstKey, entropy, added)
        invariant db.nextKey == firstKey + added
        invariant postedAt == postedAt0 + ProgressIndices(count, i)
        invariant outbox == outbox0 + Posts(|ProgressIndices(count, i)|)
      {
        if |entropy| < RecordLength * (added + 1) {
          outcome := EntropyUnavailable;
          break;
        }
        LoopBody(count, i, added, entropy, stored, firstKey, outbox0, postedAt0);
        i := i + 1;
        added := added + 1;
      }
      assert added == InsertionCount(count, stringArraySize, |entropy|);
    }

    /** One pass of the fill loop at index `i`: insert the record drawn from
        the `added`-th 100 bytes of entropy, then report progress for `i`. */
    method LoopBody(count: nat, i: nat, added: nat, entropy: seq<Byte>,
                    ghost stored: map<nat, string>, ghost firstKey: nat,
                    ghost outbox0: seq<string>, ghost postedAt0: seq<int>)
      requires Valid() && StoreName in db.storeNames
      requires i == count + added && RecordLength * (added + 1) <= |entropy|
      requires db.strings == AfterInserts(stored, firstKey, entropy, added) && db.nextKey == firstKey + added
      requires postedAt == postedAt0 + ProgressIndices(count, i)
      requires outbox == outbox0 + Posts(|ProgressIndices(count, i)|)
      modifies this, db
      ensures Valid()
      ensures db.version == old(db.version) && db.storeNames == old(db.storeNames)
      ensures db.strings == AfterInserts(stored, firstKey, entropy, added + 1) && db.nextKey == firstKey + added + 1
      ensures postedAt == postedAt0 + ProgressIndices(count, i + 1)
      ensures outbox == outbox0 + Posts(|ProgressIndices(count, i + 1)|)
    {
      var key := AddString(Chunk(entropy, added));
      ghost var progress, logged := ProgressIndices(count, i), Posts(|ProgressIndices(count, i)|);
      PostProgress(i);
      LogStep(count, i);
      AppendAssoc(postedAt0, progress, if i % ProgressEvery == 0 then [i] else []);
      AppendAssoc(outbox0, logged, if i % ProgressEvery == 0 then [CheckProgress] else []);
    }

    /** A start message, then a second one with the same target that arrives
        after the first fill has settled. (`self.onmessage` does not wait for
        a fill, so a message during a pending fill would start an overlapping
        one; that case is not modelled.) Once the first fill has resolved, the
        second resolves as well, adds no record and posts no message: the
        store and the outbox are exactly what the first fill left. */
    method FillTwice(target: nat, available: bool, entropy1: seq<Byte>, entropy2: seq<Byte>)
      returns (first: FillOutcome, second: FillOutcome)
      requires Valid()
      modifies this, db
      ensures Valid()
      ensures first == Resolved ==>
        var count := |old(db.strings)|;
        var n := Deficit(count, target);
        && second == Resolved
        && |db.strings| == Max(count, target)
        && RecordLength * n <= |entropy1|
        && db.strings == AfterInserts(old(db.strings), old(db.nextKey), entropy1, n)
        && db.nextKey == old(db.nextKey) + n
        && outbox == old(outbox) + Posts(|ProgressIndices(count, count + n)|)
    {
      first := GenerateStringCountRequest(target, available, entropy1);
      second := GenerateStringCountRequest(target, available, entropy2);
    }
  }

  /** Loop indices 0 to 4 post one progress message, after index 0. */
  lemma FirstFiveLog()
    ensures ProgressIndices(0, 5) == [0]
    ensures Posts(|ProgressIndices(0, 5)|) == [CheckProgress]
  {
    assert ProgressIndices(0, 5) == [0];
  }

  /** A first start message with target 5 in a profile where "stringDB" has
      never been opened: the fill creates the store, adds records under keys
      1 to 5, each a printable 100-character string, and posts one progress
      message, after index 0. */
  method FillFreshProfile(entropy: seq<Byte>) returns (scope: WorkerScope, outcome: FillOutcome)
    requires |entropy| >= 5 * RecordLength
    ensures outcome == Resolved
    ensures scope.db.version == DatabaseVersion && scope.db.storeNames == {StoreName}
    ensures |scope.db.strings| == 5
    ensures forall k :: k in scope.db.strings <==> 1 <= k <= 5
    ensures forall k :: k in scope.db.strings ==> IsRecordValue(scope.db.strings[k])
    ensures scope.outbox == [CheckProgress]
  {
    var db := new StringDB();
    scope := new WorkerScope(db);
    outcome := scope.GenerateStringCountRequest(5, true, entropy);
    FirstFiveLog();
    AfterInsertsKeys(map[], 1, entropy, 5);
    assert scope.outbox == [] + [CheckProgress];
  }
}

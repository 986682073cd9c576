# demo-strings-generate: the fill-to-target worker

This project models `public/worker.js` of demo-strings-generate, a web worker
that keeps a browser database topped up. The database is "stringDB" and its
object store is "strings". The worker fills it with random 100-character
strings up to a target size, and reports progress to the page while it works.

The model has four modules:

- `RandomString` (`random_string.dfy`) is the encoder of `getRandomString`.
  Each random byte `c` becomes the character with code `(c % 94) + 33`. The
  bytes are a parameter.
- `RecordStore` (`record_store.dfy`) is the database as the worker sees it.
  `StringDB` is a class whose fields are the schema version, the names of the
  object stores, the records of "strings" by key, and the store's key
  generator. It models `indexedDB.open("stringDB", 1)` with its
  `onupgradeneeded` step, `count()` and `add()`.
- `FillSpec` (`fill_spec.dfy`) holds the specification functions of one fill:
  - how many records a fill adds (`Deficit`, `InsertionCount`);
  - the store after those insertions (`AfterInserts`);
  - the loop indices that post a progress message (`ProgressIndices`).

  It also holds the lemmas about these functions.
- `Worker` (`worker.dfy`) is the worker's global scope. `WorkerScope` is a
  class that holds the database handle and the stream of posted messages.
  - `AddString` is `addString`.
  - `GenerateStringCountRequest` is `generateStringCountRequest`, and
    `CountAndFill` is the promise it returns once the database is open.
  - `OnCountSuccess` is the count request's `onsuccess` handler, which holds
    the `for` loop. `LoopBody` is one pass of that loop.

  Each method is proved against the `FillSpec` functions. `FillTwice`
  handles a second start message that arrives after the first fill has
  resolved, and `FillFreshProfile` runs a first
  fill in a profile that has no database yet.

The callbacks and promises of the source are flattened into sequential method
calls. This is faithful because the source awaits every `addString` before it
moves on to the next index.

Random bytes come from the host through `crypto.getRandomValues`, which does
not run out of bytes. The model instead takes them as `entropy`, a finite
sequence of every byte the host will deliver, and each insertion draws the
next 100 bytes. When fewer than 100 bytes remain, the model reports the outcome
`EntropyUnavailable`. This outcome stands for any throw from `getRandomValues`.
In the source such a throw happens inside the promise executor of `addString`
(public/worker.js:10-13). The `await` at public/worker.js:32 rethrows it inside
the count request's `onsuccess` handler, so the loop stops and the promise
returned by `generateStringCountRequest` never settles.

Whether the host lets the database open is the parameter `available`. When it
does not, or when "stringDB" already exists at a version above 1, the open
request fires its error handler. The promise is then rejected (`Rejected`) and
nothing changes.

### How the fill proceeds

- **Writes:** each loop index inserts one record and awaits it before the next
  index. There is no batching.
- **Progress:** a message is posted when the absolute loop index `i` is a
  multiple of ten, not when the number of records added so far is. A fill that
  resumes from 3 records and adds 10 therefore posts once, at index 10. A fill
  from 1 up to 10 posts nothing (`FillSpec.CadenceFollowsAbsoluteIndex`).
- **Target:** the target is not validated. The model takes it as a natural
  number.

## Model

| member | source | states |
|---|---|---|
| RandomString.CharOf | public/worker.js:4 | the character for byte `c` is printable (code in 33..126) and its code minus 33 is `c % 94` |
| RandomString.GetRandomString | public/worker.js:1-6 | one character per random byte, so the length equals the number of bytes; every character is printable; character `i` is the encoding of byte `i` |
| RandomString.SameCharIffSameResidue | public/worker.js:4 | two bytes encode to the same character if and only if they are congruent modulo 94 |
| RandomString.EveryPrintableStringReachable | public/worker.js:3-5 | the encoder is onto the printable strings: every printable string of length n is the output for some n random bytes |
| RandomString.DecodeRecoversResidues | public/worker.js:3-5 | decoding an output keeps its length and recovers each input byte modulo 94 (that nothing more is recoverable is the other direction of `SameCharIffSameResidue`) |
| FillSpec.Deficit | public/worker.js:31 | the loop from `count` to `target` runs `d` times, where `count + d == max(count, target)`; `d` is zero exactly when `target <= count` |
| FillSpec.InsertionCount | public/worker.js:31-32 | the number of records a fill adds never exceeds the deficit and never draws more bytes than exist; it equals the deficit exactly when 100 bytes per missing record are available; when it falls short, the next draw would have failed |
| FillSpec.AfterInsertsKeys | public/worker.js:31-32 | after n insertions the keys are the old keys plus exactly `firstKey .. firstKey+n-1` |
| FillSpec.AfterInsertsSize | public/worker.js:31-32 | when the key generator is past every stored key, n insertions grow the store by exactly n |
| FillSpec.AfterInsertsKeepsOld | public/worker.js:31-32 | insertions from a key generator that is past every stored key leave every old key and its value unchanged |
| FillSpec.AfterInsertsAt | public/worker.js:13 | the j-th insertion stores `getRandomString` of the j-th 100-byte draw under key `firstKey + j`, a printable 100-character value |
| FillSpec.AfterInsertsOnlyAdds | public/worker.js:31-32 | a fill only adds: the size grows by n, old records are kept, and every new record is a printable 100-character string |
| FillSpec.ProgressIndices | public/worker.js:31-33 | the loop indices in `[lo, hi)` that post progress, at most one per index; `ProgressIndicesExact` gives their full meaning |
| FillSpec.ProgressIndicesExact | public/worker.js:31-33 | the indices that post progress over `[lo, hi)` are exactly the multiples of ten in that range, each once, in increasing order |
| FillSpec.ProgressCount | public/worker.js:31-33 | the number of progress messages over `[lo, hi)` is `ceil(hi/10) - ceil(lo/10)` |
| FillSpec.CadenceFollowsAbsoluteIndex | public/worker.js:33 | the cadence is keyed on the absolute index: `[3,13)` posts only at 10, `[0,10)` only at 0, and `[1,10)` posts nothing |
| FillSpec.RefillIsNoOp | public/worker.js:29-35 | after a completed fill, a second fill with the same or a smaller target adds no record and posts no message |
| FillSpec.TopUpIsMonotone | public/worker.js:29-35 | two completed fills never lower the count, and they end at the maximum of the start count and both targets |
| RecordStore.StringDB.constructor | public/worker.js:42 | a profile where "stringDB" does not exist yet: version 0, no stores, no records, key generator at 1 |
| RecordStore.StringDB.OnUpgradeNeeded | public/worker.js:58-65 | the "strings" store exists afterwards; it is created empty with its key generator at 1 only when it was absent; otherwise nothing changes (idempotent); the version and the records are untouched |
| RecordStore.StringDB.Open | public/worker.js:40-67 | the open succeeds if and only if storage is available and the existing version is at most 1; on success the version is 1 and "strings" exists; on failure the error says why and the schema is unchanged; records and key generator are never touched |
| RecordStore.StringDB.Count | public/worker.js:24-27 | the count request returns the number of records in "strings" |
| RecordStore.StringDB.Add | public/worker.js:13 | the auto-increment key is the generator's current value; it is fresh and greater than every key in use; the generator advances by one; the store is the old one plus this record and has grown by one |
| Worker.WorkerScope.AddString | public/worker.js:8-19 | one call stores `getRandomString(100)` under a fresh key that is larger than every old key; the stored value is a printable 100-character string; all other records are unchanged |
| Worker.WorkerScope.PostProgress | public/worker.js:33 | a `"checkProgress"` message is appended to the outbox exactly when `i % 10 == 0`, and nothing else is posted |
| Worker.WorkerScope.CountAndFill | public/worker.js:23-37 | once the database is open, the count and the fill add exactly `InsertionCount` records as described by `AfterInserts`, grow the store by that number, keep every old record, advance the key generator, log progress at exactly `ProgressIndices(count, count + n)`, and resolve exactly when the whole deficit was filled (otherwise the outcome is `EntropyUnavailable`) |
| Worker.WorkerScope.OnCountSuccess | public/worker.js:28-36 | the loop adds `InsertionCount` records, namely those described by `AfterInserts`; the key generator advances by the same number; progress is posted at exactly `ProgressIndices(count, count + n)`; the outcome is `Resolved` exactly when the whole deficit was filled |
| Worker.WorkerScope.LoopBody | public/worker.js:32-33 | one pass of the loop at index `i` adds the record drawn from the next 100 bytes under the next key, then extends the progress log from the indices before `i` to the indices before `i + 1` |
| Worker.WorkerScope.GenerateStringCountRequest | public/worker.js:21-38 | a failed open rejects with no state change; otherwise the schema is at version 1 with "strings"; the store is the old one plus the records the fill adds, and every old record is kept; a resolved fill leaves exactly `max(count, target)` records; a target at or below the count adds nothing and posts nothing; progress messages match the multiples of ten in `[count, count + n)` |
| Worker.WorkerScope.FillTwice | public/worker.js:69-77 | a second start message with the same target that arrives after the first fill has resolved (overlapping fills are under "Left out"): once the first fill resolves, the second resolves too, adds no record and posts nothing, so the store holds `max(count, target)` records and the store and outbox are exactly what the first fill produced |
| Worker.FillFreshProfile | public/worker.js:21-67 | a first fill to target 5 in a profile with no database creates "strings" at version 1, stores printable 100-character records under keys 1 to 5, and posts one progress message |

## Left out

- IndexedDB request, transaction and callback objects (public/worker.js:10-18, 23-28, 40-57). Each becomes a method call on `StringDB`.
- Worker.WorkerScope.AddString: does not model the database re-open that `addString` performs before each insertion (public/worker.js:9). Inside a fill the open has already succeeded, and re-opening at version 1 changes no state. An open that fails only on this second attempt is not modelled.
- RecordStore.StringDB.Add: does not model the key generator's limit of 2^53, past which `add` fails. Keys are unbounded naturals.
- RecordStore.StringDB.Add: does not model a failing add, such as a quota error or an aborted transaction. The add request has no error handler (public/worker.js:13-17), so in the source the promise of `addString` never settles and the fill stalls at that index forever. In the model every add succeeds.
- RecordStore.StringDB.Count: does not model a failing count request. It has no error handler (public/worker.js:24-28), so in the source a failed count leaves the promise of `generateStringCountRequest` unsettled and nothing is added. In the model the count always succeeds.
- RecordStore.StringDB.Open: the reason behind a failed open is reduced to the two cases the code can meet, storage unavailable and a newer version. The error code passed to `reject` is not modelled.
- `onversionchange`, which closes the handle and logs a reload notice (public/worker.js:50-55). It belongs to the lifecycle across browser contexts and does not change the store.
- `crypto.getRandomValues` (public/worker.js:2). This foreign entropy source is replaced by the `entropy` parameter. The model does not capture that the bytes are random, and it does not capture the slight bias of `c % 94` over bytes 0..255 toward the first 68 characters.
- `self.postMessage` transport, `self.onmessage` and the `self.alert` capability check (public/worker.js:33, 69-77). Posting is an append to `outbox`. When the host has no IndexedDB, the handler calls `self.alert`, which a worker's global scope lacks. The resulting TypeError means `generateStringCountRequest` (public/worker.js:76) is never called and no open is attempted. As in the model's `Rejected` outcome, no state changes and no message is posted.
- `console.log` calls (public/worker.js:15, 30, 44, 48, 52, 59, 63).
- Targets that are not natural numbers. The target is a `nat`. In the source, the comparison `i < stringArraySize` acts as a target of 0 for a negative number and of the ceiling for a fractional one, and applies JavaScript coercion to a value that is not a number. None of these are represented.
- Two fills running against the same store at the same time. `self.onmessage` starts a fill without waiting for it (public/worker.js:76), so a start message that arrives while a fill is pending starts an overlapping one. Their count-then-fill sequences could interleave and overshoot the target. The model runs one fill at a time.

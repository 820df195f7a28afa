# flat-file-db: the in-memory engine, in Dafny

flat-file-db keeps a key-value map in one flat file. Each `put` writes a record into
a slot of the file and never overwrites the record it replaces:

- a record is a TAB, the JSON text of `[sequence, key, value]`, and an LF;
- slots come in power-of-two size classes, `256 << i` bytes;
- a per-class LIFO free list and a bump pointer (`head`) hand out the slots.

Opening a file replays it to rebuild the index and the free lists:

1. scan the bytes for TAB … LF records;
2. keep, per key, the row with a value and the greatest sequence;
3. filter the candidates down to those winners;
4. carve the gaps in front of each winner into free slots.

This project models that engine from `index.js` and proves properties of it.

- `blocks.dfy` (`Blocks`): size classes and `nextBlockSize`.
- `records.dfy` (`Records`): bytes, rows, index entries and slots. The JSON codec is abstract: a pair of functions. The lemmas that need it take its round trip for the rows involved as a precondition (`Codec.RoundTrips`).
- `allocator.dfy` (`Allocator`): the free lists as values: `alloc`, freeing one slot, and pushing a run of slots.
- `replay.dfy` (`Replay`): `parseDatabase` and `populateFreelist`.
  - Each step is a specification function.
  - The scan loop and the resolution loop are methods proved equal to those functions.
  - Lemmas state what each step computes.
- `store.dfy` (`FlatFile`): the `Database` object as a class with `head`, `tick`, `freelists`, `entries` and an open flag.
  - `Alloc`, `Free`, `PopulateFreelist`, `Open`, `Put`, `Del`, the `writefd` completion (`WriteDone`), `Get`, `Has`, `Keys` and `Close` update it in place.
  - Each is proved against the functions above.
  - The constructor and `Open` establish `Valid`, and `Put`, `Del` and `WriteDone` preserve it: every indexed entry is a live row of its own key, its class has a free list, and its sequence is at most the clock.
- `reopen.dfy` (`Reopen`): what a later open makes of the records `put` appends.

File I/O is not modelled; the class takes its place at three points:

- `Open` receives the file's bytes;
- `Put` returns the write it would issue (offset, bytes, superseded slot);
- `WriteDone` is told whether that write succeeded.

A thrown "database is not open" error becomes `Failure(NotOpen)`, with the state unchanged.

### Behaviour as written

The model follows `index.js`. In four places the code does not do what `test.js` expects of it:

- `put` on a key already in the index (index.js:130-133) only gives the existing row a new sequence number. The row keeps its old value, and that old row is what gets written. `Database.Put` states this: `Get` returns the old value afterwards.
  - 'last write wins' (test.js:111-124) puts a new `{count:i}` object twenty times and expects `{count:19}` after a reopen. As written, every record carries the first object, `{count:0}`.
  - A `del` of an existing key (index.js:147-149) writes the old value with a newer sequence.
  - Of the tests that put an existing key again, only 'big write' (test.js:126-140) agrees with the code: it changes the object it stored and reads it back from the same open database.
- Replay skips rows without a value (index.js:62). A tombstone never wins, and its slot counts as free space. `Reopen.TombstoneNeverWins` shows that an older live record survives a newer tombstone of the same key.
  - Together with the previous point, a deleted key comes back on the next open: the record `del` wrote carries the old value.
  - 'del' (test.js:84-86) expects the reopened database to have no value and no keys.
  - Replay's clock also skips tombstones, so a tombstone's sequence may be reused after a reopen.
- Replay sizes a record by the bytes from its TAB up to its LF, without the LF (index.js:52-54). `put` sizes it with the LF included (index.js:140-141).
  - `Reopen.ReplaySlotShort` proves that the two disagree exactly when the record is one byte longer than a slot size.
  - In that case the replayed slot ends one byte before the record's LF.
  - The next gap then starts on that LF, and `populateFreelist` frees it. `Reopen.ReplayFreesLf` shows a class-0 slot reclaimed at the LF and returned by the next class-0 allocation. The record written there overwrites the LF, and the earlier record is lost at the following open.
  - When that record is the file's last winner, `head` resumes on its LF instead. `Reopen.ReplayHeadOnLf` shows that the next allocation of any class then returns the LF's offset.
- The padding loops stop one list short. This is listed under Findings.

## Model

| member | source | states |
|---|---|---|
| `Blocks.SlotSizeStrictlyMonotone` | index.js:12 | a larger class always has a strictly larger slot (`256 << i` grows with `i`) |
| `Blocks.SlotSize` | index.js:12 | reference definition of a class's slot size, `256 << i` (used at index.js:35, 81 and 101); at least 256 bytes; see `SlotSizeStrictlyMonotone` |
| `Blocks.NextBlockSize` | index.js:10-14 | the class chosen for a length is one whose slot fits the length, and the class below it does not fit; class 0 exactly for lengths up to 256 |
| `Blocks.NextBlockSizeLeast` | index.js:10-14 | the chosen class is at most any class whose slot fits the length (it is the least one) |
| `Blocks.NextBlockSizeMonotone` | index.js:10-14 | a longer record never gets a smaller class |
| `Blocks.NextBlockSizeOfSlotSize` | index.js:10-14 | a length that equals a slot size gets exactly that class |
| `Blocks.NextBlockSizeLoop` | index.js:10-14 | the counting loop returns the least fitting class, `NextBlockSize` |
| `Records.RecordBytes` | index.js:140 | a record is the encoded row framed by a leading TAB and a trailing LF, two bytes longer than the encoding |
| `Allocator.PadAsWritten` | index.js:29 | the padding loop as written: class `cls` has a list afterwards if and only if it had one before; existing lists are kept |
| `Allocator.Pad` | index.js:29 | corrected padding: class `cls` always has a list afterwards, existing lists are kept, and added lists are empty |
| `Allocator.AllocSpec` | index.js:28-39 | pops the most recently freed offset of the class when its list is non-empty, leaving `head` alone; otherwise returns `head` and advances it by the class's slot size; other lists are unchanged |
| `Allocator.FreeSlot` | index.js:118 | a freed slot goes on top of its class's list and no other list changes |
| `Allocator.AllocAfterFree` | index.js:28-39 | LIFO reuse: after freeing a slot, the next allocation of its class returns that slot and restores the lists and `head` |
| `Allocator.FreeAfterAlloc` | index.js:28-39 | freeing the slot just popped from a non-empty list restores the lists |
| `Allocator.Push` | index.js:84 | reference definition of pushing a run of slots, each onto its class's list (also the push at index.js:118); keeps the number of lists; see `PushAppends` and `PushConcat` |
| `Allocator.PushAppends` | index.js:83-86 | pushing a run of slots appends, to each class's list, exactly that class's offsets of the run, in order |
| `Allocator.PushConcat` | index.js:97-102 | pushing two runs one after the other is pushing their concatenation |
| `Replay.PointerAt` | index.js:47-58 | the scan's pending pointer is -1 or a TAB with no TAB and no LF after it in the prefix scanned |
| `Replay.ScanPrefix` | index.js:47-58 | the candidates of a prefix are in strictly ascending offset order and lie before the pending TAB |
| `Replay.ScanRecords` | index.js:47-58 | the scan loop returns exactly the candidates of the whole file |
| `Replay.ScanFramed` | index.js:51-56 | every candidate is a decodable TAB … LF record at its offset, and its class is that of the slice without the LF |
| `Replay.ScanPrefixGrows` | index.js:47-58 | scanning more bytes only appends candidates |
| `Replay.ScanComplete` | index.js:51-56 | every LF preceded by a pending TAB whose slice decodes yields a candidate |
| `Replay.ScanSkipsBody` | index.js:47-50 | bytes that are neither TAB nor LF after a TAB leave the pending pointer on that TAB and add no candidate |
| `Replay.ScanPrefixLocal` | index.js:47-58 | the candidates of a prefix depend only on the bytes of that prefix |
| `Replay.ScanAppendRecord` | index.js:47-58 | framing round trip: a record appended after any bytes replays as exactly one more candidate at its TAB, carrying its row |
| `Replay.Max` | index.js:24-26 | reference definition of `max`; its use in the clock is stated by `TickIsMax` |
| `Replay.LatestUpTo` | index.js:60-63 | reference definition of the index after the resolution loop has seen a prefix of the candidates; see `LatestFromCandidates`, `LatestIsGreatest` and `ResolveRecords` |
| `Replay.Latest` | index.js:60-63 | reference definition of the index after the whole resolution loop; see `WinnersAreIndex`, `ReplayedIndexValid` and `ResolveRecords` |
| `Replay.TickUpTo` | index.js:64 | reference definition of the clock after the resolution loop has seen a prefix; see `TickIsMax` and `ResolveRecords` |
| `Replay.ResolveRecords` | index.js:60-65 | the resolution loop yields the winner map and the clock of the specification functions |
| `Replay.LatestFromCandidates` | index.js:60-63 | each indexed entry is one of the candidates scanned so far, of its own key, with a value |
| `Replay.LatestIsGreatest` | index.js:63 | no candidate with a value has a greater sequence than its key's entry, and on equal sequences the entry has the earlier offset |
| `Replay.TickIsMax` | index.js:64 | the clock resumes at the greatest sequence of a row with a value, or stays where it was |
| `Replay.IsWinner` | index.js:68 | reference definition of the filter's test, a candidate being its key's entry in the index; see `Winners` and `WinnersAreIndex` |
| `Replay.Winners` | index.js:67-69 | the filter keeps exactly the candidates that are their key's winner, in order |
| `Replay.WinnersAreIndex` | index.js:67-69 | the filtered list is exactly the index's entries, in ascending offset order |
| `Replay.ReplayedIndexValid` | index.js:60-72 | every replayed index entry is a winner of its own key with a value, stamped no later than the resumed clock, of a class at most the largest winner's |
| `Replay.MaxBlock` | index.js:91-95 | the result bounds every winner's class and is 0 or one of them |
| `Replay.Carve` | index.js:83-88 | reference definition of the slots the inner loop of `free` pushes; see `CarveLayout` and `Database.Free` |
| `Replay.CarveEnd` | index.js:83-88 | reference definition of the `from` that `free` returns; see `CarveLayout` and `Database.Free` |
| `Replay.TilesLayout` | index.js:83-86 | contiguous slots are ascending and lie within the range they tile |
| `Replay.CarveLayout` | index.js:78-89 | `free` tiles the range from its start with slots of one class and stops less than one slot before the end |
| `Replay.GapSlots` | index.js:99-100 | reference definition of the slots reclaimed in front of one winner, max class first, then class 0; see `GapLayout` |
| `Replay.HeadAfter` | index.js:101 | reference definition of `head` after the reclaiming loop, the end of the last winner's replayed slot; see `ReclaimedInGaps` and `Database.PopulateFreelist` |
| `Replay.Reclaimed` | index.js:97-102 | reference definition of every slot the reclaiming loop pushes, in order; see `ReclaimedEnds`, `ReclaimedAscending`, `ReclaimedClasses`, `ReclaimedDisjoint`, `ReclaimedInGaps` and `Database.PopulateFreelist` |
| `Replay.GapLayout` | index.js:97-101 | each gap is tiled by max-class slots then base-class slots, within the gap, leaving under 256 bytes |
| `Replay.ReclaimedEnds` | index.js:97-102 | every reclaimed slot ends at or before the last winner's offset |
| `Replay.ReclaimedAscending` | index.js:97-102 | the reclaimed slots, in push order, are ascending and pairwise non-overlapping |
| `Replay.ReclaimedClasses` | index.js:97-102 | every reclaimed slot is of the max class or the base class |
| `Replay.ReclaimedDisjoint` | index.js:97-102 | reclaimed slots are pairwise disjoint, in ascending order, and end by the last winner's offset |
| `Replay.ReclaimedInGaps` | index.js:97-102 | every reclaimed slot lies between the end of one winner's slot and the start of the next |
| `FlatFile.Database.constructor` | index.js:105-113 | a new database is closed, empty, at clock 0 and head 0, with six empty free lists |
| `FlatFile.Database.PadFreelists` | index.js:29 | the free lists become the corrected padding of the old lists |
| `FlatFile.Database.Alloc` | index.js:28-39 | the allocation, the new lists and the new `head` are exactly those of `AllocSpec` |
| `FlatFile.Database.Free` | index.js:78-89 | the loop pushes the carved slots of the range onto the class's list and returns where carving stopped |
| `FlatFile.Database.PopulateFreelist` | index.js:75-103 | the lists become the padded old lists with every reclaimed slot pushed, and `head` ends after the last winner's slot |
| `FlatFile.Database.Open` | index.js:41-73 | after replaying a file, the index, the clock, `head` and the free lists are those of the replay functions, and `Valid` holds |
| `FlatFile.Database.PutRow` | index.js:130-135 | reference definition of the row `put` writes: the existing row with the next sequence, or a new row for a new key; see `Database.Put` |
| `FlatFile.Database.PutClass` | index.js:141 | reference definition of the class `put` stores the record in, `FitClass` of the entry's class (0 for a new key); see `Database.Put` and `Reopen.ReplayClassVersusPut` |
| `FlatFile.Database.Put` | index.js:123-145 | covers a closed database, the row written and its class, the slot, the index change and what `Get`/`Has` then answer (details below the table) |
| `FlatFile.Database.Del` | index.js:147-149 | a put of no value: the key leaves the index, a record is still allocated and written, and the superseded slot is handed to the completion |
| `FlatFile.Database.WriteDone` | index.js:115-121 | only a successful write frees the superseded slot, onto its class's list; `Valid` is kept |
| `FlatFile.Database.Get` | index.js:151-155 | fails exactly when closed; yields a value exactly for indexed keys, namely their row's value |
| `FlatFile.Database.Has` | index.js:157-160 | fails exactly when closed; true exactly for indexed keys |
| `FlatFile.Database.Keys` | index.js:162-165 | fails exactly when closed; holds exactly the indexed keys |
| `FlatFile.Database.Close` | index.js:167-170 | the database is closed afterwards |
| `Reopen.ReopenSeesLastPut` | index.js:41-65 | put then reopen: a record appended with a value and a sequence above every row with a value in the file becomes its key's entry at the record's offset, the other keys replay as before, and the clock reaches its sequence |
| `Reopen.ScanTwoRecords` | index.js:47-58 | two records written one after the other replay as two candidates, at offset 0 and right after the first record |
| `Reopen.TombstoneNeverWins` | index.js:62 | a live record followed by a newer tombstone of the same key still replays to the live row |
| `Reopen.ReplayedClassFits` | index.js:52-54 | the class replay derives for a record is never above the class `put` stored it in |
| `Reopen.ReplaySlotShort` | index.js:52-54 | the replayed slot misses the record's LF exactly when the record is one byte longer than a slot size |
| `Blocks.FitClass` | index.js:141 | the class `put` stores a record in holds the record, equals the entry's class exactly when the record fits it, and is the least class at or above the entry's class that holds the record |
| `Reopen.ReplayClassVersusPut` | index.js:135-141 | replay's class for a record (without its LF) is never above the class `put` stored it in; for a new key `put` uses the record's `nextBlockSize` with its LF, one class above replay's when replay's slot misses the LF and the same class otherwise |
| `Reopen.ReplayHeadOnLf` | index.js:97-102 | a file of one live 257-byte record replays to a class-0 winner at 0 with nothing reclaimed and `head` at 256, the record's LF, which the next allocation of any class returns |
| `Reopen.ReplayFreesLf` | index.js:97-102 | a 257-byte record stored in a class-1 slot replays as class 0; the gap from offset 256, which holds its LF, to the next winner is reclaimed as a class-0 slot, which the next class-0 allocation returns |

`FlatFile.Database.Put` states the following:

- On a closed database it fails with no state change.
- On an open one, the clock advances by one. The written row is the existing row with the new sequence, or a new row for a new key.
- The record fits its class. That class is the entry's old class, grown only when the record does not fit.
- The slot comes from `AllocSpec`.
- The index loses the key (no value) or maps it to the new entry.
- The superseded slot is handed to the completion.
- Together with the contracts of `Get` and `Has`, the index equation fixes what they answer afterwards. For a key already present, `Get` still returns the old value.

## Left out

- I/O and events are not modelled: `fs.exists`/`open`/`readFile`/`write`/`close`, the `open`, `error`, `close` and `drain` events, and the callbacks. The file's bytes come in as a parameter of `Open`; writes go out as `PendingWrite` values.
- The module-level factory `open`/`open.sync` (index.js:198-208) only constructs and opens; it is not modelled separately.
- JSON encoding and parsing are abstract (`Codec`). Rows that parse but are not `[sequence, key, value]` triples are not modelled, and neither are `tryParse` results that are falsy.
- A `null` value passed to `put` is not modelled; `Value` stands for non-null values. The source stores such a value but replay treats it as a tombstone.
- Aliasing between a stored row and the caller's value object is not modelled. The source writes the object as it is at the time of the next `put`.
- Keys that name properties of `Object.prototype` are not modelled; the source's `latest[key]` and `_entries[key]` see those properties.
- 'freelist', 'multiple writes' and 'last write wins' (test.js:52, 102, 120) wait for a `drain` event, but `Database` has no `on` method; events are not modelled.
- `JSON.stringify` at index.js:140 can throw (a circular value, a BigInt), after `put` has already advanced the clock, rewritten the row's sequence and, for a new key, inserted an entry at offset 0 (index.js:133-135). `Codec.encode` is total, so this error path is not modelled.
- Outstanding writes may complete in any order, since `WriteDone` can be called at any time. The model does not track which tokens are still pending.
- Blocks.NextBlockSize: `BLOCK_SIZE << i` is a 32-bit shift in the source and turns negative from class 23 (2 GiB) on. The model's slot sizes keep doubling, so records that large are not modelled faithfully.
- FlatFile.Database.Open: requires an empty index. Re-opening a database that already holds entries is not modelled. The source merges the file into the existing index and compares entries by object identity.
- FlatFile.Database.Keys: returns a set. The source returns an array in `Object.keys` order, and that order is not modelled.
- FlatFile.Database.Open: replay's filter compares entries by value, where the source compares by identity. Candidates sit at distinct offsets, so the two agree on a single replay.

## Findings

| source | as written | input that shows it | evidently intended | confidence | as-written member | corrected member |
|---|---|---|---|---|---|---|
| index.js:29 | `alloc` pads the free lists only while there are fewer than `block` of them, so class `block` still has no list when `block` equals their number | a `put` whose record needs class 6 on a fresh database, which has six lists (the set-up of test.js:28-43): reading the length of the missing list throws | pad until class `block` has a list | not executed | `Allocator.PadAsWritten` | `Allocator.Pad` |
| index.js:79 | `free` in `populateFreelist` pads the same way, one list short | a file whose largest winner has class 6 and a gap in front of some winner of at least one class-6 slot: the push onto the missing list throws | pad until class `block` has a list | not executed | `Allocator.PadAsWritten` | `Allocator.Pad` |

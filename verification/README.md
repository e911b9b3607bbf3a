# A verified model of the farm SDK's storage and of the engine's bookkeeping

This project models, in Dafny, the parts of the repository that keep state or do exact arithmetic, and proves what
they promise. Every module follows one source file or a small group of them.

| files | what they model |
|---|---|
| `Bytes`, `Division`, `Sums`, `Pack` | bytes, little-endian numbers, overwriting part of a buffer, sums, the padded 64-byte name |
| `RefDbSpec`, `RefDbRuns`, `RefDbNames` | RefDB as a row of optional entries and as a map by name: calls, whole runs, counters |
| `RefDbLayout`, `RefDbRead`, `RefDb`, `RefDbStore` | RefDB on a byte buffer, in place, proved to refine the row of slots call by call and run by run |
| `RefDbBytes`, `RefDbChanges`, `RefDbCases` | every byte of a storage at its literal position, the reads that ask for changes only, and small storages in which an operation surprises its caller |
| `ClientCache`, `PoolNames` | the client's cache of pool references, version-stripped names, the name parser |
| `Layout`, `Records`, `Codecs` | the fixed layouts of `Pool`, `Farm`, `Vault` and the fund records, packed in place |
| `RecordBytes`, `RecordReads` | the same layouts byte by byte, as literal positions, and which bytes can be read as a record |
| `Batching` | splitting instructions into transactions of limited size |
| `CircularBuffer`, `TxStream`, `FeeMetrics` | the two-way ring, the duplicate filter built on it, rolling average and percentile set |
| `Budget`, `Amounts`, `Apportion` | the SOL and token budget of a list of steps, what each step has to move, dividing an amount by random proportions |

The central relation is `RefDbLayout.Rep(d, db)`: the bytes `d` hold the storage `db`. It says that the header carries
the storage counter (never 0), the number of slots in use, the reference type and a zero-padded title; that a slot in
use holds exactly the bytes of its entry, with a zero-padded name; that a slot not in use has counter 0 and an all-zero
name, while its tag and reference bytes may be anything; and that the bytes left over behind the last record are fewer
than a record and zero. Each byte-level operation takes `db` as a ghost parameter, and its `ensures` clause gives its
result and the new storage by a function of module `RefDbSpec`. `RepDeterminesStorage` shows that `Rep` is a function
of the bytes, so those clauses fix what every later read returns. `ClientCache`, `FeeMetrics` and `TxStream` carry the
history of the calls made so far as ghost fields in the same spirit.

## Where the code does not do what one would expect

The code was followed in each case. Where a promise fails, the exact condition under which it holds is proved.

- Storage with 68 or more bytes left over behind its last record: writing a new name into a full storage fails, but only
  after the header was advanced and a counter written into the left-over bytes (`RefDb.Write`, condition
  `LandsInTail`; an instance is `RefDbCases.WriteIntoLongTail`). Storage sized by `get_storage_size_for_records` leaves
  nothing over (`RefDbStore.ExactSize`). `RefDbStore.Perform` says for every call and any number of left-over bytes
  what it answers and exactly when the bytes then stand for the storage they should (`Harmless`).
- `delete` clears as many bytes as the record it is *given* has, and `update_at` writes as many as the value it is given
  has. A larger type runs into the next slot; `RefDb.Delete` and `RefDb.UpdateAt` state exactly when that does no harm
  (`OverrunHarmless`, `UpdateHarmless`; instances are `RefDbCases.DeleteRunsOver` and `RefDbCases.UpdateRunsOver`). A
  smaller or differently typed value is stored as the bytes of the old one overwritten by its own
  (`RefDbSpec.Stored`).
- `update_at` on an empty slot fails but has already advanced the storage counter (`RefDbRuns.FailureChangesNothing`).
- A write by index into an empty slot can bring a name in twice; nothing else can (`RefDbNames.WriteKeepsNamesApart`, with
  an instance in `RefDbCases.NameTwice`).
- Deleting an absent name reports success with 0 bytes, but an error when the storage is full (`RefDbNames.NameDelete`).
- `is_updated` and the reads that ask for changes only compare counters by size, but both kinds of counter start again at
  1 behind their maximum, and that of a record also when the record is deleted and written again. A change of the
  storage is missed exactly when its counter has passed the maximum or come full circle
  (`RefDbChanges.StorageChangeIsSeen`). For records the law is that a counter shows an age, which is 0 while the slot is
  empty and grows by one with each write and update (`RefDbRuns.CounterShowsAge`); a change is missed exactly when the
  counter shown is not above the one seen (`RefDbChanges.RecordChangeIsSeen`, with an instance in
  `RefDbCases.RewriteIsMissed`).
- For the same reason a stale write can go through: it is refused exactly when the age of the record is not a whole
  number of rounds away from the counter given (`RefDbRuns.StaleWriteIsRefused`, with an instance to the contrary in
  `RefDbCases.RewriteLetsStaleWriteThrough`).
- `init` does not clear the buffer. It makes an empty storage exactly if the bytes were vacant: empty slots, zero
  left-over bytes, and no longer title before (`RefDbStore.Init`, condition `Vacant`).
- Packing a shorter string over a longer one leaves the end of the older one: the new string comes back exactly if the
  byte behind it was zero (`Pack.NameOverRoundTrip`, `Codecs.PackOverRoundTrip`). Strings that contain a zero byte never
  come back (`Pack.PaddedRoundTrip`).
- `reinsert_latest_versions` never removes anything: keys whose pools are gone stay (`PoolNames.StaleKeysRemain`).
- `extract_token_names` loses the second token of an unversioned name exactly if it is a V and a digit
  (`PoolNames.TokensOfPlainName`).
- A buffer or percentile set of capacity 0 grows without bound. Adding to a full percentile set keeps it full exactly if
  the value is not among those that stay, so the set may be one short (`CircularBuffer.InsertKeepsBound`,
  `FeeMetrics.Percentile.Add`, `FeeMetrics.SetIsFull`).
- When the first step carried out is a plain SOL transfer, the running SOL amount is charged the fee twice
  (`Budget.SolNeverExceedsBudget`, with an instance in `Budget.FeeTwice`), although a comment in the source says that the
  cost of a step excludes fees.
- Nothing refuses a list of steps that moves more SOL than there is: the check is commented out
  (`Budget.OverspendingPasses`). What is really spent stays within the balance exactly if each step is affordable when it
  comes and none sweeps (`Budget.SpentWithinBalance`). The charges, which are that and one fee more when a plain SOL
  transfer comes first (`Budget.ChargedIsSpent`), stay within it exactly if each step is covered by the pointer
  (`Budget.WithinBalance`); so a first transfer can be affordable without being covered (`Budget.AffordableButNotCovered`).
- Dividing can take more off the first share than it has, without a minimum and with one. For samples of a Dirichlet
  distribution, whose proportions are positive, the first of n parts with minimum m bears the correction for all samples
  and amounts if and only if n <= 2 m + 3 (`Apportion.FirstBearsUpTo`, with instances in `Apportion.FirstShareTooSmall` and
  `Apportion.FirstShareTooSmallWithMin`); for given shares `Apportion.DivideWithMin` has the exact condition.

## Model

| member | source | states |
|---|---|---|
| Bytes.LeOfToLe | crates/solana_farm_sdk/src/refdb.rs:653-674 | a number that fits into n bytes is read back from its little-endian form, the basis of all counters |
| Bytes.LeOfEight | crates/solana_farm_sdk/src/fund.rs:328-329 | the number that eight bytes are read as, written out byte by byte, the least significant first |
| Pack.PaddedRoundTrip | crates/solana_farm_sdk/src/pack.rs:105-121 | a string packed over zeros is unpacked again if and only if it holds no zero byte |
| Pack.PaddedInjective | crates/solana_farm_sdk/src/pack.rs:105-113 | two names have the same padded form only if they are equal |
| Pack.NameOverRoundTrip | crates/solana_farm_sdk/src/pack.rs:105-121 | a name packed over any old field comes back exactly if it is empty, fills the field, or the old byte behind it was zero |
| Pack.NameOverKeepsPadding | crates/solana_farm_sdk/src/pack.rs:105-113 | packing a name over a field that held that name or nothing leaves it zero-padded |
| RefDbSpec.FreePlusActive | crates/solana_farm_sdk/src/refdb.rs:693-701 | slots in use and slots free add up to all slots |
| RefDbSpec.FirstNamedIs | crates/solana_farm_sdk/src/refdb.rs:963-985 | the search by name ends at `k` exactly if no slot before has the name and slot `k` has it or is the end |
| RefDbSpec.FirstFreeIs | crates/solana_farm_sdk/src/refdb.rs:1013-1035 | the search for a free slot ends at `k` exactly if all slots before are in use and slot `k` is free or is the end |
| RefDbSpec.ActivePrefix | crates/solana_farm_sdk/src/refdb.rs:963-985 | a prefix holds all slots in use exactly if nothing after it is in use: why the scans may stop early |
| RefDbSpec.ActiveUpdate | crates/solana_farm_sdk/src/refdb.rs:836-841 | how the count of slots in use moves when one slot changes |
| RefDbSpec.RefRoundTrip | crates/solana_farm_sdk/src/refdb.rs:405-579 | every reference survives its byte form, for each of the seven types |
| RefDbSpec.StoredBytes | crates/solana_farm_sdk/src/refdb.rs:891-899 | the bytes of a value that was overwritten by one of another type: the new ones, and then the old or a cut |
| RefDbLayout.KindOf | crates/solana_farm_sdk/src/refdb.rs:709-713 | the type byte in the header: exactly 0 to 6 are types, and each is the tag of its own type |
| RefDbLayout.EntryRoundTrip | crates/solana_farm_sdk/src/refdb.rs:344-386 | an entry's bytes, whatever follows them, unpack to that entry with the caller's index |
| RefDbLayout.RepDeterminesStorage | crates/solana_farm_sdk/src/refdb.rs:123-137 | the same bytes never stand for two different storages |
| RefDbLayout.EveryStorageHasBytes | crates/solana_farm_sdk/src/refdb.rs:99-121 | and every storage, with any number of bytes left over that is less than a record, has bytes that stand for it |
| RefDbBytes.HeaderLies | crates/solana_farm_sdk/src/refdb.rs:99-112 | in every represented storage bytes 0 to 3 are the counter, 4 to 7 the slots in use, byte 8 is the number of the type and 9 to 72 the zero-padded title |
| RefDbBytes.SlotLies | crates/solana_farm_sdk/src/refdb.rs:344-359 | slot i begins at byte 73 + i records of 68 to 100 bytes: counter, tag, zero-padded name and value at their positions, no counter and no name when empty |
| RefDbBytes.HeaderAnswers | crates/solana_farm_sdk/src/refdb.rs:653-713 | the header getters on any bytes: each error exactly when the bytes are too few, the counter 0 or the type byte above 6 |
| RefDbBytes.InitializedIs | crates/solana_farm_sdk/src/refdb.rs:634-645 | bytes count as initialised exactly if the counter is not 0, the type known and the counted records fit |
| RefDbRead.HeaderReads | crates/solana_farm_sdk/src/refdb.rs:653-720 | in every represented storage the header getters give counter, slots in use, type, total and title, and free + active = total |
| RefDbRead.OffsetOfIndex | crates/solana_farm_sdk/src/refdb.rs:1040-1045 | an index leads to its slot; the position just behind the last slot is let through, and nothing beyond it |
| RefDbRead.ReadAtIsSlot | crates/solana_farm_sdk/src/refdb.rs:732-741 | `read_at` returns exactly what the slot holds, `None` for an empty one, and an error past the last slot |
| RefDbRead.FindIndex | crates/solana_farm_sdk/src/refdb.rs:963-985 | the early-stopping scan finds the first slot in use with the name, or None; it never fails |
| RefDbRead.Read | crates/solana_farm_sdk/src/refdb.rs:723-729 | reading by name gives the first entry of that name with its slot number, or None |
| RefDbRead.ReadAll | crates/solana_farm_sdk/src/refdb.rs:772-788 | the full read returns exactly the slots in use in order and never fails |
| RefDbRead.ListingStops | crates/solana_farm_sdk/src/refdb.rs:779-786 | stopping at the last slot in use loses nothing |
| RefDbRead.FindLastIndex | crates/solana_farm_sdk/src/refdb.rs:990-1010 | the returned position has only free slots from it on, and a slot in use just before it unless it is 0 |
| RefDbRead.FindNextIndex | crates/solana_farm_sdk/src/refdb.rs:1013-1035 | the least free slot, or the number of slots when full |
| RefDbRead.FindWriteOffset | crates/solana_farm_sdk/src/refdb.rs:1047-1078 | the byte offset of the entry with the name, else of the least free slot, else of the end |
| RefDb.PackName | crates/solana_farm_sdk/src/pack.rs:105-113 | the in-place copy of a name touches only its own bytes of the field |
| RefDb.PackRecord | crates/solana_farm_sdk/src/refdb.rs:344-359 | in-place packing of a record: too small a buffer is refused untouched, else the record's bytes replace what stood there |
| RefDb.SetStorageCounter | crates/solana_farm_sdk/src/refdb.rs:664-674 | refuses 0 and short buffers untouched, else replaces the first four bytes |
| RefDb.SetActiveRecords | crates/solana_farm_sdk/src/refdb.rs:683-690 | refuses short buffers untouched, else replaces bytes 4 to 8 |
| RefDb.SetRecordCounter | crates/solana_farm_sdk/src/refdb.rs:1084-1090 | does nothing for 0, else replaces the two counter bytes of the record |
| RefDb.WriteRefusalIs | crates/solana_farm_sdk/src/refdb.rs:813-828 | the checks of `write` read from bytes refuse exactly the calls the slots say must be refused, with the same error |
| RefDb.Write | crates/solana_farm_sdk/src/refdb.rs:805-851 | `write` in place gives the outcome and the storage of `RefDbSpec.Write`; what it does in too many left-over bytes is stated too; a failing write changes no byte, if and only if it does not land there |
| RefDb.TailWriteShows | crates/solana_farm_sdk/src/refdb.rs:829-850 | a write that lands in the left-over bytes has changed the buffer although it fails, and the bytes no longer stand for the storage they stood for |
| RefDb.UpdateAt | crates/solana_farm_sdk/src/refdb.rs:875-900 | `update_at` in place, with a value of any type: too small a rest is refused untouched; else the outcome of `RefDbSpec.UpdateAt`, and its storage if and only if `UpdateHarmless`; an empty slot only advances the storage counter |
| RefDb.Update | crates/solana_farm_sdk/src/refdb.rs:858-868 | update by name, with a value of any type, does that to the first entry of that name; on any error no byte changes |
| RefDb.EntryOverEntry | crates/solana_farm_sdk/src/refdb.rs:889-899 | an entry packed over another is the entry with the stored value, and what it has too much goes behind it |
| RefDb.Delete | crates/solana_farm_sdk/src/refdb.rs:905-942 | `delete` in place gives the outcome and the storage of `RefDbSpec.Delete`; with a record of a larger type, if and only if `OverrunHarmless`; when nothing was deleted no byte changes |
| RefDb.DeletedIs | crates/solana_farm_sdk/src/refdb.rs:914-942 | the exact condition under which clearing the given record's length frees one slot and disturbs nothing |
| RefDb.OverrunEffect | crates/solana_farm_sdk/src/refdb.rs:939 | bytes written over the beginning of a slot, or of the left-over bytes, leave the storage what it was if and only if `OverrunSafe`: zeros in the left-over bytes, zero counter and name in an empty slot, an entry its own bytes |
| RefDb.OverrunActive | crates/solana_farm_sdk/src/refdb.rs:939 | an entry in use stays what it is exactly when its own bytes are written |
| RefDb.OverrunEmpty | crates/solana_farm_sdk/src/refdb.rs:939 | an empty slot stays empty exactly as long as its counter and its name stay zero |
| RefDb.ZerosAreSafe | crates/solana_farm_sdk/src/refdb.rs:939 | clearing leaves the next entry intact exactly if one byte is cleared and it is the zero low byte of the counter |
| RefDb.ClearedSlot | crates/solana_farm_sdk/src/refdb.rs:939 | clearing the first 68 bytes of a slot is enough to make it empty |
| RefDb.DeleteWithName | crates/solana_farm_sdk/src/refdb.rs:945-960 | deleting by name only, which clears 68 bytes, frees the slot in storage of any type and changes nothing else; 68 or more left-over bytes are taken for an empty slot |
| RefDbRuns.ApplyKeepsValid | crates/solana_farm_sdk/src/refdb.rs:805-960 | every call, whatever the type of its value, keeps both kinds of counter nonzero and every entry of the storage's type |
| RefDbRuns.FailureChangesNothing | crates/solana_farm_sdk/src/refdb.rs:805-942 | a failing call leaves the storage as it was if and only if it is not an `update_at` on an empty slot; the slots stay in any case |
| RefDbRuns.CycleStep | crates/solana_farm_sdk/src/refdb.rs:829-835 | one step on the cycle 1..m that skips 0 |
| RefDbRuns.CycleReturns | crates/solana_farm_sdk/src/refdb.rs:829-835 | a counter is back where it was exactly after a multiple of the cycle's length |
| RefDbRuns.StorageCounterCycle | crates/solana_farm_sdk/src/refdb.rs:829-835 | over any run the storage counter has moved one step per advancing call on a cycle of length 2^32 - 1 without 0 |
| RefDbRuns.EqualCounterMeansEqual | crates/solana_farm_sdk/src/refdb.rs:829-835 | over any run: counters agree exactly if the advances are a multiple of 2^32 - 1, and with fewer advances equal counters mean an equal storage |
| RefDbRuns.CounterShowsAge | crates/solana_farm_sdk/src/refdb.rs:805-942 | over any run, deletions included: a slot is in use exactly if it has an age, and its counter is the age counted in rounds of 65535 from 1 |
| RefDbRuns.SameShown | crates/solana_farm_sdk/src/refdb.rs:845-849 | two ages show the same counter exactly if they differ by whole rounds |
| RefDbRuns.RecordCounterCycle | crates/solana_farm_sdk/src/refdb.rs:845-849 | as long as nothing deletes a record its counter moves one step per write or update on a cycle of length 65535 without 0 |
| RefDbRuns.StaleWriteIsRefused | crates/solana_farm_sdk/src/refdb.rs:813-819 | over any run: a write is refused for its counter exactly if that is not 0 and its slot is in use and of an age that is not a whole number of rounds from that counter |
| RefDbRuns.StaleWriteToUndeleted | crates/solana_farm_sdk/src/refdb.rs:813-819 | if nothing deleted the record since its counter was read: exactly if the writes and updates since are not a multiple of 65535 |
| RefDbRuns.StaleDeleteIsRefused | crates/solana_farm_sdk/src/refdb.rs:914-924 | over any run and with any index: a delete is refused for its counter exactly if that is not 0 and its slot is in use and of an age that is not a whole number of rounds from it |
| RefDbRuns.DeleteAnswers | crates/solana_farm_sdk/src/refdb.rs:905-942 | every answer of a delete exactly: past the end, wrong counter, then wrong name with or without an index, nothing there, or the slot freed and nothing else changed |
| RefDbRuns.DeleteByNameAnswers | crates/solana_farm_sdk/src/refdb.rs:945-960 | the same for a delete by name only, which no counter can refuse |
| RefDbRuns.WriteAnswers | crates/solana_farm_sdk/src/refdb.rs:805-851 | every answer of a write exactly, and the entry it leaves: the name counts only with an index, the type in any slot |
| RefDbRuns.UpdateAtAnswers | crates/solana_farm_sdk/src/refdb.rs:875-900 | every answer of an update by index exactly: counter and value change, tag and name stay |
| RefDbRuns.UpdateAnswers | crates/solana_farm_sdk/src/refdb.rs:858-868 | an update by name is one of the first entry of that name, or refused when there is none |
| RefDbRuns.ListingIsAllEntries | crates/solana_farm_sdk/src/refdb.rs:772-788 | a record is in the full read exactly if some slot in use holds it |
| RefDbRuns.ListingIsOrdered | crates/solana_farm_sdk/src/refdb.rs:779-786 | the full read is ordered by slot number, so none comes twice |
| RefDbChanges.ReadAtIfChangedIs | crates/solana_farm_sdk/src/refdb.rs:757-769 | a read by index of a changed record gives the entry if its counter is larger than the one seen, an error past the last slot |
| RefDbChanges.ReadIfChanged | crates/solana_farm_sdk/src/refdb.rs:744-754 | the same by name, for the first entry of that name |
| RefDbChanges.ReadAllIfChanged | crates/solana_farm_sdk/src/refdb.rs:791-800 | the full read, or nothing unless the storage counter is larger than the one seen |
| RefDbChanges.StorageChangeIsSeen | crates/solana_farm_sdk/src/refdb.rs:628-630 | over any run `is_updated` says so exactly if the number of advances is no multiple of 2^32 - 1 and the counter has not passed its maximum in the last round |
| RefDbChanges.RecordChangeIsSeen | crates/solana_farm_sdk/src/refdb.rs:757-769 | over any run and for any counter seen: a read by index gives the record exactly if the counter that shows its age is larger, and nothing else |
| RefDbChanges.ChangeOfUndeletedIsSeen | crates/solana_farm_sdk/src/refdb.rs:757-769 | if nothing deleted the record since its counter was seen: exactly if the writes and updates are no multiple of 65535 and the counter has not passed its maximum in the last round |
| RefDbChanges.MissedWhenItStartsAgain | crates/solana_farm_sdk/src/refdb.rs:845-849 | with less than one round a change is missed exactly if the counter had to start again |
| RefDbCases.WriteIntoLongTail | crates/solana_farm_sdk/src/refdb.rs:829-850 | a storage of 217 bytes and a write that fails after changing it |
| RefDbCases.DeleteRunsOver | crates/solana_farm_sdk/src/refdb.rs:939 | a storage of 211 bytes and a delete that clears bytes of the next record |
| RefDbCases.UpdateRunsOver | crates/solana_farm_sdk/src/refdb.rs:899 | a storage of 211 bytes and an update that writes over the next record |
| RefDbCases.AgainIsYoung | crates/solana_farm_sdk/src/refdb.rs:805-942 | a record of any counter that is deleted and written again has the counter and the age 1 |
| RefDbCases.RewriteIsMissed | crates/solana_farm_sdk/src/refdb.rs:757-769 | bytes in which a record was deleted and written again, and a read for changes since counter 5 that does not give the new value |
| RefDbCases.RewriteLetsStaleWriteThrough | crates/solana_farm_sdk/src/refdb.rs:813-819 | a record of counter 1 deleted and written again, and a write with that counter that goes through |
| RefDbCases.NameTwice | crates/solana_farm_sdk/src/refdb.rs:806-824 | a storage and a write by index after which two entries have the same name |
| RefDbStore.RepIsInitialized | crates/solana_farm_sdk/src/refdb.rs:634-645 | every represented storage counts as initialised |
| RefDbStore.ZeroedIsNotInitialized | crates/solana_farm_sdk/src/refdb.rs:634-645 | a zeroed buffer does not |
| RefDbStore.FreshRep | crates/solana_farm_sdk/src/refdb.rs:594-604 | a fresh header stands for an empty storage of as many slots as fit if and only if the bytes were vacant |
| RefDbStore.ZeroedIsVacant | crates/solana_farm_sdk/src/refdb.rs:594-604 | zeroed bytes are vacant |
| RefDbStore.Init | crates/solana_farm_sdk/src/refdb.rs:586-604 | `init` fails, leaving every byte, exactly on an initialised or too small buffer; else it writes the header over the first 73 bytes, which makes an empty storage if and only if the bytes were vacant |
| RefDbStore.PackHeader | crates/solana_farm_sdk/src/refdb.rs:99-112 | the header is packed into the first 73 bytes and nothing else |
| RefDbStore.Drop | crates/solana_farm_sdk/src/refdb.rs:607-615 | `drop` refuses short and large buffers untouched, and else zeroes the buffer, which then counts as uninitialised |
| RefDbStore.Perform | crates/solana_farm_sdk/src/refdb.rs:805-960 | any single call, with a value of any type and any number of bytes left over: its outcome, and the bytes stand for the storage it should leave if and only if it is harmless; a harmless failing call that leaves the storage leaves every byte |
| RefDbStore.Run | crates/solana_farm_sdk/src/refdb.rs:805-960 | any sequence of calls up to and with the first that does harm: the outcomes are those of the same calls on slots, and the bytes stand for the storage these leave if and only if the last call is harmless too |
| RefDbStore.InitAndRun | crates/solana_farm_sdk/src/refdb.rs:586-960 | the same from a zeroed buffer of any length, through `init` and any calls |
| RefDbStore.StepIsApply | crates/solana_farm_sdk/src/refdb.rs:805-960 | with fewer than 68 bytes left over, a call whose value is no larger than the storage's, or disturbs nothing, is harmless and does what module RefDbRuns says |
| RefDbStore.RunIsRun | crates/solana_farm_sdk/src/refdb.rs:805-960 | so runs of such calls have the outcomes and storages that the results about runs speak of |
| RefDbStore.ExactSize | crates/solana_farm_sdk/src/refdb.rs:248-257 | storage sized for n records holds n and leaves no byte over |
| RefDbNames.EntriesAre | crates/solana_farm_sdk/src/refdb.rs:963-985 | with distinct names, looking a name up in the map is finding its first slot |
| RefDbNames.WriteKeepsNamesApart | crates/solana_farm_sdk/src/refdb.rs:805-824 | a successful write keeps names distinct if and only if it is not an indexed write of a name in use into an empty slot |
| RefDbNames.OthersKeepNamesApart | crates/solana_farm_sdk/src/refdb.rs:858-960 | updates and deletes always keep names distinct |
| RefDbNames.MapAnswers | crates/solana_farm_sdk/src/refdb.rs:723-729 | map lookup, search by name and being full agree between slots and map |
| RefDbNames.WriteByName | crates/solana_farm_sdk/src/refdb.rs:805-851 | a write by name is one step on a map of bounded size |
| RefDbNames.UpdateByName | crates/solana_farm_sdk/src/refdb.rs:858-868 | so is an update by name |
| RefDbNames.DeleteByName | crates/solana_farm_sdk/src/refdb.rs:905-942 | and a delete by name |
| RefDbNames.ApplyByName | crates/solana_farm_sdk/src/refdb.rs:805-960 | every call by name does on the map what it does on the slots, with the same outcome |
| RefDbNames.RunByName | crates/solana_farm_sdk/src/refdb.rs:805-960 | any run of calls by name, whatever the types of their values, is a run on the map, with the same outcomes, and names stay distinct |
| RefDbNames.WriteReadsBack | crates/solana_farm_sdk/src/refdb.rs:829-850 | after a successful write the name maps to the written tag and reference with the successor counter, and every other name is as before |
| RefDbNames.DeleteRemovesName | crates/solana_farm_sdk/src/refdb.rs:915-942 | a successful delete takes its name out of the map and nothing else |
| ClientCache.Cache.Set | crates/solana_farm_client/src/cache.rs:46-50 | the cache holds the given data with its counter |
| ClientCache.Cache.Reset | crates/solana_farm_client/src/cache.rs:52-56 | the cache is empty and stale |
| ClientCache.Cache.MarkNotStale | crates/solana_farm_client/src/cache.rs:58-60 | only the load time changes |
| ClientCache.RefsAreEntries | crates/solana_farm_client/src/client.rs:2010-2027 | for a storage of addresses the map the client builds from the full read is the storage's map by name |
| ClientCache.GetRefdbPubkeyMap | crates/solana_farm_client/src/client.rs:2010-2027 | reading an initialised account succeeds and gives its counter together with its map |
| ClientCache.PoolClient.ReloadPoolRefsIfStale | crates/solana_farm_client/src/client.rs:4439-4456 | a cache that is empty or was loaded 21600 seconds ago or more holds after the call what the storage shows, also when it was kept because the counters agree; any other is untouched; the pools are emptied exactly on a reload |
| PoolNames.StripsVersion | crates/solana_farm_client/src/client.rs:4161-4189 | stripping undoes appending "-V" and a digit, if and only if the name is not empty and does not begin with a token prefix |
| PoolNames.StripsPrefixAndVersion | crates/solana_farm_client/src/client.rs:4174-4189 | the same for liquidity tokens, if and only if something is left between prefix and version |
| PoolNames.StrippedWasVersioned | crates/solana_farm_client/src/client.rs:4161-4189 | whatever is stripped successfully was a non-empty name with a version, and perhaps a prefix |
| PoolNames.ReinsertLatestVersions | crates/solana_farm_client/src/client.rs:4284-4303 | for any iteration order each stripped name leads to a full name of highest version among those that strip to it; the destination gains exactly these |
| PoolNames.InsertAll | crates/solana_farm_client/src/client.rs:4300-4302 | the destination gains every entry of the index and nothing else |
| PoolNames.IndexIsDetermined | crates/solana_farm_client/src/client.rs:4284-4303 | keys and versions of the index do not depend on the iteration order |
| PoolNames.SplitFirst | crates/solana_farm_client/src/client.rs:4198-4210 | splitting at a separator gives the first piece and the split of the rest |
| PoolNames.TokensOfVersionedName | crates/solana_farm_client/src/client.rs:4197-4230 | from "PROTO.A-B-Vd", with or without a token prefix, protocol and both tokens come back |
| PoolNames.TokensOfPlainName | crates/solana_farm_client/src/client.rs:4197-4230 | from "PROTO.A-B" too, except that B is lost exactly if it is a V and a digit |
| PoolNames.ProtocolNames | crates/solana_farm_sdk/src/lib.rs:132-143 | a name is that of a protocol exactly if it is one of its two in lower case |
| PoolNames.LowerIs | crates/solana_farm_sdk/src/lib.rs:135 | lowering turns the 26 capital letters of ASCII into the small ones and nothing else |
| PoolNames.PrefixesAndVersions | crates/solana_farm_client/src/client.rs:4160-4191 | the prefixes are exactly LP., VT. and FD., a version is a dash, a V of either case and a digit |
| PoolNames.UnknownProtocol | crates/solana_farm_client/src/client.rs:4197-4230 | a name without a dot, or with an unknown protocol in front of its first dot, is refused |
| PoolNames.MissingTokens | crates/solana_farm_client/src/client.rs:4203-4219 | so is one whose last part has an empty first or second token |
| Layout.FieldRoundTrip | crates/solana_farm_sdk/src/pack.rs:47-121 | a value of any field kind packed over any bytes comes back if and only if the field is clean for it |
| Layout.UnpackedFits | crates/solana_farm_sdk/src/pack.rs:52-121 | whatever unpacks fits its field, and the bytes it came from are clean for it |
| Layout.LayoutRoundTrip | crates/solana_farm_sdk/src/pool.rs:196-344 | packing all fields over any bytes and unpacking gives the values back if and only if all string fields are clean |
| Layout.UnpackedRepacks | crates/solana_farm_sdk/src/pack.rs:47-121 | packing the values that bytes unpack to back over them changes no byte |
| Layout.ZeroedIsClean | crates/solana_farm_sdk/src/pool.rs:481-488 | zeroed bytes are clean for all values |
| Layout.UnpackedIsClean | crates/solana_farm_sdk/src/pool.rs:346-416 | bytes that unpack are clean for the values they unpack to |
| Layout.FieldLiesAt | crates/solana_farm_sdk/src/pool.rs:216-282 | each field stands at its own offset and depends on no other value |
| Layout.PackField | crates/solana_farm_sdk/src/pack.rs:47-113 | packing one value in place changes its field as specified and no other byte |
| Layout.PackFields | crates/solana_farm_sdk/src/fund.rs:695-742 | packing all values in place, field after field, changes the layout's bytes as specified and no other byte |
| Records.LayoutLength | crates/solana_farm_sdk/src/pool.rs:191-194 | the fields of each layout fill exactly the length declared for it |
| Records.ValuesFit | crates/solana_farm_sdk/src/vault.rs:211-310 | the values of every record fit the fields of its layout |
| Records.RecordOfValues | crates/solana_farm_sdk/src/farm.rs:268-317 | the values of a record make up that record again |
| Records.ValuesOfRecord | crates/solana_farm_sdk/src/farm.rs:144-202 | and fitting values are the values of the record they make up, in all nine layouts |
| Codecs.ShapeIsSelected | crates/solana_farm_sdk/src/pool.rs:490-498 | the first packed byte selects the layout the record was packed in |
| Codecs.PackOverRoundTrip | crates/solana_farm_sdk/src/fund.rs:323-436 | packing any record over any bytes and unpacking gives it back if and only if the bytes are clean for its strings |
| Codecs.ToVecRoundTrip | crates/solana_farm_sdk/src/vault.rs:418-437 | `unpack(to_vec(x)) = x` with the length of the layout, whatever bytes follow |
| Codecs.RepackRoundTrip | crates/solana_farm_sdk/src/farm.rs:375-399 | whatever bytes unpack, packing the result over them or over fresh bytes unpacks to the same record of the same type |
| Codecs.RepackChangesNothing | crates/solana_farm_sdk/src/pool.rs:474-508 | whatever unpacks as a record is packed back to the very same bytes |
| Codecs.PackedField | crates/solana_farm_sdk/src/farm.rs:155-202 | in a packed record each field holds its own value's bytes at its offset |
| Codecs.PackRecord | crates/solana_farm_sdk/src/pool.rs:474-479 | `pack` in place: too short a buffer is refused untouched, else the record's bytes replace its beginning |
| RecordBytes.RecordLies | crates/solana_farm_sdk/src/vault.rs:211-310 | every field of every record in all nine layouts is packed to its literal byte range: tag, strings, flags, option bytes, numbers, addresses; what stood behind strings, under absent options and behind the record stays |
| RecordBytes.UnpackedLies | crates/solana_farm_sdk/src/pool.rs:346-472 | and what any bytes unpack to was read from those ranges |
| RecordBytes.RequestsActions | crates/solana_farm_sdk/src/fund.rs:368-396 | the four nested actions lie at bytes 72, 88, 104 and 120, time first and amount second |
| RecordReads.UnpackAnswers | crates/solana_farm_sdk/src/farm.rs:375-399 | bytes unpack exactly if they are long enough and their tags, flags and option bytes, at literal positions, are in range; and the error when they do not |
| RecordReads.UnpackRefuses | crates/solana_farm_sdk/src/vault.rs:427-437 | no bytes, an unknown tag and a dynamic-hedge vault each give their own error |
| Batching.CutIsGreedy | crates/solana_farm_client/src/client.rs:1200-1220 | the cut takes at least one instruction, makes an allowed batch, and where it stops one more would exceed 1644 |
| Batching.BatchesCoverAll | crates/solana_farm_client/src/client.rs:1223-1252 | the batches joined are the instructions in order, none is empty, each is allowed |
| Batching.GreedyIsOptimal | crates/solana_farm_client/src/client.rs:1200-1252 | with a size monotone on parts, no in-order split into allowed batches is shorter |
| Batching.NoSplitIsShorter | crates/solana_farm_client/src/client.rs:1200-1252 | the same from any position on, against splits that have come no further |
| Batching.CreateTransaction | crates/solana_farm_client/src/client.rs:1200-1220 | the search finds the greedy cut: all instructions if there is at most one or they fit into 1644, else as many as fit up to the first that does not; its `unreachable!()` is never reached |
| Batching.SendInBatches | crates/solana_farm_client/src/client.rs:1223-1252 | the batches go out in order up to the first failing one; success means all of them |
| CircularBuffer.LookupsAreInverse | src/utils/circular_buffer_w_rev.rs:73-81 | lookup by key, lookup by value and being a live pair say the same |
| CircularBuffer.PopKeepsStep | src/utils/circular_buffer_w_rev.rs:83-93 | popping returns the oldest pair and leaves the others, maps and queues in step |
| CircularBuffer.InsertKeepsStep | src/utils/circular_buffer_w_rev.rs:32-51 | inserting keeps queues and map in step if and only if the key is not live after making room, and then appends the pair |
| CircularBuffer.InsertKeepsInverse | src/utils/circular_buffer_w_rev.rs:32-51 | it keeps the maps inverse if and only if the value is not live either |
| CircularBuffer.InsertKeepsBound | src/utils/circular_buffer_w_rev.rs:34-42 | it keeps the size within the capacity if and only if the capacity is positive; with capacity 0 every insertion makes the buffer grow |
| CircularBuffer.RunIsQueue | src/utils/circular_buffer_w_rev.rs:32-93 | any run of fresh inserts and pops keeps the maps inverse and holds the latest pairs not yet popped, oldest first |
| CircularBuffer.CircularBufferWithLookupByValue.Insert | src/utils/circular_buffer_w_rev.rs:32-51 | the four fields change as `Inserted` says |
| CircularBuffer.CircularBufferWithLookupByValue.PopFront | src/utils/circular_buffer_w_rev.rs:83-93 | the four fields change, and the pair comes back, as `Popped` says |
| TxStream.Filter.Accept | src/collectors/tx_stream/tx_stream.rs:43-67 | an event passes exactly if it carries no signature by nature or its signature is not among the last 65536 passed, whatever the time stamps |
| TxStream.BlockchainStream | src/collectors/tx_stream/tx_stream.rs:28-67 | the whole output depends on the events alone, not on the clock, although colliding time stamps break the reverse map; the memory is 65536 signatures |
| TxStream.NextOutput | src/collectors/tx_stream/tx_stream.rs:43-67 | one more event: accounts come through, transactions without a signature do not, others exactly if the last signatures of the output do not have theirs |
| TxStream.RepeatsAreFarApart | src/collectors/tx_stream/tx_stream.rs:43-62 | equal signatures in the output are more than the capacity apart |
| TxStream.NoSignatureIsLost | src/collectors/tx_stream/tx_stream.rs:43-62 | every signature that came in has come out |
| TxStream.OutputSignatures | src/collectors/tx_stream/tx_stream.rs:43-62 | the signatures of the output are those remembered as passed |
| FeeMetrics.RollingAverage.Add | src/utils/fee_metrics.rs:21-26 | after any number of adds the ring holds the last values, zero-filled at first, and the wrapping sum is theirs modulo 2^64 |
| FeeMetrics.RollingAverage.GetAverage | src/utils/fee_metrics.rs:28-30 | the average, exact whenever the true sum is below 2^64 |
| FeeMetrics.LastValuesMove | src/utils/fee_metrics.rs:21-26 | the window of last values drops its first and gains the new one |
| FeeMetrics.RingMoves | src/utils/fee_metrics.rs:21-26 | overwriting the ring at its index and moving on is dropping the oldest value and appending the new one |
| FeeMetrics.Percentile.Add | src/utils/fee_metrics.rs:46-53 | at most capacity values, the latest among them, what was dropped is below the capacity - 1 largest that are left, and a full set stays full exactly if the value is not among those that stay |
| FeeMetrics.LargestAreKept | src/utils/fee_metrics.rs:46-53 | a value with fewer than capacity - 1 larger ones among all ever added is in the set |
| FeeMetrics.SetIsFull | src/utils/fee_metrics.rs:46-53 | the set has all values ever added or at least capacity - 1 |
| FeeMetrics.Percentile.GetPercentile | src/utils/fee_metrics.rs:55-61 | None exactly for an empty set or a percentile more than half a position above the last value; else the value whose position is nearest to its share, halves upwards: the smallest for 0, the largest for 100 |
| FeeMetrics.RankInRange | src/utils/fee_metrics.rs:59 | there is a value at the position exactly for percentiles that are less than half a position above the last value |
| FeeMetrics.RankIs | src/utils/fee_metrics.rs:59 | the position is k exactly if 100 k is within 50 of the percentile times the number of other values, halves upwards |
| FeeMetrics.PercentileIsMonotone | src/utils/fee_metrics.rs:55-61 | a higher percentile is no smaller |
| FeeMetrics.FeeMetrics.AddFee | src/utils/fee_metrics.rs:83-87 | a fee goes into both windows |
| Budget.After | src/executors/build_instructions.rs:82-377 | between steps the fee is either whole, with the balance untouched and large enough, or paid: no subtraction of it can underflow |
| Budget.PlanAccounts | src/executors/build_instructions.rs:91-346 | the costs a step announces are what its instructions move and the rent they leave paid, plus the fee for a plain SOL transfer |
| Budget.TokensAreConserved | src/executors/build_instructions.rs:355-373 | tokens moved and tokens left always add up to the starting balance |
| Budget.FeeIsPaidOnce | src/executors/build_instructions.rs:361-367 | the fee is open until the first step carried out and paid from then on |
| Budget.SolIsAccountedFor | src/executors/build_instructions.rs:361-372 | for any list of steps the SOL pointer is exactly what is left of the start after all charges, or zero |
| Budget.SolNeverExceedsBudget | src/executors/build_instructions.rs:361-372 | for any list of steps it never exceeds what is really left, and equals it exactly unless a plain SOL transfer came first and something was left |
| Budget.FeeTwice | src/executors/build_instructions.rs:95-97 | a transfer as the first step that leaves the pointer a whole fee too low |
| Budget.WithinBalance | src/executors/build_instructions.rs:351-372 | for any list of steps the charges stay within the balance if and only if each step is covered when it comes and none sweeps |
| Budget.SpentWithinBalance | src/executors/build_instructions.rs:351-372 | for any list of steps what is really spent, the fee once, stays within the balance if and only if each step is affordable when it comes and none sweeps |
| Budget.ChargedIsSpent | src/executors/build_instructions.rs:361-367 | the charges are what is really spent, and one fee more exactly if a plain SOL transfer is the first step carried out |
| Budget.AffordableButNotCovered | src/executors/build_instructions.rs:95-97 | a first transfer that spends exactly the balance and is not covered by the pointer |
| Budget.OverspendingPasses | src/executors/build_instructions.rs:95-97 | a balance of 10000 and a list of steps that is accepted and moves 1000000 |
| Budget.ErrorsStay | src/executors/build_instructions.rs:82-377 | after a failing step nothing more is done |
| Budget.BuildInstructions | src/executors/build_instructions.rs:22-379 | the call gives the first error or the instructions of all steps carried out, which move at most the token balance, charge at most the SOL balance if and only if each step is covered, and spend at most the SOL balance if and only if each step is affordable |
| Amounts.EachStepDoesAsAsked | src/executors/build_instructions.rs:86-346 | in any list each step, with what the ones before have left, adds exactly the instructions it has to, for the amount it has to: for a purchase with fees, wrapped lamports, open fee and rents make up the amount, for one of all the pointer; and it skips or fails exactly when it has to |
| Amounts.TxFeeIs | src/executors/build_instructions.rs:55 | the fee is 5001 and the whole millionths of price times units, which must fit 64 bits |
| Amounts.RefusalIs | src/executors/build_instructions.rs:33-74 | the four reasons to refuse a call before its first step, in their order |
| Amounts.TokensUsedAre | src/executors/build_instructions.rs:382-402 | the tokens of a list are exactly those of its token transfers and the side of its swaps that is not wrapped SOL |
| Apportion.Repair | src/utils/math.rs:21-32 | the correction fails exactly if the sum, the signed difference or the corrected share does not fit; else only the first share changes, by the difference or, when one of amount and sum is below 2^63, by 2^64 more or less; so the amounts add up exactly if `Repairable` |
| Apportion.DirichletAmount | src/utils/math.rs:4-35 | the plain division: empty for 0, else the repaired shares |
| Apportion.DirichletWithMinAmount | src/utils/math.rs:37-80 | the division with a minimum in all its branches, overflow included |
| Apportion.RoundingIsBounded | src/utils/math.rs:16-19 | n roundings are off by at most n/2 in total, for any proportions |
| Apportion.SharesNearlyAddUp | src/utils/math.rs:16-19 | so shares of proportions that make up the whole miss the amount by at most n/2 |
| Apportion.DivideWithMin | src/utils/math.rs:37-80 | for n >= 2 and alpha >= n min: the division works out if and only if the rounded sum stays on the same side of 2^63 and 2^64 and the first share bears the correction; the first is so when alpha is n/2 away from both limits, the second for min >= n/2 and for any sample with n <= 2 min + 3; then the parts add up to alpha, all but the first reach the minimum and the first is at least min - n/2 |
| Apportion.PlainDivisionWorks | src/utils/math.rs:4-35 | shares of a sample of an amount n/2 away from 2^63 and 2^64 can be corrected if and only if the first is large enough, and always when there are at most three |
| Apportion.FewSharesSuffice | src/utils/math.rs:16-19 | with at most 2 min + 3 shares of a sample the others never gain more than the first has, the minimum included |
| Apportion.ManySharesMayFail | src/utils/math.rs:21-32 | for every min and n >= 2 min + 4 a sample and an amount for which the first share is too small |
| Apportion.FirstBearsUpTo | src/utils/math.rs:4-80 | the first of n shares bears the correction for all samples and amounts if and only if n <= 2 min + 3; without a minimum that is three |
| Apportion.FirstShareTooSmall | src/utils/math.rs:21-32 | four positive proportions and an amount of 10 for which 1 has to be taken off a first share of 0 |
| Apportion.FirstShareTooSmallWithMin | src/utils/math.rs:60-76 | six positive proportions, a minimum of 1 and an amount of 14 for which 2 have to be taken off a first share of 1 |

## Left out

- Storage that RefDB did not initialise, or that was changed behind its back: the byte-level operations require `Rep`. The header and record readers are modelled on arbitrary bytes; the scans are not.
- RefDbStore.Run: a run ends with the first call that does harm to bytes outside its record. After it the bytes stand for another storage or for none; RefDbStore.Perform and RefDbStore.Run say so, but not what later calls then do.
- RefDbStore.InitAndRun: as for runs.
- RefDbStore.RunIsRun: the results of RefDbRuns and RefDbNames about whole runs are about calls in storage with fewer than 68 bytes left over and values that do not come to the last slot when they are larger than its own; in other storage `RefDbStore.Step` differs in what it refuses.
- RefDbRuns.EqualCounterMeansEqual: a `drop` followed by a new `init` restarts the counter and is not one of the calls of a run.
- ClientCache.PoolClient.ReloadPoolRefsIfStale: the account is read once and its content is a parameter; local edits of the cache and the vault, fund, farm and token caches, which have the same shape, are not modelled.
- Names and strings are byte strings of at most 64 bytes without a zero byte; UTF-8 validity and slicing inside a multi-byte character, which panics, are not modelled. PoolNames works on ASCII.
- Offsets and indexes are unbounded; products that overflow `usize` are not modelled.
- `is_empty` and `is_full` only compare a getter with 0.
- Floats: an `F64` reference is its bit pattern; the position in `FeeMetrics.Percentile.GetPercentile` and the shares of Apportion are exact reals with rounding to a nearest whole number.
- Overflow in Budget and Apportion ends the call, as in a build with overflow checks; a build without them would wrap.
- Budget.BuildInstructions: the running minimum to keep, which nothing reads, the reported balance, logging, and the sum formed for the text of `NotEnoughTokenBalance` are left out; whether accounts exist is part of each step.
- Random sampling of proportions is a parameter of Apportion; only where that matters are they required to be positive.
- Batching: a transaction whose size cannot be computed, signing, sending and retrying; the size is any function of the batch, monotone where optimality is claimed.
- `TxStream`: a status update with an invalid signature, which panics, and the sources of the feed.
- `CircularBufferWithLookupByValue::remove` and re-inserting a live key leave queues and maps out of step; for the latter `CircularBuffer.InsertKeepsStep` says exactly when. The buffer without a reverse map is the same with one map and one queue less.
- Vault records of the dynamic-hedge kind: packing and unpacking them is an error in the source, and only the rejection of their tag (`RecordReads.UnpackRefuses`) is modelled.
- `FundAssets`, `Token` and the user and info structures: simpler instances of the same layouts.
- `to_vec` of a record goes through a scratch array of the largest length; the model packs over zeros of the record's own length.
- All network, database and messaging code, the agents, address derivation and serialisation to JSON.

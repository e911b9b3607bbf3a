/**
 The reads that are to give something only if it has changed since a counter was seen.
 They compare counters by size, although both kinds of counter start again at 1 behind
 their maximum, and that of a record also when the record is deleted and written again:
 a change is missed exactly when the counter is then not above the one seen.
 */
module RefDbChanges {
  import opened Bytes
  import opened Division
  import opened Pack
  import opened RefDbSpec
  import opened RefDbLayout
  import opened RefDbRead
  import opened RefDbRuns
  import RefDb

  function IsUpdated(d: seq<byte>, last: nat): Result<bool, Error> {
    match GetStorageCounter(d)
    case Err(e) => Err(e)
    case Ok(counter) => Ok(counter > last)
  }

  function ReadAtIfChanged(d: seq<byte>, index: u32, last: nat): Result<Option<Record>, Error> {
    match GetOffset(d, index)
    case Err(e) => Err(e)
    case Ok(offset) =>
      match GetRecordCounter(d, offset)
      case Err(e) => Err(e)
      case Ok(counter) => if counter > last then ReadAt(d, index) else Ok(None)
  }

  /** What a slot shows to a reader who has seen the counter `last`. */
  function Newer(slot: Option<Entry>, i: u32, last: nat): Option<Record> {
    match slot
    case Some(e) => if e.counter > last then Some(AsRecord(e, i)) else None
    case None => None
  }

  lemma ReadAtIfChangedIs(d: seq<byte>, db: Db, i: u32, last: nat)
    requires Rep(d, db)
    ensures ReadAtIfChanged(d, i, last) ==
      if i < |db.slots| then Ok(Newer(db.slots[i], i, last))
      else if i > |db.slots| || ShortTail(d, db) then Err(AccountDataTooSmall)
      else Ok(None)
  {
    OffsetOfIndex(d, db, i);
    if i <= |db.slots| {
      RefDb.TargetReads(d, db, i);
      ReadAtIsSlot(d, db, i);
    }
  }

  method ReadIfChanged(d: seq<byte>, name: Name, last: nat, ghost db: Db) returns (r: Result<Option<Record>, Error>)
    requires Rep(d, db)
    ensures var i := FirstNamed(db.slots, name);
      r == Ok(if i < |db.slots| then Newer(db.slots[i], i, last) else None)
  {
    var found := FindIndex(d, name, db);
    match found {
      case Err(e) => return Err(e);
      case Ok(None) => return Ok(None);
      case Ok(Some(index)) =>
        ReadAtIfChangedIs(d, db, index, last);
        return ReadAtIfChanged(d, index, last);
    }
  }

  method ReadAllIfChanged(d: seq<byte>, last: nat, ghost db: Db) returns (r: Result<seq<Record>, Error>)
    requires Rep(d, db)
    ensures r == Ok(if db.counter > last then Listing(db.slots, |db.slots|) else [])
  {
    HeaderReads(d, db);
    if GetStorageCounter(d).value > last {
      r := ReadAll(d, db);
    } else {
      return Ok([]);
    }
  }

  // ---- which changes are seen ----

  lemma {:induction false} AfterHasSlots(db: Db, calls: seq<Call>, n: nat)
    requires n <= |calls|
    ensures |After(db, calls, n).slots| == |db.slots|
  {
    if n > 0 {
      AfterHasSlots(db, calls, n - 1);
      ApplyKeepsShape(After(db, calls, n - 1), calls[n - 1]);
    }
  }

  /** `k` steps on the cycle 1, 2, ..., `m` lead from `c` to above it: not past `m` in the last round. */
  predicate Rises(c: nat, k: nat, m: nat)
    requires m > 0
  {
    k % m != 0 && c + k % m <= m
  }

  lemma CycleRises(c: nat, k: nat, m: nat)
    requires 1 <= c <= m
    ensures Cycle(c, k, m) > c <==> Rises(c, k, m)
  {
    var q, t := k / m, k % m;
    assert k == q * m + t;
    if c - 1 + t < m {
      DivisionIs(c - 1 + k, m, q, c - 1 + t);
    } else {
      assert (q + 1) * m == q * m + m;
      DivisionIs(c - 1 + k, m, q + 1, c - 1 + t - m);
    }
  }

  /** The storage was changed `k` times since its counter was seen: when `is_updated` says so. */
  lemma StorageChangeIsSeen(d: seq<byte>, db: Db, calls: seq<Call>, n: nat)
    requires db.counter > 0 && n <= |calls| && Rep(d, After(db, calls, n))
    ensures IsUpdated(d, db.counter) == Ok(Rises(db.counter, BumpCount(db, calls, n), U32_MAX))
  {
    HeaderReads(d, After(db, calls, n));
    StorageCounterCycle(db, calls, n);
    CycleRises(db.counter, BumpCount(db, calls, n), U32_MAX);
  }

  /** Over any run: a read by index gives the record exactly if the counter that shows its age is above the one seen. */
  lemma RecordChangeIsSeen(d: seq<byte>, db: Db, calls: seq<Call>, n: nat, i: u32, last: nat)
    requires Valid(db) && n <= |calls| && i < |db.slots| && Rep(d, After(db, calls, n))
    ensures Shown(Age(db, calls, n, i)) > last ==> InUse(After(db, calls, n), i)
    ensures ReadAtIfChanged(d, i, last) ==
      Ok(if Shown(Age(db, calls, n, i)) > last then Some(AsRecord(After(db, calls, n).slots[i].value, i)) else None)
  {
    CounterShowsAge(db, calls, n, i);
    AfterHasSlots(db, calls, n);
    ReadAtIfChangedIs(d, After(db, calls, n), i, last);
  }

  /** For a counter seen when the run began, and a record that was not deleted since. */
  lemma ChangeOfUndeletedIsSeen(d: seq<byte>, db: Db, calls: seq<Call>, n: nat, i: u32)
    requires Valid(db) && n <= |calls| && StaysInUse(db, calls, n, i) && Rep(d, After(db, calls, n))
    ensures InUse(After(db, calls, n), i)
    ensures ReadAtIfChanged(d, i, SlotCounter(db, i)) ==
      Ok(if Rises(SlotCounter(db, i), TouchCount(db, calls, n, i), U16_MAX)
         then Some(AsRecord(After(db, calls, n).slots[i].value, i)) else None)
  {
    RecordCounterCycle(db, calls, n, i);
    CycleRises(SlotCounter(db, i), TouchCount(db, calls, n, i), U16_MAX);
    ReadAtIfChangedIs(d, After(db, calls, n), i, SlotCounter(db, i));
  }

  /** With less than one round a change is missed exactly if the counter had to start again. */
  lemma MissedWhenItStartsAgain(c: nat, k: nat, m: nat)
    requires 1 <= c <= m && 0 < k < m
    ensures Rises(c, k, m) <==> c + k <= m
  {
    DivisionIs(k, m, 0, k);
  }
}

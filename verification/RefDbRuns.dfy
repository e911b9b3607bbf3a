/** Runs of RefDB calls on slots, and what holds in all of them. */
module RefDbRuns {
  import opened Bytes
  import opened Division
  import opened Pack
  import opened RefDbSpec

  datatype Call =
    | DoWrite(rec: Record)
    | DoUpdate(name: Name, reference: Reference)
    | DoUpdateAt(slot: nat, reference: Reference)
    | DoDelete(rec: Record)
    | DoDeleteWithName(name: Name, index: Option<u32>)

  function Apply(db: Db, call: Call): (Db, Outcome) {
    match call
    case DoWrite(rec) => Write(db, rec)
    case DoUpdate(name, reference) => Update(db, name, reference)
    case DoUpdateAt(index, reference) => UpdateAt(db, index, reference)
    case DoDelete(rec) => Delete(db, rec)
    case DoDeleteWithName(name, index) => Delete(db, NameOnly(name, index))
  }

  /** The storage after the first `n` calls. */
  function After(db: Db, calls: seq<Call>, n: nat): Db
    requires n <= |calls|
  {
    if n == 0 then db else Apply(After(db, calls, n - 1), calls[n - 1]).0
  }

  function Outcomes(db: Db, calls: seq<Call>, n: nat): (r: seq<Outcome>)
    requires n <= |calls|
    ensures |r| == n
  {
    if n == 0 then [] else Outcomes(db, calls, n - 1) + [Apply(After(db, calls, n - 1), calls[n - 1]).1]
  }

  lemma ApplyKeepsShape(db: Db, call: Call)
    ensures var db' := Apply(db, call).0;
      db'.kind == db.kind && db'.title == db.title && |db'.slots| == |db.slots|
  {
  }

  /** The one failing call that changes something: an update by index of an empty slot. */
  predicate BumpsInVain(db: Db, call: Call) {
    call.DoUpdateAt? && call.slot < |db.slots| && db.slots[call.slot].None?
  }

  // ---- what every call keeps ----

  lemma ApplyKeepsValid(db: Db, call: Call)
    requires Valid(db)
    ensures Valid(Apply(db, call).0)
  {
    var db' := Apply(db, call).0;
    forall i | 0 <= i < |db'.slots| && db'.slots[i].Some?
      ensures EntryOk(db'.kind, db'.slots[i].value)
    {
      assert db.slots[i].Some? ==> EntryOk(db.kind, db.slots[i].value);
    }
  }

  /** A call that fails changes nothing, except an update by index of an empty slot, which counts as a change. */
  lemma FailureChangesNothing(db: Db, call: Call)
    requires db.counter > 0
    requires Apply(db, call).1.Err?
    ensures Apply(db, call).0 == db <==> !BumpsInVain(db, call)
    ensures Apply(db, call).0.slots == db.slots
  {
  }

  // ---- the storage counter ----

  /** The value `k` steps after `c` on the cycle 1, 2, ..., `m`, 1, ... */
  function Cycle(c: nat, k: nat, m: nat): nat
    requires 1 <= c <= m
  {
    (c - 1 + k) % m + 1
  }

  lemma CycleStep(c: nat, k: nat, m: nat)
    requires 1 <= c <= m
    ensures Cycle(c, k + 1, m) == if Cycle(c, k, m) < m then Cycle(c, k, m) + 1 else 1
  {
    var x := c - 1 + k;
    assert x == x / m * m + x % m;
    if x % m + 1 < m {
      DivisionIs(x + 1, m, x / m, x % m + 1);
    } else {
      assert (x / m + 1) * m == x / m * m + m;
      DivisionIs(x + 1, m, x / m + 1, 0);
    }
  }

  /** One comes back to the start of the cycle exactly after whole rounds. */
  lemma CycleReturns(c: nat, k: nat, m: nat)
    requires 1 <= c <= m
    ensures Cycle(c, k, m) == c <==> k % m == 0
  {
    var x := c - 1 + k;
    assert k == k / m * m + k % m;
    var t := c - 1 + k % m;
    if t < m {
      DivisionIs(x, m, k / m, t);
    } else {
      assert (k / m + 1) * m == k / m * m + m;
      DivisionIs(x, m, k / m + 1, t - m);
    }
  }

  /** The call advances the storage counter. */
  predicate Bumps(db: Db, call: Call) {
    var r := Apply(db, call).1;
    (r.Ok? && r.value > 0) || BumpsInVain(db, call)
  }

  /** How many of the first `n` calls do. */
  function BumpCount(db: Db, calls: seq<Call>, n: nat): (k: nat)
    requires n <= |calls|
    ensures k <= n
  {
    if n == 0 then 0
    else BumpCount(db, calls, n - 1) + if Bumps(After(db, calls, n - 1), calls[n - 1]) then 1 else 0
  }

  lemma BumpsIsCounterStep(db: Db, call: Call)
    ensures Apply(db, call).0.counter == if Bumps(db, call) then BumpStorage(db.counter) else db.counter
    ensures !Bumps(db, call) ==> Apply(db, call).0 == db
  {
  }

  /** The storage counter walks a cycle of length 2^32 - 1 that avoids 0. */
  lemma {:induction false} StorageCounterCycle(db: Db, calls: seq<Call>, n: nat)
    requires db.counter > 0 && n <= |calls|
    ensures After(db, calls, n).counter == Cycle(db.counter, BumpCount(db, calls, n), U32_MAX)
  {
    if n == 0 {
      CycleReturns(db.counter, 0, U32_MAX);
    } else {
      StorageCounterCycle(db, calls, n - 1);
      BumpsIsCounterStep(After(db, calls, n - 1), calls[n - 1]);
      CycleStep(db.counter, BumpCount(db, calls, n - 1), U32_MAX);
    }
  }

  lemma {:induction false} NoBumpNoChange(db: Db, calls: seq<Call>, n: nat)
    requires n <= |calls| && BumpCount(db, calls, n) == 0
    ensures After(db, calls, n) == db
  {
    if n == 0 {
    } else {
      NoBumpNoChange(db, calls, n - 1);
      BumpsIsCounterStep(db, calls[n - 1]);
    }
  }

  /**
   Change detection: the counter is what it was exactly when the number of advances is a
   multiple of 2^32 - 1. With fewer advances than that an equal counter means an equal
   storage.
   */
  lemma EqualCounterMeansEqual(db: Db, calls: seq<Call>, n: nat)
    requires db.counter > 0 && n <= |calls|
    ensures After(db, calls, n).counter == db.counter <==> BumpCount(db, calls, n) % U32_MAX == 0
    ensures After(db, calls, n).counter == db.counter && BumpCount(db, calls, n) < U32_MAX ==>
      After(db, calls, n) == db
  {
    var k, after := BumpCount(db, calls, n), After(db, calls, n);
    StorageCounterCycle(db, calls, n);
    CycleReturns(db.counter, k, U32_MAX);
    if k == 0 {
      NoBumpNoChange(db, calls, n);
    } else if k < U32_MAX {
      DivisionIs(k, U32_MAX, 0, k);
    }
  }

  // ---- the counter of a record ----

  /** The slot whose entry the call writes or updates. */
  function Touched(db: Db, call: Call): Option<nat> {
    if Apply(db, call).1.Err? then None
    else
      match call
      case DoWrite(rec) => Some(Target(db.slots, rec.index, rec.name))
      case DoUpdate(name, _) => Some(FirstNamed(db.slots, name))
      case DoUpdateAt(i, _) => Some(i)
      case _ => None
  }

  /** How many of the first `n` calls write or update slot `i`. */
  function TouchCount(db: Db, calls: seq<Call>, n: nat, i: nat): nat
    requires n <= |calls|
  {
    if n == 0 then 0
    else TouchCount(db, calls, n - 1, i) + if Touched(After(db, calls, n - 1), calls[n - 1]) == Some(i) then 1 else 0
  }

  predicate InUse(db: Db, i: nat) {
    i < |db.slots| && db.slots[i].Some?
  }

  /** The counter of slot `i`, or 0 while it is empty. */
  function SlotCounter(db: Db, i: nat): u16 {
    if InUse(db, i) then db.slots[i].value.counter else 0
  }

  /** A slot in use after a call was just written or updated, or was in use before with the same counter. */
  lemma CounterStep(db: Db, call: Call, i: nat)
    requires InUse(Apply(db, call).0, i)
    ensures Touched(db, call) == Some(i) ==> SlotCounter(Apply(db, call).0, i) == BumpRecord(SlotCounter(db, i))
    ensures Touched(db, call) != Some(i) ==>
      InUse(db, i) && SlotCounter(Apply(db, call).0, i) == SlotCounter(db, i)
  {
  }

  /**
   What the counter of slot `i` is after the first `n` calls, were it not to start again
   behind its maximum: 0 while the slot is empty, and one more with each write and update.
   */
  function Age(db: Db, calls: seq<Call>, n: nat, i: nat): nat
    requires n <= |calls|
  {
    if !InUse(After(db, calls, n), i) then 0
    else if n == 0 then SlotCounter(db, i)
    else Age(db, calls, n - 1, i) + if Touched(After(db, calls, n - 1), calls[n - 1]) == Some(i) then 1 else 0
  }

  /** The counter that shows an age: 0 for 0, then 1, 2, ..., 65535, 1, ... */
  function Shown(age: nat): (c: u16)
    ensures c == 0 <==> age == 0
  {
    if age == 0 then 0 else Cycle(1, age - 1, U16_MAX)
  }

  lemma ShownStep(age: nat)
    ensures Shown(age + 1) == BumpRecord(Shown(age))
  {
    if age == 0 {
      CycleReturns(1, 0, U16_MAX);
    } else {
      CycleStep(1, age - 1, U16_MAX);
    }
  }

  /** Two ages show the same counter exactly when they are whole rounds apart. */
  lemma SameShown(age: nat, c: u16)
    requires age > 0 && c > 0
    ensures Shown(c) == c
    ensures Shown(age) == c <==> age % U16_MAX == c % U16_MAX
  {
    DivisionIs(c - 1, U16_MAX, 0, c - 1);
    CycleReturns(1, age - 1, U16_MAX);
    var q, t := (age - 1) / U16_MAX, (age - 1) % U16_MAX;
    assert age == q * U16_MAX + t + 1;
    if t + 1 < U16_MAX {
      DivisionIs(age, U16_MAX, q, t + 1);
    } else {
      DivisionIs(age, U16_MAX, q + 1, 0);
    }
    if c < U16_MAX {
      DivisionIs(c, U16_MAX, 0, c);
    } else {
      DivisionIs(c, U16_MAX, 1, 0);
    }
  }

  /**
   The law of the record counters, over any run: a slot is in use exactly if it has an age,
   and its counter shows it. A record deleted and written again is of age 1.
   */
  lemma {:induction false} CounterShowsAge(db: Db, calls: seq<Call>, n: nat, i: nat)
    requires Valid(db) && n <= |calls|
    ensures Age(db, calls, n, i) > 0 <==> InUse(After(db, calls, n), i)
    ensures SlotCounter(After(db, calls, n), i) == Shown(Age(db, calls, n, i))
  {
    if !InUse(After(db, calls, n), i) {
    } else if n == 0 {
      assert EntryOk(db.kind, db.slots[i].value);
      SameShown(1, SlotCounter(db, i));
    } else {
      CounterShowsAge(db, calls, n - 1, i);
      CounterStep(After(db, calls, n - 1), calls[n - 1], i);
      ShownStep(Age(db, calls, n - 1, i));
    }
  }

  /** Slot `i` is in use from the start and through the first `n` calls: nothing deletes it. */
  ghost predicate StaysInUse(db: Db, calls: seq<Call>, n: nat, i: nat)
    requires n <= |calls|
  {
    forall k :: 0 <= k <= n ==> InUse(After(db, calls, k), i)
  }

  /** Without a deletion every write and update counts. */
  lemma {:induction false} AgeOfUndeleted(db: Db, calls: seq<Call>, n: nat, i: nat)
    requires n <= |calls| && StaysInUse(db, calls, n, i)
    ensures InUse(db, i) && InUse(After(db, calls, n), i)
    ensures Age(db, calls, n, i) == SlotCounter(db, i) + TouchCount(db, calls, n, i)
  {
    assert InUse(After(db, calls, 0), i) && InUse(After(db, calls, n), i);
    if n > 0 {
      AgeOfUndeleted(db, calls, n - 1, i);
    }
  }

  /** As long as a record is not deleted its counter walks a cycle of length 65535 that avoids 0. */
  lemma RecordCounterCycle(db: Db, calls: seq<Call>, n: nat, i: nat)
    requires Valid(db) && n <= |calls| && StaysInUse(db, calls, n, i)
    ensures InUse(db, i) && SlotCounter(db, i) > 0 && InUse(After(db, calls, n), i)
    ensures SlotCounter(After(db, calls, n), i) == Cycle(SlotCounter(db, i), TouchCount(db, calls, n, i), U16_MAX)
  {
    var c, k := CounterAndTouches(db, calls, n, i);
    ShownFrom(c, k);
  }

  /** The counter at the start and the writes and updates since make up the age that the counter shows now. */
  lemma CounterAndTouches(db: Db, calls: seq<Call>, n: nat, i: nat) returns (c: u16, k: nat)
    requires Valid(db) && n <= |calls| && StaysInUse(db, calls, n, i)
    ensures InUse(db, i) && InUse(After(db, calls, n), i)
    ensures c == SlotCounter(db, i) > 0 && k == TouchCount(db, calls, n, i)
    ensures SlotCounter(After(db, calls, n), i) == Shown(c + k)
  {
    AgeOfUndeleted(db, calls, n, i);
    CounterShowsAge(db, calls, n, i);
    assert EntryOk(db.kind, db.slots[i].value);
    c, k := SlotCounter(db, i), TouchCount(db, calls, n, i);
  }

  lemma ShownFrom(c: u16, k: nat)
    requires c > 0
    ensures Shown(c + k) == Cycle(c, k, U16_MAX)
  {
  }

  /**
   Optimistic concurrency, over any run: a write that gives a counter, whenever it was read,
   is refused for it exactly when its slot is in use and of an age that is not a number of
   whole rounds from that counter.
   */
  lemma StaleWriteIsRefused(db: Db, calls: seq<Call>, n: nat, i: nat, rec: Record)
    requires Valid(db) && n <= |calls|
    requires Target(After(db, calls, n).slots, rec.index, rec.name) == i
    ensures Write(After(db, calls, n), rec).1 == Err(RefdbRecordCounterMismatch) <==>
      rec.counter > 0 && Age(db, calls, n, i) > 0 && Age(db, calls, n, i) % U16_MAX != rec.counter % U16_MAX
  {
    var after, age := After(db, calls, n), Age(db, calls, n, i);
    CounterShowsAge(db, calls, n, i);
    if age > 0 && rec.counter > 0 {
      SameShown(age, rec.counter);
    }
    CounterRefusal(after, rec, i);
  }

  lemma CounterRefusal(db: Db, rec: Record, i: nat)
    requires Target(db.slots, rec.index, rec.name) == i
    ensures Write(db, rec).1 == Err(RefdbRecordCounterMismatch) <==>
      rec.counter > 0 && InUse(db, i) && SlotCounter(db, i) != rec.counter
  {
  }

  /** For a counter read when the run began, and a record that was not deleted since: whole rounds of changes. */
  lemma StaleWriteToUndeleted(db: Db, calls: seq<Call>, n: nat, i: nat, rec: Record)
    requires Valid(db) && n <= |calls| && StaysInUse(db, calls, n, i)
    requires rec.counter == SlotCounter(db, i)
    requires Target(After(db, calls, n).slots, rec.index, rec.name) == i
    ensures Write(After(db, calls, n), rec).1 == Err(RefdbRecordCounterMismatch)
       <==> TouchCount(db, calls, n, i) % U16_MAX != 0
  {
    RecordCounterCycle(db, calls, n, i);
    CycleReturns(rec.counter, TouchCount(db, calls, n, i), U16_MAX);
    CounterRefusal(After(db, calls, n), rec, i);
  }

  /** Over any run, a delete is refused for its counter exactly when a write would be, with an index and without. */
  lemma StaleDeleteIsRefused(db: Db, calls: seq<Call>, n: nat, i: nat, rec: Record)
    requires Valid(db) && n <= |calls|
    requires Target(After(db, calls, n).slots, rec.index, rec.name) == i
    ensures Delete(After(db, calls, n), rec).1 == Err(RefdbRecordCounterMismatch) <==>
      rec.counter > 0 && Age(db, calls, n, i) > 0 && Age(db, calls, n, i) % U16_MAX != rec.counter % U16_MAX
  {
    CounterShowsAge(db, calls, n, i);
    if Age(db, calls, n, i) > 0 && rec.counter > 0 {
      SameShown(Age(db, calls, n, i), rec.counter);
    }
    DeleteAnswers(After(db, calls, n), rec, i);
  }

  /** The record at slot `i` is not the one of that counter; a counter of 0 asks for none. */
  predicate WrongCounter(db: Db, i: nat, counter: u16) {
    InUse(db, i) && counter > 0 && db.slots[i].value.counter != counter
  }

  /** The record at slot `i` is in use under another name. */
  predicate WrongName(db: Db, i: nat, name: Name) {
    InUse(db, i) && db.slots[i].value.name != name
  }

  /** Deletes: every answer, and what each leaves. With the right counter the name decides, index or not. */
  lemma DeleteAnswers(db: Db, rec: Record, i: nat)
    requires i == Target(db.slots, rec.index, rec.name)
    ensures var (db', r) := Delete(db, rec);
      && (r == Err(AccountDataTooSmall) <==> i >= |db.slots|)
      && (r == Err(RefdbRecordCounterMismatch) <==> WrongCounter(db, i, rec.counter))
      && (r == Err(RefdbRecordNameMismatch) <==> !WrongCounter(db, i, rec.counter) && WrongName(db, i, rec.name))
      && (r == Ok(0) <==> i < |db.slots| && !InUse(db, i))
      && (r == Ok(NO_REF_LEN + RefSize(rec.reference.Kind())) <==>
            InUse(db, i) && !WrongCounter(db, i, rec.counter) && !WrongName(db, i, rec.name))
      && (r.Err? || r.value == 0 ==> db' == db)
      && (r.Ok? && r.value > 0 ==>
            db' == Db(BumpStorage(db.counter), db.title, db.kind, db.slots[i := None]))
  {
  }

  /** Deletes by name only: never refused for a counter, and for a name only when an index is given. */
  lemma DeleteByNameAnswers(db: Db, name: Name, index: Option<u32>, i: nat)
    requires i == Target(db.slots, index, name)
    ensures var (db', r) := Delete(db, NameOnly(name, index));
      && (r == Err(AccountDataTooSmall) <==> i >= |db.slots|)
      && (r == Err(RefdbRecordNameMismatch) <==> WrongName(db, i, name))
      && (r == Ok(0) <==> i < |db.slots| && !InUse(db, i))
      && (r == Ok(68) <==> InUse(db, i) && !WrongName(db, i, name))
      && (r != Ok(68) ==> db' == db)
  {
    DeleteAnswers(db, NameOnly(name, index), i);
  }

  /** Writes: the name counts only when an index is given, but the type counts in an empty slot too. */
  lemma WriteAnswers(db: Db, rec: Record, i: nat)
    requires i == Target(db.slots, rec.index, rec.name)
    ensures var (db', r) := Write(db, rec);
      var wrongName := rec.index.Some? && WrongName(db, i, rec.name);
      && (r == Err(AccountDataTooSmall) <==> i >= |db.slots|)
      && (r == Err(RefdbRecordCounterMismatch) <==> WrongCounter(db, i, rec.counter))
      && (r == Err(RefdbRecordNameMismatch) <==> !WrongCounter(db, i, rec.counter) && wrongName)
      && (r == Err(RefdbRecordTypeMismatch) <==>
            i < |db.slots| && !WrongCounter(db, i, rec.counter) && !wrongName && rec.reference.Kind() != db.kind)
      && (r == Ok(NO_REF_LEN + RefSize(rec.reference.Kind())) <==>
            i < |db.slots| && !WrongCounter(db, i, rec.counter) && !wrongName && rec.reference.Kind() == db.kind)
      && (r.Err? ==> db' == db)
      && (r.Ok? ==>
            var counter := if SlotCounter(db, i) < U16_MAX then SlotCounter(db, i) + 1 else 1;
            db' == Db(BumpStorage(db.counter), db.title, db.kind,
                      db.slots[i := Some(Entry(counter, rec.tag, rec.name, rec.reference))]))
  {
  }

  /** Updates of a slot: tag and name stay. A value of the storage's type replaces the old one. */
  lemma UpdateAtAnswers(db: Db, i: nat, reference: Reference)
    ensures var (db', r) := UpdateAt(db, i, reference);
      && (r == Err(AccountDataTooSmall) <==> i >= |db.slots|)
      && (r == Err(UninitializedAccount) <==> i < |db.slots| && !InUse(db, i))
      && (r == Ok(NO_REF_LEN + RefSize(reference.Kind())) <==> InUse(db, i))
      && (i >= |db.slots| ==> db' == db)
      && (i < |db.slots| ==> db'.counter == BumpStorage(db.counter) && db'.title == db.title && db'.kind == db.kind)
      && (i < |db.slots| && !InUse(db, i) ==> db'.slots == db.slots)
      && (InUse(db, i) ==>
            var e := db.slots[i].value;
            var counter := if e.counter < U16_MAX then e.counter + 1 else 1;
            && db'.slots == db.slots[i := Some(Entry(counter, e.tag, e.name, db'.slots[i].value.reference))]
            && (reference.Kind() == e.reference.Kind() ==> db'.slots[i].value.reference == reference))
  {
  }

  predicate Named(db: Db, i: nat, name: Name) {
    InUse(db, i) && db.slots[i].value.name == name
  }

  /** Updates by name go to the first entry of that name, and are refused when there is none. */
  lemma UpdateAnswers(db: Db, name: Name, reference: Reference)
    ensures forall i: nat :: Named(db, i, name) && (forall j: nat :: j < i ==> !Named(db, j, name)) ==>
      Update(db, name, reference) == UpdateAt(db, i, reference)
    ensures (forall i: nat :: !Named(db, i, name)) ==> Update(db, name, reference) == (db, Err(RefdbRecordNotFound))
  {
    var k := FirstNamed(db.slots, name);
    FirstNamedIs(db.slots, name, k);
    assert k < |db.slots| ==> Named(db, k, name);
    assert forall i: nat :: Named(db, i, name) ==> Holds(db.slots[i], name);
    assert forall j: nat :: j < k ==> !Named(db, j, name);
  }

  // ---- reading everything ----

  /** A full read returns the entries in use, each with the index of its slot. */
  lemma {:induction false} ListingIsAllEntries(slots: Slots, n: nat, r: Record)
    requires n <= |slots| <= U32_MAX
    ensures r in Listing(slots, n) <==>
      exists i :: 0 <= i < n && slots[i].Some? && r == AsRecord(slots[i].value, i)
  {
    if n == 0 {
    } else {
      ListingIsAllEntries(slots, n - 1, r);
      ListingStep(slots, n, r);
    }
  }

  lemma ListingStep(slots: Slots, n: nat, r: Record)
    requires 0 < n <= |slots| <= U32_MAX
    ensures r in Listing(slots, n) <==>
      r in Listing(slots, n - 1) || (slots[n - 1].Some? && r == AsRecord(slots[n - 1].value, n - 1))
  {
  }

  /** And in the order of the slots, so none twice. */
  lemma {:induction false} ListingIsOrdered(slots: Slots, n: nat, a: nat, b: nat)
    requires n <= |slots| <= U32_MAX
    requires a < b < |Listing(slots, n)|
    ensures var l := Listing(slots, n);
      l[a].index.Some? && l[b].index.Some? && l[a].index.value < l[b].index.value < n
  {
    var l, before := Listing(slots, n), Listing(slots, n - 1);
    ListingIsAllEntries(slots, n - 1, l[a]);
    if b < |before| {
      assert l[a] == before[a] && l[b] == before[b];
      ListingIsOrdered(slots, n - 1, a, b);
    } else {
      assert l[a] == before[a] && l[a] in before;
    }
  }
}

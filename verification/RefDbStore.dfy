/**
 The life of a storage: initialisation of a zeroed buffer, any sequence of calls, and
 dropping. `Step` says what any call does, and `Run` is the statement about whole runs:
 the bytes follow the slots call by call, as long as no call does harm outside its record.
 */
module RefDbStore {
  import opened Bytes
  import opened Division
  import opened Pack
  import opened RefDbSpec
  import opened RefDbLayout
  import opened RefDbRead
  import opened RefDbRuns
  import RefDb

  function IsInitialized(d: seq<byte>): bool {
    |d| >= HEADER_LEN && KindOf(d[8]).Some? && ReadU32(d[0..4]) > 0
    && ReadU32(d[4..8]) <= (|d| - HEADER_LEN) / RecordSize(KindOf(d[8]).value)
  }

  lemma RepIsInitialized(d: seq<byte>, db: Db)
    requires Rep(d, db)
    ensures IsInitialized(d)
  {
    HeaderReads(d, db);
  }

  lemma ZeroedIsNotInitialized(d: seq<byte>)
    requires d == Zeros(|d|)
    ensures !IsInitialized(d)
  {
    if |d| >= HEADER_LEN {
      assert d[0..4] == Zeros(4);
      LeOfZeros(4);
    }
  }

  /** A storage with nothing in it. */
  function Fresh(title: Name, k: ReferenceType, n: nat): Db {
    Db(1, title, k, NoEntries(n))
  }

  function NoEntries(n: nat): (slots: Slots)
    ensures |slots| == n && forall i :: 0 <= i < n ==> slots[i].None?
  {
    seq(n, _ => None)
  }

  /** The header that `init` writes over the bytes `d`. */
  function InitBytes(d: seq<byte>, k: ReferenceType, title: Name): (h: seq<byte>)
    requires |d| >= HEADER_LEN
    ensures |h| == HEADER_LEN
  {
    ToLe(1, 4) + ToLe(0, 4) + [KindTag(k)] + NameOver(d[9..73], title)
  }

  lemma FreshHeader(d: seq<byte>, k: ReferenceType, title: Name)
    requires |d| >= HEADER_LEN
    ensures HeaderRep(InitBytes(d, k, title), 1, 0, k, title) <==> NameOver(d[9..73], title) == Padded(title)
  {
    var h, name := InitBytes(d, k, title), NameOver(d[9..73], title);
    FourParts(ToLe(1, 4), ToLe(0, 4), [KindTag(k)], name);
    assert h[8] == h[8..9][0];
    assert h[9..73] == h[9..] == name;
  }

  lemma {:induction false} NoneActive(slots: Slots, n: nat)
    requires n <= |slots| && forall i :: 0 <= i < |slots| ==> slots[i].None?
    ensures ActiveTo(slots, n) == 0
  {
    if n == 0 {
    } else {
      NoneActive(slots, n - 1);
    }
  }

  /**
   Bytes that `init` turns into an empty storage: the title is not followed by more of an
   older one, the slots are empty and the left-over bytes zero.
   */
  ghost predicate Vacant(d: seq<byte>, k: ReferenceType, title: Name, n: nat)
    requires |d| >= HEADER_LEN
  {
    && NameOver(d[9..73], title) == Padded(title)
    && TailRep(d, RecordSize(k), n)
    && SlotsRep(d, RecordSize(k), NoEntries(n))
  }

  /** A fresh header stands for an empty storage of as many slots as fit exactly when the bytes were vacant. */
  lemma FreshRep(d: seq<byte>, d': seq<byte>, k: ReferenceType, title: Name, n: nat)
    requires 1 <= n <= U32_MAX && Off(RecordSize(k), n) <= |d| < Off(RecordSize(k), n) + RecordSize(k)
    requires d' == Patch(d, 0, InitBytes(d, k, title))
    ensures Rep(d', Fresh(title, k, n)) <==> Vacant(d, k, title, n)
  {
    RepOfFresh(d', k, title, n);
    HeaderOfFresh(d, d', k, title);
    PatchHeader(d, d', RecordSize(k), n, 0, InitBytes(d, k, title));
    SameStorage(d, d', RecordSize(k), NoEntries(n));
  }

  lemma RepOfFresh(d: seq<byte>, k: ReferenceType, title: Name, n: nat)
    requires |d| >= HEADER_LEN && 1 <= n <= U32_MAX
    ensures Rep(d, Fresh(title, k, n)) <==>
      TailRep(d, RecordSize(k), n) && HeaderRep(d[..HEADER_LEN], 1, 0, k, title)
      && SlotsRep(d, RecordSize(k), NoEntries(n))
  {
    NoneActive(NoEntries(n), n);
  }

  lemma HeaderOfFresh(d: seq<byte>, d': seq<byte>, k: ReferenceType, title: Name)
    requires |d| >= HEADER_LEN && d' == Patch(d, 0, InitBytes(d, k, title))
    ensures HeaderRep(d'[..HEADER_LEN], 1, 0, k, title) <==> NameOver(d[9..73], title) == Padded(title)
  {
    var h := InitBytes(d, k, title);
    PatchAt(d, 0, h);
    assert d'[..HEADER_LEN] == d'[0..|h|] == h;
    FreshHeader(d, k, title);
  }

  /** Bytes that agree behind the header hold the same slots and the same left-over bytes. */
  lemma SameStorage(d: seq<byte>, d': seq<byte>, size: nat, slots: Slots)
    requires Off(size, |slots|) <= |d| == |d'| && SameTail(d, d', size, |slots|)
    requires forall j :: 0 <= j < |slots| ==> SameSlot(d, d', size, j)
    ensures TailRep(d', size, |slots|) <==> TailRep(d, size, |slots|)
    ensures SlotsRep(d', size, slots) <==> SlotsRep(d, size, slots)
  {
    forall j | 0 <= j < |slots|
      ensures Off(size, j) + size <= |d| && Slot(d', size, j) == Slot(d, size, j)
    {
      assert SameSlot(d, d', size, j);
    }
  }

  lemma ZeroedIsVacant(d: seq<byte>, k: ReferenceType, title: Name, n: nat)
    requires 1 <= n && Off(RecordSize(k), n) <= |d| < Off(RecordSize(k), n) + RecordSize(k)
    requires d == Zeros(|d|)
    ensures Vacant(d, k, title, n)
  {
    var size := RecordSize(k);
    ZeroTitle(d, title);
    assert d[Off(size, n)..] == Zeros(|d| - Off(size, n));
    forall i | 0 <= i < n
      ensures Off(size, i) + size <= |d| && SlotRep(Slot(d, size, i), None)
    {
      OffStep(size, i, n);
      ZeroSlot(d, Off(size, i), size);
    }
  }

  lemma ZeroTitle(d: seq<byte>, title: Name)
    requires |d| >= HEADER_LEN && d == Zeros(|d|)
    ensures NameOver(d[9..73], title) == Padded(title)
  {
    PaddedRoundTrip(title);
    assert d[9..73] == Zeros(NAME_LEN);
  }

  lemma ZeroSlot(d: seq<byte>, o: nat, size: nat)
    requires o + size <= |d| && size >= NO_REF_LEN && d == Zeros(|d|)
    ensures SlotRep(d[o..o + size], None)
  {
    assert d[o..o + size] == Zeros(size);
    RefDb.ClearedSlot(Zeros(size), size);
    RefDb.PatchAll(Zeros(size), Zeros(size));
  }

  lemma SlotsThatFit(length: nat, size: nat, n: nat)
    requires size > 0 && length >= HEADER_LEN + size && n == (length - HEADER_LEN) / size
    ensures 1 <= n && Off(size, n) <= length < Off(size, n) + size
  {
    OffIsProduct(size, n);
    var m := length - HEADER_LEN;
    assert m == (m / size) * size + m % size;
    AtLeastOne(m / size, size, m % size);
  }

  lemma AtLeastOne(q: nat, size: nat, r: nat)
    requires q * size + r >= size > r
    ensures q >= 1
  {
  }

  /**
   `init`. It fails, leaving every byte, on an initialised buffer and on one too small for
   a record. Otherwise the buffer becomes an empty storage exactly if it was vacant, as a
   zeroed one is.
   */
  method Init(data: array<byte>, title: Name, k: ReferenceType) returns (r: Result<(), Error>)
    modifies data
    ensures r == if IsInitialized(old(data[..])) then Err(AccountAlreadyInitialized)
                 else if data.Length < HEADER_LEN + RecordSize(k) then Err(AccountDataTooSmall) else Ok(())
    ensures r.Err? ==> data[..] == old(data[..])
    ensures r.Ok? ==> data[..] == Patch(old(data[..]), 0, InitBytes(old(data[..]), k, title))
    ensures r.Ok? ==> EmptyIfVacant(old(data[..]), data[..], k, title)
  {
    if IsInitialized(data[..]) {
      return Err(AccountAlreadyInitialized);
    }
    if data.Length < HEADER_LEN + RecordSize(k) {
      return Err(AccountDataTooSmall);
    }
    ghost var d := data[..];
    PackHeader(data, 1, 0, k, title);
    InitEffect(d, data[..], k, title);
    return Ok(());
  }

  /** The bytes `d'` stand for an empty storage of as many slots as fit exactly if `d` were vacant, and if all zero. */
  ghost predicate EmptyIfVacant(d: seq<byte>, d': seq<byte>, k: ReferenceType, title: Name)
    requires |d| >= HEADER_LEN
  {
    var n := SlotsIn(|d|, k);
    n <= U32_MAX ==>
      && (Rep(d', Fresh(title, k, n)) <==> Vacant(d, k, title, n))
      && (d == Zeros(|d|) ==> Rep(d', Fresh(title, k, n)))
  }

  /** How many records fit into a buffer. */
  function SlotsIn(length: nat, k: ReferenceType): nat
    requires length >= HEADER_LEN
  {
    (length - HEADER_LEN) / RecordSize(k)
  }

  lemma InitEffect(d: seq<byte>, d': seq<byte>, k: ReferenceType, title: Name)
    requires |d| >= HEADER_LEN + RecordSize(k) && d' == Patch(d, 0, InitBytes(d, k, title))
    ensures EmptyIfVacant(d, d', k, title)
  {
    var n := SlotsIn(|d|, k);
    if n <= U32_MAX {
      SlotsThatFit(|d|, RecordSize(k), n);
      FreshRep(d, d', k, title, n);
      if d == Zeros(|d|) {
        ZeroedIsVacant(d, k, title, n);
      }
    }
  }

  /** `Header::pack`. */
  method PackHeader(data: array<byte>, counter: u32, active: u32, k: ReferenceType, title: Name)
    requires data.Length >= HEADER_LEN
    modifies data
    ensures data[..] == Patch(old(data[..]), 0,
              ToLe(counter, 4) + ToLe(active, 4) + [KindTag(k)] + NameOver(old(data[..])[9..73], title))
  {
    ghost var d := data[..];
    ghost var c, a, t := ToLe(counter, 4), ToLe(active, 4), [KindTag(k)];
    CopyInto(data, 0, ToLe(counter, 4));
    CopyInto(data, 4, ToLe(active, 4));
    CopyInto(data, 8, [KindTag(k)]);
    PatchOutside(d, 9, 73, 0, c);
    PatchOutside(Patch(d, 0, c), 9, 73, 4, a);
    PatchOutside(Patch(Patch(d, 0, c), 4, a), 9, 73, 8, t);
    RefDb.PackName(data, 9, title);
    PatchInFour(d, 0, c, a, t, NameOver(d[9..73], title));
  }

  /** `drop`: clears a storage of at most 2000 bytes, which can then be initialised again. */
  method Drop(data: array<byte>) returns (r: Result<nat, Error>)
    modifies data
    ensures r == if data.Length < HEADER_LEN then Err(AccountDataTooSmall)
                 else if data.Length > 2000 then Err(RefdbTooLarge) else Ok(data.Length)
    ensures r.Err? ==> data[..] == old(data[..])
    ensures r.Ok? ==> data[..] == Zeros(data.Length) && !IsInitialized(data[..])
  {
    if data.Length < HEADER_LEN {
      return Err(AccountDataTooSmall);
    }
    if data.Length > 2000 {
      return Err(RefdbTooLarge);
    }
    CopyInto(data, 0, Zeros(data.Length));
    ZeroedIsNotInitialized(data[..]);
    return Ok(data.Length);
  }

  // ---- any call, in a storage with `room` bytes left over behind its last record ----

  /** From the position of slot `i` on there is room for a record of type `k`. */
  predicate HasRoom(room: nat, db: Db, i: nat, k: ReferenceType) {
    || i + 1 < |db.slots|
    || (i + 1 == |db.slots| && RecordSize(k) <= RecordSize(db.kind) + room)
    || (i == |db.slots| && RecordSize(k) <= room)
  }

  /**
   What a call does, with a value or record of any type. It refuses one that would run over
   the end of the buffer, and takes 68 or more left-over bytes for an empty slot.
   */
  function Step(room: nat, db: Db, call: Call): (Db, Outcome) {
    match call
    case DoWrite(rec) =>
      if Target(db.slots, rec.index, rec.name) == |db.slots| && room >= NO_REF_LEN then
        (db, Err(if rec.reference.Kind() == db.kind then AccountDataTooSmall else RefdbRecordTypeMismatch))
      else Write(db, rec)
    case DoUpdate(name, reference) =>
      var i := FirstNamed(db.slots, name);
      if i < |db.slots| then StepAt(room, db, i, reference) else (db, Err(RefdbRecordNotFound))
    case DoUpdateAt(i, reference) => StepAt(room, db, i, reference)
    case DoDelete(rec) => StepDelete(room, db, rec)
    case DoDeleteWithName(name, index) => StepDelete(room, db, NameOnly(name, index))
  }

  function StepAt(room: nat, db: Db, i: nat, reference: Reference): (Db, Outcome) {
    if !HasRoom(room, db, i, reference.Kind()) then (db, Err(AccountDataTooSmall))
    else if i == |db.slots| then (db.(counter := BumpStorage(db.counter)), Err(UninitializedAccount))
    else UpdateAt(db, i, reference)
  }

  function StepDelete(room: nat, db: Db, rec: Record): (Db, Outcome) {
    var i := Target(db.slots, rec.index, rec.name);
    if !HasRoom(room, db, i, rec.reference.Kind()) then (db, Err(AccountDataTooSmall))
    else if i == |db.slots| then (db, Ok(0))
    else Delete(db, rec)
  }

  /** The call does no harm to bytes outside its record. */
  ghost predicate Harmless(room: nat, db: Db, call: Call) {
    match call
    case DoWrite(rec) =>
      !(Target(db.slots, rec.index, rec.name) == |db.slots| && room >= NO_REF_LEN && rec.reference.Kind() == db.kind)
    case DoUpdate(name, reference) =>
      var i := FirstNamed(db.slots, name);
      i == |db.slots| || UpdateIsHarmless(room, db, i, reference)
    case DoUpdateAt(i, reference) => UpdateIsHarmless(room, db, i, reference)
    case DoDelete(rec) => DeleteIsHarmless(room, db, rec)
    case DoDeleteWithName(_, _) => true
  }

  ghost predicate UpdateIsHarmless(room: nat, db: Db, i: nat, reference: Reference) {
    !HasRoom(room, db, i, reference.Kind()) || i == |db.slots| || RefDb.UpdateHarmless(db, i, reference)
  }

  predicate DeleteIsHarmless(room: nat, db: Db, rec: Record) {
    var i := Target(db.slots, rec.index, rec.name);
    || !HasRoom(room, db, i, rec.reference.Kind())
    || i == |db.slots|
    || DeleteError(db, rec, i).Some?
    || db.slots[i].None?
    || RefDb.OverrunHarmless(db, i, RecordSize(rec.reference.Kind()))
  }

  /** The bytes behind the last record are `room` many. */
  predicate HasRest(d: seq<byte>, db: Db, room: nat) {
    |d| == Off(RecordSize(db.kind), |db.slots|) + room
  }

  lemma HasRoomIs(d: seq<byte>, room: nat, db: Db, i: nat, k: ReferenceType)
    requires Rep(d, db) && HasRest(d, db, room)
    ensures HasRoom(room, db, i, k) <==> RefDb.EndsInside(d, db, i, RecordSize(k))
  {
    var size := RecordSize(db.kind);
    if i < |db.slots| {
      SlotInside(d, db, i);
      if i + 1 < |db.slots| {
        SlotInside(d, db, i + 1);
        TwoRecords(Off(size, i), Off(size, i + 1), size, RecordSize(k), |d|);
      } else {
        assert Off(size, |db.slots|) == Off(size, i) + size;
      }
    }
  }

  lemma TwoRecords(o: nat, next: nat, size: nat, m: nat, length: nat)
    requires next == o + size && next + size <= length && NO_REF_LEN <= size && m <= 100
    ensures o + m <= length
  {
  }

  lemma StepKeepsShape(room: nat, db: Db, call: Call)
    ensures var db' := Step(room, db, call).0;
      db'.kind == db.kind && db'.title == db.title && |db'.slots| == |db.slots|
  {
  }

  /** One call, whichever it is: its outcome, and when the bytes stand for the storage it should leave. */
  method Perform(data: array<byte>, call: Call, ghost room: nat, ghost db: Db) returns (r: Outcome)
    requires Rep(data[..], db) && HasRest(data[..], db, room)
    modifies data
    ensures r == Step(room, db, call).1
    ensures Rep(data[..], Step(room, db, call).0) <==> Harmless(room, db, call)
    ensures HasRest(data[..], Step(room, db, call).0, room)
    ensures r.Err? && Step(room, db, call).0 == db && Harmless(room, db, call) ==> data[..] == old(data[..])
  {
    StepKeepsShape(room, db, call);
    match call {
      case DoWrite(rec) =>
        r := RefDb.Write(data, rec, db);
      case DoUpdate(name, reference) =>
        HasRoomIs(data[..], room, db, FirstNamed(db.slots, name), reference.Kind());
        r := RefDb.Update(data, name, reference, db);
      case DoUpdateAt(index, reference) =>
        HasRoomIs(data[..], room, db, index, reference.Kind());
        r := RefDb.UpdateAt(data, index, reference, db);
      case DoDelete(rec) =>
        HasRoomIs(data[..], room, db, Target(db.slots, rec.index, rec.name), rec.reference.Kind());
        r := RefDb.Delete(data, rec, db);
      case DoDeleteWithName(name, index) =>
        r := RefDb.DeleteWithName(data, name, index, db);
    }
  }

  // ---- runs ----

  /** The storage after the first `n` calls. */
  function StorageAfter(room: nat, db: Db, calls: seq<Call>, n: nat): Db
    requires n <= |calls|
  {
    if n == 0 then db else Step(room, StorageAfter(room, db, calls, n - 1), calls[n - 1]).0
  }

  function OutcomesIn(room: nat, db: Db, calls: seq<Call>, n: nat): (r: seq<Outcome>)
    requires n <= |calls|
    ensures |r| == n
  {
    if n == 0 then []
    else OutcomesIn(room, db, calls, n - 1) + [Step(room, StorageAfter(room, db, calls, n - 1), calls[n - 1]).1]
  }

  /** The first `n` calls do no harm. */
  ghost predicate HarmlessTo(room: nat, db: Db, calls: seq<Call>, n: nat)
    requires n <= |calls|
  {
    n > 0 ==> HarmlessTo(room, db, calls, n - 1) && Harmless(room, StorageAfter(room, db, calls, n - 1), calls[n - 1])
  }

  lemma {:induction false} HarmlessEarlier(room: nat, db: Db, calls: seq<Call>, i: nat, n: nat)
    requires i <= n <= |calls| && HarmlessTo(room, db, calls, n)
    ensures HarmlessTo(room, db, calls, i)
  {
    if i < n {
      HarmlessEarlier(room, db, calls, i, n - 1);
    }
  }

  /** The bytes stand for the storage after the first `n` calls exactly if these do no harm. */
  ghost predicate Follows(d: seq<byte>, room: nat, db: Db, calls: seq<Call>, n: nat)
    requires n <= |calls|
  {
    && (Rep(d, StorageAfter(room, db, calls, n)) <==> HarmlessTo(room, db, calls, n))
    && HasRest(d, StorageAfter(room, db, calls, n), room)
  }

  lemma NextFollows(d: seq<byte>, room: nat, db: Db, calls: seq<Call>, n: nat, now: Db)
    requires n < |calls| && HarmlessTo(room, db, calls, n) && now == StorageAfter(room, db, calls, n)
    requires Rep(d, Step(room, now, calls[n]).0) <==> Harmless(room, now, calls[n])
    requires HasRest(d, Step(room, now, calls[n]).0, room)
    ensures Follows(d, room, db, calls, n + 1)
    ensures OutcomesIn(room, db, calls, n + 1) == OutcomesIn(room, db, calls, n) + [Step(room, now, calls[n]).1]
  {
  }

  /** One call of a run. */
  method PerformNext(data: array<byte>, calls: seq<Call>, n: nat, ghost room: nat, ghost db: Db) returns (r: Outcome)
    requires n < |calls| && Follows(data[..], room, db, calls, n) && HarmlessTo(room, db, calls, n)
    modifies data
    ensures Follows(data[..], room, db, calls, n + 1)
    ensures OutcomesIn(room, db, calls, n + 1) == OutcomesIn(room, db, calls, n) + [r]
  {
    ghost var now := StorageAfter(room, db, calls, n);
    r := Perform(data, calls[n], room, now);
    NextFollows(data[..], room, db, calls, n, now);
  }

  /**
   Any sequence of calls, up to and with the first that does harm: the outcomes are as
   specified, and the bytes stand for the storage exactly if the last call does no harm.
   */
  method Run(data: array<byte>, calls: seq<Call>, ghost room: nat, ghost db: Db) returns (outcomes: seq<Outcome>)
    requires Rep(data[..], db) && HasRest(data[..], db, room)
    requires calls != [] ==> HarmlessTo(room, db, calls, |calls| - 1)
    modifies data
    ensures outcomes == OutcomesIn(room, db, calls, |calls|)
    ensures Follows(data[..], room, db, calls, |calls|)
  {
    outcomes := [];
    for i := 0 to |calls|
      invariant Follows(data[..], room, db, calls, i)
      invariant outcomes == OutcomesIn(room, db, calls, i)
    {
      HarmlessEarlier(room, db, calls, i, |calls| - 1);
      var outcome := PerformNext(data, calls, i, room, db);
      outcomes := outcomes + [outcome];
    }
  }

  /** A whole life: a zeroed buffer of any length, `init`, and any calls after it. */
  method InitAndRun(data: array<byte>, title: Name, k: ReferenceType, calls: seq<Call>, ghost n: nat, ghost room: nat)
    returns (outcomes: seq<Outcome>)
    requires 1 <= n <= U32_MAX && data.Length == Off(RecordSize(k), n) + room && room < RecordSize(k)
    requires data[..] == Zeros(data.Length)
    requires calls != [] ==> HarmlessTo(room, Fresh(title, k, n), calls, |calls| - 1)
    modifies data
    ensures outcomes == OutcomesIn(room, Fresh(title, k, n), calls, |calls|)
    ensures Follows(data[..], room, Fresh(title, k, n), calls, |calls|)
  {
    ZeroedIsNotInitialized(data[..]);
    SlotsAndRoom(data.Length, k, n, room);
    var _ := Init(data, title, k);
    outcomes := Run(data, calls, room, Fresh(title, k, n));
  }

  lemma SlotsAndRoom(length: nat, k: ReferenceType, n: nat, room: nat)
    requires n >= 1 && length == Off(RecordSize(k), n) + room && room < RecordSize(k)
    ensures length >= HEADER_LEN + RecordSize(k) && SlotsIn(length, k) == n
  {
    OffIsProduct(RecordSize(k), n);
    OffStep(RecordSize(k), 0, n);
    QuotientOf(n, RecordSize(k), room);
  }

  // ---- runs in the terms of module RefDbRuns ----

  /**
   The call is one of those that RefDbRuns describes: it is given a value or record no
   larger than the storage's, or a larger one that does not come to the last slot and
   changes nothing in the next.
   */
  ghost predicate InPlace(db: Db, call: Call) {
    match call
    case DoUpdate(name, reference) => UpdateInPlace(db, FirstNamed(db.slots, name), reference)
    case DoUpdateAt(i, reference) => UpdateInPlace(db, i, reference)
    case DoDelete(rec) =>
      var i := Target(db.slots, rec.index, rec.name);
      NoLarger(db, rec.reference) || i >= |db.slots| || (i + 1 < |db.slots| && DeleteIsHarmless(0, db, rec))
    case _ => true
  }

  predicate NoLarger(db: Db, reference: Reference) {
    RecordSize(reference.Kind()) <= RecordSize(db.kind)
  }

  ghost predicate UpdateInPlace(db: Db, i: nat, reference: Reference) {
    NoLarger(db, reference) || i >= |db.slots| || (i + 1 < |db.slots| && RefDb.UpdateHarmless(db, i, reference))
  }

  /** With too few bytes left over for the fixed part of a record. */
  lemma StepIsApply(room: nat, db: Db, call: Call)
    requires room < NO_REF_LEN && InPlace(db, call)
    ensures Step(room, db, call) == Apply(db, call) && Harmless(room, db, call)
  {
  }

  /** Each of the first `n` calls is one of those when it comes. */
  ghost predicate AllInPlace(db: Db, calls: seq<Call>, n: nat)
    requires n <= |calls|
  {
    n > 0 ==> AllInPlace(db, calls, n - 1) && InPlace(After(db, calls, n - 1), calls[n - 1])
  }

  /** In such a storage runs of such calls are those of RefDbRuns, and do no harm. */
  lemma {:induction false} RunIsRun(room: nat, db: Db, calls: seq<Call>, n: nat)
    requires room < NO_REF_LEN && n <= |calls| && AllInPlace(db, calls, n)
    ensures StorageAfter(room, db, calls, n) == After(db, calls, n)
    ensures OutcomesIn(room, db, calls, n) == Outcomes(db, calls, n)
    ensures HarmlessTo(room, db, calls, n)
  {
    if n > 0 {
      RunIsRun(room, db, calls, n - 1);
      StepIsApply(room, After(db, calls, n - 1), calls[n - 1]);
    }
  }

  /** `get_storage_size_for_records` leaves no bytes over. */
  lemma ExactSize(k: ReferenceType, n: nat)
    requires n >= 1
    ensures n * RecordSize(k) >= RecordSize(k)
    ensures n * RecordSize(k) / RecordSize(k) == n
    ensures Off(RecordSize(k), n) == HEADER_LEN + n * RecordSize(k)
  {
    OffIsProduct(RecordSize(k), n);
    OffStep(RecordSize(k), 0, n);
    QuotientOf(n, RecordSize(k), 0);
  }
}

/**
 The reading half of RefDB: header fields, single records, and the scans over the bytes
 of a storage, which stop early because they trust the count of active records. Each is
 proved against what it says about the storage `db` that the bytes stand for.
 */
module RefDbRead {
  import opened Bytes
  import opened Division
  import opened Pack
  import opened RefDbSpec
  import opened RefDbLayout

  // ---- header fields ----

  function GetStorageCounter(d: seq<byte>): Result<nat, Error> {
    if |d| < HEADER_LEN then Err(AccountDataTooSmall)
    else if ReadU32(d[0..4]) > 0 then Ok(ReadU32(d[0..4]))
    else Err(UninitializedAccount)
  }

  function GetActiveRecords(d: seq<byte>): Result<nat, Error> {
    if |d| < HEADER_LEN then Err(AccountDataTooSmall) else Ok(ReadU32(d[4..8]))
  }

  function GetReferenceType(d: seq<byte>): Result<ReferenceType, Error> {
    if |d| < HEADER_LEN then Err(AccountDataTooSmall)
    else
      match KindOf(d[8])
      case Some(k) => Ok(k)
      case None => Err(InvalidAccountData)
  }

  function GetRecordSize(d: seq<byte>): (r: Result<nat, Error>)
    ensures r.Ok? ==> NO_REF_LEN <= r.value
  {
    match GetReferenceType(d)
    case Ok(k) => Ok(RecordSize(k))
    case Err(e) => Err(e)
  }

  function GetTotalRecords(d: seq<byte>): Result<nat, Error> {
    match GetRecordSize(d)
    case Ok(size) => assert |d| >= HEADER_LEN; Ok((|d| - HEADER_LEN) / size)
    case Err(e) => Err(e)
  }

  /** The unsigned subtraction that would go below zero is an error of its own here. */
  function GetFreeRecords(d: seq<byte>): Result<nat, Error> {
    match GetRecordSize(d)
    case Err(e) => Err(e)
    case Ok(size) =>
      var used := ReadU32(d[4..8]) * size + HEADER_LEN;
      if used > |d| then Err(InvalidAccountData) else Ok((|d| - used) / size)
  }

  function GetOffset(d: seq<byte>, index: nat): (r: Result<nat, Error>)
    ensures r.Ok? ==> r.value <= |d|
  {
    match GetRecordSize(d)
    case Err(e) => Err(e)
    case Ok(size) =>
      var offset := HEADER_LEN + index * size;
      if |d| < offset then Err(AccountDataTooSmall) else Ok(offset)
  }

  function GetRecordCounter(d: seq<byte>, offset: nat): Result<u16, Error>
    requires offset <= |d|
  {
    if |d| - offset < NO_REF_LEN then Err(AccountDataTooSmall) else Ok(ReadU16(d[offset..offset + 2]))
  }

  function GetRecordCounterAndName(d: seq<byte>, offset: nat): Result<(u16, Name), Error>
    requires offset <= |d|
  {
    if |d| - offset < NO_REF_LEN then Err(AccountDataTooSmall)
    else Ok((ReadU16(d[offset..offset + 2]), UnpackName(d[offset + 4..offset + 68])))
  }

  lemma Capacity(d: seq<byte>, size: nat, n: nat, used: nat)
    requires Off(size, n) <= |d| < Off(size, n) + size
    requires used <= n
    ensures Off(size, used) <= |d| && (|d| - Off(size, used)) / size == n - used
  {
    OffDistance(size, used, n);
    QuotientOf(n - used, size, |d| - Off(size, n));
  }

  lemma HeaderFields(d: seq<byte>, counter: u32, active: u32, k: ReferenceType, title: Name)
    requires |d| >= HEADER_LEN && counter > 0
    requires HeaderRep(d[..HEADER_LEN], counter, active, k, title)
    ensures GetStorageCounter(d) == Ok(counter as nat)
    ensures GetActiveRecords(d) == Ok(active as nat)
    ensures GetReferenceType(d) == Ok(k)
    ensures UnpackName(d[9..73]) == title
  {
    var h := d[..HEADER_LEN];
    assert h[0..4] == d[0..4] && h[4..8] == d[4..8] && h[9..73] == d[9..73];
    PowValues();
    LeOfToLe(counter, 4);
    LeOfToLe(active, 4);
    PaddedRoundTrip(title);
  }

  /** What the header fields and the counts derived from them say; free + active = total. */
  lemma HeaderReads(d: seq<byte>, db: Db)
    requires Rep(d, db)
    ensures |d| >= HEADER_LEN
    ensures GetStorageCounter(d) == Ok(db.counter as nat)
    ensures GetActiveRecords(d) == Ok(Active(db.slots))
    ensures GetReferenceType(d) == Ok(db.kind) && GetRecordSize(d) == Ok(RecordSize(db.kind))
    ensures GetTotalRecords(d) == Ok(|db.slots|)
    ensures GetFreeRecords(d) == Ok(FreeTo(db.slots, |db.slots|))
    ensures UnpackName(d[9..73]) == db.title
    ensures FreeTo(db.slots, |db.slots|) + Active(db.slots) == |db.slots|
  {
    var n, a := |db.slots|, Active(db.slots);
    HeaderFields(d, db.counter, a, db.kind, db.title);
    FreePlusActive(db.slots, |db.slots|);
    CountsAre(d, a, RecordSize(db.kind), n);
  }

  lemma CountsAre(d: seq<byte>, active: nat, size: nat, n: nat)
    requires size > 0 && Off(size, n) <= |d| < Off(size, n) + size && active <= n
    requires GetActiveRecords(d) == Ok(active) && GetRecordSize(d) == Ok(size)
    ensures GetTotalRecords(d) == Ok(n) && GetFreeRecords(d) == Ok(n - active)
  {
    Capacity(d, size, n, 0);
    Capacity(d, size, n, active);
    OffIsProduct(size, active);
  }

  lemma SlotFields(s: seq<byte>, slot: Option<Entry>)
    requires SlotRep(s, slot)
    ensures ReadU16(s[0..2]) == (if slot.Some? then slot.value.counter else 0)
    ensures UnpackName(s[4..68]) == (if slot.Some? then slot.value.name else [])
  {
    PowValues();
    match slot
    case Some(e) =>
      EntryParts(e);
      LeOfToLe(e.counter, 2);
      PaddedRoundTrip(e.name);
    case None =>
      LeOfToLe(0, 2);
      PaddedRoundTrip([]);
  }

  lemma SubSlice(d: seq<byte>, o: nat, n: nat, a: nat, b: nat)
    requires a <= b <= n && o + n <= |d|
    ensures d[o..o + n][a..b] == d[o + a..o + b]
  {
    assert forall i {:trigger d[o..o + n][a..b][i]} :: 0 <= i < b - a ==> d[o..o + n][a..b][i] == d[o + a + i];
  }

  /** The counter and the name that stand in the record of a slot. */
  function Head(slot: Option<Entry>): (u16, Name) {
    if slot.Some? then (slot.value.counter, slot.value.name) else (0, [])
  }

  lemma HeadReads(d: seq<byte>, o: nat, n: nat, slot: Option<Entry>)
    requires NO_REF_LEN <= n && o + n <= |d| && SlotRep(d[o..o + n], slot)
    ensures GetRecordCounter(d, o) == Ok(Head(slot).0)
    ensures GetRecordCounterAndName(d, o) == Ok(Head(slot))
  {
    var s := d[o..o + n];
    SubSlice(d, o, n, 0, 2);
    SubSlice(d, o, n, 4, 68);
    assert d[o..o + 2] == s[0..2] && d[o + 4..o + 68] == s[4..68];
    SlotFields(s, slot);
  }

  /** One step of a scan: what it reads, and that it may stop once it has met all entries. */
  lemma ScanStep(d: seq<byte>, db: Db, i: nat)
    requires Rep(d, db) && i < |db.slots|
    ensures Off(RecordSize(db.kind), i) + RecordSize(db.kind) <= |d|
    ensures Off(RecordSize(db.kind), i + 1) == Off(RecordSize(db.kind), i) + RecordSize(db.kind)
    ensures GetRecordCounter(d, Off(RecordSize(db.kind), i)) == Ok(Head(db.slots[i]).0)
    ensures GetRecordCounterAndName(d, Off(RecordSize(db.kind), i)) == Ok(Head(db.slots[i]))
    ensures db.slots[i].Some? ==> Head(db.slots[i]).0 > 0
    ensures ActiveTo(db.slots, i + 1) == Active(db.slots) ==> forall j :: i < j < |db.slots| ==> db.slots[j].None?
  {
    SlotInside(d, db, i);
    HeadReads(d, Off(RecordSize(db.kind), i), RecordSize(db.kind), db.slots[i]);
    ActivePrefix(db.slots, i + 1, |db.slots|);
  }

  /** Before the first step: an empty storage needs no scan, and a full pass has met all entries. */
  lemma ScanStart(d: seq<byte>, db: Db)
    requires Rep(d, db)
    ensures |d| >= HEADER_LEN && Off(RecordSize(db.kind), 0) == HEADER_LEN
    ensures GetActiveRecords(d) == Ok(Active(db.slots))
    ensures GetRecordSize(d) == Ok(RecordSize(db.kind)) && GetTotalRecords(d) == Ok(|db.slots|)
    ensures Active(db.slots) == 0 ==> forall j :: 0 <= j < |db.slots| ==> db.slots[j].None?
  {
    HeaderReads(d, db);
    ActivePrefix(db.slots, 0, |db.slots|);
  }

  // ---- reads ----

  /** Where an index leads: `get_offset` lets through one position more than there are records. */
  lemma OffsetOfIndex(d: seq<byte>, db: Db, i: nat)
    requires Rep(d, db)
    ensures GetOffset(d, i) == if i <= |db.slots| then Ok(Off(RecordSize(db.kind), i)) else Err(AccountDataTooSmall)
  {
    var size, n := RecordSize(db.kind), |db.slots|;
    HeaderReads(d, db);
    OffIsProduct(size, i);
    OffStep(size, i, n);
    OffStep(size, n, i);
  }

  /** `read_at`: `None` for an empty slot. */
  function ReadAt(d: seq<byte>, index: u32): Result<Option<Record>, Error> {
    match GetOffset(d, index)
    case Err(e) => Err(e)
    case Ok(offset) =>
      match GetReferenceType(d)
      case Err(e) => Err(e)
      case Ok(k) =>
        match UnpackRecord(d[offset..], k, Some(index))
        case Err(e) => Err(e)
        case Ok(rec) => if rec.counter > 0 then Ok(Some(rec)) else Ok(None)
  }

  /** Reading by index gives what the slot holds; past the last slot it is an error. */
  lemma ReadAtIsSlot(d: seq<byte>, db: Db, i: u32)
    requires Rep(d, db)
    ensures i < |db.slots| ==>
      ReadAt(d, i) == Ok(if db.slots[i].Some? then Some(AsRecord(db.slots[i].value, i)) else None)
    ensures i >= |db.slots| ==> ReadAt(d, i) == Err(AccountDataTooSmall)
  {
    HeaderReads(d, db);
    OffsetOfIndex(d, db, i);
    if i < |db.slots| {
      var o := Off(RecordSize(db.kind), i);
      SlotInside(d, db, i);
      assert db.slots[i].Some? ==> EntryOk(db.kind, db.slots[i].value);
      SlotUnpacks(d, o, db.kind, db.slots[i], i);
      ReadAtUnpacks(d, i, o, db.kind);
    } else if i == |db.slots| {
      ReadAtUnpacks(d, i, Off(RecordSize(db.kind), i), db.kind);
    }
  }

  lemma ReadAtUnpacks(d: seq<byte>, i: u32, o: nat, k: ReferenceType)
    requires GetOffset(d, i) == Ok(o) && GetReferenceType(d) == Ok(k)
    ensures o <= |d|
    ensures ReadAt(d, i) ==
      match UnpackRecord(d[o..], k, Some(i)) {
        case Err(e) => Err(e)
        case Ok(rec) => if rec.counter > 0 then Ok(Some(rec)) else Ok(None)
      }
  {
  }

  /** Unpacking at the position of a slot gives its entry, or a record with counter 0. */
  lemma SlotUnpacks(d: seq<byte>, o: nat, k: ReferenceType, slot: Option<Entry>, i: u32)
    requires o + RecordSize(k) <= |d| && SlotRep(d[o..o + RecordSize(k)], slot)
    requires slot.Some? ==> slot.value.reference.Kind() == k
    ensures UnpackRecord(d[o..], k, Some(i)).Ok?
    ensures slot.Some? ==> UnpackRecord(d[o..], k, Some(i)).value == AsRecord(slot.value, i)
    ensures slot.None? ==> UnpackRecord(d[o..], k, Some(i)).value.counter == 0
  {
    var s, rest := d[o..o + RecordSize(k)], d[o + RecordSize(k)..];
    SlotAndRest(d, o, RecordSize(k));
    if slot.Some? {
      EntryRoundTrip(slot.value, Some(i), rest);
    } else {
      assert (s + rest)[0..2] == s[0..2];
      PowValues();
      LeOfToLe(0, 2);
    }
  }

  lemma SlotAndRest(d: seq<byte>, o: nat, n: nat)
    requires o + n <= |d|
    ensures d[o..] == d[o..o + n] + d[o + n..]
  {
  }

  method FindIndex(d: seq<byte>, name: Name, ghost db: Db) returns (r: Result<Option<nat>, Error>)
    requires Rep(d, db)
    ensures var i := FirstNamed(db.slots, name);
            r == Ok(if i < |db.slots| then Some(i) else None)
  {
    ScanStart(d, db);
    var active := GetActiveRecords(d).value;
    if active == 0 {
      FirstNamedIs(db.slots, name, |db.slots|);
      return Ok(None);
    }
    var total := GetTotalRecords(d).value;
    var size := GetRecordSize(d).value;
    var offset := HEADER_LEN;
    var checked := 0;
    var index := 0;
    while index < total
      invariant index <= total
      invariant offset == Off(RecordSize(db.kind), index)
      invariant checked == ActiveTo(db.slots, index) < active
      invariant NotAmong(db.slots, name, index)
    {
      ScanStep(d, db, index);
      var head := GetRecordCounterAndName(d, offset).value;
      if head.0 > 0 {
        if head.1 == name {
          FirstNamedIs(db.slots, name, index);
          return Ok(Some(index));
        }
        checked := checked + 1;
        if checked == active {
          FirstNamedIs(db.slots, name, |db.slots|);
          return Ok(None);
        }
      }
      offset := offset + size;
      index := index + 1;
    }
    FirstNamedIs(db.slots, name, |db.slots|);
    return Ok(None);
  }

  /** `read`: the first entry with this name, with the index of its slot. */
  method Read(d: seq<byte>, name: Name, ghost db: Db) returns (r: Result<Option<Record>, Error>)
    requires Rep(d, db)
    ensures var i := FirstNamed(db.slots, name);
            r == Ok(if i < |db.slots| then Some(AsRecord(db.slots[i].value, i)) else None)
  {
    var found := FindIndex(d, name, db);
    match found {
      case Err(e) => return Err(e);
      case Ok(None) => return Ok(None);
      case Ok(Some(index)) =>
        ReadAtIsSlot(d, db, index);
        return ReadAt(d, index);
    }
  }

  method ReadAll(d: seq<byte>, ghost db: Db) returns (r: Result<seq<Record>, Error>)
    requires Rep(d, db)
    ensures r == Ok(Listing(db.slots, |db.slots|))
  {
    ScanStart(d, db);
    var total := GetTotalRecords(d).value;
    var active := GetActiveRecords(d).value;
    var vec := [];
    if active == 0 {
      return Ok(vec);
    }
    for i := 0 to total
      invariant vec == Listing(db.slots, i)
      invariant |vec| < active
    {
      ReadAtIsSlot(d, db, i);
      var rec := ReadAt(d, i).value;
      if rec.Some? {
        vec := vec + [rec.value];
        if |vec| == active {
          ListingStops(db.slots, i + 1, total);
          return Ok(vec);
        }
      }
    }
    return Err(InvalidAccountData);
  }

  /** Behind the last entry in use there is nothing more to list. */
  lemma {:induction false} ListingStops(slots: Slots, i: nat, n: nat)
    requires i <= n <= |slots| <= U32_MAX
    requires ActiveTo(slots, i) == ActiveTo(slots, n)
    ensures Listing(slots, i) == Listing(slots, n)
  {
    if i == n {
    } else {
      ActivePrefix(slots, i, n);
      ListingStops(slots, i, n - 1);
    }
  }

  /** The index behind the last slot in use. */
  method FindLastIndex(d: seq<byte>, ghost db: Db) returns (r: Result<nat, Error>)
    requires Rep(d, db)
    ensures r.Ok? && r.value <= |db.slots|
    ensures forall j :: r.value <= j < |db.slots| ==> db.slots[j].None?
    ensures r.value > 0 ==> db.slots[r.value - 1].Some?
  {
    ScanStart(d, db);
    var active := GetActiveRecords(d).value;
    if active == 0 {
      return Ok(0);
    }
    var total := GetTotalRecords(d).value;
    var size := GetRecordSize(d).value;
    var offset := HEADER_LEN;
    var checked := 0;
    var index := 0;
    while index < total
      invariant index <= total
      invariant offset == Off(RecordSize(db.kind), index)
      invariant checked == ActiveTo(db.slots, index) < active
    {
      ScanStep(d, db, index);
      var counter := GetRecordCounter(d, offset).value;
      if counter > 0 {
        checked := checked + 1;
        if checked == active {
          return Ok(index + 1);
        }
      }
      offset := offset + size;
      index := index + 1;
    }
    return Err(InvalidAccountData);
  }

  /** The first slot not in use, or the number of slots when the storage is full. */
  method FindNextIndex(d: seq<byte>, ghost db: Db) returns (r: Result<nat, Error>)
    requires Rep(d, db)
    ensures r == Ok(FirstFree(db.slots))
  {
    ScanStart(d, db);
    var active := GetActiveRecords(d).value;
    if active == 0 {
      return Ok(0);
    }
    var total := GetTotalRecords(d).value;
    var size := GetRecordSize(d).value;
    var offset := HEADER_LEN;
    var checked := 0;
    var index := 0;
    while index < total
      invariant index <= total
      invariant offset == Off(RecordSize(db.kind), index)
      invariant checked == ActiveTo(db.slots, index) < active
      invariant forall j :: 0 <= j < index ==> db.slots[j].Some?
    {
      ScanStep(d, db, index);
      var counter := GetRecordCounter(d, offset).value;
      if counter == 0 {
        FirstFreeIs(db.slots, index);
        return Ok(index);
      } else {
        checked := checked + 1;
        if checked == active {
          FirstFreeIs(db.slots, index + 1);
          return Ok(index + 1);
        }
      }
      offset := offset + size;
      index := index + 1;
    }
    return Err(InvalidAccountData);
  }

  /** A scan up to `index` has met its first free slot, number `free`, or none so far. */
  ghost predicate FreeSeen(slots: Slots, size: nat, freeSlot: nat, free: nat, index: nat) {
    && free <= index <= |slots|
    && (forall j :: 0 <= j < free ==> slots[j].Some?)
    && if freeSlot == 0 then free == index else FreeAt(slots, free) && freeSlot == Off(size, free)
  }

  /** One slot more. */
  lemma SeesNext(slots: Slots, size: nat, freeSlot: nat, free: nat, index: nat)
    requires FreeSeen(slots, size, freeSlot, free, index) && index < |slots|
    ensures slots[index].Some? ==>
      FreeSeen(slots, size, freeSlot, if freeSlot == 0 then index + 1 else free, index + 1)
    ensures slots[index].None? ==>
      FreeSeen(slots, size, if freeSlot == 0 then Off(size, index) else freeSlot, free, index + 1)
  {
  }

  /** Where a record with this name goes: onto the entry of that name, else into the first free slot. */
  method FindWriteOffset(d: seq<byte>, name: Name, ghost db: Db) returns (r: Result<nat, Error>)
    requires Rep(d, db)
    ensures Target(db.slots, None, name) <= |db.slots|
    ensures r == Ok(Off(RecordSize(db.kind), Target(db.slots, None, name)))
  {
    ScanStart(d, db);
    var active := GetActiveRecords(d).value;
    if active == 0 {
      TargetIsFree(db.slots, name, 0, 0);
      return Ok(HEADER_LEN);
    }
    var total := GetTotalRecords(d).value;
    var size := GetRecordSize(d).value;
    var offset := HEADER_LEN;
    var checked := 0;
    var freeSlot: nat := 0;
    var index := 0;
    ghost var free: nat := 0;
    while index < total
      invariant index <= total
      invariant offset == Off(size, index)
      invariant checked == ActiveTo(db.slots, index) < active
      invariant NotAmong(db.slots, name, index)
      invariant FreeSeen(db.slots, size, freeSlot, free, index)
    {
      ScanStep(d, db, index);
      SeesNext(db.slots, size, freeSlot, free, index);
      var head := GetRecordCounterAndName(d, offset).value;
      if head.0 > 0 {
        if head.1 == name {
          TargetIsNamed(db.slots, name, index);
          return Ok(offset);
        }
        free := if freeSlot == 0 then index + 1 else free;
        checked := checked + 1;
        if checked == active {
          offset := offset + size;
          index := index + 1;
          break;
        }
      } else if freeSlot == 0 {
        freeSlot := offset;
      }
      offset := offset + size;
      index := index + 1;
    }
    TargetIsFree(db.slots, name, index, free);
    if freeSlot > 0 {
      return Ok(freeSlot);
    } else {
      return Ok(offset);
    }
  }
}

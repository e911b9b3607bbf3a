/**
 The writing half of RefDB: changes made in place to the bytes of a storage. Each
 operation is proved against its counterpart in module RefDbSpec.
 */
module RefDb {
  import opened Bytes
  import opened Pack
  import opened RefDbSpec
  import opened RefDbLayout
  import opened RefDbRead
  import S = RefDbSpec

  // ---- writing records in place ----

  /** `pack_array_string64` on the 64 bytes from `at` on. */
  method PackName(data: array<byte>, at: nat, name: Name)
    requires at + NAME_LEN <= data.Length
    modifies data
    ensures data[..] == Patch(old(data[..]), at, NameOver(old(data[..])[at..at + NAME_LEN], name))
  {
    ghost var field := data[..][at..at + NAME_LEN];
    if |name| > 0 {
      CopyInto(data, at, name);
    } else {
      CopyInto(data, at, [0]);
    }
    assert data[..] == Patch(old(data[..]), at, NameOver(field, name));
  }

  /** What packing a record makes of the bytes `s` that it is packed over. */
  function RecordOver(s: seq<byte>, rec: Record): (r: seq<byte>)
    requires |s| == RecordSize(rec.reference.Kind())
    ensures |r| == |s|
  {
    ToLe(rec.counter, 2) + ToLe(rec.tag, 2) + NameOver(s[4..68], rec.name) + RefBytes(rec.reference)
  }

  /** The bytes `d` with a record packed over those from `at` on. */
  function PackedAt(d: seq<byte>, at: nat, rec: Record): (r: seq<byte>)
    requires at + RecordSize(rec.reference.Kind()) <= |d|
    ensures |r| == |d|
  {
    Patch(d, at, RecordOver(d[at..at + RecordSize(rec.reference.Kind())], rec))
  }

  /** `Record::pack` on the bytes from `at` on. */
  method PackRecord(data: array<byte>, at: nat, rec: Record) returns (r: Result<nat, Error>)
    requires at <= data.Length
    modifies data
    ensures r == if data.Length - at < RecordSize(rec.reference.Kind()) then Err(AccountDataTooSmall)
                 else Ok(RecordSize(rec.reference.Kind()))
    ensures r.Err? ==> data[..] == old(data[..])
    ensures r.Ok? ==> data[..] == PackedAt(old(data[..]), at, rec)
  {
    var size := RecordSize(rec.reference.Kind());
    if data.Length - at < size {
      return Err(AccountDataTooSmall);
    }
    ghost var d0 := data[..];
    CopyInto(data, at, ToLe(rec.counter, 2));
    ghost var d1 := data[..];
    CopyInto(data, at + 2, ToLe(rec.tag, 2));
    ghost var d2 := data[..];
    PackName(data, at + 4, rec.name);
    ghost var d3 := data[..];
    CopyInto(data, at + 68, RefBytes(rec.reference));
    PackedInFour(d0, at, rec, d1, d2, d3);
    return Ok(size);
  }

  /** Counter, tag, name and reference, one after the other. */
  lemma PackedInFour(d0: seq<byte>, at: nat, rec: Record, d1: seq<byte>, d2: seq<byte>, d3: seq<byte>)
    requires at + RecordSize(rec.reference.Kind()) <= |d0|
    requires d1 == Patch(d0, at, ToLe(rec.counter, 2)) && d2 == Patch(d1, at + 2, ToLe(rec.tag, 2))
    requires d3 == Patch(d2, at + 4, NameOver(d2[at + 4..at + 4 + NAME_LEN], rec.name))
    ensures Patch(d3, at + 68, RefBytes(rec.reference)) == PackedAt(d0, at, rec)
  {
    var counter, tag, size := ToLe(rec.counter, 2), ToLe(rec.tag, 2), RecordSize(rec.reference.Kind());
    FieldBehind(d0, at, size, counter, tag);
    var field, s := d2[at + 4..at + 4 + NAME_LEN], d0[at..at + size];
    assert field == s[4..68];
    PatchesInFour(d0, d1, d2, d3, at, counter, tag, NameOver(field, rec.name), RefBytes(rec.reference));
    PackedIsOver(d0, at, rec, s);
  }

  lemma PackedIsOver(d: seq<byte>, at: nat, rec: Record, s: seq<byte>)
    requires at + RecordSize(rec.reference.Kind()) <= |d| && s == d[at..at + RecordSize(rec.reference.Kind())]
    ensures PackedAt(d, at, rec) ==
      Patch(d, at, ToLe(rec.counter, 2) + ToLe(rec.tag, 2) + NameOver(s[4..68], rec.name) + RefBytes(rec.reference))
  {
  }

  lemma PatchesInFour(d0: seq<byte>, d1: seq<byte>, d2: seq<byte>, d3: seq<byte>, at: nat,
                      counter: seq<byte>, tag: seq<byte>, name: seq<byte>, reference: seq<byte>)
    requires |counter| == |tag| == 2 && |name| == NAME_LEN && at + 68 + |reference| <= |d0|
    requires d1 == Patch(d0, at, counter) && d2 == Patch(d1, at + 2, tag) && d3 == Patch(d2, at + 4, name)
    ensures Patch(d3, at + 68, reference) == Patch(d0, at, counter + tag + name + reference)
  {
    PatchInFour(d0, at, counter, tag, name, reference);
  }

  /** Writing counter and tag leaves the name field as it was. */
  lemma FieldBehind(d: seq<byte>, at: nat, size: nat, counter: seq<byte>, tag: seq<byte>)
    requires size >= NO_REF_LEN && at + size <= |d| && |counter| == |tag| == 2
    ensures Patch(Patch(d, at, counter), at + 2, tag)[at + 4..at + 4 + NAME_LEN] == d[at..at + size][4..68]
  {
    SubSlice(d, at, size, 4, 68);
    PatchOutside(d, at + 4, at + 68, at, counter);
    PatchOutside(Patch(d, at, counter), at + 4, at + 68, at + 2, tag);
  }

  method SetStorageCounter(data: array<byte>, counter: nat) returns (r: Result<nat, Error>)
    modifies data
    ensures r == if counter == 0 then Err(InvalidArgument)
                 else if data.Length < HEADER_LEN then Err(AccountDataTooSmall) else Ok(counter)
    ensures r.Err? ==> data[..] == old(data[..])
    ensures r.Ok? ==> data[..] == Patch(old(data[..]), 0, ToLe(counter % 0x1_0000_0000, 4))
  {
    if counter == 0 {
      return Err(InvalidArgument);
    }
    if data.Length < HEADER_LEN {
      return Err(AccountDataTooSmall);
    }
    CopyInto(data, 0, ToLe(counter % 0x1_0000_0000, 4));
    return Ok(counter);
  }

  method SetActiveRecords(data: array<byte>, records: nat) returns (r: Result<nat, Error>)
    modifies data
    ensures r == if data.Length < HEADER_LEN then Err(AccountDataTooSmall) else Ok(records)
    ensures r.Err? ==> data[..] == old(data[..])
    ensures r.Ok? ==> data[..] == Patch(old(data[..]), 4, ToLe(records % 0x1_0000_0000, 4))
  {
    if data.Length < HEADER_LEN {
      return Err(AccountDataTooSmall);
    }
    CopyInto(data, 4, ToLe(records % 0x1_0000_0000, 4));
    return Ok(records);
  }

  method SetRecordCounter(data: array<byte>, offset: nat, counter: nat)
    requires offset + 2 <= data.Length
    modifies data
    ensures data[..] == if counter == 0 then old(data[..])
                        else Patch(old(data[..]), offset, ToLe(counter % 0x1_0000, 2))
  {
    if counter == 0 {
      return;
    }
    CopyInto(data, offset, ToLe(counter % 0x1_0000, 2));
  }

  // ---- the effect of byte changes on the storage ----

  lemma HeaderCounterChanged(d: seq<byte>, db: Db, c: u32)
    requires Rep(d, db) && c > 0
    ensures |d| >= HEADER_LEN && Rep(Patch(d, 0, ToLe(c, 4)), db.(counter := c))
  {
    var size, n := RecordSize(db.kind), |db.slots|;
    var d' := Patch(d, 0, ToLe(c, 4));
    PatchHeader(d, d', size, n, 0, ToLe(c, 4));
    var h, h' := d[..HEADER_LEN], d'[..HEADER_LEN];
    assert h'[4..8] == h[4..8] && h'[9..73] == h[9..73];
    forall i | 0 <= i < n
      ensures Off(size, i) + size <= |d'| && SlotRep(Slot(d', size, i), db.slots[i])
    {
      SlotInside(d, db, i);
      assert SameSlot(d, d', size, i);
    }
  }

  lemma HeaderActiveChanged(h: seq<byte>, h': seq<byte>, counter: u32, a: u32, b: u32, k: ReferenceType, title: Name)
    requires HeaderRep(h, counter, a, k, title) && h' == Patch(h, 4, ToLe(b, 4))
    ensures HeaderRep(h', counter, b, k, title)
  {
    PatchOutside(h, 0, 4, 4, ToLe(b, 4));
    PatchOutside(h, 9, 73, 4, ToLe(b, 4));
    PatchOutside(h, 8, 9, 4, ToLe(b, 4));
    assert h'[8] == h'[8..9][0] == h[8..9][0];
    PatchWithin(h, 4, 8, 4, ToLe(b, 4));
  }

  /** New bytes for record `i`, and the active count that goes with them. */
  lemma SlotChanged(d: seq<byte>, db: Db, i: nat, x: Option<Entry>, d': seq<byte>)
    requires Rep(d, db) && i < |db.slots|
    requires x.Some? ==> EntryOk(db.kind, x.value)
    requires SameTail(d, d', RecordSize(db.kind), |db.slots|)
    requires d'[..HEADER_LEN] == Patch(d[..HEADER_LEN], 4, ToLe(Active(db.slots[i := x]), 4))
    requires Off(RecordSize(db.kind), i) + RecordSize(db.kind) <= |d|
    requires SlotRep(Slot(d', RecordSize(db.kind), i), x)
    requires forall j :: 0 <= j < |db.slots| && j != i ==> SameSlot(d, d', RecordSize(db.kind), j)
    ensures Rep(d', db.(slots := db.slots[i := x]))
  {
    var size, n := RecordSize(db.kind), |db.slots|;
    HeaderActiveChanged(d[..HEADER_LEN], d'[..HEADER_LEN], db.counter, Active(db.slots), Active(db.slots[i := x]),
                        db.kind, db.title);
    forall j | 0 <= j < n
      ensures Off(size, j) + size <= |d'| && SlotRep(Slot(d', size, j), db.slots[i := x][j])
    {
      SlotInside(d, db, j);
      if j != i {
        assert SameSlot(d, d', size, j);
      }
    }
  }

  /** Packing over a record of the same name, or over an empty one, leaves a zero-padded record. */
  lemma RecordOverSlot(s: seq<byte>, cur: Option<Entry>, rec: Record)
    requires |s| == RecordSize(rec.reference.Kind()) && SlotRep(s, cur)
    requires cur.Some? ==> cur.value.name == rec.name
    ensures RecordOver(s, rec) == EntryBytes(Entry(rec.counter, rec.tag, rec.name, rec.reference))
  {
    if cur.Some? {
      EntryParts(cur.value);
    }
    NameOverKeepsPadding(s[4..68], rec.name);
  }

  lemma PackedOverSlot(s: seq<byte>, cur: Option<Entry>, rec: Record, c: u16)
    requires |s| == RecordSize(rec.reference.Kind()) && SlotRep(s, cur)
    requires cur.Some? ==> cur.value.name == rec.name
    ensures Patch(RecordOver(s, rec), 0, ToLe(c, 2)) == EntryBytes(Entry(c, rec.tag, rec.name, rec.reference))
  {
    RecordOverSlot(s, cur, rec);
  }

  /** The storage counter is advanced before anything else is written. */
  method AdvanceStorageCounter(data: array<byte>, ghost c: u32)
    requires GetStorageCounter(data[..]) == Ok(c as nat)
    modifies data
    ensures data[..] == Patch(old(data[..]), 0, ToLe(BumpStorage(c), 4))
  {
    var counter := GetStorageCounter(data[..]).value;
    if counter < U32_MAX {
      assert (counter + 1) % 0x1_0000_0000 == counter + 1;
      var _ := SetStorageCounter(data, counter + 1);
    } else {
      var _ := SetStorageCounter(data, 1);
    }
  }

  // ---- write ----

  /** `SlotChanged`, for bytes that were changed by one overwrite in the header and one in record `i`. */
  lemma SlotPatched(d: seq<byte>, db: Db, i: nat, x: Option<Entry>, b: seq<byte>, size: nat, o: nat,
                    d1: seq<byte>, d2: seq<byte>)
    requires Rep(d, db) && i < |db.slots|
    requires x.Some? ==> EntryOk(db.kind, x.value)
    requires size == RecordSize(db.kind) && o == Off(size, i) && o + size <= |d| && |b| <= size
    requires SlotRep(Patch(Slot(d, size, i), 0, b), x)
    requires d1 == Patch(d, 4, ToLe(Active(db.slots[i := x]), 4))
    requires d2 == Patch(d1, o, b)
    ensures Rep(d2, db.(slots := db.slots[i := x]))
  {
    var n := |db.slots|;
    PatchHeader(d, d1, size, n, 4, ToLe(Active(db.slots[i := x]), 4));
    assert SameSlot(d, d1, size, i);
    PatchSlot(d1, d2, size, n, i, 0, b);
    forall j | 0 <= j < n && j != i
      ensures SameSlot(d, d2, size, j)
    {
      assert SameSlot(d, d1, size, j);
      PatchOtherSlot(d1, d2, size, n, i, j, 0, b);
    }
    SlotChanged(d, db, i, x, d2);
  }

  lemma HeaderUnchanged(d: seq<byte>, db: Db)
    requires Rep(d, db)
    ensures |d| >= HEADER_LEN && Patch(d, 4, ToLe(Active(db.slots), 4)) == d
  {
    assert d[4..8] == d[..HEADER_LEN][4..8];
  }

  /** The new name is the one stored already, or the slot is empty: the only ways past the checks. */
  lemma TargetHasName(db: Db, rec: Record, i: nat)
    requires i == Target(db.slots, rec.index, rec.name) && WriteError(db, rec, i).None?
    ensures i < |db.slots| && (db.slots[i].Some? ==> db.slots[i].value.name == rec.name)
  {
  }

  /**
   A write that would go behind the last record, where the left-over bytes are enough for
   the fixed part of a record but not for all of it.
   */
  ghost predicate LandsInTail(d: seq<byte>, db: Db, rec: Record) {
    && Target(db.slots, rec.index, rec.name) == |db.slots|
    && !ShortTail(d, db)
    && rec.reference.Kind() == db.kind
  }

  /** What is read at the position an index or a scan leads to. */
  lemma TargetReads(d: seq<byte>, db: Db, i: nat)
    requires Rep(d, db) && i <= |db.slots|
    ensures Off(RecordSize(db.kind), i) <= |d|
    ensures GetRecordCounterAndName(d, Off(RecordSize(db.kind), i)) ==
      if i < |db.slots| then Ok(Head(db.slots[i]))
      else if ShortTail(d, db) then Err(AccountDataTooSmall)
      else Ok((0, []))
  {
    if i < |db.slots| {
      ScanStep(d, db, i);
    } else if !ShortTail(d, db) {
      TailReads(d, Off(RecordSize(db.kind), i));
    }
  }

  lemma TailReads(d: seq<byte>, o: nat)
    requires o + NO_REF_LEN <= |d| && d[o..] == Zeros(|d| - o)
    ensures GetRecordCounterAndName(d, o) == Ok((0, []))
  {
    var tail := d[o..];
    assert forall i :: o <= i < |d| ==> d[i] == tail[i - o] == 0;
    assert d[o..o + 2] == Zeros(2);
    assert d[o + 4..o + 68] == Padded([]);
    LeOfZeros(2);
    PaddedRoundTrip([]);
  }

  lemma PatchOver(d: seq<byte>, at: nat, a: seq<byte>, b: seq<byte>)
    requires at + |a| <= |d| && |b| <= |a|
    ensures Patch(Patch(d, at, a), at, b) == Patch(d, at, Patch(a, 0, b))
  {
  }

  /** The record that a write leaves, in one overwrite. */
  lemma PackedEntry(d2: seq<byte>, d3: seq<byte>, d4: seq<byte>, o: nat, s: seq<byte>,
                    cur: Option<Entry>, rec: Record)
    requires |s| == RecordSize(rec.reference.Kind()) && o + |s| <= |d2| && d2[o..o + |s|] == s
    requires SlotRep(s, cur) && (cur.Some? ==> cur.value.name == rec.name)
    requires d3 == Patch(d2, o, RecordOver(s, rec))
    requires d4 == Patch(d3, o, ToLe(Written(cur, rec).counter, 2))
    ensures d4 == Patch(d2, o, EntryBytes(Written(cur, rec)))
    ensures SlotRep(Patch(s, 0, EntryBytes(Written(cur, rec))), Some(Written(cur, rec)))
  {
    var e := Written(cur, rec);
    PackedOverSlot(s, cur, rec, e.counter);
    PatchOver(d2, o, RecordOver(s, rec), ToLe(e.counter, 2));
    PatchAll(s, EntryBytes(e));
  }

  /** The header after a change: the storage counter advanced, the active count set. */
  function HeaderAfter(d: seq<byte>, counter: u32, active: nat): (r: seq<byte>)
    requires |d| >= HEADER_LEN
    ensures |r| == |d|
  {
    Patch(Patch(d, 0, ToLe(BumpStorage(counter), 4)), 4, ToLe(active, 4))
  }

  lemma HeaderAfterKeepsSlot(d: seq<byte>, db: Db, active: nat, i: nat, size: nat, o: nat)
    requires Rep(d, db) && i < |db.slots|
    requires size == RecordSize(db.kind) && o == Off(size, i)
    ensures |d| >= HEADER_LEN && o + size <= |d|
    ensures HeaderAfter(d, db.counter, active)[o..o + size] == Slot(d, size, i)
    ensures SlotRep(Slot(d, size, i), db.slots[i])
  {
    var n := |db.slots|;
    var d1 := Patch(d, 0, ToLe(BumpStorage(db.counter), 4));
    var d2 := Patch(d1, 4, ToLe(active, 4));
    SlotInside(d, db, i);
    PatchHeader(d, d1, size, n, 0, ToLe(BumpStorage(db.counter), 4));
    PatchHeader(d1, d2, size, n, 4, ToLe(active, 4));
    assert SameSlot(d, d1, size, i) && SameSlot(d1, d2, size, i);
  }

  /** Every change to one slot: the header as above, and one overwrite in the record. */
  lemma ChangeEffect(d: seq<byte>, db: Db, i: nat, x: Option<Entry>, b: seq<byte>, size: nat, o: nat,
                     d2: seq<byte>, d': seq<byte>)
    requires Rep(d, db) && i < |db.slots|
    requires x.Some? ==> EntryOk(db.kind, x.value)
    requires size == RecordSize(db.kind) && o == Off(size, i) && HEADER_LEN <= |d| && o + size <= |d| && |b| <= size
    requires SlotRep(Patch(Slot(d, size, i), 0, b), x)
    requires d2 == HeaderAfter(d, db.counter, Active(db.slots[i := x]))
    requires d' == Patch(d2, o, b)
    ensures Rep(d', db.(counter := BumpStorage(db.counter), slots := db.slots[i := x]))
  {
    var n, c := |db.slots|, BumpStorage(db.counter);
    var d1 := Patch(d, 0, ToLe(c, 4));
    HeaderCounterChanged(d, db, c);
    PatchHeader(d, d1, size, n, 0, ToLe(c, 4));
    assert SameSlot(d, d1, size, i);
    SlotPatched(d1, db.(counter := c), i, x, b, size, o, d2, d');
  }

  /** The active count need not be written when it does not change. */
  lemma SameActive(d: seq<byte>, db: Db)
    requires Rep(d, db)
    ensures |d| >= HEADER_LEN
    ensures HeaderAfter(d, db.counter, Active(db.slots)) == Patch(d, 0, ToLe(BumpStorage(db.counter), 4))
  {
    HeaderCounterChanged(d, db, BumpStorage(db.counter));
    HeaderUnchanged(Patch(d, 0, ToLe(BumpStorage(db.counter), 4)), db.(counter := BumpStorage(db.counter)));
  }

  lemma PatchAll(s: seq<byte>, b: seq<byte>)
    requires |b| == |s|
    ensures Patch(s, 0, b) == b
  {
  }

  lemma CounterMoved(db: Db, d': seq<byte>)
    requires |d'| >= 4 && d'[0..4] == ToLe(BumpStorage(db.counter), 4)
    ensures !Rep(d', db)
  {
    if Rep(d', db) {
      HeaderReads(d', db);
    }
    PowValues();
    LeOfToLe(BumpStorage(db.counter), 4);
  }

  /** Slot `i` is a slot, or is refused: the left-over bytes cannot be taken for one. */
  ghost predicate InReach(d: seq<byte>, db: Db, i: nat) {
    i != |db.slots| || ShortTail(d, db)
  }

  /** Finds the position to write to or to delete at. */
  method Locate(data: array<byte>, rec: Record, ghost db: Db) returns (r: Result<nat, Error>)
    requires Rep(data[..], db)
    ensures var i := Target(db.slots, rec.index, rec.name);
            r == if i <= |db.slots| then Ok(Off(RecordSize(db.kind), i)) else Err(AccountDataTooSmall)
  {
    match rec.index {
      case Some(index) =>
        OffsetOfIndex(data[..], db, index);
        r := GetOffset(data[..], index);
      case None =>
        r := FindWriteOffset(data[..], rec.name, db);
    }
  }

  /** One more record in use, as `write` counts it. */
  method CountOneMore(data: array<byte>, ghost active: nat)
    requires GetActiveRecords(data[..]) == Ok(active)
    modifies data
    ensures data[..] == if active < U32_MAX then Patch(old(data[..]), 4, ToLe(active + 1, 4)) else old(data[..])
  {
    var records := GetActiveRecords(data[..]).value;
    if records < U32_MAX {
      assert (records + 1) % 0x1_0000_0000 == records + 1;
      var _ := SetActiveRecords(data, records + 1);
    }
  }

  lemma ActiveAfterBump(d: seq<byte>, counter: u32)
    requires |d| >= HEADER_LEN
    ensures GetActiveRecords(Patch(d, 0, ToLe(BumpStorage(counter), 4))) == GetActiveRecords(d)
  {
    PatchOutside(d, 4, 8, 0, ToLe(BumpStorage(counter), 4));
  }

  /** The header that `write` leaves: the active count goes up when the slot was empty. */
  function HeaderAfterWrite(d: seq<byte>, counter: u32, active: nat, curCounter: u16): (r: seq<byte>)
    requires |d| >= HEADER_LEN
    ensures |r| == |d|
  {
    if curCounter == 0 && active < U32_MAX then HeaderAfter(d, counter, active + 1)
    else Patch(d, 0, ToLe(BumpStorage(counter), 4))
  }

  lemma HeaderAfterWriteIs(d: seq<byte>, db: Db, i: nat, e: Entry)
    requires Rep(d, db) && i < |db.slots|
    ensures |d| >= HEADER_LEN
    ensures HeaderAfterWrite(d, db.counter, Active(db.slots), Head(db.slots[i]).0)
         == HeaderAfter(d, db.counter, Active(db.slots[i := Some(e)]))
  {
    ActiveUpdate(db.slots, i, Some(e), |db.slots|);
    SameActive(d, db);
    if db.slots[i].None? {
      RoomToCount(db, i);
    }
  }

  /** The bytes after a write to slot `i` stand for the storage with the new entry in it. */
  lemma WriteEffect(d: seq<byte>, db: Db, rec: Record, i: nat, e: Entry, o: nat, size: nat,
                    d2: seq<byte>, d3: seq<byte>, d4: seq<byte>)
    requires Rep(d, db) && i < |db.slots|
    requires size == RecordSize(db.kind) && rec.reference.Kind() == db.kind
    requires |d| >= HEADER_LEN && o == Off(size, i) && o + size <= |d| == |d2|
    requires db.slots[i].Some? ==> db.slots[i].value.name == rec.name
    requires e == Written(db.slots[i], rec)
    requires d2 == HeaderAfter(d, db.counter, Active(db.slots[i := Some(e)]))
    requires d3 == Patch(d2, o, RecordOver(d2[o..o + size], rec))
    requires d4 == Patch(d3, o, ToLe(e.counter, 2))
    ensures Rep(d4, db.(counter := BumpStorage(db.counter), slots := db.slots[i := Some(e)]))
  {
    HeaderAfterKeepsSlot(d, db, Active(db.slots[i := Some(e)]), i, size, o);
    PackedEntry(d2, d3, d4, o, Slot(d, size, i), db.slots[i], rec);
    ChangeEffect(d, db, i, Some(e), EntryBytes(e), size, o, d2, d4);
  }

  lemma WriteOutcome(db: Db, rec: Record, i: nat, e: Entry)
    requires i == Target(db.slots, rec.index, rec.name) && WriteError(db, rec, i).None?
    requires e == Written(db.slots[i], rec)
    ensures S.Write(db, rec) ==
      (db.(counter := BumpStorage(db.counter), slots := db.slots[i := Some(e)]), Ok(RecordSize(db.kind)))
    ensures e.counter == BumpRecord(Head(db.slots[i]).0)
  {
  }

  /** An empty slot leaves room to count one more. */
  lemma RoomToCount(db: Db, i: nat)
    requires Valid(db) && i < |db.slots| && db.slots[i].None?
    ensures Active(db.slots) < |db.slots| <= U32_MAX
  {
    ActiveUpdate(db.slots, i, Some(Entry(0, 0, [], Empty)), |db.slots|);
  }

  /** The checks of `write`, in their order, on what stands at `offset`. */
  function WriteRefusal(d: seq<byte>, rec: Record, offset: nat): Option<Error>
    requires offset <= |d|
  {
    match GetRecordCounterAndName(d, offset)
    case Err(e) => Some(e)
    case Ok((counter, name)) =>
      if counter > 0 && rec.counter > 0 && counter != rec.counter then Some(RefdbRecordCounterMismatch)
      else if counter > 0 && rec.index.Some? && rec.name != name then Some(RefdbRecordNameMismatch)
      else
        match GetReferenceType(d)
        case Err(e) => Some(e)
        case Ok(k) => if k != rec.reference.Kind() then Some(RefdbRecordTypeMismatch) else None
  }

  lemma WriteRefusalIs(d: seq<byte>, db: Db, rec: Record, i: nat)
    requires Rep(d, db) && i == Target(db.slots, rec.index, rec.name) <= |db.slots|
    ensures Off(RecordSize(db.kind), i) <= |d|
    ensures WriteRefusal(d, rec, Off(RecordSize(db.kind), i)) ==
      if i < |db.slots| then WriteError(db, rec, i)
      else if ShortTail(d, db) then Some(AccountDataTooSmall)
      else if db.kind != rec.reference.Kind() then Some(RefdbRecordTypeMismatch)
      else None
  {
    HeaderReads(d, db);
    TargetReads(d, db, i);
    if i < |db.slots| {
      ScanStep(d, db, i);
    }
  }

  /**
   `write`. It succeeds or fails as the storage `db` says and does the same to the bytes.
   A write that fails changes no byte, with one exception: when it lands in left-over
   bytes that are too many, the header has been advanced before the failure shows.
   */
  method Write(data: array<byte>, rec: Record, ghost db: Db) returns (r: Outcome)
    requires Rep(data[..], db)
    modifies data
    ensures InReach(old(data[..]), db, Target(db.slots, rec.index, rec.name)) ==>
      r == S.Write(db, rec).1 && Rep(data[..], S.Write(db, rec).0)
    ensures LandsInTail(old(data[..]), db, rec) ==> r == Err(AccountDataTooSmall) && !Rep(data[..], db)
    ensures (!InReach(old(data[..]), db, Target(db.slots, rec.index, rec.name))
             && !LandsInTail(old(data[..]), db, rec)) ==> r == Err(RefdbRecordTypeMismatch)
    ensures r.Err? ==> (data[..] == old(data[..]) <==> !LandsInTail(old(data[..]), db, rec))
  {
    ghost var d := data[..];
    ghost var i := Target(db.slots, rec.index, rec.name);
    var located := Locate(data, rec, db);
    if located.Err? {
      return located;
    }
    var offset := located.value;
    WriteRefusalIs(d, db, rec, i);
    var refusal := WriteRefusal(data[..], rec, offset);
    if refusal.Some? {
      return Err(refusal.value);
    }
    var curCounter := GetRecordCounterAndName(data[..], offset).value.0;
    WriteTargetBytes(d, db, i);
    r := WriteBytes(data, rec, offset, curCounter, db.counter, Active(db.slots));
    if i < |db.slots| {
      WriteSucceeds(d, db, rec, i, offset);
    } else {
      TailWriteShows(d, db, curCounter, offset, BumpRecord(curCounter), data[..]);
    }
  }

  /** A write that is not refused leaves the bytes of the storage with the new entry. */
  lemma WriteSucceeds(d: seq<byte>, db: Db, rec: Record, i: nat, o: nat)
    requires Rep(d, db) && i == Target(db.slots, rec.index, rec.name)
    requires HEADER_LEN <= o == Off(RecordSize(db.kind), i) && o + RecordSize(db.kind) <= |d|
    ensures WriteError(db, rec, i).None? ==>
      && S.Write(db, rec).1 == Ok(RecordSize(rec.reference.Kind()))
      && Rep(Patch(PackedBytes(d, db.counter, Active(db.slots), Head(db.slots[i]).0, o, rec), o,
                   ToLe(BumpRecord(Head(db.slots[i]).0), 2)),
             S.Write(db, rec).0)
  {
    if WriteError(db, rec, i).Some? {
      return;
    }
    var d' := Patch(PackedBytes(d, db.counter, Active(db.slots), Head(db.slots[i]).0, o, rec), o,
                    ToLe(BumpRecord(Head(db.slots[i]).0), 2));
    var e := Written(db.slots[i], rec);
    TargetHasName(db, rec, i);
    WriteOutcome(db, rec, i, e);
    HeaderAfterWriteIs(d, db, i, e);
    WriteEffect(d, db, rec, i, e, o, RecordSize(db.kind),
                HeaderAfterWrite(d, db.counter, Active(db.slots), Head(db.slots[i]).0),
                PackedBytes(d, db.counter, Active(db.slots), Head(db.slots[i]).0, o, rec), d');
  }

  lemma WriteTargetBytes(d: seq<byte>, db: Db, i: nat)
    requires Rep(d, db) && i <= |db.slots|
    ensures HEADER_LEN <= Off(RecordSize(db.kind), i) <= |d|
    ensures i < |db.slots| ==>
      Off(RecordSize(db.kind), i) + RecordSize(db.kind) <= |d|
      && GetRecordCounterAndName(d, Off(RecordSize(db.kind), i)) == Ok(Head(db.slots[i]))
    ensures i == |db.slots| ==> |d| < Off(RecordSize(db.kind), i) + RecordSize(db.kind)
    ensures GetStorageCounter(d) == Ok(db.counter as nat) && GetActiveRecords(d) == Ok(Active(db.slots))
  {
    HeaderReads(d, db);
    if i < |db.slots| {
      ScanStep(d, db, i);
    }
  }

  function PackedBytes(d: seq<byte>, counter: u32, active: nat, curCounter: u16, offset: nat, rec: Record): seq<byte>
    requires HEADER_LEN <= offset && offset + RecordSize(rec.reference.Kind()) <= |d|
  {
    PackedAt(HeaderAfterWrite(d, counter, active, curCounter), offset, rec)
  }

  /** What `write` does to the header of any buffer. */
  method AdvanceHeader(data: array<byte>, curCounter: u16, ghost counter: u32, ghost active: nat)
    requires GetStorageCounter(data[..]) == Ok(counter as nat) && GetActiveRecords(data[..]) == Ok(active)
    modifies data
    ensures data[..] == HeaderAfterWrite(old(data[..]), counter, active, curCounter)
  {
    ActiveAfterBump(data[..], counter);
    AdvanceStorageCounter(data, counter);
    if curCounter == 0 {
      CountOneMore(data, active);
    }
  }

  /** The second half of `write`, behind its checks: what it does to any buffer. */
  method WriteBytes(data: array<byte>, rec: Record, offset: nat, curCounter: u16, ghost counter: u32, ghost active: nat)
    returns (r: Outcome)
    requires HEADER_LEN <= offset && offset + NO_REF_LEN <= data.Length
    requires GetStorageCounter(data[..]) == Ok(counter as nat) && GetActiveRecords(data[..]) == Ok(active)
    modifies data
    ensures r == if data.Length - offset < RecordSize(rec.reference.Kind()) then Err(AccountDataTooSmall)
                 else Ok(RecordSize(rec.reference.Kind()))
    ensures data[..] ==
      Patch(if r.Err? then HeaderAfterWrite(old(data[..]), counter, active, curCounter)
            else PackedBytes(old(data[..]), counter, active, curCounter, offset, rec),
            offset, ToLe(BumpRecord(curCounter), 2))
  {
    AdvanceHeader(data, curCounter, counter, active);
    r := WriteRecord(data, rec, offset, curCounter);
  }

  /** Packs the record and sets its counter, which happens even when packing fails. */
  method WriteRecord(data: array<byte>, rec: Record, offset: nat, curCounter: u16) returns (r: Outcome)
    requires offset + NO_REF_LEN <= data.Length
    modifies data
    ensures r == if data.Length - offset < RecordSize(rec.reference.Kind()) then Err(AccountDataTooSmall)
                 else Ok(RecordSize(rec.reference.Kind()))
    ensures data[..] == Patch(if r.Err? then old(data[..]) else PackedAt(old(data[..]), offset, rec),
                              offset, ToLe(BumpRecord(curCounter), 2))
  {
    r := PackRecord(data, offset, rec);
    var next := if curCounter < U16_MAX then curCounter + 1 else 1;
    assert next % 0x1_0000 == next == BumpRecord(curCounter);
    SetRecordCounter(data, offset, next);
  }

  /** A failed write in the tail leaves another storage counter behind, and so another storage or none. */
  lemma TailWriteShows(d: seq<byte>, db: Db, curCounter: u16, o: nat, c: u16, d': seq<byte>)
    requires Rep(d, db) && HEADER_LEN <= o && o + 2 <= |d|
    requires d' == Patch(HeaderAfterWrite(d, db.counter, Active(db.slots), curCounter), o, ToLe(c, 2))
    ensures d != d' && !Rep(d', db)
  {
    var d1 := Patch(d, 0, ToLe(BumpStorage(db.counter), 4));
    var d2 := HeaderAfterWrite(d, db.counter, Active(db.slots), curCounter);
    PatchAt(d, 0, ToLe(BumpStorage(db.counter), 4));
    if d2 != d1 {
      PatchOutside(d1, 0, 4, 4, ToLe((Active(db.slots) + 1), 4));
    }
    PatchOutside(d2, 0, 4, o, ToLe(c, 2));
    CounterMoved(db, d');
  }

  // ---- update ----

  /** From the position of slot `i` on there are `n` bytes. */
  ghost predicate EndsInside(d: seq<byte>, db: Db, i: nat, n: nat) {
    i <= |db.slots| && Off(RecordSize(db.kind), i) + n <= |d|
  }

  /**
   `update_at`. The value need not be of the storage's type: as many bytes are written as
   it has. When it is too long for the record it runs into what follows, and the rest of
   the storage stays as it was exactly if `UpdateHarmless`.
   */
  method UpdateAt(data: array<byte>, index: nat, reference: Reference, ghost db: Db) returns (r: Outcome)
    requires Rep(data[..], db)
    modifies data
    ensures !EndsInside(old(data[..]), db, index, RecordSize(reference.Kind())) ==>
      r == Err(AccountDataTooSmall) && data[..] == old(data[..])
    ensures EndsInside(old(data[..]), db, index, RecordSize(reference.Kind())) && index < |db.slots| ==>
      r == S.UpdateAt(db, index, reference).1
      && (Rep(data[..], S.UpdateAt(db, index, reference).0) <==> UpdateHarmless(db, index, reference))
    ensures EndsInside(old(data[..]), db, index, RecordSize(reference.Kind())) && index == |db.slots| ==>
      r == Err(UninitializedAccount) && Rep(data[..], db.(counter := BumpStorage(db.counter)))
  {
    ghost var d := data[..];
    OffsetOfIndex(d, db, index);
    var located := GetOffset(data[..], index);
    if located.Err? {
      return located;
    }
    var offset := located.value;
    var unpacked := UnpackRecord(data[..][offset..], reference.Kind(), None);
    if unpacked.Err? {
      return Err(unpacked.error);
    }
    UnpackAtSlot(d, db, index, reference.Kind(), offset);
    WriteTargetBytes(d, db, index);
    r := UpdateBytes(data, unpacked.value, offset, reference, db.counter);
    if index < |db.slots| {
      UpdateOutcome(d, db, index, unpacked.value, reference, offset, data[..]);
    } else {
      HeaderCounterChanged(d, db, BumpStorage(db.counter));
    }
  }

  /** The record as `update_at` writes it back. */
  function Updated(cur: Record, reference: Reference): Record {
    cur.(counter := BumpRecord(cur.counter), reference := reference)
  }

  /** The second half of `update_at`: what it does to any buffer. */
  method UpdateBytes(data: array<byte>, cur: Record, offset: nat, reference: Reference, ghost counter: u32)
    returns (r: Outcome)
    requires HEADER_LEN <= offset && offset + RecordSize(reference.Kind()) <= data.Length
    requires GetStorageCounter(data[..]) == Ok(counter as nat)
    modifies data
    ensures r == if cur.counter == 0 then Err(UninitializedAccount) else Ok(RecordSize(reference.Kind()))
    ensures data[..] == UpdatedBytes(old(data[..]), cur, offset, reference, counter)
  {
    AdvanceStorageCounter(data, counter);
    if cur.counter == 0 {
      return Err(UninitializedAccount);
    }
    var next := cur;
    if cur.counter < U16_MAX {
      next := next.(counter := cur.counter + 1);
    } else {
      next := next.(counter := 1);
    }
    next := next.(reference := reference);
    assert next == Updated(cur, reference);
    r := PackRecord(data, offset, next);
  }

  function UpdatedBytes(d: seq<byte>, cur: Record, offset: nat, reference: Reference, counter: u32): seq<byte>
    requires HEADER_LEN <= offset && offset + RecordSize(reference.Kind()) <= |d|
  {
    var d2 := Patch(d, 0, ToLe(BumpStorage(counter), 4));
    if cur.counter == 0 then d2
    else PackedAt(d2, offset, Updated(cur, reference))
  }

  lemma UpdateOutcome(d: seq<byte>, db: Db, i: nat, cur: Record, reference: Reference, o: nat, d': seq<byte>)
    requires Rep(d, db) && i < |db.slots|
    requires o == Off(RecordSize(db.kind), i) && HEADER_LEN <= o && o + RecordSize(reference.Kind()) <= |d|
    requires FieldsAre(cur, db.slots[i])
    requires d' == UpdatedBytes(d, cur, o, reference, db.counter)
    ensures Rep(d', S.UpdateAt(db, i, reference).0) <==> UpdateHarmless(db, i, reference)
    ensures S.UpdateAt(db, i, reference).1
         == if cur.counter == 0 then Err(UninitializedAccount) else Ok(RecordSize(reference.Kind()))
  {
    if db.slots[i].None? {
      HeaderCounterChanged(d, db, BumpStorage(db.counter));
    } else {
      var e := db.slots[i].value;
      assert EntryOk(db.kind, e);
      var e' := e.(counter := BumpRecord(e.counter), reference := Stored(e.reference, reference));
      UpdateHeader(d, db, i, e');
      UpdateEffect(d, db, i, Updated(cur, reference), e', o, RecordSize(db.kind),
                   Patch(d, 0, ToLe(BumpStorage(db.counter), 4)), d');
    }
  }

  /** Counter, tag and name of a record are those of the slot. */
  predicate FieldsAre(cur: Record, slot: Option<Entry>) {
    match slot
    case None => cur.counter == 0
    case Some(e) => cur.counter == e.counter > 0 && cur.tag == e.tag && cur.name == e.name
  }

  /** Unpacking at the position of a slot, as a record of any type that fits in what there is. */
  lemma UnpackAtSlot(d: seq<byte>, db: Db, i: nat, k: ReferenceType, o: nat)
    requires Rep(d, db) && i <= |db.slots|
    requires o == Off(RecordSize(db.kind), i) && o + RecordSize(k) <= |d|
    ensures UnpackRecord(d[o..], k, None).Ok?
    ensures FieldsAre(UnpackRecord(d[o..], k, None).value, if i < |db.slots| then db.slots[i] else None)
  {
    var size := RecordSize(db.kind);
    if i < |db.slots| {
      SlotInside(d, db, i);
      assert db.slots[i].Some? ==> EntryOk(db.kind, db.slots[i].value);
      UnpackOverSlot(d, o, size, k, db.slots[i]);
    } else {
      assert d[o..][0..2] == Zeros(2);
      PowValues();
      LeOfZeros(2);
    }
  }

  lemma UnpackOverSlot(d: seq<byte>, o: nat, size: nat, k: ReferenceType, slot: Option<Entry>)
    requires NO_REF_LEN <= size && o + size <= |d| && o + RecordSize(k) <= |d| && SlotRep(d[o..o + size], slot)
    requires slot.Some? ==> slot.value.counter > 0
    ensures FieldsAre(UnpackRecord(d[o..], k, None).value, slot)
  {
    SlotFields(d[o..o + size], slot);
    SameFields(d, o, size, 0, 2);
    SameFields(d, o, size, 2, 4);
    SameFields(d, o, size, 4, 68);
    if slot.Some? {
      EntryParts(slot.value);
      PowValues();
      LeOfToLe(slot.value.tag, 2);
    }
  }

  /** A field of a record, seen in all that follows or in the record alone. */
  lemma SameFields(d: seq<byte>, o: nat, size: nat, lo: nat, hi: nat)
    requires lo <= hi <= size && o + size <= |d|
    ensures d[o..][lo..hi] == d[o..o + size][lo..hi]
  {
    SubSlice(d, o, size, lo, hi);
    assert d[o..][lo..hi] == d[o + lo..o + hi];
  }

  lemma UpdateHeader(d: seq<byte>, db: Db, i: nat, e: Entry)
    requires Rep(d, db) && i < |db.slots| && db.slots[i].Some?
    ensures |d| >= HEADER_LEN
    ensures Patch(d, 0, ToLe(BumpStorage(db.counter), 4)) == HeaderAfter(d, db.counter, Active(db.slots[i := Some(e)]))
  {
    ActiveUpdate(db.slots, i, Some(e), |db.slots|);
    SameActive(d, db);
  }

  lemma UpdateEffect(d: seq<byte>, db: Db, i: nat, rec: Record, e: Entry, o: nat, size: nat,
                     d2: seq<byte>, d': seq<byte>)
    requires Rep(d, db) && i < |db.slots| && db.slots[i].Some?
    requires size == RecordSize(db.kind) && o == Off(size, i) && HEADER_LEN <= |d| == |d2|
    requires var cur := db.slots[i].value;
      && rec.tag == cur.tag && rec.name == cur.name && cur.reference.Kind() == db.kind && rec.counter > 0
      && e == Entry(rec.counter, cur.tag, cur.name, Stored(cur.reference, rec.reference))
    requires d2 == HeaderAfter(d, db.counter, Active(db.slots[i := Some(e)]))
    requires o + RecordSize(rec.reference.Kind()) <= |d| && d' == PackedAt(d2, o, rec)
    ensures Rep(d', db.(counter := BumpStorage(db.counter), slots := db.slots[i := Some(e)]))
       <==> UpdateHarmless(db, i, rec.reference)
  {
    HeaderAfterKeepsSlot(d, db, Active(db.slots[i := Some(e)]), i, size, o);
    var x := EntryBytes(Entry(rec.counter, rec.tag, rec.name, rec.reference));
    UpdatedRecord(d2, o, size, db.slots[i].value, rec);
    EntryOverEntry(Slot(d, size, i), db.slots[i].value, rec.counter, rec.reference, e);
    if |x| <= size {
      ChangeEffect(d, db, i, Some(e), x, size, o, d2, d');
    } else {
      var first, rest := x[..size], x[size..];
      assert x == first + rest;
      PatchAll(Slot(d, size, i), first);
      LongEffect(d, db, i, e, first, rest, size, o, d2, d');
    }
  }

  /** Packing over an entry of the same name: the bytes of an entry, whatever the type. */
  lemma UpdatedRecord(d: seq<byte>, o: nat, size: nat, cur: Entry, rec: Record)
    requires size == RecordSize(cur.reference.Kind()) && o + size <= |d| && o + RecordSize(rec.reference.Kind()) <= |d|
    requires d[o..o + size] == EntryBytes(cur) && rec.name == cur.name
    ensures PackedAt(d, o, rec) == Patch(d, o, EntryBytes(Entry(rec.counter, rec.tag, rec.name, rec.reference)))
  {
    var m := RecordSize(rec.reference.Kind());
    EntryParts(cur);
    NameInRecord(d, o, size, m, EntryBytes(cur));
    OverEntry(d[o..o + m], cur, rec);
  }

  /** A change that runs over the end of its record. */
  lemma LongEffect(d: seq<byte>, db: Db, i: nat, e: Entry, first: seq<byte>, rest: seq<byte>, size: nat, o: nat,
                   d2: seq<byte>, d': seq<byte>)
    requires Rep(d, db) && i < |db.slots| && EntryOk(db.kind, e)
    requires size == RecordSize(db.kind) && o == Off(size, i) && HEADER_LEN <= |d| == |d2|
    requires first == EntryBytes(e) && |rest| <= 32 && o + size + |rest| <= |d|
    requires d2 == HeaderAfter(d, db.counter, Active(db.slots[i := Some(e)])) && d' == Patch(d2, o, first + rest)
    ensures Rep(d', db.(counter := BumpStorage(db.counter), slots := db.slots[i := Some(e)]))
       <==> OverrunSafe(db, i + 1, rest)
  {
    var db' := db.(counter := BumpStorage(db.counter), slots := db.slots[i := Some(e)]);
    var d3 := Patch(d2, o, first);
    PatchAll(Slot(d, size, i), first);
    ChangeEffect(d, db, i, Some(e), first, size, o, d2, d3);
    PatchTwice(d2, o, first, rest);
    OverrunEffect(d3, db', i + 1, rest, size, o + size, d');
  }

  lemma NameInRecord(d: seq<byte>, o: nat, size: nat, m: nat, s: seq<byte>)
    requires NO_REF_LEN <= size && NO_REF_LEN <= m && o + size <= |d| && o + m <= |d| && d[o..o + size] == s
    ensures d[o..o + m][4..68] == s[4..68]
  {
    SubSlice(d, o, size, 4, 68);
    SubSlice(d, o, m, 4, 68);
  }

  /** Packing over an entry of the same name, whatever the type. */
  lemma OverEntry(t: seq<byte>, cur: Entry, rec: Record)
    requires |t| == RecordSize(rec.reference.Kind()) && t[4..68] == Padded(cur.name) && rec.name == cur.name
    ensures RecordOver(t, rec) == EntryBytes(Entry(rec.counter, rec.tag, rec.name, rec.reference))
  {
    NameOverKeepsPadding(t[4..68], rec.name);
  }

  /** An entry written over another, as far as it reaches or as far as there is room. */
  lemma EntryOverEntry(s: seq<byte>, cur: Entry, c: u16, reference: Reference, e: Entry)
    requires s == EntryBytes(cur) && e == Entry(c, cur.tag, cur.name, Stored(cur.reference, reference))
    ensures var x := EntryBytes(Entry(c, cur.tag, cur.name, reference));
      && Patch(s, 0, if |x| <= |s| then x else x[..|s|]) == EntryBytes(e)
      && (|x| > |s| ==> x[|s|..] == RefBytes(reference)[RefSize(cur.reference.Kind())..])
  {
    var x := EntryBytes(Entry(c, cur.tag, cur.name, reference));
    StoredBytes(cur.reference, reference);
    FrontAndRest(ToLe(c, 2) + ToLe(cur.tag, 2) + Padded(cur.name),
                 ToLe(cur.counter, 2) + ToLe(cur.tag, 2) + Padded(cur.name),
                 RefBytes(reference), RefBytes(cur.reference), RefBytes(e.reference));
  }

  lemma FrontAndRest(front: seq<byte>, old_: seq<byte>, x: seq<byte>, y: seq<byte>, z: seq<byte>)
    requires |front| == |old_| && z == if |x| <= |y| then x + y[|x|..] else x[..|y|]
    ensures Patch(old_ + y, 0, if |x| <= |y| then front + x else (front + x)[..|old_ + y|]) == front + z
    ensures |x| > |y| ==> (front + x)[|old_ + y|..] == x[|y|..]
  {
  }

  /** `update`: the first entry of that name. Nothing is written when there is none. */
  method Update(data: array<byte>, name: Name, reference: Reference, ghost db: Db) returns (r: Outcome)
    requires Rep(data[..], db)
    modifies data
    ensures var i := FirstNamed(db.slots, name);
      if i == |db.slots| then r == Err(RefdbRecordNotFound)
      else if !EndsInside(old(data[..]), db, i, RecordSize(reference.Kind())) then r == Err(AccountDataTooSmall)
      else
        r == S.Update(db, name, reference).1
        && (Rep(data[..], S.Update(db, name, reference).0) <==> UpdateHarmless(db, i, reference))
    ensures r.Err? ==> data[..] == old(data[..])
  {
    var found := FindIndex(data[..], name, db);
    match found {
      case Err(e) =>
        return Err(e);
      case Ok(None) =>
        return Err(RefdbRecordNotFound);
      case Ok(Some(index)) =>
        r := UpdateAt(data, index, reference, db);
    }
  }

  // ---- bytes that run over the end of a record ----

  /** Writing `x` over the beginning of slot `i`, or over the left-over bytes, leaves the storage what it was. */
  ghost predicate OverrunSafe(db: Db, i: nat, x: seq<byte>) {
    if i >= |db.slots| then x == Zeros(|x|)
    else
      match db.slots[i]
      case None => forall j :: 0 <= j < |x| && (j < 2 || 4 <= j) ==> x[j] == 0
      case Some(e) => x <= EntryBytes(e)
  }

  /** The value fits, there is nothing to update, or its last bytes change nothing in what follows. */
  ghost predicate UpdateHarmless(db: Db, i: nat, reference: Reference) {
    || RecordSize(reference.Kind()) <= RecordSize(db.kind)
    || (i < |db.slots| && db.slots[i].None?)
    || OverrunSafe(db, i + 1, RefBytes(reference)[RefSize(db.kind)..])
  }

  lemma OverrunEffect(d: seq<byte>, db: Db, i: nat, x: seq<byte>, size: nat, o: nat, d': seq<byte>)
    requires Rep(d, db) && i <= |db.slots|
    requires size == RecordSize(db.kind) && o == Off(size, i) && |x| <= 32 && o + |x| <= |d|
    requires d' == Patch(d, o, x)
    ensures Rep(d', db) <==> OverrunSafe(db, i, x)
  {
    if i == |db.slots| {
      OverrunTail(d, db, x, o, d');
    } else if db.slots[i].None? {
      OverrunEmpty(d, db, i, x, size, o, d');
    } else {
      OverrunActive(d, db, i, x, size, o, d');
    }
  }

  lemma OverrunTail(d: seq<byte>, db: Db, x: seq<byte>, o: nat, d': seq<byte>)
    requires Rep(d, db) && o == Off(RecordSize(db.kind), |db.slots|) && o + |x| <= |d| && d' == Patch(d, o, x)
    ensures Rep(d', db) <==> x == Zeros(|x|)
  {
    PatchAt(d, o, x);
    assert d'[o..][..|x|] == x;
    if x == Zeros(|x|) {
      assert d[o..o + |x|] == d[o..][..|x|] == Zeros(|x|);
      PatchSame(d, o, x);
    }
  }

  /** An empty slot stays empty as long as its counter and its name stay zero. */
  lemma OverrunEmpty(d: seq<byte>, db: Db, i: nat, x: seq<byte>, size: nat, o: nat, d': seq<byte>)
    requires Rep(d, db) && i < |db.slots| && db.slots[i].None?
    requires size == RecordSize(db.kind) && o == Off(size, i) && |x| <= 32 && o + |x| <= |d|
    requires d' == Patch(d, o, x)
    ensures Rep(d', db) <==> OverrunSafe(db, i, x)
  {
    SlotInside(d, db, i);
    var s := Slot(d, size, i);
    PatchWithin(d, o, o + size, o, x);
    var s' := Slot(d', size, i);
    assert s' == Patch(s, 0, x);
    EmptyUnder(s, x);
    assert Rep(d', db) ==> SlotRep(s', None);
    if OverrunSafe(db, i, x) {
      assert db.slots[i := None] == db.slots;
      HeaderUnchanged(d, db);
      SlotPatched(d, db, i, None, x, size, o, d, d');
    }
  }

  lemma EmptyUnder(s: seq<byte>, x: seq<byte>)
    requires |s| >= NO_REF_LEN && SlotRep(s, None) && |x| <= 32
    ensures SlotRep(Patch(s, 0, x), None) <==> forall j :: 0 <= j < |x| && (j < 2 || 4 <= j) ==> x[j] == 0
  {
    var s' := Patch(s, 0, x);
    ToLeZero();
    assert Padded([]) == Zeros(NAME_LEN);
    ZeroStretch(s, 0, 2);
    ZeroStretch(s, 4, 68);
    ZeroStretch(s', 0, 2);
    ZeroStretch(s', 4, 68);
    assert forall j :: 0 <= j < |s| ==> s'[j] == if j < |x| then x[j] else s[j];
  }

  lemma ZeroStretch(s: seq<byte>, lo: nat, hi: nat)
    requires lo <= hi <= |s|
    ensures s[lo..hi] == Zeros(hi - lo) <==> forall j :: lo <= j < hi ==> s[j] == 0
  {
    if s[lo..hi] == Zeros(hi - lo) {
      forall j | lo <= j < hi
        ensures s[j] == 0
      {
        assert s[j] == s[lo..hi][j - lo];
      }
    }
  }

  /** An entry stays what it is exactly when its own bytes are written. */
  lemma OverrunActive(d: seq<byte>, db: Db, i: nat, x: seq<byte>, size: nat, o: nat, d': seq<byte>)
    requires Rep(d, db) && i < |db.slots| && db.slots[i].Some?
    requires size == RecordSize(db.kind) && o == Off(size, i) && |x| <= 32 && o + |x| <= |d|
    requires d' == Patch(d, o, x)
    ensures Rep(d', db) <==> x <= EntryBytes(db.slots[i].value)
  {
    SlotInside(d, db, i);
    var e := db.slots[i].value;
    var s := Slot(d, size, i);
    PatchWithin(d, o, o + size, o, x);
    var s' := Slot(d', size, i);
    assert s' == Patch(s, 0, x);
    StartOfPatch(s, x, EntryBytes(e));
    assert Rep(d', db) ==> SlotRep(s', Some(e));
    if x <= EntryBytes(e) {
      assert d[o..o + |x|] == s[..|x|] == x;
      PatchSame(d, o, x);
    }
  }

  lemma StartOfPatch(s: seq<byte>, x: seq<byte>, b: seq<byte>)
    requires |x| <= |s|
    ensures Patch(s, 0, x) == b ==> x <= b
  {
    assert Patch(s, 0, x)[..|x|] == x;
  }

  // ---- delete ----

  /**
   A record of a larger type than the storage's makes `delete` clear bytes of the next
   record. That does no harm exactly when the next record is the left-over tail or
   empty, or the one byte cleared of it is zero already.
   */
  predicate OverrunHarmless(db: Db, i: nat, cleared: nat) {
    var size := RecordSize(db.kind);
    || cleared <= size
    || i + 1 >= |db.slots|
    || db.slots[i + 1].None?
    || (cleared == size + 1 && db.slots[i + 1].value.counter % 256 == 0)
  }

  /** Clearing the start of a record leaves it empty. */
  lemma ClearedSlot(s: seq<byte>, n: nat)
    requires NO_REF_LEN <= n <= |s|
    ensures SlotRep(Patch(s, 0, Zeros(n)), None)
  {
    var s' := Patch(s, 0, Zeros(n));
    assert s'[0..2] == Zeros(2) && s'[4..68] == Padded([]);
    ToLeZero();
  }

  /** The bytes after slot `i` was cleared, within its own record. */
  lemma DeleteEffect(d: seq<byte>, db: Db, i: nat, n: nat, size: nat, o: nat, d2: seq<byte>, d': seq<byte>)
    requires Rep(d, db) && i < |db.slots|
    requires size == RecordSize(db.kind) && o == Off(size, i) && HEADER_LEN <= |d| && o + size <= |d|
    requires NO_REF_LEN <= n <= size
    requires d2 == HeaderAfter(d, db.counter, Active(db.slots[i := None]))
    requires d' == Patch(d2, o, Zeros(n))
    ensures Rep(d', db.(counter := BumpStorage(db.counter), slots := db.slots[i := None]))
  {
    SlotInside(d, db, i);
    ClearedSlot(Slot(d, size, i), n);
    ChangeEffect(d, db, i, None, Zeros(n), size, o, d2, d');
  }

  lemma ZerosJoin(d: seq<byte>, o: nat, m: nat, n: nat)
    requires o + m + n <= |d|
    ensures Patch(d, o, Zeros(m + n)) == Patch(Patch(d, o, Zeros(m)), o + m, Zeros(n))
  {
    PatchTwice(d, o, Zeros(m), Zeros(n));
    assert Zeros(m) + Zeros(n) == Zeros(m + n);
  }

  lemma PatchSame(d: seq<byte>, at: nat, b: seq<byte>)
    requires at + |b| <= |d| && d[at..at + |b|] == b
    ensures Patch(d, at, b) == d
  {
  }

  /** Zeros leave an entry what it is exactly if there is only one and it is the low byte of the counter. */
  lemma ZerosAreSafe(db: Db, i: nat, k: nat)
    requires 0 < k <= 32 && (i < |db.slots| && db.slots[i].Some? ==> db.slots[i].value.counter > 0)
    ensures OverrunSafe(db, i, Zeros(k)) <==>
      i >= |db.slots| || db.slots[i].None? || (k == 1 && db.slots[i].value.counter % 256 == 0)
  {
    if i < |db.slots| && db.slots[i].Some? {
      var e := db.slots[i].value;
      EntryParts(e);
      var b := EntryBytes(e);
      CounterBytes(e.counter);
      assert b[0] == b[0..2][0] == e.counter % 256 && b[1] == b[0..2][1] == e.counter / 256;
      assert Zeros(k)[0] == 0 && (k > 1 ==> Zeros(k)[1] == 0);
    }
  }

  lemma CounterBytes(c: u16)
    ensures ToLe(c, 2) == [c % 256, c / 256]
  {
    assert ToLe(c / 256, 1) == [c / 256 % 256] + ToLe(c / 256 / 256, 0);
  }

  /** The checks of `delete` on what stands at `offset`, or `Ok(false)` when nothing does. */
  function DeleteCheck(d: seq<byte>, rec: Record, offset: nat): Result<bool, Error>
    requires offset <= |d|
  {
    match GetRecordCounterAndName(d, offset)
    case Err(e) => Err(e)
    case Ok((counter, name)) =>
      if counter == 0 then Ok(false)
      else if rec.counter > 0 && counter != rec.counter then Err(RefdbRecordCounterMismatch)
      else if rec.name != name then Err(RefdbRecordNameMismatch)
      else Ok(true)
  }

  lemma DeleteCheckIs(d: seq<byte>, db: Db, rec: Record, i: nat)
    requires Rep(d, db) && i <= |db.slots|
    ensures Off(RecordSize(db.kind), i) <= |d|
    ensures DeleteCheck(d, rec, Off(RecordSize(db.kind), i)) ==
      if i == |db.slots| then (if ShortTail(d, db) then Err(AccountDataTooSmall) else Ok(false))
      else if DeleteError(db, rec, i).Some? then Err(DeleteError(db, rec, i).value)
      else Ok(db.slots[i].Some?)
  {
    TargetReads(d, db, i);
    if i < |db.slots| {
      ScanStep(d, db, i);
    }
  }

  /** The record given to `delete` ends within the storage. */
  ghost predicate RecordEndsInside(d: seq<byte>, db: Db, rec: Record) {
    EndsInside(d, db, Target(db.slots, rec.index, rec.name), RecordSize(rec.reference.Kind()))
  }

  /** The record given to `delete` is no larger than the storage's. */
  ghost predicate DeleteFits(d: seq<byte>, db: Db, rec: Record) {
    RecordSize(rec.reference.Kind()) <= RecordSize(db.kind) && InReach(d, db, Target(db.slots, rec.index, rec.name))
  }

  /**
   `delete`. The number of bytes it clears is that of the record it is given, which need
   not be of the storage's type. When that is no larger, the slot is freed and nothing
   else changes; when it is larger, this is so exactly if `OverrunHarmless`.
   */
  method Delete(data: array<byte>, rec: Record, ghost db: Db) returns (r: Outcome)
    requires Rep(data[..], db)
    modifies data
    ensures DeleteFits(old(data[..]), db, rec) ==>
      r == S.Delete(db, rec).1 && Rep(data[..], S.Delete(db, rec).0)
    ensures !RecordEndsInside(old(data[..]), db, rec) ==> r == Err(AccountDataTooSmall)
    ensures RecordEndsInside(old(data[..]), db, rec) && Target(db.slots, rec.index, rec.name) < |db.slots| ==>
      && r == S.Delete(db, rec).1
      && (r.Ok? && r.value > 0 ==>
            (Rep(data[..], S.Delete(db, rec).0) <==>
             OverrunHarmless(db, Target(db.slots, rec.index, rec.name), RecordSize(rec.reference.Kind()))))
    ensures RecordEndsInside(old(data[..]), db, rec) && Target(db.slots, rec.index, rec.name) == |db.slots| ==>
      r == Ok(0)
    ensures r.Err? || r.value == 0 ==> data[..] == old(data[..])
  {
    ghost var d := data[..];
    ghost var i := Target(db.slots, rec.index, rec.name);
    var located := Locate(data, rec, db);
    if located.Err? {
      return located;
    }
    WriteTargetBytes(d, db, i);
    r := DeleteBytes(data, rec, located.value, db.counter, Active(db.slots));
    if i < |db.slots| {
      DeletedIs(d, db, rec, i, located.value);
    } else {
      DeletedInTail(d, db, rec, located.value);
    }
  }

  /** What `delete` makes of any buffer, once it knows the position. */
  function Deleted(d: seq<byte>, rec: Record, offset: nat, counter: u32, active: u32): (Outcome, seq<byte>)
    requires HEADER_LEN <= offset <= |d|
  {
    var length := RecordSize(rec.reference.Kind());
    if |d| < offset + length then (Err(AccountDataTooSmall), d)
    else
      match DeleteCheck(d, rec, offset)
      case Err(e) => (Err(e), d)
      case Ok(false) => (Ok(0), d)
      case Ok(true) =>
        var d2 :=
          if active > 0 then HeaderAfter(d, counter, active - 1) else Patch(d, 0, ToLe(BumpStorage(counter), 4));
        (Ok(length), Patch(d2, offset, Zeros(length)))
  }

  method DeleteBytes(data: array<byte>, rec: Record, offset: nat, ghost counter: u32, ghost active: u32)
    returns (r: Outcome)
    requires HEADER_LEN <= offset <= data.Length
    requires GetStorageCounter(data[..]) == Ok(counter as nat) && GetActiveRecords(data[..]) == Ok(active as nat)
    modifies data
    ensures (r, data[..]) == Deleted(old(data[..]), rec, offset, counter, active)
  {
    var length := RecordSize(rec.reference.Kind());
    if data.Length < offset + length {
      return Err(AccountDataTooSmall);
    }
    var check := DeleteCheck(data[..], rec, offset);
    match check {
      case Err(e) =>
        return Err(e);
      case Ok(false) =>
        return Ok(0);
      case Ok(true) =>
        ClearBytes(data, offset, length, counter, active);
        return Ok(length);
    }
  }

  lemma DeletedInTail(d: seq<byte>, db: Db, rec: Record, o: nat)
    requires Rep(d, db) && o == Off(RecordSize(db.kind), |db.slots|)
    ensures HEADER_LEN <= o <= |d|
    ensures Deleted(d, rec, o, db.counter, Active(db.slots)) ==
      if |d| < o + RecordSize(rec.reference.Kind()) then (Err(AccountDataTooSmall), d) else (Ok(0), d)
  {
    DeleteCheckIs(d, db, rec, |db.slots|);
  }

  lemma DeletedIs(d: seq<byte>, db: Db, rec: Record, i: nat, o: nat)
    requires Rep(d, db) && i == Target(db.slots, rec.index, rec.name) < |db.slots|
    requires HEADER_LEN <= o == Off(RecordSize(db.kind), i) && o + RecordSize(db.kind) <= |d|
    ensures var (r, d') := Deleted(d, rec, o, db.counter, Active(db.slots));
      if |d| < o + RecordSize(rec.reference.Kind()) then r == Err(AccountDataTooSmall) && d' == d
      else
        && r == S.Delete(db, rec).1
        && (r.Err? || r.value == 0 ==> d' == d && S.Delete(db, rec).0 == db)
        && (r.Ok? && r.value > 0 ==>
              (Rep(d', S.Delete(db, rec).0) <==> OverrunHarmless(db, i, RecordSize(rec.reference.Kind()))))
  {
    DeleteCheckIs(d, db, rec, i);
    if o + RecordSize(rec.reference.Kind()) <= |d| && DeleteCheck(d, rec, o) == Ok(true) {
      ClearedIs(d, db, rec, i, o);
    }
  }

  lemma ClearedIs(d: seq<byte>, db: Db, rec: Record, i: nat, o: nat)
    requires Rep(d, db) && i < |db.slots| && db.slots[i].Some?
    requires HEADER_LEN <= o == Off(RecordSize(db.kind), i) && o + RecordSize(db.kind) <= |d|
    requires o + RecordSize(rec.reference.Kind()) <= |d| && DeleteCheck(d, rec, o) == Ok(true)
    ensures Rep(Deleted(d, rec, o, db.counter, Active(db.slots)).1,
                db.(counter := BumpStorage(db.counter), slots := db.slots[i := None]))
       <==> OverrunHarmless(db, i, RecordSize(rec.reference.Kind()))
  {
    OneLess(db.slots, i);
    var length := RecordSize(rec.reference.Kind());
    var d2 := HeaderAfter(d, db.counter, Active(db.slots[i := None]));
    var d' := DeletedBytes(d, rec, o, db.counter, Active(db.slots), d2);
    ClearEffect(d, db, i, length, RecordSize(db.kind), o, d2, d');
  }

  lemma DeletedBytes(d: seq<byte>, rec: Record, o: nat, counter: u32, active: u32, d2: seq<byte>)
    returns (d': seq<byte>)
    requires HEADER_LEN <= o && o + RecordSize(rec.reference.Kind()) <= |d| && DeleteCheck(d, rec, o) == Ok(true)
    requires active > 0 && d2 == HeaderAfter(d, counter, active - 1)
    ensures d' == Deleted(d, rec, o, counter, active).1 == Patch(d2, o, Zeros(RecordSize(rec.reference.Kind())))
  {
    d' := Deleted(d, rec, o, counter, active).1;
  }

  /** Advances the storage counter and takes one off the active records, if there are any. */
  method CountOut(data: array<byte>, ghost counter: u32, ghost active: u32)
    requires HEADER_LEN <= data.Length
    requires GetStorageCounter(data[..]) == Ok(counter as nat) && GetActiveRecords(data[..]) == Ok(active as nat)
    modifies data
    ensures data[..] == if active > 0 then HeaderAfter(old(data[..]), counter, active - 1)
                        else Patch(old(data[..]), 0, ToLe(BumpStorage(counter), 4))
  {
    ActiveAfterBump(data[..], counter);
    AdvanceStorageCounter(data, counter);
    var records := GetActiveRecords(data[..]).value;
    if records > 0 {
      assert (records - 1) % 0x1_0000_0000 == records - 1;
      var _ := SetActiveRecords(data, records - 1);
    }
  }

  /** The second half of `delete`, behind its checks: what it does to any buffer. */
  method ClearBytes(data: array<byte>, offset: nat, length: nat, ghost counter: u32, ghost active: u32)
    requires HEADER_LEN <= offset && offset + length <= data.Length
    requires GetStorageCounter(data[..]) == Ok(counter as nat) && GetActiveRecords(data[..]) == Ok(active as nat)
    modifies data
    ensures data[..] == Patch(if active > 0 then HeaderAfter(old(data[..]), counter, active - 1)
                              else Patch(old(data[..]), 0, ToLe(BumpStorage(counter), 4)),
                              offset, Zeros(length))
  {
    CountOut(data, counter, active);
    CopyInto(data, offset, Zeros(length));
  }

  lemma ClearEffect(d: seq<byte>, db: Db, i: nat, length: nat, size: nat, o: nat, d2: seq<byte>, d': seq<byte>)
    requires Rep(d, db) && i < |db.slots| && db.slots[i].Some?
    requires size == RecordSize(db.kind) && o == Off(size, i) && HEADER_LEN <= |d| == |d2|
    requires NO_REF_LEN <= length <= size + 32 && o + length <= |d| && o + size <= |d|
    requires d2 == HeaderAfter(d, db.counter, Active(db.slots[i := None])) && d' == Patch(d2, o, Zeros(length))
    ensures Rep(d', db.(counter := BumpStorage(db.counter), slots := db.slots[i := None]))
       <==> OverrunHarmless(db, i, length)
  {
    if length <= size {
      DeleteEffect(d, db, i, length, size, o, d2, d');
    } else {
      LongClear(d, db, i, length - size, size, o, d2, d');
    }
  }

  lemma OneLess(slots: Slots, i: nat)
    requires i < |slots| && slots[i].Some?
    ensures Active(slots) == Active(slots[i := None]) + 1
  {
    ActiveUpdate(slots, i, None, |slots|);
  }

  lemma LongClear(d: seq<byte>, db: Db, i: nat, k: nat, size: nat, o: nat, d2: seq<byte>, d': seq<byte>)
    requires Rep(d, db) && i < |db.slots| && db.slots[i].Some?
    requires size == RecordSize(db.kind) && o == Off(size, i) && HEADER_LEN <= |d| == |d2|
    requires 0 < k <= 32 && o + size + k <= |d|
    requires d2 == HeaderAfter(d, db.counter, Active(db.slots[i := None])) && d' == Patch(d2, o, Zeros(size + k))
    ensures Rep(d', db.(counter := BumpStorage(db.counter), slots := db.slots[i := None]))
       <==> OverrunHarmless(db, i, size + k)
  {
    var db' := db.(counter := BumpStorage(db.counter), slots := db.slots[i := None]);
    var d3 := Patch(d2, o, Zeros(size));
    DeleteEffect(d, db, i, size, size, o, d2, d3);
    ZerosJoin(d2, o, size, k);
    OverrunEffect(d3, db', i + 1, Zeros(k), size, o + size, d');
    assert i + 1 < |db.slots| && db.slots[i + 1].Some? ==> EntryOk(db.kind, db.slots[i + 1].value);
    ZerosAreSafe(db', i + 1, k);
  }

  method DeleteWithName(data: array<byte>, name: Name, index: Option<u32>, ghost db: Db) returns (r: Outcome)
    requires Rep(data[..], db)
    modifies data
    ensures InReach(old(data[..]), db, Target(db.slots, index, name)) ==>
      r == S.Delete(db, NameOnly(name, index)).1 && Rep(data[..], S.Delete(db, NameOnly(name, index)).0)
    ensures !InReach(old(data[..]), db, Target(db.slots, index, name)) ==> r == Ok(0)
    ensures r.Err? || r.value == 0 ==> data[..] == old(data[..])
  {
    r := Delete(data, NameOnly(name, index), db);
  }
}

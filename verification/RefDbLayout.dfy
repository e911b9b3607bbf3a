/**
 How a RefDB storage lies in bytes: a 73-byte header, then fixed-size records. `Rep`
 says which bytes stand for which storage of module RefDbSpec; what a deleted record
 leaves in its reference field is not part of the storage it stands for.
 */
module RefDbLayout {
  import opened Bytes
  import opened Pack
  import opened RefDbSpec

  // ---- records ----

  function KindTag(k: ReferenceType): byte {
    match k
    case KPubkey => 0
    case KU8 => 1
    case KU16 => 2
    case KU32 => 3
    case KU64 => 4
    case KF64 => 5
    case KEmpty => 6
  }

  /** `ReferenceType::try_from_primitive`. */
  function KindOf(b: byte): (k: Option<ReferenceType>)
    ensures k.Some? <==> b <= 6
    ensures k.Some? ==> KindTag(k.value) == b
  {
    match b
    case 0 => Some(KPubkey)
    case 1 => Some(KU8)
    case 2 => Some(KU16)
    case 3 => Some(KU32)
    case 4 => Some(KU64)
    case 5 => Some(KF64)
    case 6 => Some(KEmpty)
    case _ => None
  }

  function ReadU16(b: seq<byte>): u16
    requires |b| == 2
  {
    LeBound(b);
    PowValues();
    Le(b)
  }

  function ReadU32(b: seq<byte>): u32
    requires |b| == 4
  {
    LeBound(b);
    PowValues();
    Le(b)
  }

  /** `Record::unpack`. */
  function UnpackRecord(input: seq<byte>, k: ReferenceType, index: Option<u32>): Result<Record, Error> {
    if |input| < RecordSize(k) then Err(AccountDataTooSmall)
    else
      Ok(Record(index, ReadU16(input[0..2]), ReadU16(input[2..4]), UnpackName(input[4..68]),
                RefOf(k, input[68..RecordSize(k)])))
  }

  /** The bytes of a record whose name field is zero-padded. */
  function EntryBytes(e: Entry): (b: seq<byte>)
    ensures |b| == RecordSize(e.reference.Kind())
  {
    ToLe(e.counter, 2) + ToLe(e.tag, 2) + Padded(e.name) + RefBytes(e.reference)
  }

  lemma EntryParts(e: Entry)
    ensures var b := EntryBytes(e);
      b[0..2] == ToLe(e.counter, 2) && b[2..4] == ToLe(e.tag, 2) && b[4..68] == Padded(e.name)
      && b[68..] == RefBytes(e.reference)
  {
  }

  /** Unpacking the bytes of an entry gives the entry back. */
  lemma EntryRoundTrip(e: Entry, index: Option<u32>, rest: seq<byte>)
    ensures UnpackRecord(EntryBytes(e) + rest, e.reference.Kind(), index)
         == Ok(Record(index, e.counter, e.tag, e.name, e.reference))
  {
    var b := EntryBytes(e) + rest;
    EntryParts(e);
    assert b[0..2] == ToLe(e.counter, 2) && b[2..4] == ToLe(e.tag, 2) && b[4..68] == Padded(e.name);
    assert b[68..RecordSize(e.reference.Kind())] == RefBytes(e.reference);
    PowValues();
    LeOfToLe(e.counter, 2);
    LeOfToLe(e.tag, 2);
    PaddedRoundTrip(e.name);
    RefRoundTrip(e.reference);
  }

  // ---- the storage ----

  /** Where record `i` begins. */
  function Off(size: nat, i: nat): (o: nat)
    ensures o >= HEADER_LEN
  {
    if i == 0 then HEADER_LEN else Off(size, i - 1) + size
  }

  lemma {:induction false} OffIsProduct(size: nat, i: nat)
    ensures Off(size, i) == HEADER_LEN + i * size
  {
    if i == 0 {
    } else {
      OffIsProduct(size, i - 1);
    }
  }

  lemma {:induction false} OffDistance(size: nat, i: nat, j: nat)
    requires i <= j
    ensures Off(size, j) == Off(size, i) + (j - i) * size
    decreases j
  {
    if i == j {
    } else {
      OffDistance(size, i, j - 1);
      assert (j - i) * size == (j - 1 - i) * size + size;
    }
  }

  lemma {:induction false} OffStep(size: nat, i: nat, j: nat)
    ensures i < j ==> Off(size, i) + size <= Off(size, j)
    decreases j
  {
    if j <= i + 1 {
    } else {
      OffStep(size, i, j - 1);
    }
  }

  /** The bytes of record `i`. */
  function Slot(d: seq<byte>, size: nat, i: nat): (s: seq<byte>)
    requires Off(size, i) + size <= |d|
    ensures |s| == size
  {
    d[Off(size, i)..Off(size, i) + size]
  }

  /** Which record bytes stand for which slot. */
  ghost predicate SlotRep(s: seq<byte>, slot: Option<Entry>) {
    |s| >= NO_REF_LEN &&
    match slot
    case Some(e) => s == EntryBytes(e)
    case None => s[0..2] == ToLe(0, 2) && s[4..68] == Padded([])
  }

  ghost predicate HeaderRep(h: seq<byte>, counter: u32, active: nat, k: ReferenceType, title: Name) {
    |h| == HEADER_LEN && h[0..4] == ToLe(counter, 4) && h[4..8] == ToLe(active, 4) && h[8] == KindTag(k)
    && h[9..73] == Padded(title)
  }

  ghost predicate SlotsRep(d: seq<byte>, size: nat, slots: Slots)
    requires Off(size, |slots|) <= |d|
  {
    forall i {:trigger Slot(d, size, i)} :: 0 <= i < |slots| ==>
      Off(size, i) + size <= |d| && SlotRep(Slot(d, size, i), slots[i])
  }

  /** The bytes left over behind the last record: fewer than a record, all zero. */
  ghost predicate TailRep(d: seq<byte>, size: nat, n: nat)
  {
    Off(size, n) <= |d| < Off(size, n) + size && d[Off(size, n)..] == Zeros(|d| - Off(size, n))
  }

  /** The bytes `d` hold the storage `db`. */
  ghost predicate Rep(d: seq<byte>, db: Db) {
    && Valid(db)
    && TailRep(d, RecordSize(db.kind), |db.slots|)
    && HeaderRep(d[..HEADER_LEN], db.counter, Active(db.slots), db.kind, db.title)
    && SlotsRep(d, RecordSize(db.kind), db.slots)
  }

  /**
   The left-over bytes are too few to be taken for the fixed part of a record. Storage
   sized by `get_storage_size_for_records` leaves none over at all.
   */
  predicate ShortTail(d: seq<byte>, db: Db) {
    |d| < Off(RecordSize(db.kind), |db.slots|) + NO_REF_LEN
  }

  lemma SlotInside(d: seq<byte>, db: Db, i: nat)
    requires Rep(d, db) && i < |db.slots|
    ensures Off(RecordSize(db.kind), i) + RecordSize(db.kind) <= Off(RecordSize(db.kind), |db.slots|) <= |d|
    ensures SlotRep(Slot(d, RecordSize(db.kind), i), db.slots[i])
  {
    OffStep(RecordSize(db.kind), i, |db.slots|);
  }

  lemma SlotRepInjective(s: seq<byte>, a: Option<Entry>, b: Option<Entry>, k: ReferenceType)
    requires SlotRep(s, a) && SlotRep(s, b)
    requires a.Some? ==> EntryOk(k, a.value)
    requires b.Some? ==> EntryOk(k, b.value)
    ensures a == b
  {
    PowValues();
    LeOfToLe(0, 2);
    if a.Some? {
      EntryRoundTrip(a.value, None, []);
      EntryParts(a.value);
      LeOfToLe(a.value.counter, 2);
      assert s + [] == s;
    }
    if b.Some? {
      EntryRoundTrip(b.value, None, []);
      EntryParts(b.value);
      LeOfToLe(b.value.counter, 2);
      assert s + [] == s;
    }
  }

  lemma HeaderDetermines(h: seq<byte>, a: Db, b: Db, m: u32, n: u32)
    requires HeaderRep(h, a.counter, m, a.kind, a.title) && HeaderRep(h, b.counter, n, b.kind, b.title)
    ensures a.counter == b.counter && a.kind == b.kind && a.title == b.title
  {
    PowValues();
    LeOfToLe(a.counter, 4);
    LeOfToLe(b.counter, 4);
    PaddedInjective(a.title, b.title);
  }

  /** Bytes stand for at most one storage, so `Rep` decodes. */
  lemma RepDeterminesStorage(d: seq<byte>, a: Db, b: Db)
    requires Rep(d, a) && Rep(d, b)
    ensures a == b
  {
    HeaderDetermines(d[..HEADER_LEN], a, b, Active(a.slots), Active(b.slots));
    OffStep(RecordSize(a.kind), |a.slots|, |b.slots|);
    OffStep(RecordSize(a.kind), |b.slots|, |a.slots|);
    forall i | 0 <= i < |a.slots|
      ensures a.slots[i] == b.slots[i]
    {
      SlotInside(d, a, i);
      SlotInside(d, b, i);
      SlotRepInjective(Slot(d, RecordSize(a.kind), i), a.slots[i], b.slots[i], a.kind);
    }
  }

  // ---- every storage has bytes ----

  function HeaderBytes(db: Db): (h: seq<byte>)
    ensures |h| == HEADER_LEN
  {
    ToLe(db.counter, 4) + ToLe(Active(db.slots), 4) + [KindTag(db.kind)] + Padded(db.title)
  }

  function SlotBytes(slot: Option<Entry>, k: ReferenceType): seq<byte> {
    match slot
    case Some(e) => EntryBytes(e)
    case None => Zeros(RecordSize(k))
  }

  /** The bytes of the header and the first `n` slots. */
  function Image(db: Db, n: nat): seq<byte>
    requires n <= |db.slots|
  {
    if n == 0 then HeaderBytes(db) else Image(db, n - 1) + SlotBytes(db.slots[n - 1], db.kind)
  }

  lemma {:induction false} ImageLength(db: Db, n: nat)
    requires Valid(db) && n <= |db.slots|
    ensures |Image(db, n)| == Off(RecordSize(db.kind), n)
    ensures Image(db, n)[..HEADER_LEN] == HeaderBytes(db)
  {
    if n > 0 {
      ImageLength(db, n - 1);
      assert db.slots[n - 1].Some? ==> EntryOk(db.kind, db.slots[n - 1].value);
    }
  }

  lemma {:induction false} ImageOfSlot(db: Db, n: nat, i: nat, rest: seq<byte>, d: seq<byte>, size: nat)
    requires Valid(db) && i < n <= |db.slots|
    requires d == Image(db, n) + rest && size == RecordSize(db.kind)
    ensures Off(size, i) + size <= |d| && Slot(d, size, i) == SlotBytes(db.slots[i], db.kind)
    decreases n
  {
    var before, last := Image(db, n - 1), SlotBytes(db.slots[n - 1], db.kind);
    ImageLength(db, n - 1);
    assert db.slots[n - 1].Some? ==> EntryOk(db.kind, db.slots[n - 1].value);
    assert d == before + (last + rest);
    if i < n - 1 {
      ImageOfSlot(db, n - 1, i, last + rest, d, size);
    } else {
      StartOfRest(before, last, rest);
    }
  }

  lemma StartOfRest(a: seq<byte>, b: seq<byte>, c: seq<byte>)
    ensures (a + (b + c))[|a|..|a| + |b|] == b
  {
  }

  lemma ToLeZero()
    ensures ToLe(0, 2) == Zeros(2)
  {
    LeOfZeros(2);
    ToLeOfLe(Zeros(2));
  }

  lemma SlotBytesRep(slot: Option<Entry>, k: ReferenceType)
    ensures SlotRep(SlotBytes(slot, k), slot)
  {
    ToLeZero();
    var zeros := Zeros(RecordSize(k));
    assert zeros[0..2] == Zeros(2) && zeros[4..68] == Padded([]);
  }

  /** Bytes of a storage with `room` bytes left over. */
  function StorageBytes(db: Db, room: nat): seq<byte> {
    Image(db, |db.slots|) + Zeros(room)
  }

  /**
   Every storage has bytes that stand for it, with any number left over that is less than
   a record: what is proved of all such bytes is proved of some.
   */
  lemma EveryStorageHasBytes(db: Db, room: nat)
    requires Valid(db) && room < RecordSize(db.kind)
    ensures |StorageBytes(db, room)| == Off(RecordSize(db.kind), |db.slots|) + room
    ensures Rep(StorageBytes(db, room), db)
  {
    var n, size := |db.slots|, RecordSize(db.kind);
    var d := StorageBytes(db, room);
    ImageLength(db, n);
    HeaderBytesRep(db);
    assert d[..HEADER_LEN] == HeaderBytes(db) && d[Off(size, n)..] == Zeros(room);
    forall i | 0 <= i < n
      ensures Off(size, i) + size <= |d| && SlotRep(Slot(d, size, i), db.slots[i])
    {
      ImageOfSlot(db, n, i, Zeros(room), d, size);
      SlotBytesRep(db.slots[i], db.kind);
    }
  }

  lemma HeaderBytesRep(db: Db)
    ensures HeaderRep(HeaderBytes(db), db.counter, Active(db.slots), db.kind, db.title)
  {
    var h := HeaderBytes(db);
    FourParts(ToLe(db.counter, 4), ToLe(Active(db.slots), 4), [KindTag(db.kind)], Padded(db.title));
    assert h[8] == h[8..9][0];
    assert h[9..73] == h[9..];
  }

  // ---- what overwriting some bytes does ----

  ghost predicate SameSlot(d: seq<byte>, d': seq<byte>, size: nat, j: nat) {
    Off(size, j) + size <= |d| == |d'| && Slot(d', size, j) == Slot(d, size, j)
  }

  /** The bytes from record `n` on are the same. */
  ghost predicate SameTail(d: seq<byte>, d': seq<byte>, size: nat, n: nat) {
    Off(size, n) <= |d| == |d'| && d'[Off(size, n)..] == d[Off(size, n)..]
  }

  /** Overwriting part of record `i` changes that record, not the header and not the tail. */
  lemma PatchSlot(d: seq<byte>, d': seq<byte>, size: nat, n: nat, i: nat, at: nat, b: seq<byte>)
    requires i < n && Off(size, n) <= |d| && at + |b| <= size
    requires Off(size, i) + size <= |d| && d' == Patch(d, Off(size, i) + at, b)
    ensures d'[..HEADER_LEN] == d[..HEADER_LEN] && SameTail(d, d', size, n)
    ensures Slot(d', size, i) == Patch(Slot(d, size, i), at, b)
  {
    OffStep(size, i, n);
    var o := Off(size, i);
    PatchWithin(d, o, o + size, o + at, b);
    assert Slot(d', size, i) == Patch(Slot(d, size, i), at, b);
    PatchEnds(d, HEADER_LEN, Off(size, n), o + at, b);
  }

  /** And no other record. */
  lemma PatchOtherSlot(d: seq<byte>, d': seq<byte>, size: nat, n: nat, i: nat, j: nat, at: nat, b: seq<byte>)
    requires i < n && j < n && i != j && Off(size, n) <= |d| && at + |b| <= size
    requires Off(size, i) + size <= |d| && d' == Patch(d, Off(size, i) + at, b)
    ensures SameSlot(d, d', size, j)
  {
    OffStep(size, j, n);
    var from, mine := Off(size, i), Off(size, j);
    if i < j {
      OffStep(size, i, j);
    } else {
      OffStep(size, j, i);
    }
    PatchOutside(d, mine, mine + size, from + at, b);
  }

  /** Overwriting part of the header leaves the tail and all records. */
  lemma PatchHeader(d: seq<byte>, d': seq<byte>, size: nat, n: nat, at: nat, b: seq<byte>)
    requires Off(size, n) <= |d| && at + |b| <= HEADER_LEN
    requires d' == Patch(d, at, b)
    ensures d'[..HEADER_LEN] == Patch(d[..HEADER_LEN], at, b) && SameTail(d, d', size, n)
    ensures forall j :: 0 <= j < n ==> SameSlot(d, d', size, j)
  {
    PatchEnds(d, at, Off(size, n), at, b);
    PatchWithin(d, 0, HEADER_LEN, at, b);
    assert d'[0..HEADER_LEN] == d'[..HEADER_LEN] && d[0..HEADER_LEN] == d[..HEADER_LEN];
    forall j | 0 <= j < n
      ensures SameSlot(d, d', size, j)
    {
      OffStep(size, j, n);
      PatchOutside(d, Off(size, j), Off(size, j) + size, at, b);
    }
  }
}

/**
 RefDB without bytes: a storage is a row of slots, each empty or holding one entry.
 The byte-level operations of module RefDb are proved against the functions here, and
 the properties of whole runs are proved about these functions.
 */
module RefDbSpec {
  import opened Bytes
  import opened Pack

  datatype ReferenceType = KPubkey | KU8 | KU16 | KU32 | KU64 | KF64 | KEmpty

  /** A stored value; a float is represented by its 64-bit pattern. */
  datatype Reference =
    | Pubkey(key: Key)
    | U8(b: byte)
    | U16(h: u16)
    | U32(w: u32)
    | U64(d: u64)
    | F64(bits: u64)
    | Empty
  {
    function Kind(): ReferenceType {
      match this
      case Pubkey(_) => KPubkey
      case U8(_) => KU8
      case U16(_) => KU16
      case U32(_) => KU32
      case U64(_) => KU64
      case F64(_) => KF64
      case Empty => KEmpty
    }
  }

  function RefSize(k: ReferenceType): (n: nat)
    ensures n <= 32
  {
    match k
    case KPubkey => 32
    case KU8 => 1
    case KU16 => 2
    case KU32 => 4
    case KU64 => 8
    case KF64 => 8
    case KEmpty => 0
  }

  /** A value as bytes, and bytes as a value. */
  function RefBytes(r: Reference): (b: seq<byte>)
    ensures |b| == RefSize(r.Kind())
  {
    match r
    case Pubkey(key) => key
    case U8(v) => [v]
    case U16(v) => ToLe(v, 2)
    case U32(v) => ToLe(v, 4)
    case U64(v) => ToLe(v, 8)
    case F64(v) => ToLe(v, 8)
    case Empty => []
  }

  function RefOf(k: ReferenceType, b: seq<byte>): (r: Reference)
    requires |b| == RefSize(k)
    ensures r.Kind() == k
  {
    LeBound(b);
    PowValues();
    match k
    case KPubkey => Pubkey(b)
    case KU8 => U8(b[0])
    case KU16 => U16(Le(b))
    case KU32 => U32(Le(b))
    case KU64 => U64(Le(b))
    case KF64 => F64(Le(b))
    case KEmpty => Empty
  }

  lemma RefRoundTrip(r: Reference)
    ensures RefOf(r.Kind(), RefBytes(r)) == r
  {
    PowValues();
    match r
    case U16(v) => LeOfToLe(v, 2);
    case U32(v) => LeOfToLe(v, 4);
    case U64(v) => LeOfToLe(v, 8);
    case F64(v) => LeOfToLe(v, 8);
    case _ =>
  }

  lemma RefBytesRoundTrip(k: ReferenceType, b: seq<byte>)
    requires |b| == RefSize(k)
    ensures RefBytes(RefOf(k, b)) == b
  {
    ToLeOfLe(b);
  }

  /**
   What a value becomes when another is written over its bytes. One of the same type
   replaces it; one of another type leaves the end of a longer value, or is cut off.
   */
  function Stored(cur: Reference, new_: Reference): (r: Reference)
    ensures r.Kind() == cur.Kind()
  {
    if new_.Kind() == cur.Kind() then new_
    else
      var a, b := RefBytes(cur), RefBytes(new_);
      RefOf(cur.Kind(), if |b| <= |a| then b + a[|b|..] else b[..|a|])
  }

  lemma StoredBytes(cur: Reference, new_: Reference)
    ensures var (a, b) := (RefBytes(cur), RefBytes(new_));
      RefBytes(Stored(cur, new_)) == if |b| <= |a| then b + a[|b|..] else b[..|a|]
  {
    var a, b := RefBytes(cur), RefBytes(new_);
    if new_.Kind() != cur.Kind() {
      RefBytesRoundTrip(cur.Kind(), if |b| <= |a| then b + a[|b|..] else b[..|a|]);
    }
  }

  const NO_REF_LEN := 68
  const HEADER_LEN := 73

  /** The number of bytes of a record. */
  function RecordSize(k: ReferenceType): (n: nat)
    ensures NO_REF_LEN <= n <= 100
  {
    NO_REF_LEN + RefSize(k)
  }

  /** What a caller hands to `write` and `delete`, and what the read operations return. */
  datatype Record = Record(index: Option<u32>, counter: u16, tag: u16, name: Name, reference: Reference)

  /** What a slot in use holds. */
  datatype Entry = Entry(counter: u16, tag: u16, name: Name, reference: Reference)

  type Slots = seq<Option<Entry>>

  datatype Db = Db(counter: u32, title: Name, kind: ReferenceType, slots: Slots)

  datatype Error =
    | AccountDataTooSmall
    | InvalidAccountData
    | UninitializedAccount
    | AccountAlreadyInitialized
    | InvalidArgument
    | RefdbRecordCounterMismatch
    | RefdbRecordNameMismatch
    | RefdbRecordTypeMismatch
    | RefdbRecordNotFound
    | RefdbTooLarge

  /** What holds in every storage that was initialised and changed only through RefDB. */
  ghost predicate Valid(db: Db) {
    && db.counter > 0
    && 1 <= |db.slots| <= U32_MAX
    && forall i :: 0 <= i < |db.slots| && db.slots[i].Some? ==> EntryOk(db.kind, db.slots[i].value)
  }

  ghost predicate EntryOk(k: ReferenceType, e: Entry) {
    e.counter > 0 && e.reference.Kind() == k
  }

  // ---- scans ----

  predicate Holds(slot: Option<Entry>, name: Name) {
    slot.Some? && slot.value.name == name
  }

  /** The first slot in use with this name, or the number of slots. */
  function FirstNamed(slots: Slots, name: Name): (r: nat)
    ensures r <= |slots|
    ensures r < |slots| ==> Holds(slots[r], name)
  {
    FirstNamedFrom(slots, name, 0)
  }

  function FirstNamedFrom(slots: Slots, name: Name, i: nat): (r: nat)
    requires i <= |slots|
    ensures i <= r <= |slots|
    ensures r < |slots| ==> Holds(slots[r], name)
    decreases |slots| - i
  {
    if i == |slots| || Holds(slots[i], name) then i else FirstNamedFrom(slots, name, i + 1)
  }

  /** None of the first `i` slots holds the name. */
  ghost predicate NotAmong(slots: Slots, name: Name, i: nat) {
    i <= |slots| && forall j :: 0 <= j < i ==> !Holds(slots[j], name)
  }

  /** The only position that has the name, or is the end, and has it nowhere before. */
  lemma FirstNamedIs(slots: Slots, name: Name, k: nat)
    ensures FirstNamed(slots, name) == k <==> NotAmong(slots, name, k) && (k < |slots| ==> Holds(slots[k], name))
  {
    NotBefore(slots, name, 0);
  }

  lemma {:induction false} NotBefore(slots: Slots, name: Name, i: nat)
    requires i <= |slots|
    ensures forall j :: i <= j < FirstNamedFrom(slots, name, i) ==> !Holds(slots[j], name)
    decreases |slots| - i
  {
    if i == |slots| || Holds(slots[i], name) {
    } else {
      NotBefore(slots, name, i + 1);
    }
  }

  /** The first slot not in use, or the number of slots. */
  function FirstFree(slots: Slots): (r: nat)
    ensures r <= |slots|
    ensures r < |slots| ==> slots[r].None?
  {
    FirstFreeFrom(slots, 0)
  }

  function FirstFreeFrom(slots: Slots, i: nat): (r: nat)
    requires i <= |slots|
    ensures i <= r <= |slots|
    ensures r < |slots| ==> slots[r].None?
    decreases |slots| - i
  {
    if i == |slots| || slots[i].None? then i else FirstFreeFrom(slots, i + 1)
  }

  /** All of the first `i` slots are in use, and the next one, if there is one, is not. */
  ghost predicate FreeAt(slots: Slots, i: nat) {
    i <= |slots| && (forall j :: 0 <= j < i ==> slots[j].Some?) && (i < |slots| ==> slots[i].None?)
  }

  lemma FirstFreeIs(slots: Slots, k: nat)
    ensures FirstFree(slots) == k <==> FreeAt(slots, k)
  {
    InUseBefore(slots, 0);
  }

  lemma {:induction false} InUseBefore(slots: Slots, i: nat)
    requires i <= |slots|
    ensures forall j :: i <= j < FirstFreeFrom(slots, i) ==> slots[j].Some?
    decreases |slots| - i
  {
    if i == |slots| || slots[i].None? {
    } else {
      InUseBefore(slots, i + 1);
    }
  }

  /** How many of the first `i` slots are in use. */
  function ActiveTo(slots: Slots, i: nat): (n: nat)
    requires i <= |slots|
    ensures n <= i
  {
    if i == 0 then 0 else ActiveTo(slots, i - 1) + if slots[i - 1].Some? then 1 else 0
  }

  /** How many slots are in use. */
  function Active(slots: Slots): (n: nat)
    ensures n <= |slots|
  {
    ActiveTo(slots, |slots|)
  }

  /** How many of the first `i` are not. */
  function FreeTo(slots: Slots, i: nat): nat
    requires i <= |slots|
  {
    if i == 0 then 0 else FreeTo(slots, i - 1) + if slots[i - 1].None? then 1 else 0
  }

  lemma {:induction false} FreePlusActive(slots: Slots, i: nat)
    requires i <= |slots|
    ensures FreeTo(slots, i) + ActiveTo(slots, i) == i
  {
    if i == 0 {
    } else {
      FreePlusActive(slots, i - 1);
    }
  }

  lemma {:induction false} ActiveUpdate(slots: Slots, i: nat, x: Option<Entry>, n: nat)
    requires i < |slots| && n <= |slots|
    ensures ActiveTo(slots[i := x], n)
         == ActiveTo(slots, n) + if i >= n then 0 else
              (if x.Some? then 1 else 0) - (if slots[i].Some? then 1 else 0)
  {
    if n == 0 {
    } else {
      ActiveUpdate(slots, i, x, n - 1);
    }
  }

  /**
   A scan may stop as soon as it has met as many slots in use as there are: a prefix that
   holds all of them is followed by empty slots only.
   */
  lemma {:induction false} ActivePrefix(slots: Slots, i: nat, n: nat)
    requires i <= n <= |slots|
    ensures ActiveTo(slots, i) <= ActiveTo(slots, n)
    ensures ActiveTo(slots, i) == ActiveTo(slots, n) <==> forall j :: i <= j < n ==> slots[j].None?
  {
    if i == n {
    } else {
      ActivePrefix(slots, i, n - 1);
    }
  }

  // ---- operations ----

  /** The storage counter counts up and skips 0 when it wraps. */
  function BumpStorage(c: u32): (r: u32)
    ensures r > 0
  {
    if c < U32_MAX then c + 1 else 1
  }

  /** So does the counter of a record. */
  function BumpRecord(c: u16): (r: u16)
    ensures r > 0
  {
    if c < U16_MAX then c + 1 else 1
  }

  /** The slot that `write` and `delete` work on: the one asked for, else by name, else the first free one. */
  function Target(slots: Slots, index: Option<u32>, name: Name): nat {
    match index
    case Some(i) => i
    case None =>
      var i := FirstNamed(slots, name);
      if i < |slots| then i else FirstFree(slots)
  }

  lemma TargetIsNamed(slots: Slots, name: Name, k: nat)
    requires NotAmong(slots, name, k) && k < |slots| && Holds(slots[k], name)
    ensures Target(slots, None, name) == k
  {
    FirstNamedIs(slots, name, k);
  }

  lemma TargetIsFree(slots: Slots, name: Name, seen: nat, k: nat)
    requires NotAmong(slots, name, seen) && FreeAt(slots, k)
    requires forall j :: seen <= j < |slots| ==> slots[j].None?
    ensures Target(slots, None, name) == k
  {
    FirstFreeIs(slots, k);
    FirstNamedIs(slots, name, |slots|);
  }

  type Outcome = Result<nat, Error>

  /** Why a write to slot `i` is refused, if it is. */
  function WriteError(db: Db, rec: Record, i: nat): Option<Error> {
    if i >= |db.slots| then Some(AccountDataTooSmall)
    else
      var cur := db.slots[i];
      if cur.Some? && rec.counter > 0 && cur.value.counter != rec.counter then Some(RefdbRecordCounterMismatch)
      else if cur.Some? && rec.index.Some? && rec.name != cur.value.name then Some(RefdbRecordNameMismatch)
      else if db.kind != rec.reference.Kind() then Some(RefdbRecordTypeMismatch)
      else None
  }

  function Written(cur: Option<Entry>, rec: Record): Entry {
    Entry(BumpRecord(if cur.Some? then cur.value.counter else 0), rec.tag, rec.name, rec.reference)
  }

  function Write(db: Db, rec: Record): (Db, Outcome) {
    var i := Target(db.slots, rec.index, rec.name);
    var e := WriteError(db, rec, i);
    if e.Some? then (db, Err(e.value))
    else
      (db.(counter := BumpStorage(db.counter), slots := db.slots[i := Some(Written(db.slots[i], rec))]),
       Ok(RecordSize(db.kind)))
  }

  function UpdateAt(db: Db, i: nat, reference: Reference): (Db, Outcome) {
    if i >= |db.slots| then (db, Err(AccountDataTooSmall))
    else if db.slots[i].None? then (db.(counter := BumpStorage(db.counter)), Err(UninitializedAccount))
    else
      var e := db.slots[i].value;
      var e' := e.(counter := BumpRecord(e.counter), reference := Stored(e.reference, reference));
      (db.(counter := BumpStorage(db.counter), slots := db.slots[i := Some(e')]), Ok(RecordSize(reference.Kind())))
  }

  function Update(db: Db, name: Name, reference: Reference): (Db, Outcome) {
    var i := FirstNamed(db.slots, name);
    if i < |db.slots| then UpdateAt(db, i, reference) else (db, Err(RefdbRecordNotFound))
  }

  function DeleteError(db: Db, rec: Record, i: nat): Option<Error> {
    if i >= |db.slots| then Some(AccountDataTooSmall)
    else
      var cur := db.slots[i];
      if cur.Some? && rec.counter > 0 && cur.value.counter != rec.counter then Some(RefdbRecordCounterMismatch)
      else if cur.Some? && rec.name != cur.value.name then Some(RefdbRecordNameMismatch)
      else None
  }

  function Delete(db: Db, rec: Record): (Db, Outcome) {
    var i := Target(db.slots, rec.index, rec.name);
    var e := DeleteError(db, rec, i);
    if e.Some? then (db, Err(e.value))
    else if db.slots[i].None? then (db, Ok(0))
    else
      (db.(counter := BumpStorage(db.counter), slots := db.slots[i := None]),
       Ok(RecordSize(rec.reference.Kind())))
  }

  /** The record that `delete_with_name` passes to `delete`. */
  function NameOnly(name: Name, index: Option<u32>): Record {
    Record(index, 0, 0, name, Empty)
  }

  function AsRecord(e: Entry, i: u32): Record {
    Record(Some(i), e.counter, e.tag, e.name, e.reference)
  }

  /** The entries in use among the first `i` slots, in the order of their slots. */
  function Listing(slots: Slots, i: nat): (r: seq<Record>)
    requires i <= |slots| <= U32_MAX
    ensures |r| == ActiveTo(slots, i)
  {
    if i == 0 then []
    else Listing(slots, i - 1) + if slots[i - 1].Some? then [AsRecord(slots[i - 1].value, i - 1)] else []
  }
}

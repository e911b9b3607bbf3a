/** The bytes of a storage at their literal positions, and what each of them stands for. */
module RefDbBytes {
  import opened Bytes
  import opened Pack
  import opened RefDbSpec
  import opened RefDbLayout
  import opened RefDbRead
  import opened RefDbStore

  /** The name, and zeros up to 64 bytes. */
  ghost predicate NameAt(d: seq<byte>, o: nat, name: Name)
    requires o + 64 <= |d|
  {
    d[o..o + |name|] == name && d[o + |name|..o + 64] == Zeros(64 - |name|)
  }

  /** The number of the type, and how many bytes a value of it takes. */
  function TypeByte(k: ReferenceType): byte {
    match k
    case KPubkey => 0
    case KU8 => 1
    case KU16 => 2
    case KU32 => 3
    case KU64 => 4
    case KF64 => 5
    case KEmpty => 6
  }

  function RecordLength(k: ReferenceType): nat {
    match k
    case KPubkey => 100
    case KU8 => 69
    case KU16 => 70
    case KU32 => 72
    case KU64 => 76
    case KF64 => 76
    case KEmpty => 68
  }

  ghost predicate ValueAt(d: seq<byte>, o: nat, r: Reference) {
    match r
    case Pubkey(key) => o + 32 <= |d| && d[o..o + 32] == key
    case U8(v) => o + 1 <= |d| && d[o] == v
    case U16(v) => o + 2 <= |d| && Two(d, o) == v
    case U32(v) => o + 4 <= |d| && Four(d, o) == v
    case U64(v) => o + 8 <= |d| && Eight(d, o) == v
    case F64(v) => o + 8 <= |d| && Eight(d, o) == v
    case Empty => true
  }

  lemma NameIs(d: seq<byte>, o: nat, name: Name)
    requires o + 64 <= |d| && d[o..o + 64] == Padded(name)
    ensures NameAt(d, o, name)
  {
    var b := Padded(name);
    assert b[..|name|] == name && b[|name|..] == Zeros(64 - |name|);
    assert d[o..o + |name|] == d[o..o + 64][..|name|];
    assert d[o + |name|..o + 64] == d[o..o + 64][|name|..];
  }

  lemma ValueIs(d: seq<byte>, o: nat, r: Reference)
    requires o + |RefBytes(r)| <= |d| && d[o..o + |RefBytes(r)|] == RefBytes(r)
    ensures ValueAt(d, o, r)
  {
    match r
    case Pubkey(_) =>
    case U8(v) => assert d[o] == d[o..o + 1][0];
    case U16(v) => TwoIs(d, o, v);
    case U32(v) => FourIs(d, o, v);
    case U64(v) => EightIs(d, o, v);
    case F64(v) => EightIs(d, o, v);
    case Empty =>
  }

  /** The header: counter, slots in use, type and title. */
  lemma HeaderLies(d: seq<byte>, db: Db)
    requires Rep(d, db)
    ensures |d| >= 73
    ensures Four(d, 0) == db.counter && Four(d, 4) == Active(db.slots)
    ensures d[8] == TypeByte(db.kind) && NameAt(d, 9, db.title)
  {
    var h := d[..73];
    assert d[0..4] == h[0..4] && d[4..8] == h[4..8] && d[9..73] == h[9..73] && d[8] == h[8];
    FourIs(d, 0, db.counter);
    FourIs(d, 4, Active(db.slots));
    NameIs(d, 9, db.title);
  }

  /** The getters of the header on any bytes: too few, a counter of 0, an unknown type, or the fields. */
  lemma HeaderAnswers(d: seq<byte>)
    ensures |d| < 73 ==>
      && GetStorageCounter(d) == Err(AccountDataTooSmall) && GetActiveRecords(d) == Err(AccountDataTooSmall)
      && GetReferenceType(d) == Err(AccountDataTooSmall)
    ensures |d| >= 73 ==>
      && GetStorageCounter(d) == (if Four(d, 0) == 0 then Err(UninitializedAccount) else Ok(Four(d, 0)))
      && GetActiveRecords(d) == Ok(Four(d, 4))
      && (GetReferenceType(d) == Err(InvalidAccountData) <==> d[8] > 6)
      && forall k :: GetReferenceType(d) == Ok(k) <==> d[8] == TypeByte(k)
  {
    if |d| >= 73 {
      FourAt(d, 0);
      FourAt(d, 4);
    }
  }

  lemma FourAt(d: seq<byte>, o: nat)
    requires o + 4 <= |d|
    ensures ReadU32(d[o..o + 4]) == Four(d, o)
  {
    var b := d[o..o + 4];
    LeOfFour(b);
    assert b[0] == d[o] && b[1] == d[o + 1] && b[2] == d[o + 2] && b[3] == d[o + 3];
  }

  /** Bytes count as initialised when the header has a counter and a type, and room for what it counts. */
  lemma InitializedIs(d: seq<byte>, k: ReferenceType)
    ensures IsInitialized(d) ==> |d| >= 73 && d[8] <= 6 && Four(d, 0) > 0
    ensures |d| >= 73 && d[8] == TypeByte(k) ==>
      (IsInitialized(d) <==> Four(d, 0) > 0 && 73 + Four(d, 4) * RecordLength(k) <= |d|)
  {
    if |d| >= 73 {
      FourAt(d, 0);
      FourAt(d, 4);
      if d[8] == TypeByte(k) {
        FitsIn(Four(d, 4), RecordLength(k), |d| - 73);
      }
    }
  }

  lemma FitsIn(n: nat, size: nat, length: nat)
    requires size > 0
    ensures n <= length / size <==> n * size <= length
  {
    var q := length / size;
    assert length == q * size + length % size;
    if n <= q {
      assert n * size <= q * size;
    } else {
      assert n * size >= (q + 1) * size;
    }
  }

  /** What the bytes from `o` on hold of a slot: an empty one has no counter and no name. */
  ghost predicate SlotAt(d: seq<byte>, o: nat, slot: Option<Entry>) {
    && o + 68 <= |d|
    && match slot
       case None => Two(d, o) == 0 && NameAt(d, o + 4, [])
       case Some(e) =>
         && Two(d, o) == e.counter && Two(d, o + 2) == e.tag
         && NameAt(d, o + 4, e.name) && ValueAt(d, o + 68, e.reference)
  }

  /** Slot `i` begins at byte 73 + i records. */
  lemma SlotLies(d: seq<byte>, db: Db, i: nat, o: nat)
    requires Rep(d, db) && i < |db.slots| && o == 73 + i * RecordLength(db.kind)
    ensures o + RecordLength(db.kind) <= |d|
    ensures SlotAt(d, o, db.slots[i])
  {
    var size := RecordLength(db.kind);
    OffIsProduct(size, i);
    SlotInside(d, db, i);
    assert db.slots[i].Some? ==> EntryOk(db.kind, db.slots[i].value);
    SlotIs(d, o, Slot(d, size, i), size, db.slots[i]);
  }

  lemma SlotIs(d: seq<byte>, o: nat, s: seq<byte>, size: nat, slot: Option<Entry>)
    requires 68 <= size && o + size <= |d| && s == d[o..o + size] && SlotRep(s, slot)
    requires slot.Some? ==> size == RecordSize(slot.value.reference.Kind())
    ensures SlotAt(d, o, slot)
  {
    SubSlice(d, o, size, 0, 2);
    SubSlice(d, o, size, 2, 4);
    SubSlice(d, o, size, 4, 68);
    match slot
    case None =>
      TwoIs(d, o, 0);
      NameIs(d, o + 4, []);
    case Some(e) =>
      EntryParts(e);
      SubSlice(d, o, size, 68, size);
      assert s[68..] == s[68..size];
      TwoIs(d, o, e.counter);
      TwoIs(d, o + 2, e.tag);
      NameIs(d, o + 4, e.name);
      ValueIs(d, o + 68, e.reference);
  }
}

/** Small storages in which an operation does what its callers may not expect. */
module RefDbCases {
  import opened Bytes
  import opened Pack
  import opened RefDbSpec
  import opened RefDbLayout
  import opened RefDbRuns
  import opened RefDbNames
  import opened RefDbChanges
  import opened RefDbStore
  import RefDb

  /** "A" and "B". */
  const A: Name := [65]
  const B: Name := [66]

  /** One record of eight bytes. */
  const LongTail := Db(1, [], KU64, [Some(Entry(1, 0, A, U64(0)))])

  /** With 68 bytes left over a new name does not fit, but its write fails only after it has changed the header. */
  lemma WriteIntoLongTail()
    ensures var d, rec := StorageBytes(LongTail, 68), Record(None, 0, 0, B, U64(7));
      && Rep(d, LongTail) && |d| == 217
      && RefDb.LandsInTail(d, LongTail, rec)
      && !Harmless(68, LongTail, DoWrite(rec))
  {
    EveryStorageHasBytes(LongTail, 68);
    OffIsProduct(RecordSize(KU64), 1);
  }

  /** Two records of one byte each. */
  const TwoEntries := Db(1, [], KU8, [Some(Entry(1, 0, A, U8(0))), Some(Entry(1, 0, B, U8(0)))])

  /** Deleting the first with a record of an address clears 31 bytes of the second. */
  lemma DeleteRunsOver()
    ensures var d, rec := StorageBytes(TwoEntries, 0), Record(Some(0), 0, 0, A, Pubkey(Zeros(32)));
      && Rep(d, TwoEntries) && |d| == 211
      && RefDb.RecordEndsInside(d, TwoEntries, rec)
      && Delete(TwoEntries, rec).1 == Ok(100)
      && !RefDb.OverrunHarmless(TwoEntries, 0, RecordSize(rec.reference.Kind()))
  {
    TwoEntriesHaveBytes();
  }

  /** Updating the first with an address writes over 31 bytes of the second. */
  lemma UpdateRunsOver()
    ensures var d := StorageBytes(TwoEntries, 0);
      && Rep(d, TwoEntries) && |d| == 211
      && RefDb.EndsInside(d, TwoEntries, 0, RecordSize(KPubkey))
      && UpdateAt(TwoEntries, 0, Pubkey(Zeros(32))).1 == Ok(100)
      && !RefDb.UpdateHarmless(TwoEntries, 0, Pubkey(Zeros(32)))
  {
    TwoEntriesHaveBytes();
    assert Zeros(32)[1..] == Zeros(31);
    RefDb.ZerosAreSafe(TwoEntries, 1, 31);
  }

  lemma TwoEntriesHaveBytes()
    ensures var d := StorageBytes(TwoEntries, 0);
      Rep(d, TwoEntries) && |d| == 211 && RefDb.EndsInside(d, TwoEntries, 0, RecordSize(KPubkey))
  {
    EveryStorageHasBytes(TwoEntries, 0);
    OffIsProduct(RecordSize(KU8), 2);
    OffIsProduct(RecordSize(KU8), 0);
  }

  /** One record of one byte, written or updated as many times as its counter says. */
  function Counting(c: u16): Db {
    Db(1, [], KU8, [Some(Entry(c, 0, A, U8(0)))])
  }

  /** It is deleted and written again. */
  const Again: seq<Call> := [DoDeleteWithName(A, None), DoWrite(Record(None, 0, 0, A, U8(7)))]

  /** After that its counter is 1, whatever it was. */
  lemma AgainIsYoung(c: u16)
    requires c > 0
    ensures After(Counting(c), Again, 2) == Db(3, [], KU8, [Some(Entry(1, 0, A, U8(7)))])
    ensures Age(Counting(c), Again, 2, 0) == 1
  {
    var db := Counting(c);
    var deleted := Db(2, [], KU8, [None]);
    assert Apply(db, Again[0]).0 == deleted;
    assert After(db, Again, 0) == db;
    assert After(db, Again, 1) == deleted;
    assert Apply(deleted, Again[1]).0 == Db(3, [], KU8, [Some(Entry(1, 0, A, U8(7)))]);
    assert Touched(deleted, Again[1]) == Some(0);
    assert Age(db, Again, 1, 0) == 0;
  }

  /** A reader who has seen the counter 5 is not told of the new value. */
  lemma RewriteIsMissed()
    ensures var after := After(Counting(5), Again, 2);
      && after.slots == [Some(Entry(1, 0, A, U8(7)))]
      && Rep(StorageBytes(after, 0), after)
      && ReadAtIfChanged(StorageBytes(after, 0), 0, 5) == Ok(None)
  {
    var after := After(Counting(5), Again, 2);
    AgainIsYoung(5);
    EveryStorageHasBytes(after, 0);
    ReadAtIfChangedIs(StorageBytes(after, 0), after, 0, 5);
  }

  /** A write with the counter 1, read before, goes through. */
  lemma RewriteLetsStaleWriteThrough()
    ensures Write(After(Counting(1), Again, 2), Record(None, 1, 0, A, U8(9))).1.Ok?
  {
    AgainIsYoung(1);
  }

  /** A write by index into the empty second slot brings the name of the first in again. */
  lemma NameTwice()
    ensures var db, rec := Db(1, [], KU8, [Some(Entry(1, 0, A, U8(0))), None]), Record(Some(1), 0, 0, A, U8(0));
      UniqueNames(db.slots) && Write(db, rec).1.Ok? && !UniqueNames(Write(db, rec).0.slots)
  {
    var db, rec := Db(1, [], KU8, [Some(Entry(1, 0, A, U8(0))), None]), Record(Some(1), 0, 0, A, U8(0));
    var slots := Write(db, rec).0.slots;
    assert slots[0].value.name == slots[1].value.name;
  }
}

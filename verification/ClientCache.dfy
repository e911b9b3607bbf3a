/**
 The client's cache of pool references. It is filled from a RefDB storage together with
 the storage counter; a reload that finds the same counter keeps what it has. `source`
 remembers, for the proof only, the storage the cache was last known to agree with.
 */
module ClientCache {
  import opened Bytes
  import opened Pack
  import opened RefDbSpec
  import opened RefDbLayout
  import opened RefDbRead
  import opened RefDbRuns
  import opened RefDbNames
  import opened RefDbStore
  import opened PoolNames

  /** Six hours, in seconds. */
  const RELOAD_INTERVAL := 21600

  class Cache<T> {
    var data: map<Name, T>
    var lastLoad: int
    var counter: u32

    constructor (now: int)
      ensures data == map[] && lastLoad == now - RELOAD_INTERVAL && counter == 0
    {
      data, lastLoad, counter := map[], now - RELOAD_INTERVAL, 0;
    }

    predicate IsStale(now: int)
      reads this
    {
      data.Keys == {} || (now >= lastLoad && now - lastLoad >= RELOAD_INTERVAL)
    }

    predicate IsUpdated(c: u32)
      reads this
    {
      c != counter
    }

    method Set(refs: map<Name, T>, c: u32, now: int)
      modifies this
      ensures data == refs && lastLoad == now && counter == c
    {
      data, lastLoad, counter := refs, now, c;
    }

    method Reset(now: int)
      modifies this
      ensures data == map[] && lastLoad == now - RELOAD_INTERVAL && counter == 0
      ensures IsStale(now)
    {
      data, lastLoad, counter := map[], now - RELOAD_INTERVAL, 0;
    }

    method MarkNotStale(now: int)
      modifies this
      ensures data == old(data) && lastLoad == now && counter == old(counter)
    {
      lastLoad := now;
    }
  }

  /** The addresses among the first `n` records, by name; a later record of the same name wins. */
  function PubkeyMap(records: seq<Record>, n: nat): map<Name, Key>
    requires n <= |records|
  {
    if n == 0 then map[]
    else
      match records[n - 1].reference
      case Pubkey(key) => PubkeyMap(records, n - 1)[records[n - 1].name := key]
      case _ => PubkeyMap(records, n - 1)
  }

  /** What a client gets to see of a storage. */
  function RefsOf(db: Db): map<Name, Key>
    requires |db.slots| <= U32_MAX
  {
    var records := Listing(db.slots, |db.slots|);
    PubkeyMap(records, |records|)
  }

  lemma {:induction false} PubkeyMapPrefix(a: seq<Record>, b: seq<Record>, n: nat)
    requires n <= |a| <= |b| && a == b[..|a|]
    ensures PubkeyMap(a, n) == PubkeyMap(b, n)
  {
    if n == 0 {
    } else {
      PubkeyMapPrefix(a, b, n - 1);
    }
  }

  lemma {:induction false} RefsTo(slots: Slots, n: nat)
    requires n <= |slots| <= U32_MAX
    requires forall i :: 0 <= i < |slots| && slots[i].Some? ==> slots[i].value.reference.Pubkey?
    ensures forall name :: name in EntriesTo(slots, n) ==> EntriesTo(slots, n)[name].reference.Pubkey?
    ensures PubkeyMap(Listing(slots, n), |Listing(slots, n)|) == KeysIn(EntriesTo(slots, n))
  {
    if n == 0 {
    } else {
      RefsTo(slots, n - 1);
      if slots[n - 1].Some? {
        PubkeyMapAppend(Listing(slots, n - 1), AsRecord(slots[n - 1].value, n - 1));
      } else {
        assert Listing(slots, n) == Listing(slots, n - 1);
      }
    }
  }

  /** The addresses in a map of entries. */
  function KeysIn(entries: map<Name, Entry>): map<Name, Key> {
    map name | name in entries && entries[name].reference.Pubkey? :: entries[name].reference.key
  }

  lemma PubkeyMapAppend(records: seq<Record>, rec: Record)
    requires rec.reference.Pubkey?
    ensures PubkeyMap(records + [rec], |records + [rec]|)
         == PubkeyMap(records, |records|)[rec.name := rec.reference.key]
  {
    PubkeyMapPrefix(records, records + [rec], |records|);
  }

  /** In a storage of addresses the client sees every name, with its address. */
  lemma RefsAreEntries(db: Db)
    requires Valid(db) && db.kind == KPubkey
    ensures forall name :: name in Entries(db.slots) ==> Entries(db.slots)[name].reference.Pubkey?
    ensures RefsOf(db) == KeysIn(Entries(db.slots))
  {
    forall i | 0 <= i < |db.slots| && db.slots[i].Some?
      ensures db.slots[i].value.reference.Pubkey?
    {
      assert EntryOk(db.kind, db.slots[i].value);
    }
    RefsTo(db.slots, |db.slots|);
  }

  /** `get_refdb_pubkey_map`: one read of the account, so counter and map belong together. */
  method GetRefdbPubkeyMap(d: seq<byte>, ghost db: Db) returns (r: Result<(u32, map<Name, Key>), Error>)
    requires Rep(d, db)
    ensures r == Ok((db.counter, RefsOf(db)))
  {
    RepIsInitialized(d, db);
    if !IsInitialized(d) {
      return Err(UninitializedAccount);
    }
    var all := ReadAll(d, db);
    var records := all.value;
    var refs := map[];
    for i := 0 to |records|
      invariant refs == PubkeyMap(records, i)
    {
      match records[i].reference {
        case Pubkey(key) =>
          refs := refs[records[i].name := key];
        case _ =>
      }
    }
    HeaderReads(d, db);
    return Ok((GetStorageCounter(d).value, refs));
  }

  /** The keys of a map, in whatever order it is iterated. */
  method KeysOf(m: map<Name, Key>) returns (keys: seq<Str>)
    ensures forall x :: x in Elements(keys, |keys|) <==> x in m
  {
    keys := [];
    var left := m.Keys;
    while left != {}
      invariant left <= m.Keys
      invariant forall x :: x in Elements(keys, |keys|) <==> x in m.Keys - left
      decreases left
    {
      var key: Name :| key in left;
      ElementsAppend(keys, key, |keys|);
      keys := keys + [key];
      left := left - {key};
    }
  }

  lemma {:induction false} ElementsAppend(keys: seq<Str>, key: Str, n: nat)
    requires n <= |keys|
    ensures Elements(keys + [key], n) == Elements(keys, n)
    ensures n == |keys| ==> Elements(keys + [key], |keys + [key]|) == Elements(keys, |keys|) + {key}
  {
    if n == 0 {
    } else {
      ElementsAppend(keys, key, n - 1);
    }
  }

  class PoolClient {
    const poolRefs: Cache<Key>
    const pools: Cache<Key>
    var latestPools: map<Str, Str>
    ghost var source: Option<Db>

    constructor (now: int)
      ensures Synced() && source.None? && poolRefs.IsStale(now) && fresh(poolRefs) && fresh(pools)
    {
      poolRefs := new Cache<Key>(now);
      pools := new Cache<Key>(now);
      latestPools := map[];
      source := None;
    }

    /** The cache is untouched, or holds what `source` shows. */
    ghost predicate Synced()
      reads this, poolRefs
    {
      && poolRefs != pools
      && match source
         case None => poolRefs.counter == 0
         case Some(db) => Valid(db) && poolRefs.counter == db.counter && poolRefs.data == RefsOf(db)
    }

    /** From what the cache holds the storage came to `db` with fewer than 2^32 - 1 advances of its counter. */
    ghost predicate Follows(db: Db, calls: seq<Call>)
      reads this
    {
      source.Some? ==> db == After(source.value, calls, |calls|) && BumpCount(source.value, calls, |calls|) < U32_MAX
    }

    /**
     `reload_pool_refs_if_stale`. A cache that is empty or was loaded six hours ago or more
     holds what the storage shows now, even when it was kept because the counters agree.
     Any other, also one loaded after `now`, is not touched.
     */
    method ReloadPoolRefsIfStale(now: int, d: seq<byte>, ghost db: Db, ghost calls: seq<Call>)
      returns (r: Result<bool, Error>)
      requires Synced() && Rep(d, db) && Follows(db, calls)
      modifies this, poolRefs, pools
      ensures Synced()
      ensures r == Ok((old(poolRefs.data) == map[] || now - old(poolRefs.lastLoad) >= 21600)
                      && old(poolRefs.counter) != db.counter)
      ensures old(poolRefs.data) == map[] || now - old(poolRefs.lastLoad) >= 21600 ==>
        && source == Some(db) && poolRefs.data == RefsOf(db)
        && poolRefs.counter == db.counter && poolRefs.lastLoad == now
      ensures old(poolRefs.data) != map[] && now - old(poolRefs.lastLoad) < 21600 ==>
        && poolRefs.data == old(poolRefs.data) && poolRefs.counter == old(poolRefs.counter)
        && poolRefs.lastLoad == old(poolRefs.lastLoad) && source == old(source)
      ensures r == Ok(true) ==>
        && pools.data == map[] && pools.counter == 0 && now - pools.lastLoad == 21600
        && exists latest: map<Str, (Str, nat)> ::
             IsLatestIndex(latest, RefsOf(db).Keys)
             && latestPools == old(latestPools) + map key | key in latest :: latest[key].0
      ensures r == Ok(false) ==>
        && latestPools == old(latestPools) && pools.data == old(pools.data)
        && pools.counter == old(pools.counter) && pools.lastLoad == old(pools.lastLoad)
    {
      if poolRefs.IsStale(now) {
        var fetched := GetRefdbPubkeyMap(d, db);
        var (counter, refs) := fetched.value;
        if poolRefs.IsUpdated(counter) {
          var order := KeysOf(refs);
          assert Elements(order, |order|) == refs.Keys;
          var index, latest := ReinsertLatestVersions(order, latestPools);
          latestPools := index;
          poolRefs.Set(refs, counter, now);
          pools.Reset(now);
          source := Some(db);
          return Ok(true);
        } else {
          poolRefs.MarkNotStale(now);
          EqualCounterMeansEqual(source.value, calls, |calls|);
          source := Some(db);
        }
      }
      return Ok(false);
    }
  }
}

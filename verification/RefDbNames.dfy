/**
 RefDB seen by name: as long as no two entries share a name, the storage is a map from
 names to entries with a bounded number of keys, and calls by name work on that map.
 Which calls keep the names apart is stated exactly.
 */
module RefDbNames {
  import opened Bytes
  import opened Pack
  import opened RefDbSpec
  import opened RefDbRuns

  ghost predicate UniqueNames(slots: Slots) {
    forall i, j :: 0 <= i < j < |slots| && slots[i].Some? && slots[j].Some? ==>
      slots[i].value.name != slots[j].value.name
  }

  // ---- the map of a row of slots ----

  function EntriesTo(slots: Slots, n: nat): map<Name, Entry>
    requires n <= |slots|
  {
    if n == 0 then map[]
    else if slots[n - 1].None? then EntriesTo(slots, n - 1)
    else EntriesTo(slots, n - 1)[slots[n - 1].value.name := slots[n - 1].value]
  }

  function Entries(slots: Slots): map<Name, Entry> {
    EntriesTo(slots, |slots|)
  }

  lemma {:induction false} EntriesAre(slots: Slots, n: nat, name: Name)
    requires n <= |slots| && UniqueNames(slots)
    ensures name in EntriesTo(slots, n) <==> FirstNamed(slots, name) < n
    ensures name in EntriesTo(slots, n) ==>
      EntriesTo(slots, n)[name] == slots[FirstNamed(slots, name)].value
  {
    if n == 0 {
    } else {
      EntriesAre(slots, n - 1, name);
      if Holds(slots[n - 1], name) {
        OnlyOneHolds(slots, name, n - 1);
      } else {
        assert FirstNamed(slots, name) != n - 1;
      }
    }
  }

  lemma OnlyOneHolds(slots: Slots, name: Name, i: nat)
    requires UniqueNames(slots) && i < |slots| && Holds(slots[i], name)
    ensures FirstNamed(slots, name) == i
  {
    assert NotAmong(slots, name, i);
    FirstNamedIs(slots, name, i);
  }

  lemma {:induction false} EntriesCount(slots: Slots, n: nat)
    requires n <= |slots| && UniqueNames(slots)
    ensures |EntriesTo(slots, n)| == ActiveTo(slots, n)
  {
    if n == 0 {
    } else {
      EntriesCount(slots, n - 1);
      if slots[n - 1].Some? {
        EntriesAre(slots, n - 1, slots[n - 1].value.name);
        OnlyOneHolds(slots, slots[n - 1].value.name, n - 1);
      }
    }
  }

  /** Storing an entry under a name that no other slot holds is storing it in the map. */
  lemma EntriesStore(slots: Slots, i: nat, e: Entry)
    requires i < |slots| && UniqueNames(slots) && UniqueNames(slots[i := Some(e)])
    requires slots[i].Some? ==> slots[i].value.name == e.name
    ensures Entries(slots[i := Some(e)]) == Entries(slots)[e.name := e]
  {
    var slots' := slots[i := Some(e)];
    var m, m' := Entries(slots), Entries(slots');
    OnlyOneHolds(slots', e.name, i);
    forall name: Name
      ensures name in m' <==> name in m[e.name := e]
      ensures name in m' ==> m'[name] == m[e.name := e][name]
    {
      EntriesAre(slots, |slots|, name);
      EntriesAre(slots', |slots|, name);
      if name != e.name {
        SameFirst(slots, i, Some(e), name);
      }
    }
  }

  /** Clearing a slot removes its name from the map. */
  lemma EntriesClear(slots: Slots, i: nat)
    requires i < |slots| && UniqueNames(slots) && slots[i].Some?
    ensures UniqueNames(slots[i := None])
    ensures Entries(slots[i := None]) == Entries(slots) - {slots[i].value.name}
  {
    var slots' := slots[i := None];
    var gone := slots[i].value.name;
    var m, m' := Entries(slots), Entries(slots');
    OnlyOneHolds(slots, gone, i);
    ClearedIsGone(slots, i);
    forall name: Name
      ensures name in m' <==> name in m - {gone}
      ensures name in m' ==> m'[name] == (m - {gone})[name]
    {
      EntriesAre(slots, |slots|, name);
      EntriesAre(slots', |slots|, name);
      if name != gone {
        SameFirst(slots, i, None, name);
      }
    }
  }

  lemma ClearedIsGone(slots: Slots, i: nat)
    requires i < |slots| && UniqueNames(slots) && slots[i].Some?
    ensures FirstNamed(slots[i := None], slots[i].value.name) == |slots|
  {
    var slots' := slots[i := None];
    forall j | 0 <= j < |slots|
      ensures !Holds(slots'[j], slots[i].value.name)
    {
      assert slots'[j] == if j == i then None else slots[j];
    }
    FirstNamedIs(slots', slots[i].value.name, |slots|);
  }

  /** A slot that does not hold the name, before or after, does not matter to the search for it. */
  lemma SameFirst(slots: Slots, i: nat, x: Option<Entry>, name: Name)
    requires i < |slots| && !Holds(slots[i], name) && !Holds(x, name)
    ensures FirstNamed(slots[i := x], name) == FirstNamed(slots, name)
  {
    var f, slots' := FirstNamed(slots, name), slots[i := x];
    FirstNamedIs(slots, name, f);
    assert forall j :: 0 <= j < |slots| ==> (Holds(slots'[j], name) <==> Holds(slots[j], name));
    FirstNamedIs(slots', name, f);
  }

  // ---- which writes keep names apart ----

  /**
   A write by index into an empty slot does not look for its name elsewhere. That, and
   nothing else, can bring a name in twice.
   */
  lemma WriteKeepsNamesApart(db: Db, rec: Record)
    requires UniqueNames(db.slots) && Write(db, rec).1.Ok?
    ensures UniqueNames(Write(db, rec).0.slots) <==>
      !(rec.index.Some? && db.slots[rec.index.value].None? && FirstNamed(db.slots, rec.name) < |db.slots|)
  {
    var i := Target(db.slots, rec.index, rec.name);
    var slots' := Write(db, rec).0.slots;
    var f := FirstNamed(db.slots, rec.name);
    FirstNamedIs(db.slots, rec.name, f);
    if f < |db.slots| && rec.index.Some? && db.slots[i].None? {
      assert Holds(db.slots[f], rec.name);
      assert slots'[f].value.name == slots'[i].value.name;
    } else if f < |db.slots| {
      assert Holds(db.slots[f], rec.name);
      if rec.index.Some? {
        OnlyOneHolds(db.slots, rec.name, i);
      }
    }
  }

  /** No other call can. */
  lemma OthersKeepNamesApart(db: Db, call: Call)
    requires UniqueNames(db.slots) && !call.DoWrite?
    ensures UniqueNames(Apply(db, call).0.slots)
  {
  }

  // ---- one call by name ----

  datatype NameDb = NameDb(counter: u32, kind: ReferenceType, capacity: nat, entries: map<Name, Entry>)

  function ByName(db: Db): NameDb {
    NameDb(db.counter, db.kind, |db.slots|, Entries(db.slots))
  }

  predicate IsByName(call: Call) {
    match call
    case DoWrite(rec) => rec.index.None?
    case DoUpdate(_, _) => true
    case DoUpdateAt(_, _) => false
    case DoDelete(rec) => rec.index.None?
    case DoDeleteWithName(_, index) => index.None?
  }

  function Store(m: NameDb, e: Entry): NameDb {
    m.(counter := BumpStorage(m.counter), entries := m.entries[e.name := e])
  }

  function NameWrite(m: NameDb, rec: Record): (NameDb, Outcome) {
    if rec.name !in m.entries && |m.entries| == m.capacity then (m, Err(AccountDataTooSmall))
    else
      var stored := if rec.name in m.entries then m.entries[rec.name].counter else 0;
      if stored > 0 && rec.counter > 0 && stored != rec.counter then (m, Err(RefdbRecordCounterMismatch))
      else if m.kind != rec.reference.Kind() then (m, Err(RefdbRecordTypeMismatch))
      else (Store(m, Entry(BumpRecord(stored), rec.tag, rec.name, rec.reference)), Ok(RecordSize(m.kind)))
  }

  function NameUpdate(m: NameDb, name: Name, reference: Reference): (NameDb, Outcome) {
    if name !in m.entries then (m, Err(RefdbRecordNotFound))
    else
      var e := m.entries[name];
      (Store(m, Entry(BumpRecord(e.counter), e.tag, name, Stored(e.reference, reference))),
       Ok(RecordSize(reference.Kind())))
  }

  /** Deleting a name that is not there fails when the storage is full, and succeeds otherwise. */
  function NameDelete(m: NameDb, rec: Record): (NameDb, Outcome) {
    if rec.name !in m.entries then
      (m, if |m.entries| == m.capacity then Err(AccountDataTooSmall) else Ok(0))
    else if rec.counter > 0 && m.entries[rec.name].counter != rec.counter then (m, Err(RefdbRecordCounterMismatch))
    else
      (m.(counter := BumpStorage(m.counter), entries := m.entries - {rec.name}),
       Ok(RecordSize(rec.reference.Kind())))
  }

  function NameApply(m: NameDb, call: Call): (NameDb, Outcome)
    requires IsByName(call)
  {
    match call
    case DoWrite(rec) => NameWrite(m, rec)
    case DoUpdate(name, reference) => NameUpdate(m, name, reference)
    case DoDelete(rec) => NameDelete(m, rec)
    case DoDeleteWithName(name, index) => NameDelete(m, NameOnly(name, index))
  }

  lemma FullMeansNoFreeSlot(slots: Slots)
    ensures Active(slots) == |slots| <==> FirstFree(slots) == |slots|
  {
    var f := FirstFree(slots);
    FreePlusActive(slots, |slots|);
    FirstFreeIs(slots, f);
    if f < |slots| {
      ActiveUpdate(slots, f, Some(Entry(0, 0, [], Empty)), |slots|);
    } else {
      AllInUse(slots, |slots|);
    }
  }

  lemma {:induction false} AllInUse(slots: Slots, n: nat)
    requires n <= |slots| && forall i :: 0 <= i < n ==> slots[i].Some?
    ensures ActiveTo(slots, n) == n
  {
    if n == 0 {
    } else {
      AllInUse(slots, n - 1);
    }
  }

  /** What the map says about a name is what the search by name says about the slots. */
  lemma MapAnswers(db: Db, name: Name)
    requires UniqueNames(db.slots)
    ensures var i := FirstNamed(db.slots, name);
      && (name in Entries(db.slots) <==> i < |db.slots|)
      && (name in Entries(db.slots) ==> Entries(db.slots)[name] == db.slots[i].value && db.slots[i].Some?)
    ensures |Entries(db.slots)| == |db.slots| <==> FirstFree(db.slots) == |db.slots|
  {
    EntriesAre(db.slots, |db.slots|, name);
    EntriesCount(db.slots, |db.slots|);
    FullMeansNoFreeSlot(db.slots);
  }

  lemma WriteByName(db: Db, rec: Record)
    requires Valid(db) && UniqueNames(db.slots) && rec.index.None?
    ensures UniqueNames(Write(db, rec).0.slots)
    ensures (ByName(Write(db, rec).0), Write(db, rec).1) == NameWrite(ByName(db), rec)
  {
    MapAnswers(db, rec.name);
    var i := Target(db.slots, rec.index, rec.name);
    if Write(db, rec).1.Ok? {
      WriteKeepsNamesApart(db, rec);
      var e := Written(db.slots[i], rec);
      EntriesStore(db.slots, i, e);
    }
    if i < |db.slots| && db.slots[i].Some? {
      assert EntryOk(db.kind, db.slots[i].value);
    }
  }

  lemma UpdateByName(db: Db, name: Name, reference: Reference)
    requires Valid(db) && UniqueNames(db.slots)
    ensures UniqueNames(Update(db, name, reference).0.slots)
    ensures (ByName(Update(db, name, reference).0), Update(db, name, reference).1)
         == NameUpdate(ByName(db), name, reference)
  {
    MapAnswers(db, name);
    var i := FirstNamed(db.slots, name);
    OthersKeepNamesApart(db, DoUpdate(name, reference));
    if i < |db.slots| {
      var e := db.slots[i].value;
      EntriesStore(db.slots, i, e.(counter := BumpRecord(e.counter), reference := Stored(e.reference, reference)));
    }
  }

  lemma DeleteByName(db: Db, rec: Record)
    requires Valid(db) && UniqueNames(db.slots) && rec.index.None?
    ensures UniqueNames(Delete(db, rec).0.slots)
    ensures (ByName(Delete(db, rec).0), Delete(db, rec).1) == NameDelete(ByName(db), rec)
  {
    MapAnswers(db, rec.name);
    var i := Target(db.slots, rec.index, rec.name);
    if i < |db.slots| && db.slots[i].Some? {
      EntriesClear(db.slots, i);
    }
  }

  lemma ApplyByName(db: Db, call: Call)
    requires Valid(db) && UniqueNames(db.slots) && IsByName(call)
    ensures UniqueNames(Apply(db, call).0.slots)
    ensures (ByName(Apply(db, call).0), Apply(db, call).1) == NameApply(ByName(db), call)
  {
    match call
    case DoWrite(rec) => WriteByName(db, rec);
    case DoUpdate(name, reference) => UpdateByName(db, name, reference);
    case DoDelete(rec) => DeleteByName(db, rec);
    case DoDeleteWithName(name, index) => DeleteByName(db, NameOnly(name, index));
  }

  // ---- runs by name ----

  function NameAfter(m: NameDb, calls: seq<Call>, n: nat): NameDb
    requires n <= |calls| && forall i :: 0 <= i < |calls| ==> IsByName(calls[i])
  {
    if n == 0 then m else NameApply(NameAfter(m, calls, n - 1), calls[n - 1]).0
  }

  function NameOutcomes(m: NameDb, calls: seq<Call>, n: nat): seq<Outcome>
    requires n <= |calls| && forall i :: 0 <= i < |calls| ==> IsByName(calls[i])
  {
    if n == 0 then []
    else NameOutcomes(m, calls, n - 1) + [NameApply(NameAfter(m, calls, n - 1), calls[n - 1]).1]
  }

  ghost predicate AllByName(calls: seq<Call>) {
    forall i :: 0 <= i < |calls| ==> IsByName(calls[i])
  }

  /** The storage is of this kind, with distinct names, and holds what the map does. */
  ghost predicate Mirrors(db: Db, k: ReferenceType, m: NameDb) {
    Valid(db) && db.kind == k && UniqueNames(db.slots) && ByName(db) == m
  }

  lemma StepByName(db: Db, k: ReferenceType, m: NameDb, call: Call)
    requires Mirrors(db, k, m) && IsByName(call)
    ensures Mirrors(Apply(db, call).0, k, NameApply(m, call).0)
    ensures Apply(db, call).1 == NameApply(m, call).1
  {
    ApplyKeepsShape(db, call);
    ApplyKeepsValid(db, call);
    ApplyByName(db, call);
  }

  function Fold<S, C>(f: (S, C) -> S, s: S, cs: seq<C>, n: nat): S
    requires n <= |cs|
  {
    if n == 0 then s else f(Fold(f, s, cs, n - 1), cs[n - 1])
  }

  /** Two machines that stay related step by step stay related over a run. */
  lemma {:induction false} Simulation<S, T, C>(
      f: (S, C) -> S, g: (T, C) -> T, related: (S, T) -> bool, allowed: C -> bool, s: S, t: T, cs: seq<C>, n: nat)
    requires n <= |cs| && related(s, t) && forall i :: 0 <= i < |cs| ==> allowed(cs[i])
    requires forall s', t', c :: related(s', t') && allowed(c) ==> related(f(s', c), g(t', c))
    ensures related(Fold(f, s, cs, n), Fold(g, t, cs, n))
  {
    if n == 0 {
    } else {
      Simulation(f, g, related, allowed, s, t, cs, n - 1);
    }
  }

  function ApplyState(db: Db, call: Call): Db {
    Apply(db, call).0
  }

  function NameApplyState(m: NameDb, call: Call): NameDb {
    if IsByName(call) then NameApply(m, call).0 else m
  }

  lemma {:induction false} AfterIsFold(db: Db, calls: seq<Call>, n: nat)
    requires n <= |calls|
    ensures After(db, calls, n) == Fold(ApplyState, db, calls, n)
  {
    if n == 0 {
    } else {
      AfterIsFold(db, calls, n - 1);
    }
  }

  lemma {:induction false} NameAfterIsFold(m: NameDb, calls: seq<Call>, n: nat)
    requires n <= |calls| && AllByName(calls)
    ensures NameAfter(m, calls, n) == Fold(NameApplyState, m, calls, n)
  {
    if n == 0 {
    } else {
      NameAfterIsFold(m, calls, n - 1);
    }
  }

  lemma StateByName(db: Db, k: ReferenceType, m: NameDb, calls: seq<Call>, n: nat)
    requires Mirrors(db, k, m) && n <= |calls| && AllByName(calls)
    ensures Mirrors(After(db, calls, n), k, NameAfter(m, calls, n))
  {
    FoldsMirror(db, k, m, calls, n);
    AfterIsFold(db, calls, n);
    NameAfterIsFold(m, calls, n);
  }

  lemma FoldsMirror(db: Db, k: ReferenceType, m: NameDb, calls: seq<Call>, n: nat)
    requires Mirrors(db, k, m) && n <= |calls| && AllByName(calls)
    ensures Mirrors(Fold(ApplyState, db, calls, n), k, Fold(NameApplyState, m, calls, n))
  {
    var related := (db': Db, m': NameDb) => Mirrors(db', k, m');
    forall db', m', call | related(db', m') && IsByName(call)
      ensures related(ApplyState(db', call), NameApplyState(m', call))
    {
      StepByName(db', k, m', call);
    }
    Simulation(ApplyState, NameApplyState, related, IsByName, db, m, calls, n);
  }

  ghost predicate SameOutcome(db: Db, m: NameDb, calls: seq<Call>, i: nat)
    requires i < |calls| && forall j :: 0 <= j < |calls| ==> IsByName(calls[j])
  {
    Apply(After(db, calls, i), calls[i]).1 == NameApply(NameAfter(m, calls, i), calls[i]).1
  }

  lemma OutcomeByName(db: Db, k: ReferenceType, m: NameDb, calls: seq<Call>, i: nat)
    requires Mirrors(db, k, m) && i < |calls| && AllByName(calls)
    ensures SameOutcome(db, m, calls, i)
  {
    StateByName(db, k, m, calls, i);
    StepByName(After(db, calls, i), k, NameAfter(m, calls, i), calls[i]);
  }

  lemma {:induction false} OutcomesAgree(db: Db, m: NameDb, calls: seq<Call>, n: nat)
    requires n <= |calls| && forall j :: 0 <= j < |calls| ==> IsByName(calls[j])
    requires forall i :: 0 <= i < n ==> SameOutcome(db, m, calls, i)
    ensures Outcomes(db, calls, n) == NameOutcomes(m, calls, n)
  {
    if n == 0 {
    } else {
      OutcomesAgree(db, m, calls, n - 1);
      NextOutcome(db, m, calls, n);
    }
  }

  lemma NextOutcome(db: Db, m: NameDb, calls: seq<Call>, n: nat)
    requires 0 < n <= |calls| && forall j :: 0 <= j < |calls| ==> IsByName(calls[j])
    requires SameOutcome(db, m, calls, n - 1)
    requires Outcomes(db, calls, n - 1) == NameOutcomes(m, calls, n - 1)
    ensures Outcomes(db, calls, n) == NameOutcomes(m, calls, n)
  {
  }

  /** Any run of calls by name is a run on the map, with the same outcomes. */
  lemma RunByName(db: Db, calls: seq<Call>)
    requires Valid(db) && UniqueNames(db.slots) && AllByName(calls)
    ensures UniqueNames(After(db, calls, |calls|).slots)
    ensures ByName(After(db, calls, |calls|)) == NameAfter(ByName(db), calls, |calls|)
    ensures Outcomes(db, calls, |calls|) == NameOutcomes(ByName(db), calls, |calls|)
  {
    StateByName(db, db.kind, ByName(db), calls, |calls|);
    forall i | 0 <= i < |calls|
      ensures SameOutcome(db, ByName(db), calls, i)
    {
      OutcomeByName(db, db.kind, ByName(db), calls, i);
    }
    OutcomesAgree(db, ByName(db), calls, |calls|);
  }

  // ---- indexed calls ----

  /** Read-back and frame of a successful write that keeps the names apart, with or without an index. */
  lemma WriteReadsBack(db: Db, rec: Record)
    requires Valid(db) && UniqueNames(db.slots)
    requires Write(db, rec).1.Ok? && UniqueNames(Write(db, rec).0.slots)
    ensures var before, after := Entries(db.slots), Entries(Write(db, rec).0.slots);
      && rec.name in after
      && after[rec.name] == Entry(BumpRecord(if rec.name in before then before[rec.name].counter else 0),
                                  rec.tag, rec.name, rec.reference)
      && after - {rec.name} == before - {rec.name}
  {
    WriteKeepsNamesApart(db, rec);
    MapAnswers(db, rec.name);
    var i := Target(db.slots, rec.index, rec.name);
    if rec.index.Some? && db.slots[i].Some? {
      OnlyOneHolds(db.slots, rec.name, i);
    }
    EntriesStore(db.slots, i, Written(db.slots[i], rec));
  }

  /** A successful delete removes its name and nothing else. */
  lemma DeleteRemovesName(db: Db, rec: Record)
    requires UniqueNames(db.slots)
    requires Delete(db, rec).1.Ok? && Delete(db, rec).1.value > 0
    ensures rec.name in Entries(db.slots)
    ensures Entries(Delete(db, rec).0.slots) == Entries(db.slots) - {rec.name}
  {
    var i := Target(db.slots, rec.index, rec.name);
    EntriesClear(db.slots, i);
    OnlyOneHolds(db.slots, rec.name, i);
    EntriesAre(db.slots, |db.slots|, rec.name);
  }
}

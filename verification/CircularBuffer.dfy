/**
 A bounded buffer that can be searched by key and by value: two maps and two queues that
 have to be kept in step. What an operation does to all four is a function on their
 values; the class does it to its fields.
 */
module CircularBuffer {
  import opened Bytes

  datatype State<K(==), V(==)> = State(
    byKey: map<K, V>, byValue: map<V, K>, keys: seq<K>, values: seq<V>, capacity: nat)

  /** `pop_front`. */
  function Popped<K, V>(s: State<K, V>): (State<K, V>, Option<(K, V)>) {
    if s.keys == [] then (s, None)
    else
      var key := s.keys[0];
      var s' := s.(keys := s.keys[1..]);
      if key !in s.byKey then (s', None)
      else
        var value := s.byKey[key];
        (s'.(byKey := s.byKey - {key},
             byValue := s.byValue - {value},
             values := if s.values == [] then [] else s.values[1..]),
         Some((key, value)))
  }

  /** `insert`: when the buffer is full the oldest pair goes first. */
  function MadeRoom<K, V>(s: State<K, V>): State<K, V> {
    if |s.keys| == s.capacity then Popped(s).0 else s
  }

  function Inserted<K, V>(s: State<K, V>, key: K, value: V): State<K, V> {
    var r := MadeRoom(s);
    r.(keys := r.keys + [key],
       values := r.values + [value],
       byKey := r.byKey[key := value],
       byValue := r.byValue[value := key])
  }

  class CircularBufferWithLookupByValue<K(==), V(==)> {
    var byKey: map<K, V>
    var byValue: map<V, K>
    var keys: seq<K>
    var values: seq<V>
    const capacity: nat

    function Value(): State<K, V>
      reads this
    {
      State(byKey, byValue, keys, values, capacity)
    }

    constructor (capacity: nat)
      ensures Value() == State(map[], map[], [], [], capacity)
    {
      byKey, byValue, keys, values, this.capacity := map[], map[], [], [], capacity;
    }

    method Insert(key: K, value: V)
      modifies this
      ensures Value() == Inserted(old(Value()), key, value)
    {
      if |keys| == capacity {
        var _ := PopFront();
      }
      keys := keys + [key];
      values := values + [value];
      byKey := byKey[key := value];
      byValue := byValue[value := key];
    }

    method PopFront() returns (r: Option<(K, V)>)
      modifies this
      ensures (Value(), r) == Popped(old(Value()))
    {
      if |keys| > 0 {
        var key := keys[0];
        keys := keys[1..];
        if key in byKey {
          var value := byKey[key];
          byKey := byKey - {key};
          byValue := byValue - {value};
          if |values| > 0 {
            values := values[1..];
          }
          return Some((key, value));
        }
      }
      return None;
    }

    predicate ContainsKey(key: K)
      reads this
    {
      key in byKey
    }
  }

  // ---- what is kept in step ----

  ghost predicate Distinct<T>(s: seq<T>) {
    forall i, j :: 0 <= i < j < |s| ==> s[i] != s[j]
  }

  /** The map holds exactly the pairs of two parallel queues. */
  ghost predicate IsMapOf<A, B>(m: map<A, B>, from: seq<A>, to: seq<B>) {
    && |from| == |to|
    && Distinct(from)
    && (forall a :: a in m ==> a in from)
    && forall i :: 0 <= i < |from| ==> from[i] in m && m[from[i]] == to[i]
  }

  lemma MapOfTail<A, B>(m: map<A, B>, from: seq<A>, to: seq<B>)
    requires IsMapOf(m, from, to) && from != []
    ensures from[0] in m && m[from[0]] == to[0]
    ensures IsMapOf(m - {from[0]}, from[1..], to[1..])
  {
    forall a | a in m - {from[0]}
      ensures a in from[1..]
    {
      var i :| 0 <= i < |from| && from[i] == a;
      assert from[1..][i - 1] == a;
    }
  }

  lemma MapOfAppend<A, B>(m: map<A, B>, from: seq<A>, to: seq<B>, a: A, b: B)
    requires IsMapOf(m, from, to)
    ensures IsMapOf(m[a := b], from + [a], to + [b]) <==> a !in from
  {
    var from', to' := from + [a], to + [b];
    assert from'[|from|] == a;
    if a in from {
      var i :| 0 <= i < |from| && from[i] == a;
      assert from'[i] == from'[|from|];
    } else {
      assert forall i :: 0 <= i < |from| ==> from'[i] == from[i] && to'[i] == to[i] && from[i] in from;
    }
  }

  /** The queues run in parallel, and the map by key holds exactly their pairs. */
  ghost predicate InStep<K, V>(s: State<K, V>) {
    IsMapOf(s.byKey, s.keys, s.values)
  }

  /** The map by value is the inverse of the map by key. */
  ghost predicate Inverse<K, V>(s: State<K, V>) {
    InStep(s) && IsMapOf(s.byValue, s.values, s.keys)
  }

  /** The pairs in the buffer, oldest first. */
  function Zip<A, B>(from: seq<A>, to: seq<B>): (r: seq<(A, B)>)
    requires |from| == |to|
    ensures |r| == |from| && forall i :: 0 <= i < |r| ==> r[i] == (from[i], to[i])
  {
    seq(|from|, i requires 0 <= i < |from| => (from[i], to[i]))
  }

  function Pairs<K, V>(s: State<K, V>): seq<(K, V)>
    requires |s.keys| == |s.values|
  {
    Zip(s.keys, s.values)
  }

  lemma LookupsAreInverse<K, V>(s: State<K, V>, key: K, value: V)
    requires Inverse(s)
    ensures (key in s.byKey && s.byKey[key] == value) <==> (value in s.byValue && s.byValue[value] == key)
    ensures (key in s.byKey && s.byKey[key] == value) <==> (key, value) in Pairs(s)
  {
    var pairs := Pairs(s);
    if key in s.byKey && s.byKey[key] == value {
      var i :| 0 <= i < |s.keys| && s.keys[i] == key;
      assert pairs[i] == (key, value);
    }
    if value in s.byValue && s.byValue[value] == key {
      var i :| 0 <= i < |s.values| && s.values[i] == value;
      assert s.byValue[s.values[i]] == s.keys[i];
    }
    if (key, value) in pairs {
      var i :| 0 <= i < |pairs| && pairs[i] == (key, value);
    }
  }

  /** Taking the oldest pair out. */
  lemma PopKeepsStep<K, V>(s: State<K, V>)
    requires InStep(s)
    ensures InStep(Popped(s).0) && (Inverse(s) ==> Inverse(Popped(s).0))
    ensures Popped(s).1 == if s.keys == [] then None else Some(Pairs(s)[0])
    ensures Pairs(Popped(s).0) == if s.keys == [] then [] else Pairs(s)[1..]
  {
    if s.keys != [] {
      MapOfTail(s.byKey, s.keys, s.values);
      if Inverse(s) {
        MapOfTail(s.byValue, s.values, s.keys);
      }
    }
  }

  lemma RoomKeepsStep<K, V>(s: State<K, V>)
    requires InStep(s)
    ensures InStep(MadeRoom(s)) && (Inverse(s) ==> Inverse(MadeRoom(s)))
    ensures Pairs(MadeRoom(s)) == if |s.keys| == s.capacity && s.keys != [] then Pairs(s)[1..] else Pairs(s)
  {
    PopKeepsStep(s);
  }

  /** An insertion keeps the buffer in step exactly when its key is not among the pairs that stay. */
  lemma InsertKeepsStep<K, V>(s: State<K, V>, key: K, value: V)
    requires InStep(s)
    ensures InStep(Inserted(s, key, value)) <==> key !in MadeRoom(s).keys
    ensures key !in MadeRoom(s).keys ==> Pairs(Inserted(s, key, value)) == Pairs(MadeRoom(s)) + [(key, value)]
  {
    RoomKeepsStep(s);
    MapOfAppend(MadeRoom(s).byKey, MadeRoom(s).keys, MadeRoom(s).values, key, value);
  }

  /** And the two maps inverse exactly when its value is not among them either. */
  lemma InsertKeepsInverse<K, V>(s: State<K, V>, key: K, value: V)
    requires Inverse(s) && key !in MadeRoom(s).keys
    ensures Inverse(Inserted(s, key, value)) <==> value !in MadeRoom(s).values
  {
    RoomKeepsStep(s);
    InsertKeepsStep(s, key, value);
    MapOfAppend(MadeRoom(s).byValue, MadeRoom(s).values, MadeRoom(s).keys, value, key);
  }

  /** A buffer of capacity 0 grows with every insertion: only a positive capacity bounds the size. */
  lemma InsertKeepsBound<K, V>(s: State<K, V>, key: K, value: V)
    ensures |s.keys| <= s.capacity ==> (|Inserted(s, key, value).keys| <= s.capacity <==> s.capacity > 0)
    ensures s.capacity == 0 ==> |Inserted(s, key, value).keys| == |s.keys| + 1
  {
  }

  // ---- runs ----

  datatype Operation<K, V> = DoInsert(key: K, value: V) | DoPop

  function Step<K, V>(s: State<K, V>, op: Operation<K, V>): State<K, V> {
    match op
    case DoInsert(key, value) => Inserted(s, key, value)
    case DoPop => Popped(s).0
  }

  function After<K, V>(s: State<K, V>, ops: seq<Operation<K, V>>, n: nat): State<K, V>
    requires n <= |ops|
  {
    if n == 0 then s else Step(After(s, ops, n - 1), ops[n - 1])
  }

  /** What stays of a queue when there has to be room for one more. */
  function Kept<T>(q: seq<T>, capacity: nat): seq<T>
    requires capacity > 0
  {
    if |q| == capacity then q[1..] else q
  }

  /** A queue of pairs that holds the last `capacity` of them. */
  function QueueAfter<K, V>(ops: seq<Operation<K, V>>, n: nat, capacity: nat): (q: seq<(K, V)>)
    requires n <= |ops| && capacity > 0
    ensures |q| <= capacity
  {
    if n == 0 then []
    else
      var q := QueueAfter(ops, n - 1, capacity);
      match ops[n - 1]
      case DoInsert(key, value) => Kept(q, capacity) + [(key, value)]
      case DoPop => if q == [] then [] else q[1..]
  }

  /** No insertion brings in a key or a value that stays in the queue from before. */
  ghost predicate AlwaysFresh<K, V>(ops: seq<Operation<K, V>>, n: nat, capacity: nat)
    requires n <= |ops| && capacity > 0
  {
    forall i, pair :: 0 <= i < n && ops[i].DoInsert? && pair in Kept(QueueAfter(ops, i, capacity), capacity) ==>
      pair.0 != ops[i].key && pair.1 != ops[i].value
  }

  lemma FreshInsert<K, V>(s: State<K, V>, key: K, value: V)
    requires Inverse(s)
    requires forall pair :: pair in Pairs(MadeRoom(s)) ==> pair.0 != key && pair.1 != value
    ensures key !in MadeRoom(s).keys && value !in MadeRoom(s).values
  {
    RoomKeepsStep(s);
    var r := MadeRoom(s);
    forall i | 0 <= i < |r.keys|
      ensures r.keys[i] != key && r.values[i] != value
    {
      assert Pairs(r)[i] in Pairs(r);
    }
  }

  /**
   Any run of insertions of fresh pairs and of pops keeps the four collections together:
   they hold the most recently inserted pairs not yet popped, at most `capacity` of them.
   */
  lemma {:induction false} RunIsQueue<K, V>(ops: seq<Operation<K, V>>, n: nat, capacity: nat)
    requires n <= |ops| && capacity > 0 && AlwaysFresh(ops, n, capacity)
    ensures var s := After(State(map[], map[], [], [], capacity), ops, n);
      Inverse(s) && s.capacity == capacity && Pairs(s) == QueueAfter(ops, n, capacity)
  {
    if n == 0 {
    } else {
      RunIsQueue(ops, n - 1, capacity);
      var s := After(State(map[], map[], [], [], capacity), ops, n - 1);
      var q := QueueAfter(ops, n - 1, capacity);
      PopKeepsStep(s);
      match ops[n - 1]
      case DoPop =>
      case DoInsert(key, value) =>
        RoomKeepsStep(s);
        assert Pairs(MadeRoom(s)) == Kept(q, capacity);
        FreshInsert(s, key, value);
        InsertKeepsStep(s, key, value);
        InsertKeepsInverse(s, key, value);
    }
  }
}

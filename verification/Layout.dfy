/**
 Fixed layouts: a stretch of bytes split into fields one after the other, each holding a
 value of its kind. `Pack` writes the values over whatever the bytes were; padded
 strings and absent options leave some of the old bytes standing.
 */
module Layout {
  import opened Bytes
  import opened Pack

  datatype Kind =
    | KTag(limit: nat)      // one byte below the limit: an enumeration, or a bool with limit 2
    | KNum(size: nat)       // an unsigned number of `size` bytes
    | KTime                 // a signed 64-bit number
    | KKey                  // a 32-byte address
    | KOptKey               // an optional address
    | KOptU32               // an optional 32-bit number
    | KStr                  // a 64-byte string

  datatype Value =
    | VTag(tag: nat)
    | VNum(num: nat)
    | VTime(time: int)
    | VKey(key: Key)
    | VOptKey(optKey: Option<Key>)
    | VOptU32(optNum: Option<u32>)
    | VStr(str: Name)

  function Size(k: Kind): nat {
    match k
    case KTag(_) => 1
    case KNum(size) => size
    case KTime => 8
    case KKey => 32
    case KOptKey => 33
    case KOptU32 => 5
    case KStr => 64
  }

  /** The value is one that the field can hold. */
  predicate Fits(k: Kind, v: Value) {
    match (k, v)
    case (KTag(limit), VTag(t)) => t < limit <= 256
    case (KNum(size), VNum(n)) => n < Pow256(size)
    case (KTime, VTime(t)) => -0x8000_0000_0000_0000 <= t < 0x8000_0000_0000_0000
    case (KKey, VKey(_)) => true
    case (KOptKey, VOptKey(_)) => true
    case (KOptU32, VOptU32(_)) => true
    case (KStr, VStr(_)) => true
    case _ => false
  }

  /** Two's complement. */
  function TimeBits(t: int): nat
    requires -0x8000_0000_0000_0000 <= t < 0x8000_0000_0000_0000
  {
    if t < 0 then t + U64_MOD else t
  }

  /** What a field that held `old_` holds after the value was packed into it. */
  function PackOver(k: Kind, v: Value, field: seq<byte>): (r: seq<byte>)
    requires Fits(k, v) && |field| == Size(k)
    ensures |r| == |field|
  {
    match v
    case VTag(t) => [t]
    case VNum(n) => ToLe(n, Size(k))
    case VTime(t) => ToLe(TimeBits(t), 8)
    case VKey(key) => key
    case VOptKey(o) => (match o case Some(key) => [1] + key case None => [0] + field[1..])
    case VOptU32(o) => (match o case Some(n) => [1] + ToLe(n, 4) case None => [0] + field[1..])
    case VStr(s) => NameOver(field, s)
  }

  function UnpackField(k: Kind, field: seq<byte>): Option<Value>
    requires |field| == Size(k)
  {
    match k
    case KTag(limit) => if field[0] < limit then Some(VTag(field[0])) else None
    case KNum(_) => Some(VNum(Le(field)))
    case KTime => (var n := Le(field); Some(VTime(if n < 0x8000_0000_0000_0000 then n else n - U64_MOD)))
    case KKey => Some(VKey(field))
    case KOptKey =>
      if field[0] == 0 then Some(VOptKey(None))
      else if field[0] == 1 then Some(VOptKey(Some(field[1..])))
      else None
    case KOptU32 =>
      if field[0] == 0 then Some(VOptU32(None))
      else if field[0] == 1 then (LeBound(field[1..]); PowValues(); Some(VOptU32(Some(Le(field[1..])))))
      else None
    case KStr => Some(VStr(UnpackName(field)))
  }

  /** A string is cut off by nothing that stood in the field before. */
  predicate Clean(v: Value, field: seq<byte>) {
    v.VStr? && 0 < |v.str| < NAME_LEN ==> |field| == NAME_LEN && field[|v.str|] == 0
  }

  /** One field: the value comes back exactly when the field is clean for it. */
  lemma FieldRoundTrip(k: Kind, v: Value, field: seq<byte>)
    requires Fits(k, v) && |field| == Size(k)
    ensures UnpackField(k, PackOver(k, v, field)) == Some(v) <==> Clean(v, field)
  {
    PowValues();
    match v
    case VTag(_) =>
    case VNum(n) => LeOfToLe(n, Size(k));
    case VTime(t) => LeOfToLe(TimeBits(t), 8);
    case VKey(_) =>
    case VOptKey(o) =>
      if o.Some? {
        assert PackOver(k, v, field)[1..] == o.value;
      }
    case VOptU32(o) =>
      if o.Some? {
        LeOfToLe(o.value, 4);
        assert PackOver(k, v, field)[1..] == ToLe(o.value, 4);
      }
    case VStr(s) => NameOverRoundTrip(field, s);
  }

  /** What is unpacked fits, and the bytes it came from are clean for it. */
  lemma UnpackedFits(k: Kind, field: seq<byte>)
    requires |field| == Size(k) && (k.KTag? ==> k.limit <= 256) && UnpackField(k, field).Some?
    ensures Fits(k, UnpackField(k, field).value) && Clean(UnpackField(k, field).value, field)
  {
    PowValues();
    LeBound(field);
  }

  /** Packing what a field holds back into it changes no byte. */
  lemma FieldRepacks(k: Kind, field: seq<byte>)
    requires |field| == Size(k) && (k.KTag? ==> k.limit <= 256) && UnpackField(k, field).Some?
    ensures Fits(k, UnpackField(k, field).value) && PackOver(k, UnpackField(k, field).value, field) == field
  {
    UnpackedFits(k, field);
    match k
    case KNum(_) => ToLeOfLe(field);
    case KTime => TimeRepacks(field);
    case KOptKey => assert field == [field[0]] + field[1..];
    case KOptU32 => OptionRepacks(field);
    case KStr => assert NameOver(field, UnpackName(field)) == field;
    case _ =>
  }

  lemma OptionRepacks(field: seq<byte>)
    requires |field| == 5 && UnpackField(KOptU32, field).Some?
    ensures PackOver(KOptU32, UnpackField(KOptU32, field).value, field) == field
  {
    ToLeOfLe(field[1..]);
    assert field == [field[0]] + field[1..];
  }

  lemma TimeRepacks(field: seq<byte>)
    requires |field| == 8
    ensures UnpackField(KTime, field).Some? && Fits(KTime, UnpackField(KTime, field).value)
    ensures PackOver(KTime, UnpackField(KTime, field).value, field) == field
  {
    LeBound(field);
    PowValues();
    ToLeOfLe(field);
  }

  // ---- whole layouts ----

  function TotalSize(ks: seq<Kind>): nat {
    if ks == [] then 0 else Size(ks[0]) + TotalSize(ks[1..])
  }

  predicate AllFit(ks: seq<Kind>, vs: seq<Value>) {
    |ks| == |vs| && forall i :: 0 <= i < |ks| ==> Fits(ks[i], vs[i])
  }

  lemma {:induction false} SizeOfBoth(a: seq<Kind>, b: seq<Kind>)
    ensures TotalSize(a + b) == TotalSize(a) + TotalSize(b)
  {
    if a == [] {
      assert a + b == b;
    } else {
      assert (a + b)[1..] == a[1..] + b;
      SizeOfBoth(a[1..], b);
    }
  }

  /** `n` fields of the same kind. */
  function Many(k: Kind, n: nat): (r: seq<Kind>)
    ensures |r| == n && forall i :: 0 <= i < n ==> r[i] == k
  {
    seq(n, _ => k)
  }

  lemma {:induction false} SizeOfMany(k: Kind, n: nat)
    ensures TotalSize(Many(k, n)) == n * Size(k)
  {
    if n == 0 {
    } else {
      SizeOfMany(k, n - 1);
      assert Many(k, n)[1..] == Many(k, n - 1);
      assert n * Size(k) == (n - 1) * Size(k) + Size(k);
    }
  }

  /** The bytes after packing all values over `b`. */
  function PackAll(ks: seq<Kind>, vs: seq<Value>, b: seq<byte>): (r: seq<byte>)
    requires AllFit(ks, vs) && |b| == TotalSize(ks)
    ensures |r| == |b|
  {
    if ks == [] then []
    else
      PackOver(ks[0], vs[0], b[..Size(ks[0])]) + PackAll(ks[1..], vs[1..], b[Size(ks[0])..])
  }

  /** All values, or none when one of the fields holds none. */
  function UnpackAll(ks: seq<Kind>, b: seq<byte>): Option<seq<Value>>
    requires |b| == TotalSize(ks)
  {
    if ks == [] then Some([])
    else
      match (UnpackField(ks[0], b[..Size(ks[0])]), UnpackAll(ks[1..], b[Size(ks[0])..]))
      case (Some(v), Some(vs)) => Some([v] + vs)
      case _ => None
  }

  predicate AllClean(ks: seq<Kind>, vs: seq<Value>, b: seq<byte>)
    requires |ks| == |vs| && |b| == TotalSize(ks)
  {
    ks != [] ==> Clean(vs[0], b[..Size(ks[0])]) && AllClean(ks[1..], vs[1..], b[Size(ks[0])..])
  }

  /**
   Packing over any bytes and unpacking gives the values back exactly when no string is
   followed by leftovers of an older, longer one.
   */
  lemma {:induction false} LayoutRoundTrip(ks: seq<Kind>, vs: seq<Value>, b: seq<byte>)
    requires AllFit(ks, vs) && |b| == TotalSize(ks)
    ensures UnpackAll(ks, PackAll(ks, vs, b)) == Some(vs) <==> AllClean(ks, vs, b)
  {
    if ks == [] {
    } else {
      var n := Size(ks[0]);
      var head, rest := PackOver(ks[0], vs[0], b[..n]), PackAll(ks[1..], vs[1..], b[n..]);
      var packed := PackAll(ks, vs, b);
      assert packed[..n] == head && packed[n..] == rest;
      FieldRoundTrip(ks[0], vs[0], b[..n]);
      LayoutRoundTrip(ks[1..], vs[1..], b[n..]);
      assert vs == [vs[0]] + vs[1..];
    }
  }

  /** Where field `j` begins. */
  function FieldOffset(ks: seq<Kind>, j: nat): nat
    requires j <= |ks|
  {
    if j == 0 then 0 else Size(ks[0]) + FieldOffset(ks[1..], j - 1)
  }

  lemma {:induction false} NextOffset(ks: seq<Kind>, j: nat)
    requires j < |ks|
    ensures FieldOffset(ks, j + 1) == FieldOffset(ks, j) + Size(ks[j])
  {
    if j == 0 {
    } else {
      NextOffset(ks[1..], j - 1);
    }
  }

  lemma {:induction false} FieldInside(ks: seq<Kind>, j: nat, o: nat, n: nat)
    requires j < |ks| && o == FieldOffset(ks, j) && n == Size(ks[j])
    ensures o + n <= TotalSize(ks)
  {
    if j == 0 {
    } else {
      FieldInside(ks[1..], j - 1, o - Size(ks[0]), n);
    }
  }

  /** Each field stands at its own offset, and depends on no other value. */
  lemma FieldLiesAt(
      ks: seq<Kind>, vs: seq<Value>, d: seq<byte>, j: nat, o: nat, k: Kind, v: Value, field: seq<byte>)
    requires AllFit(ks, vs) && |d| == TotalSize(ks)
    requires j < |ks| && k == ks[j] && v == vs[j]
    requires o == FieldOffset(ks, j) && o + Size(k) <= |d| && field == d[o..o + Size(k)]
    ensures PackAll(ks, vs, d)[o..o + Size(k)] == PackOver(k, v, field)
  {
    PackedLiesAt(ks, vs, d, j, o, k, v, field, PackAll(ks, vs, d), PackOver(k, v, field));
  }

  lemma {:induction false} PackedLiesAt(
      ks: seq<Kind>, vs: seq<Value>, d: seq<byte>, j: nat, o: nat, k: Kind, v: Value, field: seq<byte>,
      all: seq<byte>, x: seq<byte>)
    requires AllFit(ks, vs) && |d| == TotalSize(ks) && all == PackAll(ks, vs, d)
    requires j < |ks| && k == ks[j] && v == vs[j]
    requires o == FieldOffset(ks, j) && o + Size(k) <= |d| && field == d[o..o + Size(k)] && x == PackOver(k, v, field)
    ensures all[o..o + |x|] == x
    decreases j
  {
    if j == 0 {
      FirstFieldLies(ks, vs, d);
    } else {
      var ks', vs', d', o', head, tail := Later(ks, vs, d, j, o, k, v, field);
      PackedLiesAt(ks', vs', d', j - 1, o', k, v, field, tail, x);
      SliceOfTail(all, head, tail, o, o', x);
    }
  }

  lemma FirstFieldLies(ks: seq<Kind>, vs: seq<Value>, d: seq<byte>)
    requires AllFit(ks, vs) && |d| == TotalSize(ks) && ks != []
    ensures PackAll(ks, vs, d)[0..Size(ks[0])] == PackOver(ks[0], vs[0], d[0..Size(ks[0])])
  {
  }

  /** All but the first field: the rest of the layout, of the values and of the bytes, and the position there. */
  lemma Later(ks: seq<Kind>, vs: seq<Value>, d: seq<byte>, j: nat, o: nat, k: Kind, v: Value, field: seq<byte>)
    returns (ks': seq<Kind>, vs': seq<Value>, d': seq<byte>, o': nat, head: seq<byte>, tail: seq<byte>)
    requires AllFit(ks, vs) && |d| == TotalSize(ks) && 0 < j < |ks| && k == ks[j] && v == vs[j]
    requires o == FieldOffset(ks, j) && o + Size(k) <= |d| && field == d[o..o + Size(k)]
    ensures AllFit(ks', vs') && |d'| == TotalSize(ks') && j - 1 < |ks'| && ks'[j - 1] == k && vs'[j - 1] == v
    ensures o' == FieldOffset(ks', j - 1) && o' + Size(k) <= |d'| && field == d'[o'..o' + Size(k)]
    ensures o == |head| + o' && tail == PackAll(ks', vs', d') && PackAll(ks, vs, d) == head + tail
  {
    var m := Size(ks[0]);
    RestFits(ks, vs, d);
    LaterOffset(ks, j);
    ks', vs', d', o' := ks[1..], vs[1..], d[m..], o - m;
    head, tail := PackOver(ks[0], vs[0], d[..m]), PackAll(ks', vs', d');
    LaterField(d, m, o, Size(k));
  }

  lemma LaterOffset(ks: seq<Kind>, j: nat)
    requires 0 < j < |ks|
    ensures FieldOffset(ks, j) == Size(ks[0]) + FieldOffset(ks[1..], j - 1) && ks[1..][j - 1] == ks[j]
  {
  }

  lemma RestFits(ks: seq<Kind>, vs: seq<Value>, d: seq<byte>)
    requires AllFit(ks, vs) && |d| == TotalSize(ks) && ks != []
    ensures AllFit(ks[1..], vs[1..]) && Size(ks[0]) <= |d| && |d[Size(ks[0])..]| == TotalSize(ks[1..])
    ensures Fits(ks[0], vs[0])
    ensures PackAll(ks, vs, d) == PackOver(ks[0], vs[0], d[..Size(ks[0])]) + PackAll(ks[1..], vs[1..], d[Size(ks[0])..])
  {
  }

  lemma LaterField(d: seq<byte>, m: nat, o: nat, n: nat)
    requires m <= o && o + n <= |d|
    ensures d[m..][o - m..o - m + n] == d[o..o + n]
  {
  }

  lemma SliceOfTail(all: seq<byte>, head: seq<byte>, tail: seq<byte>, o: nat, o': nat, x: seq<byte>)
    requires all == head + tail && o == |head| + o' && o' + |x| <= |tail| && tail[o'..o' + |x|] == x
    ensures all[o..o + |x|] == x
  {
  }

  /** Zeroed bytes are clean for everything. */
  lemma {:induction false} ZeroedIsClean(ks: seq<Kind>, vs: seq<Value>)
    requires AllFit(ks, vs)
    ensures AllClean(ks, vs, Zeros(TotalSize(ks)))
  {
    if ks == [] {
    } else {
      var n, b := Size(ks[0]), Zeros(TotalSize(ks));
      ZeroedIsClean(ks[1..], vs[1..]);
      assert b[n..] == Zeros(TotalSize(ks[1..]));
    }
  }

  /** So are the bytes the values came from: packing them back and unpacking gives them again. */
  lemma {:induction false} UnpackedIsClean(ks: seq<Kind>, b: seq<byte>)
    requires |b| == TotalSize(ks) && UnpackAll(ks, b).Some?
    requires forall i :: 0 <= i < |ks| && ks[i].KTag? ==> ks[i].limit <= 256
    ensures AllFit(ks, UnpackAll(ks, b).value) && AllClean(ks, UnpackAll(ks, b).value, b)
  {
    if ks == [] {
    } else {
      var n := Size(ks[0]);
      UnpackedFits(ks[0], b[..n]);
      UnpackedIsClean(ks[1..], b[n..]);
      var vs := UnpackAll(ks, b).value;
      assert vs[1..] == UnpackAll(ks[1..], b[n..]).value;
    }
  }

  predicate LimitsAreSmall(ks: seq<Kind>) {
    forall i :: 0 <= i < |ks| && ks[i].KTag? ==> ks[i].limit <= 256
  }

  /** The bytes of the first field, which packing gives back, and all that comes after it. */
  lemma UnpackedInParts(ks: seq<Kind>, vs: seq<Value>, b: seq<byte>)
    returns (head: seq<byte>, ks': seq<Kind>, vs': seq<Value>, b': seq<byte>)
    requires |b| == TotalSize(ks) && UnpackAll(ks, b) == Some(vs) && AllFit(ks, vs) && LimitsAreSmall(ks) && ks != []
    ensures |ks'| < |ks| && |b'| == TotalSize(ks') && UnpackAll(ks', b') == Some(vs') && AllFit(ks', vs')
    ensures LimitsAreSmall(ks') && b == head + b' && PackAll(ks, vs, b) == head + PackAll(ks', vs', b')
  {
    var n := Size(ks[0]);
    head, ks', vs', b' := b[..n], ks[1..], vs[1..], b[n..];
    RestUnpacks(ks, vs, b);
    FieldRepacks(ks[0], head);
    RestFits(ks, vs, b);
    CutInTwo(b, n);
  }

  lemma CutInTwo<T>(b: seq<T>, n: nat)
    requires n <= |b|
    ensures b == b[..n] + b[n..]
  {
  }

  lemma RestUnpacks(ks: seq<Kind>, vs: seq<Value>, b: seq<byte>)
    requires |b| == TotalSize(ks) && UnpackAll(ks, b) == Some(vs) && ks != [] && LimitsAreSmall(ks)
    ensures |vs| > 0 && Size(ks[0]) <= |b| && |b[Size(ks[0])..]| == TotalSize(ks[1..]) && LimitsAreSmall(ks[1..])
    ensures UnpackField(ks[0], b[..Size(ks[0])]) == Some(vs[0])
    ensures UnpackAll(ks[1..], b[Size(ks[0])..]) == Some(vs[1..])
  {
  }

  /** Packing the values that the bytes hold back over them changes no byte. */
  lemma {:induction false} UnpackedRepacks(ks: seq<Kind>, vs: seq<Value>, b: seq<byte>)
    requires |b| == TotalSize(ks) && UnpackAll(ks, b) == Some(vs) && AllFit(ks, vs) && LimitsAreSmall(ks)
    ensures PackAll(ks, vs, b) == b
    decreases |ks|
  {
    if ks != [] {
      var head, ks', vs', b' := UnpackedInParts(ks, vs, b);
      UnpackedRepacks(ks', vs', b');
    }
  }

  // ---- layouts made of sections ----

  function Join<T>(parts: seq<seq<T>>): seq<T> {
    if parts == [] then [] else parts[0] + Join(parts[1..])
  }

  function LengthFrom<T>(parts: seq<seq<T>>, i: nat): nat
    decreases |parts| - i
  {
    if i < |parts| then |parts[i]| + LengthFrom(parts, i + 1) else 0
  }

  lemma {:induction false} LengthFromIsLength<T>(parts: seq<seq<T>>, i: nat)
    requires i <= |parts|
    ensures LengthFrom(parts, i) == |Join(parts[i..])|
    decreases |parts| - i
  {
    if i == |parts| {
    } else {
      LengthFromIsLength(parts, i + 1);
      assert parts[i..][1..] == parts[i + 1..];
    }
  }

  function PartLength<T>(parts: seq<seq<T>>, i: nat): nat {
    if i < |parts| then |parts[i]| else 0
  }

  lemma LengthStep<T>(parts: seq<seq<T>>, i: nat)
    ensures LengthFrom(parts, i) == PartLength(parts, i) + LengthFrom(parts, i + 1)
  {
  }

  lemma LengthOfJoin<T>(parts: seq<seq<T>>)
    requires |parts| <= 8
    ensures |Join(parts)| ==
      PartLength(parts, 0) + PartLength(parts, 1) + PartLength(parts, 2) + PartLength(parts, 3)
      + PartLength(parts, 4) + PartLength(parts, 5) + PartLength(parts, 6) + PartLength(parts, 7)
  {
    assert parts[0..] == parts;
    LengthFromIsLength(parts, 0);
    forall i | 0 <= i < 8
      ensures LengthFrom(parts, i) == PartLength(parts, i) + LengthFrom(parts, i + 1)
    {
      LengthStep(parts, i);
    }
    assert LengthFrom(parts, 8) == 0;
  }

  /** The size of section `i`, if there is one. */
  function SectionSize(kss: seq<seq<Kind>>, i: nat): nat {
    if i < |kss| then TotalSize(kss[i]) else 0
  }

  /** The size of all sections from number `i` on. */
  function SizeFrom(kss: seq<seq<Kind>>, i: nat): nat
    decreases |kss| - i
  {
    if i < |kss| then TotalSize(kss[i]) + SizeFrom(kss, i + 1) else 0
  }

  lemma {:induction false} SizeFromIsSize(kss: seq<seq<Kind>>, i: nat)
    requires i <= |kss|
    ensures SizeFrom(kss, i) == TotalSize(Join(kss[i..]))
    decreases |kss| - i
  {
    if i == |kss| {
    } else {
      SizeFromIsSize(kss, i + 1);
      assert kss[i..][1..] == kss[i + 1..];
      SizeOfBoth(kss[i], Join(kss[i + 1..]));
    }
  }

  lemma SizeStep(kss: seq<seq<Kind>>, i: nat)
    ensures SizeFrom(kss, i) == SectionSize(kss, i) + SizeFrom(kss, i + 1)
  {
  }

  lemma SizeOfJoin(kss: seq<seq<Kind>>)
    requires |kss| <= 8
    ensures TotalSize(Join(kss)) ==
      SectionSize(kss, 0) + SectionSize(kss, 1) + SectionSize(kss, 2) + SectionSize(kss, 3)
      + SectionSize(kss, 4) + SectionSize(kss, 5) + SectionSize(kss, 6) + SectionSize(kss, 7)
  {
    assert kss[0..] == kss;
    SizeFromIsSize(kss, 0);
    forall i | 0 <= i < 8
      ensures SizeFrom(kss, i) == SectionSize(kss, i) + SizeFrom(kss, i + 1)
    {
      SizeStep(kss, i);
    }
    assert SizeFrom(kss, 8) == 0;
  }

  ghost predicate SectionsFit(kss: seq<seq<Kind>>, vss: seq<seq<Value>>) {
    |kss| == |vss| && forall i :: 0 <= i < |kss| ==> AllFit(kss[i], vss[i])
  }

  lemma {:induction false} JoinFits(kss: seq<seq<Kind>>, vss: seq<seq<Value>>)
    requires SectionsFit(kss, vss)
    ensures AllFit(Join(kss), Join(vss))
  {
    if kss == [] {
    } else {
      JoinFits(kss[1..], vss[1..]);
      BothFit(kss[0], vss[0], Join(kss[1..]), Join(vss[1..]));
    }
  }

  lemma BothFit(a: seq<Kind>, va: seq<Value>, b: seq<Kind>, vb: seq<Value>)
    requires AllFit(a, va) && AllFit(b, vb)
    ensures AllFit(a + b, va + vb)
  {
  }

  /** Cuts values into sections of the lengths of those of the layout. */
  function CutLike(kss: seq<seq<Kind>>, vs: seq<Value>): (r: seq<seq<Value>>)
    requires |vs| == |Join(kss)|
    ensures |r| == |kss|
  {
    if kss == [] then [] else [vs[..|kss[0]|]] + CutLike(kss[1..], vs[|kss[0]|..])
  }

  lemma {:induction false} CutOfJoin(kss: seq<seq<Kind>>, vss: seq<seq<Value>>)
    requires SectionsFit(kss, vss)
    ensures |Join(vss)| == |Join(kss)| && CutLike(kss, Join(vss)) == vss
  {
    if kss == [] {
    } else {
      CutOfJoin(kss[1..], vss[1..]);
      var vs := Join(vss);
      assert vs[..|kss[0]|] == vss[0] && vs[|kss[0]|..] == Join(vss[1..]);
    }
  }

  lemma {:induction false} CutFits(kss: seq<seq<Kind>>, vs: seq<Value>)
    requires AllFit(Join(kss), vs)
    ensures SectionsFit(kss, CutLike(kss, vs)) && Join(CutLike(kss, vs)) == vs
  {
    if kss == [] {
    } else {
      var n, rest := |kss[0]|, Join(kss[1..]);
      PartsFit(kss[0], rest, vs);
      CutFits(kss[1..], vs[n..]);
      CutHead(kss, vs);
      CutInTwo(vs, n);
    }
  }

  lemma PartsFit(a: seq<Kind>, b: seq<Kind>, vs: seq<Value>)
    requires AllFit(a + b, vs)
    ensures AllFit(a, vs[..|a|]) && AllFit(b, vs[|a|..])
  {
    assert forall i :: 0 <= i < |a| ==> a[i] == (a + b)[i];
    assert forall i :: 0 <= i < |b| ==> b[i] == (a + b)[|a| + i];
  }

  lemma CutHead(kss: seq<seq<Kind>>, vs: seq<Value>)
    requires kss != [] && |vs| == |Join(kss)|
    ensures |kss[0]| <= |vs| && |vs[|kss[0]|..]| == |Join(kss[1..])|
    ensures CutLike(kss, vs)[0] == vs[..|kss[0]|]
    ensures CutLike(kss, vs)[1..] == CutLike(kss[1..], vs[|kss[0]|..])
  {
  }

  // ---- packing in place ----

  /** Packs one value into the field that begins at `at`, where `field` stood before. */
  method PackField(output: array<byte>, at: nat, k: Kind, v: Value, ghost field: seq<byte>)
    requires Fits(k, v) && at + Size(k) <= output.Length
    requires |field| == Size(k) && output[..][at..at + Size(k)] == field
    modifies output
    ensures output[..] == Patch(old(output[..]), at, PackOver(k, v, field))
  {
    ghost var b := output[..];
    match v {
      case VTag(t) =>
        CopyInto(output, at, [t]);
      case VNum(n) =>
        CopyInto(output, at, ToLe(n, Size(k)));
      case VTime(t) =>
        CopyInto(output, at, ToLe(TimeBits(t), 8));
      case VKey(key) =>
        CopyInto(output, at, key);
      case VOptKey(Some(key)) =>
        CopyInto(output, at, [1] + key);
      case VOptKey(None) =>
        CopyInto(output, at, [0]);
        PatchPart(b, at, [0], field);
      case VOptU32(Some(n)) =>
        CopyInto(output, at, [1] + ToLe(n, 4));
      case VOptU32(None) =>
        CopyInto(output, at, [0]);
        PatchPart(b, at, [0], field);
      case VStr(s) =>
        if |s| > 0 {
          CopyInto(output, at, s);
          PatchPart(b, at, s, field);
        } else {
          CopyInto(output, at, [0]);
          PatchPart(b, at, [0], field);
        }
    }
  }

  /** Overwriting the beginning of a field only is overwriting it all with the rest left as it was. */
  lemma PatchPart(b: seq<byte>, at: nat, x: seq<byte>, field: seq<byte>)
    requires |x| <= |field| && at + |field| <= |b| && field == b[at..at + |field|]
    ensures Patch(b, at, x) == Patch(b, at, x + field[|x|..]) == Patch(b, at, Patch(field, 0, x))
  {
  }

  /** Packs all values, field by field, from `at` on, where `all` stood before. */
  method PackFields(output: array<byte>, at: nat, ks: seq<Kind>, vs: seq<Value>, ghost all: seq<byte>)
    requires AllFit(ks, vs) && |all| == TotalSize(ks)
    requires at + |all| <= output.Length && output[..][at..at + |all|] == all
    modifies output
    ensures output[..] == Patch(old(output[..]), at, PackAll(ks, vs, all))
    decreases |ks|, 0
  {
    ghost var b := output[..];
    if |ks| == 0 {
      assert PackAll(ks, vs, all) == [] && Patch(b, at, []) == b;
      return;
    } else {
      var n := Size(ks[0]);
      ghost var head := all[..n];
      FirstField(ks, vs, all, n);
      SplitSlice(b, at, n, |all| - n);
      PackField(output, at, ks[0], vs[0], head);
      PackLater(output, at, n, ks[1..], vs[1..], b, PackOver(ks[0], vs[0], head), all);
      assert PackAll(ks, vs, all) == PackOver(ks[0], vs[0], head) + PackAll(ks[1..], vs[1..], all[n..]);
    }
  }

  /** Packs the other values, after a first field of `n` bytes that now holds `x`. */
  method PackLater(output: array<byte>, at: nat, n: nat, ks: seq<Kind>, vs: seq<Value>,
                   ghost b: seq<byte>, ghost x: seq<byte>, ghost all: seq<byte>)
    requires AllFit(ks, vs) && |x| == n <= |all| && |all[n..]| == TotalSize(ks)
    requires at + |all| <= |b| && b[at..at + |all|] == all
    requires output[..] == Patch(b, at, x)
    modifies output
    ensures output[..] == Patch(b, at, x + PackAll(ks, vs, all[n..]))
    decreases |ks|, 1
  {
    ghost var rest := all[n..];
    ghost var tail := PackAll(ks, vs, rest);
    PatchInParts(b, at, all, rest, n, x, tail);
    PackFields(output, at + n, ks, vs, rest);
  }

  lemma FirstField(ks: seq<Kind>, vs: seq<Value>, all: seq<byte>, n: nat)
    requires ks != [] && AllFit(ks, vs) && |all| == TotalSize(ks) && n == Size(ks[0])
    ensures n <= |all| && |all[n..]| == TotalSize(ks[1..]) && AllFit(ks[1..], vs[1..]) && Fits(ks[0], vs[0])
  {
  }

  lemma PatchInParts(b: seq<byte>, at: nat, all: seq<byte>, rest: seq<byte>, n: nat, head: seq<byte>, tail: seq<byte>)
    requires at + |all| <= |b| && b[at..at + |all|] == all
    requires |head| == n <= |all| && rest == all[n..] && |tail| == |rest|
    ensures Patch(b, at, head)[at + n..at + n + |rest|] == rest
    ensures Patch(Patch(b, at, head), at + n, tail) == Patch(b, at, head + tail)
  {
    SplitSlice(b, at, n, |all| - n);
    PatchOutside(b, at + n, at + |all|, at, head);
    PatchTwice(b, at, head, tail);
  }

  lemma SplitSlice(b: seq<byte>, at: nat, n: nat, m: nat)
    requires at + n + m <= |b|
    ensures b[at..at + (n + m)][..n] == b[at..at + n]
    ensures b[at..at + (n + m)][n..] == b[at + n..at + n + m]
  {
  }
}

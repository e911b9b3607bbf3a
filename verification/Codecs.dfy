/**
 Packing and unpacking of the stored records of module Records: which layout the first
 byte selects, when unpacking fails, and when it gives back what was packed.
 */
module Codecs {
  import opened Bytes
  import opened Pack
  import opened Layout
  import opened Records

  /** The types that are packed and unpacked. */
  datatype Family = Pools | Farms | Vaults | Funds | FundRequests | FundCustodies | FundVaults

  function FamilyOf(s: Shape): Family {
    match s
    case PoolRaydium => Pools
    case PoolOrca => Pools
    case FarmRaydium => Farms
    case FarmOrca => Farms
    case VaultCompound => Vaults
    case FundPlain => Funds
    case UserRequests => FundRequests
    case Custody => FundCustodies
    case VaultOfFund => FundVaults
  }

  /** The layout that the first byte selects; vaults of the dynamic-hedge kind are not supported. */
  function SelectShape(f: Family, input: seq<byte>): Result<Shape, Error> {
    match f
    case Funds => Ok(FundPlain)
    case FundRequests => Ok(UserRequests)
    case FundCustodies => Ok(Custody)
    case FundVaults => Ok(VaultOfFund)
    case _ =>
      if |input| < 1 then Err(AccountDataTooSmall)
      else if input[0] > 1 then Err(InvalidAccountData)
      else if f.Vaults? then (if input[0] == 0 then Ok(VaultCompound) else Err(UnsupportedSysvar))
      else if f.Pools? then Ok(if input[0] == 0 then PoolRaydium else PoolOrca)
      else Ok(if input[0] == 0 then FarmRaydium else FarmOrca)
  }

  function Unpack(f: Family, input: seq<byte>): Result<Record, Error> {
    match SelectShape(f, input)
    case Err(e) => Err(e)
    case Ok(s) =>
      LayoutLength(s);
      if |input| < Length(s) then Err(AccountDataTooSmall)
      else
        match Decode(s, input[..Length(s)])
        case None => Err(InvalidAccountData)
        case Some(x) => Ok(x)
  }

  /** The record that the bytes of a layout hold. */
  function Decode(s: Shape, b: seq<byte>): Option<Record>
    requires |b| == TotalSize(Kinds(s))
  {
    match UnpackAll(Kinds(s), b)
    case None => None
    case Some(vs) =>
      UnpackedLength(Kinds(s), b);
      Some(FromValues(s, vs))
  }

  lemma {:induction false} UnpackedLength(ks: seq<Kind>, b: seq<byte>)
    requires |b| == TotalSize(ks) && UnpackAll(ks, b).Some?
    ensures |UnpackAll(ks, b).value| == |ks|
  {
    if ks == [] {
    } else {
      UnpackedLength(ks[1..], b[Size(ks[0])..]);
    }
  }

  /** The values of a record fill the fields of its layout. */
  lemma FillsLayout(x: Record)
    requires InRange(x)
    ensures AllFit(Kinds(ShapeOf(x)), Values(x))
    ensures TotalSize(Kinds(ShapeOf(x))) == Length(ShapeOf(x))
  {
    ValuesFit(x);
    JoinFits(Sections(ShapeOf(x)), ValueSections(x));
    KindsAreSections(ShapeOf(x));
    ValuesAreSections(x);
    LayoutLength(ShapeOf(x));
  }

  /** A record packed over the bytes `b`, as far as it reaches. */
  function PackedOver(x: Record, b: seq<byte>): (r: seq<byte>)
    requires InRange(x) && |b| >= Length(ShapeOf(x))
    ensures |r| == |b|
  {
    FillsLayout(x);
    var n := Length(ShapeOf(x));
    PackAll(Kinds(ShapeOf(x)), Values(x), b[..n]) + b[n..]
  }

  /** `to_vec`: packed over zeros. */
  function ToVec(x: Record): seq<byte>
    requires InRange(x)
  {
    PackedOver(x, Zeros(Length(ShapeOf(x))))
  }

  /** No string of the record is followed, in the old bytes, by more of an older string. */
  predicate CleanFor(x: Record, b: seq<byte>)
    requires InRange(x) && |b| >= Length(ShapeOf(x))
  {
    FillsLayout(x);
    AllClean(Kinds(ShapeOf(x)), Values(x), b[..Length(ShapeOf(x))])
  }

  /** A tagged layout begins with the tag, and so do the values of a record that has one. */
  lemma TagIsFirstKind(s: Shape)
    requires TagOf(s).Some?
    ensures Kinds(s)[0] == KTag(2)
  {
    TagSection(s);
    KindsAreSections(s);
  }

  lemma TagIsFirstValue(x: Record)
    requires TagOf(ShapeOf(x)).Some?
    ensures Values(x)[0] == VTag(TagOf(ShapeOf(x)).value)
  {
    ValuesAreSections(x);
    assert ValueSections(x)[0] == [VTag(TagOf(ShapeOf(x)).value)];
  }

  lemma FirstByte(ks: seq<Kind>, vs: seq<Value>, b: seq<byte>, t: nat)
    requires AllFit(ks, vs) && |b| == TotalSize(ks) && ks != [] && ks[0] == KTag(2) && vs[0] == VTag(t)
    ensures |b| > 0 && PackAll(ks, vs, b)[0] == t < 2
  {
  }

  /** The packed bytes select the layout they were packed in. */
  lemma ShapeIsSelected(x: Record, b: seq<byte>)
    requires InRange(x) && |b| >= Length(ShapeOf(x))
    ensures SelectShape(FamilyOf(ShapeOf(x)), PackedOver(x, b)) == Ok(ShapeOf(x))
  {
    if TagOf(ShapeOf(x)).Some? {
      FrontIsPacked(x, b);
      SelectedByTag(ShapeOf(x), PackedOver(x, b), TagOf(ShapeOf(x)).value);
    } else {
      SelectedWithoutTag(ShapeOf(x), PackedOver(x, b));
    }
  }

  lemma SelectedWithoutTag(s: Shape, input: seq<byte>)
    requires TagOf(s).None?
    ensures SelectShape(FamilyOf(s), input) == Ok(s)
  {
  }

  lemma SelectedByTag(s: Shape, input: seq<byte>, t: nat)
    requires |input| > 0 && input[0] == t && TagOf(s) == Some(t)
    ensures SelectShape(FamilyOf(s), input) == Ok(s)
  {
  }

  /**
   Packing a record over any bytes that are long enough: unpacking gives it back exactly
   when those bytes are clean for its strings.
   */
  lemma PackOverRoundTrip(x: Record, b: seq<byte>)
    requires InRange(x) && |b| >= Length(ShapeOf(x))
    ensures Unpack(FamilyOf(ShapeOf(x)), PackedOver(x, b)) == Ok(x) <==> CleanFor(x, b)
  {
    UnpackPacked(x, b);
    FrontRoundTrip(x, b);
  }

  /** What is unpacked is what the bytes of the record's own layout hold. */
  lemma UnpackPacked(x: Record, b: seq<byte>)
    requires InRange(x) && |b| >= Length(ShapeOf(x))
    ensures TotalSize(Kinds(ShapeOf(x))) == Length(ShapeOf(x))
    ensures Unpack(FamilyOf(ShapeOf(x)), PackedOver(x, b)) == Ok(x) <==>
      Decode(ShapeOf(x), PackedOver(x, b)[..Length(ShapeOf(x))]) == Some(x)
  {
    LayoutLength(ShapeOf(x));
    ShapeIsSelected(x, b);
    UnpackIs(FamilyOf(ShapeOf(x)), PackedOver(x, b), ShapeOf(x), x);
  }

  lemma FrontRoundTrip(x: Record, b: seq<byte>)
    requires InRange(x) && |b| >= Length(ShapeOf(x))
    ensures TotalSize(Kinds(ShapeOf(x))) == Length(ShapeOf(x))
    ensures Decode(ShapeOf(x), PackedOver(x, b)[..Length(ShapeOf(x))]) == Some(x) <==> CleanFor(x, b)
  {
    FillsLayout(x);
    var s, n := ShapeOf(x), Length(ShapeOf(x));
    var packed := PackAll(Kinds(s), Values(x), b[..n]);
    FrontIsPacked(x, b);
    LayoutRoundTrip(Kinds(s), Values(x), b[..n]);
    DecodesTo(x, s, packed);
  }

  /** The front of the packed bytes, and its first byte. */
  lemma FrontIsPacked(x: Record, b: seq<byte>)
    requires InRange(x) && |b| >= Length(ShapeOf(x))
    ensures AllFit(Kinds(ShapeOf(x)), Values(x)) && TotalSize(Kinds(ShapeOf(x))) == Length(ShapeOf(x))
    ensures var packed := PackedOver(x, b)[..Length(ShapeOf(x))];
      && packed == PackAll(Kinds(ShapeOf(x)), Values(x), b[..Length(ShapeOf(x))])
      && (TagOf(ShapeOf(x)).Some? ==> |packed| > 0 && packed[0] == PackedOver(x, b)[0] == TagOf(ShapeOf(x)).value)
  {
    FillsLayout(x);
    if TagOf(ShapeOf(x)).Some? {
      TagIsFirstKind(ShapeOf(x));
      TagIsFirstValue(x);
      FirstByte(Kinds(ShapeOf(x)), Values(x), b[..Length(ShapeOf(x))], TagOf(ShapeOf(x)).value);
    }
  }

  lemma UnpackIs(f: Family, input: seq<byte>, s: Shape, x: Record)
    requires SelectShape(f, input) == Ok(s) && |input| >= Length(s) == TotalSize(Kinds(s))
    ensures Unpack(f, input) == Ok(x) <==> Decode(s, input[..Length(s)]) == Some(x)
  {
  }

  /** The bytes of a layout hold the record exactly when they hold its values. */
  lemma DecodesTo(x: Record, s: Shape, b: seq<byte>)
    requires InRange(x) && s == ShapeOf(x) && |b| == TotalSize(Kinds(s))
    requires TagOf(s).Some? ==> |b| > 0 && b[0] == TagOf(s).value
    ensures Decode(s, b) == Some(x) <==> UnpackAll(Kinds(s), b) == Some(Values(x))
  {
    ValuesFit(x);
    KindsAreSections(s);
    ValuesAreSections(x);
    CutOfJoin(Sections(s), ValueSections(x));
    RecordOfValues(x);
    if UnpackAll(Kinds(s), b).Some? {
      UnpackedIsRecord(s, b);
    }
  }

  /** What is unpacked from the bytes of a layout, with the right tag, is a record with exactly these values. */
  lemma UnpackedIsRecord(s: Shape, b: seq<byte>)
    requires |b| == TotalSize(Kinds(s)) && UnpackAll(Kinds(s), b).Some?
    requires TagOf(s).Some? ==> |b| > 0 && b[0] == TagOf(s).value
    ensures |UnpackAll(Kinds(s), b).value| == Count(s)
    ensures var x := FromValues(s, UnpackAll(Kinds(s), b).value);
      InRange(x) && ShapeOf(x) == s && Values(x) == UnpackAll(Kinds(s), b).value
  {
    var vs := UnpackAll(Kinds(s), b).value;
    LimitsAreBytes(s);
    UnpackedIsClean(Kinds(s), b);
    KindsAreSections(s);
    CutFits(Sections(s), vs);
    if TagOf(s).Some? {
      TagSection(s);
      FirstValue(Sections(s), Kinds(s), b, vs);
    }
    ValuesOfRecord(s, CutLike(Sections(s), vs));
    ValuesAreSections(FromValues(s, vs));
  }

  lemma FirstValue(kss: seq<seq<Kind>>, ks: seq<Kind>, b: seq<byte>, vs: seq<Value>)
    requires kss != [] && kss[0] == [KTag(2)] && ks == Join(kss)
    requires |b| == TotalSize(ks) && UnpackAll(ks, b) == Some(vs) && |vs| == |ks|
    ensures |b| > 0 && CutLike(kss, vs)[0] == [VTag(b[0])]
  {
    assert ks[0] == KTag(2);
  }

  lemma TagSection(s: Shape)
    requires TagOf(s).Some?
    ensures Sections(s) != [] && Sections(s)[0] == [KTag(2)]
  {
  }

  lemma LimitsAreBytes(s: Shape)
    ensures forall i :: 0 <= i < |Kinds(s)| && Kinds(s)[i].KTag? ==> Kinds(s)[i].limit <= 256
  {
    KindsAreSections(s);
    JoinLimits(Sections(s));
  }

  lemma {:induction false} JoinLimits(kss: seq<seq<Kind>>)
    requires forall i, j :: 0 <= i < |kss| && 0 <= j < |kss[i]| && kss[i][j].KTag? ==> kss[i][j].limit <= 256
    ensures forall i :: 0 <= i < |Join(kss)| && Join(kss)[i].KTag? ==> Join(kss)[i].limit <= 256
  {
    if kss == [] {
    } else {
      JoinLimits(kss[1..]);
    }
  }

  /** The round trip through fresh bytes, whatever follows them. */
  lemma ToVecRoundTrip(x: Record, rest: seq<byte>)
    requires InRange(x)
    ensures |ToVec(x)| == Length(ShapeOf(x))
    ensures Unpack(FamilyOf(ShapeOf(x)), ToVec(x) + rest) == Ok(x)
  {
    var s, n := ShapeOf(x), Length(ShapeOf(x));
    var b := Zeros(n) + rest;
    FillsLayout(x);
    ZeroedIsClean(Kinds(s), Values(x));
    assert b[..n] == Zeros(n) && b[n..] == rest;
    assert Zeros(n)[..n] == Zeros(n) && Zeros(n)[n..] == [];
    ghost var packed := PackAll(Kinds(s), Values(x), Zeros(n));
    assert ToVec(x) == packed + [] == packed;
    assert PackedOver(x, b) == packed + rest;
    PackOverRoundTrip(x, b);
  }

  /** Whatever unpacks is a record that packs: over its own bytes or over fresh ones it unpacks to the same. */
  lemma RepackRoundTrip(f: Family, b: seq<byte>)
    ensures Unpack(f, b).Ok? ==>
      var x := Unpack(f, b).value;
      && InRange(x) && FamilyOf(ShapeOf(x)) == f
      && |b| >= Length(ShapeOf(x))
      && Unpack(f, PackedOver(x, b)) == Ok(x)
      && Unpack(f, ToVec(x)) == Ok(x)
  {
    if Unpack(f, b).Err? {
      return;
    }
    var s := SelectShape(f, b).value;
    LayoutLength(s);
    TagOfSelected(f, b);
    var x := Unpack(f, b).value;
    DecodedPacks(s, b[..Length(s)]);
    PackOverRoundTrip(x, b);
    ToVecRoundTrip(x, []);
    assert ToVec(x) + [] == ToVec(x);
  }

  /** And packing it over its own bytes changes none of them. */
  lemma RepackChangesNothing(f: Family, b: seq<byte>)
    requires Unpack(f, b).Ok?
    ensures var x := Unpack(f, b).value;
      InRange(x) && FamilyOf(ShapeOf(x)) == f && |b| >= Length(ShapeOf(x)) && PackedOver(x, b) == b
  {
    var s, x := UnpackedFrom(f, b);
    TagOfSelected(f, b);
    DecodedRepacks(s, b[..Length(s)]);
    SameFront(x, s, b);
  }

  lemma UnpackedFrom(f: Family, b: seq<byte>) returns (s: Shape, x: Record)
    requires Unpack(f, b).Ok?
    ensures SelectShape(f, b) == Ok(s) && TotalSize(Kinds(s)) == Length(s) <= |b|
    ensures Unpack(f, b) == Ok(x) && Decode(s, b[..Length(s)]) == Some(x)
  {
    s, x := SelectShape(f, b).value, Unpack(f, b).value;
    LayoutLength(s);
  }

  lemma SameFront(x: Record, s: Shape, b: seq<byte>)
    requires InRange(x) && s == ShapeOf(x) && |b| >= Length(s) == TotalSize(Kinds(s))
    requires AllFit(Kinds(s), Values(x)) && PackAll(Kinds(s), Values(x), b[..Length(s)]) == b[..Length(s)]
    ensures PackedOver(x, b) == b
  {
    FrontIsPacked(x, b);
    RestStays(x, b);
    SameParts(PackedOver(x, b), b, Length(s));
  }

  lemma SameParts(a: seq<byte>, b: seq<byte>, n: nat)
    requires n <= |a| == |b| && a[..n] == b[..n] && a[n..] == b[n..]
    ensures a == b
  {
    assert a == a[..n] + a[n..] && b == b[..n] + b[n..];
  }

  /** The bytes behind the record stay. */
  lemma RestStays(x: Record, b: seq<byte>)
    requires InRange(x) && |b| >= Length(ShapeOf(x))
    ensures |PackedOver(x, b)| == |b| && PackedOver(x, b)[Length(ShapeOf(x))..] == b[Length(ShapeOf(x))..]
  {
    FillsLayout(x);
  }

  lemma DecodedRepacks(s: Shape, b: seq<byte>)
    requires |b| == TotalSize(Kinds(s)) && Decode(s, b).Some?
    requires TagOf(s).Some? ==> |b| > 0 && b[0] == TagOf(s).value
    ensures var x := Decode(s, b).value;
      InRange(x) && ShapeOf(x) == s && AllFit(Kinds(s), Values(x)) && PackAll(Kinds(s), Values(x), b) == b
  {
    UnpackedIsRecord(s, b);
    DecodedPacks(s, b);
    LimitsAreBytes(s);
    UnpackedRepacks(Kinds(s), UnpackAll(Kinds(s), b).value, b);
  }

  lemma TagOfSelected(f: Family, b: seq<byte>)
    requires SelectShape(f, b).Ok?
    ensures var s := SelectShape(f, b).value;
      FamilyOf(s) == f && (TagOf(s).Some? ==> |b| > 0 && b[0] == TagOf(s).value)
  {
  }

  lemma DecodedPacks(s: Shape, b: seq<byte>)
    requires |b| == TotalSize(Kinds(s))
    ensures Decode(s, b).Some? && (TagOf(s).Some? ==> |b| > 0 && b[0] == TagOf(s).value) ==>
      var x := Decode(s, b).value;
      InRange(x) && ShapeOf(x) == s && AllFit(Kinds(s), Values(x)) && AllClean(Kinds(s), Values(x), b)
  {
    if Decode(s, b).None? || (TagOf(s).Some? && (|b| == 0 || b[0] != TagOf(s).value)) {
      return;
    }
    UnpackedIsRecord(s, b);
    LimitsAreBytes(s);
    UnpackedIsClean(Kinds(s), b);
  }

  /** In a packed record each field stands at its offset in the layout. */
  lemma PackedField(x: Record, b: seq<byte>, j: nat, o: nat, n: nat)
    requires InRange(x) && |b| >= Length(ShapeOf(x)) && j < |Kinds(ShapeOf(x))|
    requires o == FieldOffset(Kinds(ShapeOf(x)), j) && n == Size(Kinds(ShapeOf(x))[j])
    ensures j < |Values(x)| && Fits(Kinds(ShapeOf(x))[j], Values(x)[j]) && o + n <= Length(ShapeOf(x))
    ensures PackedOver(x, b)[o..o + n] == PackOver(Kinds(ShapeOf(x))[j], Values(x)[j], b[o..o + n])
  {
    FillsLayout(x);
    FieldAmongOthers(Kinds(ShapeOf(x)), Values(x), b, Length(ShapeOf(x)), j, o, n);
  }

  lemma FieldAmongOthers(ks: seq<Kind>, vs: seq<Value>, b: seq<byte>, m: nat, j: nat, o: nat, n: nat)
    requires AllFit(ks, vs) && TotalSize(ks) == m <= |b|
    requires j < |ks| && o == FieldOffset(ks, j) && n == Size(ks[j])
    ensures o + n <= m && (PackAll(ks, vs, b[..m]) + b[m..])[o..o + n] == PackOver(ks[j], vs[j], b[o..o + n])
  {
    FieldInside(ks, j, o, n);
    SliceOfFront(b, m, o, n);
    FieldLiesAt(ks, vs, b[..m], j, o, ks[j], vs[j], b[o..o + n]);
    FrontSlice(PackAll(ks, vs, b[..m]), b[m..], o, n);
  }

  lemma SliceOfFront(b: seq<byte>, m: nat, o: nat, n: nat)
    requires o + n <= m <= |b|
    ensures b[..m][o..o + n] == b[o..o + n]
  {
  }

  lemma FrontSlice(a: seq<byte>, rest: seq<byte>, o: nat, n: nat)
    requires o + n <= |a|
    ensures (a + rest)[o..o + n] == a[o..o + n]
  {
  }

  /** `pack`, in place. */
  method PackRecord(x: Record, output: array<byte>) returns (r: Result<nat, Error>)
    requires InRange(x)
    modifies output
    ensures r == if output.Length < Length(ShapeOf(x)) then Err(AccountDataTooSmall) else Ok(Length(ShapeOf(x)))
    ensures r.Err? ==> output[..] == old(output[..])
    ensures r.Ok? ==> output[..] == PackedOver(x, old(output[..]))
  {
    var s, n := ShapeOf(x), Length(ShapeOf(x));
    if output.Length < n {
      return Err(AccountDataTooSmall);
    }
    ghost var b := output[..];
    FillsLayout(x);
    ghost var ks, vs := Kinds(s), Values(x);
    assert b[0..n] == b[..n];
    PackFields(output, 0, Kinds(s), Values(x), b[..n]);
    PatchFront(b, PackAll(ks, vs, b[..n]), n);
    return Ok(n);
  }

  lemma PatchFront(b: seq<byte>, x: seq<byte>, n: nat)
    requires |x| == n <= |b|
    ensures Patch(b, 0, x) == x + b[n..]
  {
  }
}

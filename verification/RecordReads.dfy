/**
 Which bytes can be read as a stored record, and which error any others give: the tags,
 flags and option bytes at their literal positions.
 */
module RecordReads {
  import opened Bytes
  import opened Layout
  import opened Records
  import opened Codecs
  import opened RecordBytes

  // ---- fields, sections and layouts ----

  /** The bytes from `o` on that say how to read on: a tag is below its limit, an option byte is 0 or 1. */
  predicate FieldReads(k: Kind, b: seq<byte>, o: nat) {
    && o + Size(k) <= |b|
    && match k
       case KTag(limit) => b[o] < limit
       case KOptKey => b[o] <= 1
       case KOptU32 => b[o] <= 1
       case _ => true
  }

  lemma FirstReads(k: Kind, b: seq<byte>, o: nat)
    requires o + Size(k) <= |b|
    ensures UnpackField(k, b[o..o + Size(k)]).Some? <==> FieldReads(k, b, o)
  {
    assert Size(k) > 0 ==> b[o..o + Size(k)][0] == b[o];
  }

  predicate AllRead(ks: seq<Kind>, b: seq<byte>, o: nat) {
    ks == [] || (FieldReads(ks[0], b, o) && AllRead(ks[1..], b, o + Size(ks[0])))
  }

  lemma {:induction false} UnpackReads(ks: seq<Kind>, b: seq<byte>, o: nat, part: seq<byte>)
    requires o + TotalSize(ks) <= |b| && part == b[o..o + TotalSize(ks)]
    ensures UnpackAll(ks, part).Some? <==> AllRead(ks, b, o)
    decreases |ks|
  {
    if ks != [] {
      var ks', o', rest := FirstAndRest(ks, b, o, part);
      UnpackReads(ks', b, o', rest);
    }
  }

  /** The first field can be read, and all that comes after it. */
  lemma FirstAndRest(ks: seq<Kind>, b: seq<byte>, o: nat, part: seq<byte>)
    returns (ks': seq<Kind>, o': nat, rest: seq<byte>)
    requires ks != [] && o + TotalSize(ks) <= |b| && part == b[o..o + TotalSize(ks)]
    ensures |ks'| < |ks| && o' + TotalSize(ks') <= |b| && rest == b[o'..o' + TotalSize(ks')]
    ensures UnpackAll(ks, part).Some? <==> FieldReads(ks[0], b, o) && UnpackAll(ks', rest).Some?
    ensures AllRead(ks, b, o) <==> FieldReads(ks[0], b, o) && AllRead(ks', b, o')
  {
    var n := Size(ks[0]);
    ks', o' := ks[1..], o + n;
    var head;
    head, rest := CutPart(b, o, n, TotalSize(ks'), part);
    FirstReads(ks[0], b, o);
    UnpackInParts(ks, part, head, rest);
    ReadInParts(ks, b, o);
  }

  lemma CutPart(b: seq<byte>, o: nat, n: nat, m: nat, part: seq<byte>) returns (head: seq<byte>, rest: seq<byte>)
    requires o + (n + m) <= |b| && part == b[o..o + (n + m)]
    ensures head == b[o..o + n] && head == part[..n]
    ensures rest == b[o + n..o + n + m] && rest == part[n..]
  {
    SplitSlice(b, o, n, m);
    head, rest := part[..n], part[n..];
  }

  lemma ReadInParts(ks: seq<Kind>, b: seq<byte>, o: nat)
    requires ks != []
    ensures AllRead(ks, b, o) <==> FieldReads(ks[0], b, o) && AllRead(ks[1..], b, o + Size(ks[0]))
  {
  }

  lemma UnpackInParts(ks: seq<Kind>, b: seq<byte>, head: seq<byte>, tail: seq<byte>)
    requires ks != [] && |b| == TotalSize(ks) && head == b[..Size(ks[0])] && tail == b[Size(ks[0])..]
    ensures UnpackAll(ks, b).Some? <==> UnpackField(ks[0], head).Some? && UnpackAll(ks[1..], tail).Some?
  {
  }

  lemma {:induction false} BothRead(ks: seq<Kind>, ks': seq<Kind>, b: seq<byte>, o: nat)
    ensures AllRead(ks + ks', b, o) <==> AllRead(ks, b, o) && AllRead(ks', b, o + TotalSize(ks))
  {
    if ks == [] {
      assert ks + ks' == ks';
    } else {
      assert (ks + ks')[1..] == ks[1..] + ks';
      BothRead(ks[1..], ks', b, o + Size(ks[0]));
    }
  }

  /** All sections from number `i` on can be read. */
  predicate SectionsRead(kss: seq<seq<Kind>>, b: seq<byte>, i: nat)
    requires i <= |kss|
    decreases |kss| - i
  {
    i < |kss| ==> AllRead(kss[i], b, Start(kss, i)) && SectionsRead(kss, b, i + 1)
  }

  lemma {:induction false} JoinReads(kss: seq<seq<Kind>>, b: seq<byte>, i: nat)
    requires i <= |kss|
    ensures AllRead(Join(kss[i..]), b, Start(kss, i)) <==> SectionsRead(kss, b, i)
    decreases |kss| - i
  {
    if i < |kss| {
      assert kss[i..][1..] == kss[i + 1..];
      BothRead(kss[i], Join(kss[i + 1..]), b, Start(kss, i));
      NextStart(kss, i);
      JoinReads(kss, b, i + 1);
    }
  }

  /** Field by field, at the offsets `at`. */
  ghost predicate FieldsRead(at: seq<nat>, ks: seq<Kind>, b: seq<byte>, o: nat, i: nat) {
    |at| == |ks| && forall j :: i <= j < |ks| ==> FieldReads(ks[j], b, o + at[j])
  }

  lemma {:induction false} OneByOne(at: seq<nat>, ks: seq<Kind>, b: seq<byte>, o: nat, i: nat)
    requires at == Offsets(ks) && i <= |ks|
    ensures AllRead(ks[i..], b, o + FieldOffset(ks, i)) <==> FieldsRead(at, ks, b, o, i)
    decreases |ks| - i
  {
    if i < |ks| {
      assert ks[i..][1..] == ks[i + 1..] && ks[i..][0] == ks[i];
      NextOffset(ks, i);
      OneByOne(at, ks, b, o, i + 1);
    }
  }

  lemma SectionReads(at: seq<nat>, ks: seq<Kind>, b: seq<byte>, o: nat)
    requires at == Offsets(ks)
    ensures AllRead(ks, b, o) <==> FieldsRead(at, ks, b, o, 0)
  {
    assert ks[0..] == ks;
    OneByOne(at, ks, b, o, 0);
  }

  lemma KeysRead(n: nat, b: seq<byte>, o: nat)
    ensures AllRead(Many(KKey, n), b, o) <==> n == 0 || o + 32 * n <= |b|
  {
    OffsetsOfMany(KKey, n);
    SectionReads(Multiples(32, n), Many(KKey, n), b, o);
    assert n > 0 ==> Multiples(32, n)[n - 1] == 32 * (n - 1) && Many(KKey, n)[n - 1] == KKey;
  }

  predicate OptionReads(b: seq<byte>, o: nat) {
    o + 33 <= |b| && b[o] <= 1
  }

  lemma OptKeysRead(n: nat, b: seq<byte>, o: nat)
    requires n <= 5
    ensures AllRead(Many(KOptKey, n), b, o) <==>
      && (n > 0 ==> OptionReads(b, o)) && (n > 1 ==> OptionReads(b, o + 33)) && (n > 2 ==> OptionReads(b, o + 66))
      && (n > 3 ==> OptionReads(b, o + 99)) && (n > 4 ==> OptionReads(b, o + 132))
  {
    var at, ks := Multiples(33, n), Many(KOptKey, n);
    OffsetsOfMany(KOptKey, n);
    SectionReads(at, ks, b, o);
    if n > 0 { assert at[0] == 0 && ks[0] == KOptKey; }
    if n > 1 { assert at[1] == 33 && ks[1] == KOptKey; }
    if n > 2 { assert at[2] == 66 && ks[2] == KOptKey; }
    if n > 3 { assert at[3] == 99 && ks[3] == KOptKey; }
    if n > 4 { assert at[4] == 132 && ks[4] == KOptKey; }
  }

  /** The bytes of a layout can be read exactly if those of all its sections can. */
  lemma LayoutReads(s: Shape, b: seq<byte>)
    requires |b| >= Length(s)
    ensures TotalSize(Kinds(s)) == Length(s)
    ensures UnpackAll(Kinds(s), b[..Length(s)]).Some? <==> SectionsRead(Sections(s), b, 0)
  {
    LayoutLength(s);
    KindsAreSections(s);
    PartsRead(Kinds(s), Sections(s), b, Length(s));
  }

  lemma PartsRead(ks: seq<Kind>, kss: seq<seq<Kind>>, b: seq<byte>, n: nat)
    requires ks == Join(kss) && TotalSize(ks) == n <= |b|
    ensures UnpackAll(ks, b[..n]).Some? <==> SectionsRead(kss, b, 0)
  {
    assert kss[0..] == kss && b[0..0 + n] == b[..n];
    UnpackReads(ks, b, 0, b[..n]);
    JoinReads(kss, b, 0);
  }

  // ---- the layouts ----

  /** Type, flag and option byte of the part that pools, farms, vaults and funds have in common. */
  predicate InfoReads(b: seq<byte>, o: nat, variants: nat) {
    o + 75 <= |b| && b[o + 66] < variants && b[o + 67] <= 1 && b[o + 68] <= 1
  }

  lemma InfoRead(variants: nat, b: seq<byte>, o: nat)
    ensures AllRead(InfoKinds(variants), b, o) <==> InfoReads(b, o, variants)
  {
    var at, ks := INFO_OFFSETS, InfoKinds(variants);
    InfoOffsets(variants);
    SectionReads(at, ks, b, o);
    assert ks[2] == KTag(variants) && ks[3] == KTag(2) && ks[4] == KOptU32 && ks[5] == KNum(2) && ks[0] == KStr;
  }

  /** The bytes that decide whether a buffer of the right length can be read as the layout. */
  predicate Readable(s: Shape, b: seq<byte>)
    requires |b| >= Length(s)
  {
    match s
    case PoolRaydium =>
      b[0] <= 1 && InfoReads(b, 1, 2) && b[76] <= 1 && b[109] <= 1 && b[142] <= 1 && b[175] <= 1 && b[208] <= 1
      && b[657] <= 1 && b[690] <= 1 && b[723] <= 1
    case PoolOrca =>
      b[0] <= 1 && InfoReads(b, 1, 2) && b[76] <= 1 && b[109] <= 1 && b[142] <= 1 && b[175] <= 1 && b[208] <= 1
    case FarmRaydium =>
      b[0] <= 1 && InfoReads(b, 1, 3) && b[76] <= 1 && b[109] <= 1 && b[142] <= 1 && b[367] <= 1
    case FarmOrca => b[0] <= 1 && InfoReads(b, 1, 3) && b[76] <= 1 && b[109] <= 1 && b[142] <= 1
    case VaultCompound =>
      b[0] <= 1 && InfoReads(b, 1, 1) && b[79] <= 1 && b[80] <= 1 && b[241] <= 1 && b[274] <= 1 && b[563] <= 1
      && b[628] <= 1 && b[693] <= 1 && b[726] <= 1 && b[759] <= 1
    case FundPlain => InfoReads(b, 0, 1)
    case UserRequests => true
    case Custody => b[44] <= 1 && b[45] <= 1
    case VaultOfFund => b[44] <= 2
  }

  /** All sections can be read, the first of them from byte `at[0]` on and so forth. */
  ghost predicate PartsAt(at: seq<nat>, kss: seq<seq<Kind>>, b: seq<byte>, i: nat) {
    |at| == |kss| && forall j :: i <= j < |kss| ==> AllRead(kss[j], b, at[j])
  }

  lemma {:induction false} PartByPart(at: seq<nat>, kss: seq<seq<Kind>>, b: seq<byte>, i: nat)
    requires AreSteps(at, kss) && i <= |kss|
    ensures SectionsRead(kss, b, i) <==> PartsAt(at, kss, b, i)
    decreases |kss| - i
  {
    if i < |kss| {
      StepsAreStarts(at, kss, i);
      PartByPart(at, kss, b, i + 1);
    }
  }

  /** Section `j`, if there is one. */
  predicate PartReads(at: seq<nat>, kss: seq<seq<Kind>>, b: seq<byte>, j: nat) {
    j < |kss| ==> j < |at| && AllRead(kss[j], b, at[j])
  }

  /** No layout has more than eight sections. */
  predicate EightRead(at: seq<nat>, kss: seq<seq<Kind>>, b: seq<byte>) {
    && PartReads(at, kss, b, 0) && PartReads(at, kss, b, 1) && PartReads(at, kss, b, 2) && PartReads(at, kss, b, 3)
    && PartReads(at, kss, b, 4) && PartReads(at, kss, b, 5) && PartReads(at, kss, b, 6) && PartReads(at, kss, b, 7)
  }

  lemma EightAreAll(at: seq<nat>, kss: seq<seq<Kind>>, b: seq<byte>)
    requires AreSteps(at, kss) && |kss| <= 8
    ensures SectionsRead(kss, b, 0) <==> EightRead(at, kss, b)
  {
    PartByPart(at, kss, b, 0);
    if EightRead(at, kss, b) {
      forall j | 0 <= j < |kss|
        ensures AllRead(kss[j], b, at[j])
      {
        assert PartReads(at, kss, b, j);
      }
    }
  }

  lemma TagReads(limit: nat, b: seq<byte>, o: nat)
    ensures AllRead([KTag(limit)], b, o) <==> o < |b| && b[o] < limit
  {
    assert [KTag(limit)][1..] == [];
  }

  lemma PoolReads(s: Shape, b: seq<byte>)
    requires (s == PoolRaydium || s == PoolOrca) && |b| >= Length(s)
    ensures EightRead(Starts(s), Sections(s), b) <==> Readable(s, b)
  {
    var at, kss := Starts(s), Sections(s);
    TagReads(2, b, 0);
    InfoRead(2, b, 1);
    OptKeysRead(5, b, 76);
    OptKeysRead(3, b, 657);
    KeysRead(13, b, 241);
    KeysRead(5, b, 241);
    assert kss[0] == [KTag(2)] && at[0] == 0 && kss[1] == InfoKinds(2) && at[1] == 1;
    assert kss[2] == Many(KOptKey, 5) && at[2] == 76 && at[3] == 241;
    assert s == PoolRaydium ==> kss[3] == Many(KKey, 13) && kss[4] == Many(KOptKey, 3) && at[4] == 657;
    assert s == PoolOrca ==> kss[3] == Many(KKey, 5);
  }

  lemma FarmReads(s: Shape, b: seq<byte>)
    requires (s == FarmRaydium || s == FarmOrca) && |b| >= Length(s)
    ensures EightRead(Starts(s), Sections(s), b) <==> Readable(s, b)
  {
    var at, kss := Starts(s), Sections(s);
    TagReads(2, b, 0);
    InfoRead(3, b, 1);
    OptKeysRead(3, b, 76);
    OptKeysRead(1, b, 367);
    KeysRead(6, b, 175);
    KeysRead(7, b, 175);
    assert kss[0] == [KTag(2)] && at[0] == 0 && kss[1] == InfoKinds(3) && at[1] == 1;
    assert kss[2] == Many(KOptKey, 3) && at[2] == 76 && at[3] == 175;
    assert s == FarmRaydium ==> kss[3] == Many(KKey, 6) && kss[4] == Many(KOptKey, 1) && at[4] == 367;
    assert s == FarmOrca ==> kss[3] == Many(KKey, 7);
  }

  lemma VaultReads(b: seq<byte>)
    requires |b| >= 792
    ensures EightRead(Starts(VaultCompound), Sections(VaultCompound), b) <==> Readable(VaultCompound, b)
  {
    var at, kss := Starts(VaultCompound), Sections(VaultCompound);
    TagReads(2, b, 0);
    InfoRead(1, b, 1);
    VaultOffsets();
    SectionReads(VAULT_BYTES_OFFSETS, VAULT_BYTES_KINDS, b, 76);
    KeysRead(5, b, 81);
    OptKeysRead(2, b, 241);
    KeysRead(8, b, 307);
    SectionReads(CUSTODIES_OFFSETS, CUSTODIES_KINDS, b, 563);
    OptKeysRead(3, b, 693);
    assert kss[0] == [KTag(2)] && kss[1] == InfoKinds(1) && kss[2] == VAULT_BYTES_KINDS && kss[3] == Many(KKey, 5);
    assert kss[4] == Many(KOptKey, 2) && kss[5] == Many(KKey, 8) && kss[6] == CUSTODIES_KINDS;
    assert kss[7] == Many(KOptKey, 3);
    assert VAULT_BYTES_KINDS[3] == KTag(2) && VAULT_BYTES_KINDS[4] == KTag(2);
    assert CUSTODIES_KINDS[0] == KOptKey && CUSTODIES_KINDS[2] == KOptKey;
  }

  lemma FundReads(b: seq<byte>)
    requires |b| >= 367
    ensures EightRead(Starts(FundPlain), Sections(FundPlain), b) <==> Readable(FundPlain, b)
  {
    var at, kss := Starts(FundPlain), Sections(FundPlain);
    InfoRead(1, b, 0);
    FundOffsets();
    SectionReads(FOUR_BYTES_OFFSETS, FOUR_BYTES_KINDS, b, 75);
    KeysRead(9, b, 79);
    assert kss[0] == InfoKinds(1) && kss[1] == FOUR_BYTES_KINDS && kss[2] == Many(KKey, 9);
  }

  lemma RequestsRead(b: seq<byte>)
    requires |b| >= 201
    ensures EightRead(Starts(UserRequests), Sections(UserRequests), b)
  {
    var at, kss := Starts(UserRequests), Sections(UserRequests);
    FundOffsets();
    SectionReads(TWO_REFS_OFFSETS, TWO_REFS_KINDS, b, 0);
    SectionReads(ACTION_OFFSETS, ACTION_KINDS, b, 72);
    SectionReads(ACTION_OFFSETS, ACTION_KINDS, b, 88);
    SectionReads(ACTION_OFFSETS, ACTION_KINDS, b, 104);
    SectionReads(ACTION_OFFSETS, ACTION_KINDS, b, 120);
    SectionReads(TEXT_AND_BYTE_OFFSETS, TEXT_AND_BYTE_KINDS, b, 136);
    assert kss[0] == TWO_REFS_KINDS && kss[1] == kss[2] == kss[3] == kss[4] == ACTION_KINDS;
    assert kss[5] == TEXT_AND_BYTE_KINDS;
  }

  lemma CustodyReads(b: seq<byte>)
    requires |b| >= 143
    ensures EightRead(Starts(Custody), Sections(Custody), b) <==> Readable(Custody, b)
  {
    var at, kss := Starts(Custody), Sections(Custody);
    AssetOffsets();
    SectionReads(CUSTODY_HEAD_OFFSETS, CUSTODY_HEAD_KINDS, b, 0);
    KeysRead(3, b, 46);
    SectionReads(ONE_BYTE_OFFSETS, ONE_BYTE_KINDS, b, 142);
    assert kss[0] == CUSTODY_HEAD_KINDS && kss[1] == Many(KKey, 3) && kss[2] == ONE_BYTE_KINDS;
    assert CUSTODY_HEAD_KINDS[3] == KTag(2) && CUSTODY_HEAD_KINDS[4] == KTag(2);
  }

  lemma VaultOfFundReads(b: seq<byte>)
    requires |b| >= 222
    ensures EightRead(Starts(VaultOfFund), Sections(VaultOfFund), b) <==> Readable(VaultOfFund, b)
  {
    var at, kss := Starts(VaultOfFund), Sections(VaultOfFund);
    AssetOffsets();
    SectionReads(VAULT_HEAD_OFFSETS, VAULT_HEAD_KINDS, b, 0);
    KeysRead(5, b, 45);
    SectionReads(VAULT_TAIL_OFFSETS, VAULT_TAIL_KINDS, b, 205);
    assert kss[0] == VAULT_HEAD_KINDS && kss[1] == Many(KKey, 5) && kss[2] == VAULT_TAIL_KINDS;
    assert VAULT_HEAD_KINDS[3] == KTag(3);
  }

  /** The bytes of a layout, if there are enough of them, can be read exactly if those that decide it are right. */
  lemma ReadableIs(s: Shape, b: seq<byte>)
    requires |b| >= Length(s)
    ensures TotalSize(Kinds(s)) == Length(s)
    ensures UnpackAll(Kinds(s), b[..Length(s)]).Some? <==> Readable(s, b)
  {
    LayoutReads(s, b);
    StepsOf(s);
    EightAreAll(Starts(s), Sections(s), b);
    match s
    case PoolRaydium => PoolReads(s, b);
    case PoolOrca => PoolReads(s, b);
    case FarmRaydium => FarmReads(s, b);
    case FarmOrca => FarmReads(s, b);
    case VaultCompound => VaultReads(b);
    case FundPlain => FundReads(b);
    case UserRequests => RequestsRead(b);
    case Custody => CustodyReads(b);
    case VaultOfFund => VaultOfFundReads(b);
  }

  /** The layout that the first byte asks for. */
  predicate Chooses(f: Family, b: seq<byte>, s: Shape) {
    match f
    case Pools => |b| > 0 && ((b[0] == 0 && s == PoolRaydium) || (b[0] == 1 && s == PoolOrca))
    case Farms => |b| > 0 && ((b[0] == 0 && s == FarmRaydium) || (b[0] == 1 && s == FarmOrca))
    case Vaults => |b| > 0 && b[0] == 0 && s == VaultCompound
    case Funds => s == FundPlain
    case FundRequests => s == UserRequests
    case FundCustodies => s == Custody
    case FundVaults => s == VaultOfFund
  }

  /** Unpacking any bytes in which a layout is chosen: when it succeeds, and the error when it does not. */
  lemma UnpackAnswers(f: Family, b: seq<byte>, s: Shape)
    requires Chooses(f, b, s)
    ensures Unpack(f, b) == Err(AccountDataTooSmall) <==> |b| < Length(s)
    ensures Unpack(f, b) == Err(InvalidAccountData) <==> |b| >= Length(s) && !Readable(s, b)
    ensures Unpack(f, b).Ok? <==> |b| >= Length(s) && Readable(s, b)
  {
    assert SelectShape(f, b) == Ok(s);
    if |b| >= Length(s) {
      ReadableIs(s, b);
    }
  }

  /** And any other bytes: none at all, an unknown tag, or a vault of the other kind. */
  lemma UnpackRefuses(f: Family, b: seq<byte>)
    requires f == Pools || f == Farms || f == Vaults
    ensures |b| == 0 ==> Unpack(f, b) == Err(AccountDataTooSmall)
    ensures |b| > 0 && b[0] > 1 ==> Unpack(f, b) == Err(InvalidAccountData)
    ensures |b| > 0 && b[0] == 1 && f == Vaults ==> Unpack(f, b) == Err(UnsupportedSysvar)
  {
  }
}

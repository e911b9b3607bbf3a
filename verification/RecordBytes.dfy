/**
 The bytes of every stored record at their literal positions: where each field of a pool, a
 farm, a vault or a fund record stands, and what of the old bytes is left around it.
 */
module RecordBytes {
  import opened Bytes
  import opened Pack
  import opened Layout
  import opened Records
  import opened Codecs

  // ---- what the bytes `d` hold from `o` on, when they were `b` before ----

  ghost predicate KeyAt(d: seq<byte>, o: nat, key: Key) {
    o + 32 <= |d| && d[o..o + 32] == key
  }

  /** A byte that says whether there is an address, and the address; or what stood there before. */
  ghost predicate OptKeyAt(d: seq<byte>, b: seq<byte>, o: nat, key: Option<Key>) {
    && o + 33 <= |d| == |b|
    && match key
       case Some(k) => d[o] == 1 && d[o + 1..o + 33] == k
       case None => d[o] == 0 && d[o + 1..o + 33] == b[o + 1..o + 33]
  }

  ghost predicate OptNumberAt(d: seq<byte>, b: seq<byte>, o: nat, v: Option<u32>) {
    && o + 5 <= |d| == |b|
    && match v
       case Some(n) => d[o] == 1 && Le(d[o + 1..o + 5]) == n
       case None => d[o] == 0 && d[o + 1..o + 5] == b[o + 1..o + 5]
  }

  ghost predicate FlagAt(d: seq<byte>, o: nat, flag: bool) {
    o < |d| && d[o] == if flag then 1 else 0
  }

  ghost predicate ByteAt(d: seq<byte>, o: nat, v: nat) {
    o < |d| && d[o] == v
  }

  /** Negative times are written as two's complement. */
  ghost predicate TimeAt(d: seq<byte>, o: nat, t: int) {
    o + 8 <= |d| && Le(d[o..o + 8]) == if t < 0 then t + 0x1_0000_0000_0000_0000 else t
  }

  ghost predicate AmountAt(d: seq<byte>, o: nat, v: u64) {
    o + 8 <= |d| && Le(d[o..o + 8]) == v
  }

  /** The string, or a zero byte when it is empty; behind it what stood there before. */
  ghost predicate TextAt(d: seq<byte>, b: seq<byte>, o: nat, text: Name) {
    && o + 64 <= |d| == |b|
    && if text == [] then d[o] == 0 && d[o + 1..o + 64] == b[o + 1..o + 64]
       else d[o..o + |text|] == text && d[o + |text|..o + 64] == b[o + |text|..o + 64]
  }

  /** Name, version, type, whether official, index and counter in the storage. */
  ghost predicate InfoAt(d: seq<byte>, b: seq<byte>, o: nat, info: Info) {
    && o + 75 <= |d| == |b|
    && TextAt(d, b, o, info.name)
    && Le(d[o + 64..o + 66]) == info.version
    && d[o + 66] == info.variant
    && FlagAt(d, o + 67, info.official)
    && OptNumberAt(d, b, o + 68, info.refdbIndex)
    && Le(d[o + 73..o + 75]) == info.refdbCounter
  }

  ghost predicate ActionBytes(d: seq<byte>, o: nat, a: Action) {
    TimeAt(d, o, a.time) && AmountAt(d, o + 8, a.amount)
  }

  // ---- the records ----

  ghost predicate PoolAt(d: seq<byte>, b: seq<byte>, x: Record)
    requires x.Pool?
  {
    && InfoAt(d, b, 1, x.info)
    && OptKeyAt(d, b, 76, x.tokenARef) && OptKeyAt(d, b, 109, x.tokenBRef) && OptKeyAt(d, b, 142, x.lpTokenRef)
    && OptKeyAt(d, b, 175, x.tokenAAccount) && OptKeyAt(d, b, 208, x.tokenBAccount)
    && KeyAt(d, 241, x.routerProgramId) && KeyAt(d, 273, x.poolProgramId)
    && match x.poolRoute
       case PoolOnRaydium(ammId, ammAuthority, ammOpenOrders, ammTarget, poolWithdrawQueue, poolTempLpTokenAccount,
                          serumProgramId, serumMarket, serumCoinVaultAccount, serumPcVaultAccount, serumVaultSigner,
                          serumBids, serumAsks, serumEventQueue) =>
         && |b| >= 756 && d[756..] == b[756..] && d[0] == 0
         && KeyAt(d, 305, ammId) && KeyAt(d, 337, ammAuthority) && KeyAt(d, 369, ammOpenOrders)
         && KeyAt(d, 401, ammTarget) && KeyAt(d, 433, poolWithdrawQueue) && KeyAt(d, 465, poolTempLpTokenAccount)
         && KeyAt(d, 497, serumProgramId) && KeyAt(d, 529, serumMarket) && KeyAt(d, 561, serumCoinVaultAccount)
         && KeyAt(d, 593, serumPcVaultAccount) && KeyAt(d, 625, serumVaultSigner)
         && OptKeyAt(d, b, 657, serumBids) && OptKeyAt(d, b, 690, serumAsks) && OptKeyAt(d, b, 723, serumEventQueue)
       case PoolOnOrca(ammId, ammAuthority, feesAccount) =>
         && |b| >= 401 && d[401..] == b[401..] && d[0] == 1
         && KeyAt(d, 305, ammId) && KeyAt(d, 337, ammAuthority) && KeyAt(d, 369, feesAccount)
  }

  ghost predicate FarmAt(d: seq<byte>, b: seq<byte>, x: Record)
    requires x.Farm?
  {
    && InfoAt(d, b, 1, x.info)
    && OptKeyAt(d, b, 76, x.lpTokenRef) && OptKeyAt(d, b, 109, x.firstRewardTokenRef)
    && OptKeyAt(d, b, 142, x.secondRewardTokenRef)
    && KeyAt(d, 175, x.routerProgramId) && KeyAt(d, 207, x.farmProgramId)
    && match x.farmRoute
       case FarmOnRaydium(farmId, farmAuthority, lpTokenAccount, firstRewardAccount, secondRewardAccount) =>
         && |b| >= 400 && d[400..] == b[400..] && d[0] == 0
         && KeyAt(d, 239, farmId) && KeyAt(d, 271, farmAuthority) && KeyAt(d, 303, lpTokenAccount)
         && KeyAt(d, 335, firstRewardAccount) && OptKeyAt(d, b, 367, secondRewardAccount)
       case FarmOnOrca(farmId, farmAuthority, farmTokenRef, baseTokenVault, rewardTokenVault) =>
         && |b| >= 399 && d[399..] == b[399..] && d[0] == 1
         && KeyAt(d, 239, farmId) && KeyAt(d, 271, farmAuthority) && KeyAt(d, 303, farmTokenRef)
         && KeyAt(d, 335, baseTokenVault) && KeyAt(d, 367, rewardTokenVault)
  }

  ghost predicate VaultAt(d: seq<byte>, b: seq<byte>, x: Record)
    requires x.Vault?
  {
    && |d| == |b| >= 792 && d[792..] == b[792..] && d[0] == 0
    && InfoAt(d, b, 1, x.info)
    && d[76] == x.metadataBump && d[77] == x.authorityBump && d[78] == x.vaultTokenBump
    && FlagAt(d, 79, x.lockRequired) && FlagAt(d, 80, x.unlockRequired)
    && KeyAt(d, 81, x.vaultProgramId) && KeyAt(d, 113, x.vaultAuthority) && KeyAt(d, 145, x.vaultTokenRef)
    && KeyAt(d, 177, x.infoAccount) && KeyAt(d, 209, x.multisigAccount)
    && OptKeyAt(d, b, 241, x.feesAccountA) && OptKeyAt(d, b, 274, x.feesAccountB)
    && KeyAt(d, 307, x.poolRouterId) && KeyAt(d, 339, x.poolId) && KeyAt(d, 371, x.poolRef)
    && KeyAt(d, 403, x.farmRouterId) && KeyAt(d, 435, x.farmId) && KeyAt(d, 467, x.farmRef)
    && KeyAt(d, 499, x.lpTokenCustody) && KeyAt(d, 531, x.tokenACustody) && OptKeyAt(d, b, 563, x.tokenBCustody)
    && KeyAt(d, 596, x.tokenARewardCustody) && OptKeyAt(d, b, 628, x.tokenBRewardCustody)
    && KeyAt(d, 661, x.vaultStakeInfo) && OptKeyAt(d, b, 693, x.vaultStakeCustody)
    && OptKeyAt(d, b, 726, x.rewardExchangePoolId) && OptKeyAt(d, b, 759, x.rewardExchangePoolRef)
  }

  ghost predicate FundAt(d: seq<byte>, b: seq<byte>, x: Record)
    requires x.Fund?
  {
    && |d| == |b| >= 367 && d[367..] == b[367..]
    && InfoAt(d, b, 0, x.info)
    && d[75] == x.metadataBump && d[76] == x.authorityBump && d[77] == x.fundTokenBump && d[78] == x.multisigBump
    && KeyAt(d, 79, x.fundProgramId) && KeyAt(d, 111, x.fundAuthority) && KeyAt(d, 143, x.fundManager)
    && KeyAt(d, 175, x.fundTokenRef) && KeyAt(d, 207, x.infoAccount) && KeyAt(d, 239, x.multisigAccount)
    && KeyAt(d, 271, x.vaultsAssetsInfo) && KeyAt(d, 303, x.custodiesAssetsInfo)
    && KeyAt(d, 335, x.descriptionAccount)
  }

  ghost predicate RequestsAt(d: seq<byte>, b: seq<byte>, x: Record)
    requires x.FundUserRequests?
  {
    && |d| == |b| >= 201 && d[201..] == b[201..]
    && AmountAt(d, 0, x.discriminator) && KeyAt(d, 8, x.fundRef) && KeyAt(d, 40, x.tokenRef)
    && ActionBytes(d, 72, x.depositRequest) && ActionBytes(d, 88, x.lastDeposit)
    && ActionBytes(d, 104, x.withdrawalRequest) && ActionBytes(d, 120, x.lastWithdrawal)
    && TextAt(d, b, 136, x.denyReason) && d[200] == x.bump
  }

  ghost predicate CustodyAt(d: seq<byte>, b: seq<byte>, x: Record)
    requires x.FundCustody?
  {
    && |d| == |b| >= 143 && d[143..] == b[143..]
    && AmountAt(d, 0, x.discriminator) && KeyAt(d, 8, x.fundRef) && Le(d[40..44]) == x.custodyId
    && d[44] == x.custodyType && FlagAt(d, 45, x.isVaultToken)
    && KeyAt(d, 46, x.tokenRef) && KeyAt(d, 78, x.address) && KeyAt(d, 110, x.feesAddress) && d[142] == x.bump
  }

  ghost predicate FundVaultAt(d: seq<byte>, b: seq<byte>, x: Record)
    requires x.FundVault?
  {
    && |d| == |b| >= 222 && d[222..] == b[222..]
    && AmountAt(d, 0, x.discriminator) && KeyAt(d, 8, x.fundRef) && Le(d[40..44]) == x.vaultId
    && d[44] == x.vaultType
    && KeyAt(d, 45, x.vaultRef) && KeyAt(d, 77, x.routerProgramId) && KeyAt(d, 109, x.underlyingPoolId)
    && KeyAt(d, 141, x.underlyingPoolRef) && KeyAt(d, 173, x.underlyingLpTokenMint)
    && AmountAt(d, 205, x.lpBalance) && TimeAt(d, 213, x.balanceUpdateTime) && d[221] == x.bump
  }

  /** All fields of the record, whichever it is, and behind it what stood there before. */
  ghost predicate RecordAt(d: seq<byte>, b: seq<byte>, x: Record) {
    if x.Pool? then PoolAt(d, b, x)
    else if x.Farm? then FarmAt(d, b, x)
    else if x.Vault? then VaultAt(d, b, x)
    else if x.Fund? then FundAt(d, b, x)
    else if x.FundUserRequests? then RequestsAt(d, b, x)
    else if x.FundCustody? then CustodyAt(d, b, x)
    else FundVaultAt(d, b, x)
  }

  // ---- fields of a section of a layout ----

  /** Where section `i` begins, in elements and in bytes. */
  function Before<T>(parts: seq<seq<T>>, i: nat): nat
    requires i <= |parts|
  {
    if i == 0 then 0 else |parts[0]| + Before(parts[1..], i - 1)
  }

  function Start(kss: seq<seq<Kind>>, i: nat): nat
    requires i <= |kss|
  {
    if i == 0 then 0 else TotalSize(kss[0]) + Start(kss[1..], i - 1)
  }

  lemma {:induction false} NextStart(kss: seq<seq<Kind>>, i: nat)
    requires i < |kss|
    ensures Start(kss, i + 1) == Start(kss, i) + TotalSize(kss[i])
  {
    if i > 0 {
      NextStart(kss[1..], i - 1);
    }
  }

  lemma {:induction false} ElementOfJoin<T>(parts: seq<seq<T>>, i: nat, j: nat)
    requires i < |parts| && j < |parts[i]|
    ensures Before(parts, i) + j < |Join(parts)| && Join(parts)[Before(parts, i) + j] == parts[i][j]
    decreases i
  {
    if i > 0 {
      ElementOfJoin(parts[1..], i - 1, j);
    }
  }

  lemma {:induction false} OffsetInFirst(a: seq<Kind>, b: seq<Kind>, j: nat)
    requires j <= |a|
    ensures FieldOffset(a + b, j) == FieldOffset(a, j)
  {
    if j > 0 {
      assert (a + b)[1..] == a[1..] + b;
      OffsetInFirst(a[1..], b, j - 1);
    }
  }

  lemma {:induction false} OffsetInSecond(a: seq<Kind>, b: seq<Kind>, j: nat)
    requires j <= |b|
    ensures FieldOffset(a + b, |a| + j) == TotalSize(a) + FieldOffset(b, j)
  {
    if a == [] {
      assert a + b == b;
    } else {
      assert (a + b)[1..] == a[1..] + b;
      OffsetInSecond(a[1..], b, j);
    }
  }

  lemma {:induction false} OffsetInJoin(kss: seq<seq<Kind>>, i: nat, j: nat)
    requires i < |kss| && j < |kss[i]|
    ensures Before(kss, i) + j < |Join(kss)|
    ensures FieldOffset(Join(kss), Before(kss, i) + j) == Start(kss, i) + FieldOffset(kss[i], j)
    decreases i
  {
    ElementOfJoin(kss, i, j);
    if i == 0 {
      OffsetInFirst(kss[0], Join(kss[1..]), j);
    } else {
      OffsetInJoin(kss[1..], i - 1, j);
      OffsetInSecond(kss[0], Join(kss[1..]), Before(kss[1..], i - 1) + j);
    }
  }

  lemma {:induction false} SameBefore(kss: seq<seq<Kind>>, vss: seq<seq<Value>>, i: nat)
    requires SectionsFit(kss, vss) && i <= |kss|
    ensures Before(kss, i) == Before(vss, i)
  {
    if i > 0 {
      SameBefore(kss[1..], vss[1..], i - 1);
    }
  }

  /** The value was packed over `b` from `o` on. */
  ghost predicate Holds(d: seq<byte>, b: seq<byte>, o: nat, k: Kind, v: Value) {
    && Fits(k, v) && o + Size(k) <= |d| == |b|
    && d[o..o + Size(k)] == PackOver(k, v, b[o..o + Size(k)])
  }

  lemma InJoined(kss: seq<seq<Kind>>, vss: seq<seq<Value>>, ks: seq<Kind>, vs: seq<Value>, i: nat, j: nat)
    returns (n: nat)
    requires SectionsFit(kss, vss) && ks == Join(kss) && vs == Join(vss)
    requires i < |kss| && j < |kss[i]|
    ensures n < |ks| && n < |vs| && ks[n] == kss[i][j] && vs[n] == vss[i][j]
    ensures FieldOffset(ks, n) == Start(kss, i) + FieldOffset(kss[i], j)
  {
    n := Before(kss, i) + j;
    SameBefore(kss, vss, i);
    ElementOfJoin(kss, i, j);
    ElementOfJoin(vss, i, j);
    OffsetInJoin(kss, i, j);
  }

  /** Field `j` of section `i` holds its value. */
  lemma SectionHolds(x: Record, b: seq<byte>, kss: seq<seq<Kind>>, vss: seq<seq<Value>>, i: nat, j: nat, o: nat)
    requires InRange(x) && |b| >= Length(ShapeOf(x))
    requires kss == Sections(ShapeOf(x)) && vss == ValueSections(x)
    requires i < |kss| && j < |kss[i]| && o == Start(kss, i) + FieldOffset(kss[i], j)
    ensures i < |vss| && j < |vss[i]| && Holds(PackedOver(x, b), b, o, kss[i][j], vss[i][j])
  {
    ValuesFit(x);
    KindsAreSections(ShapeOf(x));
    ValuesAreSections(x);
    var n := InJoined(kss, vss, Kinds(ShapeOf(x)), Values(x), i, j);
    NthHolds(x, b, n, o, kss[i][j], vss[i][j]);
  }

  lemma NthHolds(x: Record, b: seq<byte>, n: nat, o: nat, k: Kind, v: Value)
    requires InRange(x) && |b| >= Length(ShapeOf(x)) && n < |Kinds(ShapeOf(x))| && n < |Values(x)|
    requires k == Kinds(ShapeOf(x))[n] && v == Values(x)[n] && o == FieldOffset(Kinds(ShapeOf(x)), n)
    ensures Holds(PackedOver(x, b), b, o, k, v)
  {
    PackedField(x, b, n, o, Size(k));
  }

  /** All fields of a section that begins at `o` hold their values; `at` says where in the section they stand. */
  ghost predicate SectionAt(d: seq<byte>, b: seq<byte>, o: nat, at: seq<nat>, ks: seq<Kind>, vs: seq<Value>) {
    |ks| == |vs| == |at| && forall j :: 0 <= j < |ks| ==> Holds(d, b, o + at[j], ks[j], vs[j])
  }

  /** Where the fields of a section stand in it. */
  function Offsets(ks: seq<Kind>): (at: seq<nat>)
    ensures |at| == |ks|
  {
    seq(|ks|, j requires 0 <= j < |ks| => FieldOffset(ks, j))
  }

  lemma SectionLies(x: Record, b: seq<byte>, i: nat, o: nat, ks: seq<Kind>, vs: seq<Value>)
    requires InRange(x) && |b| >= Length(ShapeOf(x))
    requires i < |Sections(ShapeOf(x))| && i < |ValueSections(x)| && o == Start(Sections(ShapeOf(x)), i)
    requires ks == Sections(ShapeOf(x))[i] && vs == ValueSections(x)[i]
    ensures SectionAt(PackedOver(x, b), b, o, Offsets(ks), ks, vs)
  {
    var d, at := PackedOver(x, b), Offsets(ks);
    AsManyValues(x, i, ks, vs);
    forall j | 0 <= j < |ks|
      ensures Holds(d, b, o + at[j], ks[j], vs[j])
    {
      NthOfSection(x, b, i, j, o, ks, vs, at, d);
    }
  }

  lemma AsManyValues(x: Record, i: nat, ks: seq<Kind>, vs: seq<Value>)
    requires InRange(x) && i < |Sections(ShapeOf(x))| && i < |ValueSections(x)|
    requires ks == Sections(ShapeOf(x))[i] && vs == ValueSections(x)[i]
    ensures |vs| == |ks|
  {
    ValuesFit(x);
  }

  lemma NthOfSection(x: Record, b: seq<byte>, i: nat, j: nat, o: nat, ks: seq<Kind>, vs: seq<Value>, at: seq<nat>,
                     d: seq<byte>)
    requires InRange(x) && |b| >= Length(ShapeOf(x)) && d == PackedOver(x, b)
    requires i < |Sections(ShapeOf(x))| && i < |ValueSections(x)| && o == Start(Sections(ShapeOf(x)), i)
    requires ks == Sections(ShapeOf(x))[i] && vs == ValueSections(x)[i] && |vs| == |ks|
    requires at == Offsets(ks) && j < |ks|
    ensures Holds(d, b, o + at[j], ks[j], vs[j])
  {
    SectionHolds(x, b, Sections(ShapeOf(x)), ValueSections(x), i, j, o + at[j]);
  }

  // ---- what each kind of field looks like ----

  lemma KeyIs(d: seq<byte>, b: seq<byte>, o: nat, key: Key)
    requires Holds(d, b, o, KKey, VKey(key))
    ensures KeyAt(d, o, key)
  {
  }

  lemma OptKeyIs(d: seq<byte>, b: seq<byte>, o: nat, key: Option<Key>)
    requires Holds(d, b, o, KOptKey, VOptKey(key))
    ensures OptKeyAt(d, b, o, key)
  {
    var field := d[o..o + 33];
    assert d[o] == field[0] && d[o + 1..o + 33] == field[1..] && b[o + 1..o + 33] == b[o..o + 33][1..];
  }

  lemma OptNumberIs(d: seq<byte>, b: seq<byte>, o: nat, v: Option<u32>)
    requires Holds(d, b, o, KOptU32, VOptU32(v))
    ensures OptNumberAt(d, b, o, v)
  {
    var field := d[o..o + 5];
    assert d[o] == field[0] && d[o + 1..o + 5] == field[1..] && b[o + 1..o + 5] == b[o..o + 5][1..];
    if v.Some? {
      PowValues();
      LeOfToLe(v.value, 4);
    }
  }

  lemma TextIs(d: seq<byte>, b: seq<byte>, o: nat, text: Name)
    requires Holds(d, b, o, KStr, VStr(text))
    ensures TextAt(d, b, o, text)
  {
    var field, before, n := d[o..o + 64], b[o..o + 64], if text == [] then 1 else |text|;
    assert field == Patch(before, 0, if text == [] then [0] else text);
    assert d[o..o + n] == field[..n] && d[o + n..o + 64] == field[n..] && b[o + n..o + 64] == before[n..];
    assert d[o] == field[0];
  }

  lemma TagIs(d: seq<byte>, b: seq<byte>, o: nat, limit: nat, t: nat)
    requires Holds(d, b, o, KTag(limit), VTag(t))
    ensures ByteAt(d, o, t)
  {
    assert d[o] == d[o..o + 1][0];
  }

  lemma FlagIs(d: seq<byte>, b: seq<byte>, o: nat, flag: bool)
    requires Holds(d, b, o, KTag(2), Flag(flag))
    ensures FlagAt(d, o, flag)
  {
    TagIs(d, b, o, 2, if flag then 1 else 0);
  }

  lemma ByteIs(d: seq<byte>, b: seq<byte>, o: nat, v: byte)
    requires Holds(d, b, o, KNum(1), VNum(v))
    ensures ByteAt(d, o, v)
  {
    assert ToLe(v, 1)[0] == v;
    assert d[o] == d[o..o + 1][0];
  }

  lemma TimeIs(d: seq<byte>, b: seq<byte>, o: nat, t: int)
    requires Holds(d, b, o, KTime, VTime(t))
    ensures TimeAt(d, o, t)
  {
    PowValues();
    LeOfToLe(TimeBits(t), 8);
  }

  lemma AmountIs(d: seq<byte>, b: seq<byte>, o: nat, v: u64)
    requires Holds(d, b, o, KNum(8), VNum(v))
    ensures AmountAt(d, o, v)
  {
    PowValues();
    LeOfToLe(v, 8);
  }

  // ---- what each kind of section looks like ----

  lemma {:induction false} OffsetInMany(k: Kind, n: nat, j: nat)
    requires j <= n
    ensures FieldOffset(Many(k, n), j) == j * Size(k)
  {
    if j > 0 {
      assert Many(k, n)[1..] == Many(k, n - 1);
      OffsetInMany(k, n - 1, j - 1);
      assert j * Size(k) == Size(k) + (j - 1) * Size(k);
    }
  }

  /** 0, n, 2 n, ... */
  function Multiples(n: nat, count: nat): (r: seq<nat>)
    ensures |r| == count && forall j :: 0 <= j < count ==> r[j] == n * j
  {
    seq(count, j => n * j)
  }

  lemma OffsetsOfMany(k: Kind, n: nat)
    ensures Multiples(Size(k), n) == Offsets(Many(k, n))
  {
    forall j | 0 <= j < n
      ensures FieldOffset(Many(k, n), j) == Size(k) * j
    {
      OffsetInMany(k, n, j);
    }
  }

  /** Addresses one behind the other. */
  ghost predicate KeysAt(d: seq<byte>, o: nat, keys: seq<Key>) {
    forall j :: 0 <= j < |keys| ==> KeyAt(d, o + 32 * j, keys[j])
  }

  ghost predicate OptKeysAt(d: seq<byte>, b: seq<byte>, o: nat, keys: seq<Option<Key>>) {
    forall j :: 0 <= j < |keys| ==> OptKeyAt(d, b, o + 33 * j, keys[j])
  }

  lemma KeysOneByOne(d: seq<byte>, o: nat, keys: seq<Key>)
    requires KeysAt(d, o, keys)
    ensures 0 < |keys| ==> KeyAt(d, o + 0, keys[0])
    ensures 1 < |keys| ==> KeyAt(d, o + 32, keys[1])
    ensures 2 < |keys| ==> KeyAt(d, o + 64, keys[2])
    ensures 3 < |keys| ==> KeyAt(d, o + 96, keys[3])
    ensures 4 < |keys| ==> KeyAt(d, o + 128, keys[4])
    ensures 5 < |keys| ==> KeyAt(d, o + 160, keys[5])
    ensures 6 < |keys| ==> KeyAt(d, o + 192, keys[6])
    ensures 7 < |keys| ==> KeyAt(d, o + 224, keys[7])
    ensures 8 < |keys| ==> KeyAt(d, o + 256, keys[8])
    ensures 9 < |keys| ==> KeyAt(d, o + 288, keys[9])
    ensures 10 < |keys| ==> KeyAt(d, o + 320, keys[10])
    ensures 11 < |keys| ==> KeyAt(d, o + 352, keys[11])
    ensures 12 < |keys| ==> KeyAt(d, o + 384, keys[12])
  {
  }

  lemma OptKeysOneByOne(d: seq<byte>, b: seq<byte>, o: nat, keys: seq<Option<Key>>)
    requires OptKeysAt(d, b, o, keys)
    ensures 0 < |keys| ==> OptKeyAt(d, b, o + 0, keys[0])
    ensures 1 < |keys| ==> OptKeyAt(d, b, o + 33, keys[1])
    ensures 2 < |keys| ==> OptKeyAt(d, b, o + 66, keys[2])
    ensures 3 < |keys| ==> OptKeyAt(d, b, o + 99, keys[3])
    ensures 4 < |keys| ==> OptKeyAt(d, b, o + 132, keys[4])
  {
  }

  const INFO_OFFSETS: seq<nat> := [0, 64, 66, 67, 68, 73]

  lemma InfoOffsets(variants: nat)
    ensures INFO_OFFSETS == Offsets(InfoKinds(variants))
  {
    var ks := InfoKinds(variants);
    NextOffset(ks, 0);
    NextOffset(ks, 1);
    NextOffset(ks, 2);
    NextOffset(ks, 3);
    NextOffset(ks, 4);
  }

  lemma InfoLies(d: seq<byte>, b: seq<byte>, o: nat, variants: nat, info: Info)
    requires SectionAt(d, b, o, INFO_OFFSETS, InfoKinds(variants), InfoValues(info))
    ensures InfoAt(d, b, o, info)
  {
    var at, ks, vs := INFO_OFFSETS, InfoKinds(variants), InfoValues(info);
    assert Holds(d, b, o + at[0], ks[0], vs[0]) && Holds(d, b, o + at[1], ks[1], vs[1]);
    assert Holds(d, b, o + at[2], ks[2], vs[2]) && Holds(d, b, o + at[3], ks[3], vs[3]);
    assert Holds(d, b, o + at[4], ks[4], vs[4]) && Holds(d, b, o + at[5], ks[5], vs[5]);
    InfoIs(d, b, o, variants, info);
  }

  lemma InfoIs(d: seq<byte>, b: seq<byte>, o: nat, variants: nat, info: Info)
    requires Holds(d, b, o, KStr, VStr(info.name)) && Holds(d, b, o + 64, KNum(2), VNum(info.version))
    requires Holds(d, b, o + 66, KTag(variants), VTag(info.variant))
    requires Holds(d, b, o + 67, KTag(2), Flag(info.official))
    requires Holds(d, b, o + 68, KOptU32, VOptU32(info.refdbIndex))
    requires Holds(d, b, o + 73, KNum(2), VNum(info.refdbCounter))
    ensures InfoAt(d, b, o, info)
  {
    TextIs(d, b, o, info.name);
    PowValues();
    LeOfToLe(info.version, 2);
    TagIs(d, b, o + 66, variants, info.variant);
    FlagIs(d, b, o + 67, info.official);
    OptNumberIs(d, b, o + 68, info.refdbIndex);
    LeOfToLe(info.refdbCounter, 2);
  }

  const VAULT_BYTES_OFFSETS: seq<nat> := [0, 1, 2, 3, 4]
  const VAULT_BYTES_KINDS: seq<Kind> := [KNum(1), KNum(1), KNum(1), KTag(2), KTag(2)]

  lemma BytesAndFlagsIs(d: seq<byte>, b: seq<byte>, o: nat, b0: byte, b1: byte, b2: byte, f0: bool, f1: bool)
    requires SectionAt(d, b, o, VAULT_BYTES_OFFSETS, VAULT_BYTES_KINDS,
                       [VNum(b0), VNum(b1), VNum(b2), Flag(f0), Flag(f1)])
    ensures ByteAt(d, o, b0) && ByteAt(d, o + 1, b1) && ByteAt(d, o + 2, b2) && FlagAt(d, o + 3, f0)
    ensures FlagAt(d, o + 4, f1)
  {
    var at, ks, vs := VAULT_BYTES_OFFSETS, VAULT_BYTES_KINDS, [VNum(b0), VNum(b1), VNum(b2), Flag(f0), Flag(f1)];
    ByteHeld(d, b, o + at[0], o, ks[0], vs[0], b0);
    ByteHeld(d, b, o + at[1], o + 1, ks[1], vs[1], b1);
    ByteHeld(d, b, o + at[2], o + 2, ks[2], vs[2], b2);
    FlagHeld(d, b, o + at[3], o + 3, ks[3], vs[3], f0);
    FlagHeld(d, b, o + at[4], o + 4, ks[4], vs[4], f1);
  }

  lemma ByteHeld(d: seq<byte>, b: seq<byte>, p: nat, o: nat, k: Kind, v: Value, x: byte)
    requires Holds(d, b, p, k, v) && p == o && k == KNum(1) && v == VNum(x)
    ensures ByteAt(d, o, x)
  {
    ByteIs(d, b, o, x);
  }

  lemma FlagHeld(d: seq<byte>, b: seq<byte>, p: nat, o: nat, k: Kind, v: Value, flag: bool)
    requires Holds(d, b, p, k, v) && p == o && k == KTag(2) && v == Flag(flag)
    ensures FlagAt(d, o, flag)
  {
    FlagIs(d, b, o, flag);
  }

  const CUSTODIES_OFFSETS: seq<nat> := [0, 33, 65, 98]
  const CUSTODIES_KINDS: seq<Kind> := [KOptKey, KKey, KOptKey, KKey]

  lemma CustodiesIs(d: seq<byte>, b: seq<byte>, o: nat, k0: Option<Key>, k1: Key, k2: Option<Key>, k3: Key)
    requires SectionAt(d, b, o, CUSTODIES_OFFSETS, CUSTODIES_KINDS,
                       [VOptKey(k0), VKey(k1), VOptKey(k2), VKey(k3)])
    ensures OptKeyAt(d, b, o, k0) && KeyAt(d, o + 33, k1) && OptKeyAt(d, b, o + 65, k2) && KeyAt(d, o + 98, k3)
  {
    var vs := [VOptKey(k0), VKey(k1), VOptKey(k2), VKey(k3)];
    assert Holds(d, b, o + CUSTODIES_OFFSETS[0], CUSTODIES_KINDS[0], vs[0]);
    assert Holds(d, b, o + CUSTODIES_OFFSETS[1], CUSTODIES_KINDS[1], vs[1]);
    assert Holds(d, b, o + CUSTODIES_OFFSETS[2], CUSTODIES_KINDS[2], vs[2]);
    assert Holds(d, b, o + CUSTODIES_OFFSETS[3], CUSTODIES_KINDS[3], vs[3]);
    OptKeyIs(d, b, o, k0);
    KeyIs(d, b, o + 33, k1);
    OptKeyIs(d, b, o + 65, k2);
    KeyIs(d, b, o + 98, k3);
  }

  const FOUR_BYTES_OFFSETS: seq<nat> := [0, 1, 2, 3]
  const FOUR_BYTES_KINDS: seq<Kind> := [KNum(1), KNum(1), KNum(1), KNum(1)]

  lemma FourBytesIs(d: seq<byte>, b: seq<byte>, o: nat, b0: byte, b1: byte, b2: byte, b3: byte)
    requires SectionAt(d, b, o, FOUR_BYTES_OFFSETS, FOUR_BYTES_KINDS,
                       [VNum(b0), VNum(b1), VNum(b2), VNum(b3)])
    ensures ByteAt(d, o, b0) && ByteAt(d, o + 1, b1) && ByteAt(d, o + 2, b2) && ByteAt(d, o + 3, b3)
  {
    var vs := [VNum(b0), VNum(b1), VNum(b2), VNum(b3)];
    assert Holds(d, b, o + FOUR_BYTES_OFFSETS[0], FOUR_BYTES_KINDS[0], vs[0]);
    assert Holds(d, b, o + FOUR_BYTES_OFFSETS[1], FOUR_BYTES_KINDS[1], vs[1]);
    assert Holds(d, b, o + FOUR_BYTES_OFFSETS[2], FOUR_BYTES_KINDS[2], vs[2]);
    assert Holds(d, b, o + FOUR_BYTES_OFFSETS[3], FOUR_BYTES_KINDS[3], vs[3]);
    ByteIs(d, b, o, b0);
    ByteIs(d, b, o + 1, b1);
    ByteIs(d, b, o + 2, b2);
    ByteIs(d, b, o + 3, b3);
  }

  const TWO_REFS_OFFSETS: seq<nat> := [0, 8, 40]
  const TWO_REFS_KINDS: seq<Kind> := [KNum(8), KKey, KKey]

  lemma TwoRefsIs(d: seq<byte>, b: seq<byte>, o: nat, n: u64, k0: Key, k1: Key)
    requires SectionAt(d, b, o, TWO_REFS_OFFSETS, TWO_REFS_KINDS,
                       [VNum(n), VKey(k0), VKey(k1)])
    ensures AmountAt(d, o, n) && KeyAt(d, o + 8, k0) && KeyAt(d, o + 40, k1)
  {
    var vs := [VNum(n), VKey(k0), VKey(k1)];
    assert Holds(d, b, o + TWO_REFS_OFFSETS[0], TWO_REFS_KINDS[0], vs[0]);
    assert Holds(d, b, o + TWO_REFS_OFFSETS[1], TWO_REFS_KINDS[1], vs[1]);
    assert Holds(d, b, o + TWO_REFS_OFFSETS[2], TWO_REFS_KINDS[2], vs[2]);
    AmountIs(d, b, o, n);
    KeyIs(d, b, o + 8, k0);
    KeyIs(d, b, o + 40, k1);
  }

  const TEXT_AND_BYTE_OFFSETS: seq<nat> := [0, 64]
  const TEXT_AND_BYTE_KINDS: seq<Kind> := [KStr, KNum(1)]

  lemma TextAndByteIs(d: seq<byte>, b: seq<byte>, o: nat, text: Name, v: byte)
    requires SectionAt(d, b, o, TEXT_AND_BYTE_OFFSETS, TEXT_AND_BYTE_KINDS,
                       [VStr(text), VNum(v)])
    ensures TextAt(d, b, o, text) && ByteAt(d, o + 64, v)
  {
    var vs := [VStr(text), VNum(v)];
    assert Holds(d, b, o + TEXT_AND_BYTE_OFFSETS[0], TEXT_AND_BYTE_KINDS[0], vs[0]);
    assert Holds(d, b, o + TEXT_AND_BYTE_OFFSETS[1], TEXT_AND_BYTE_KINDS[1], vs[1]);
    TextIs(d, b, o, text);
    ByteIs(d, b, o + 64, v);
  }

  const ACTION_OFFSETS: seq<nat> := [0, 8]
  const ACTION_KINDS: seq<Kind> := [KTime, KNum(8)]

  lemma ActionIs(d: seq<byte>, b: seq<byte>, o: nat, t: int, n: u64)
    requires SectionAt(d, b, o, ACTION_OFFSETS, ACTION_KINDS,
                       [VTime(t), VNum(n)])
    ensures TimeAt(d, o, t) && AmountAt(d, o + 8, n)
  {
    var vs := [VTime(t), VNum(n)];
    assert Holds(d, b, o + ACTION_OFFSETS[0], ACTION_KINDS[0], vs[0]);
    assert Holds(d, b, o + ACTION_OFFSETS[1], ACTION_KINDS[1], vs[1]);
    TimeIs(d, b, o, t);
    AmountIs(d, b, o + 8, n);
  }

  const CUSTODY_HEAD_OFFSETS: seq<nat> := [0, 8, 40, 44, 45]
  const CUSTODY_HEAD_KINDS: seq<Kind> := [KNum(8), KKey, KNum(4), KTag(2), KTag(2)]

  lemma CustodyHeadIs(d: seq<byte>, b: seq<byte>, o: nat, n: u64, k: Key, id: u32, t: nat, f: bool)
    requires SectionAt(d, b, o, CUSTODY_HEAD_OFFSETS, CUSTODY_HEAD_KINDS,
                       [VNum(n), VKey(k), VNum(id), VTag(t), Flag(f)])
    ensures AmountAt(d, o, n) && KeyAt(d, o + 8, k) && |d| >= o + 44 && Le(d[o + 40..o + 44]) == id
    ensures ByteAt(d, o + 44, t) && FlagAt(d, o + 45, f)
  {
    var at, ks := CUSTODY_HEAD_OFFSETS, CUSTODY_HEAD_KINDS;
    var vs := [VNum(n), VKey(k), VNum(id), VTag(t), Flag(f)];
    NumberHeld(d, b, o + at[0], o, 8, ks[0], vs[0], n);
    KeyHeld(d, b, o + at[1], o + 8, ks[1], vs[1], k);
    NumberHeld(d, b, o + at[2], o + 40, 4, ks[2], vs[2], id);
    TagHeld(d, b, o + at[3], o + 44, 2, ks[3], vs[3], t);
    FlagHeld(d, b, o + at[4], o + 45, ks[4], vs[4], f);
  }

  lemma NumberHeld(d: seq<byte>, b: seq<byte>, p: nat, o: nat, size: nat, k: Kind, v: Value, n: nat)
    requires Holds(d, b, p, k, v) && p == o && k == KNum(size) && v == VNum(n)
    ensures o + size <= |d| && Le(d[o..o + size]) == n
  {
    LeOfToLe(n, size);
  }

  lemma KeyHeld(d: seq<byte>, b: seq<byte>, p: nat, o: nat, k: Kind, v: Value, key: Key)
    requires Holds(d, b, p, k, v) && p == o && k == KKey && v == VKey(key)
    ensures KeyAt(d, o, key)
  {
    KeyIs(d, b, o, key);
  }

  lemma TagHeld(d: seq<byte>, b: seq<byte>, p: nat, o: nat, limit: nat, k: Kind, v: Value, t: nat)
    requires Holds(d, b, p, k, v) && p == o && k == KTag(limit) && v == VTag(t)
    ensures ByteAt(d, o, t)
  {
    TagIs(d, b, o, limit, t);
  }

  const ONE_BYTE_OFFSETS: seq<nat> := [0]
  const ONE_BYTE_KINDS: seq<Kind> := [KNum(1)]

  lemma OneByteIs(d: seq<byte>, b: seq<byte>, o: nat, v: byte)
    requires SectionAt(d, b, o, ONE_BYTE_OFFSETS, ONE_BYTE_KINDS,
                       [VNum(v)])
    ensures ByteAt(d, o, v)
  {
    var vs := [VNum(v)];
    assert Holds(d, b, o + ONE_BYTE_OFFSETS[0], ONE_BYTE_KINDS[0], vs[0]);
    ByteIs(d, b, o, v);
  }

  const VAULT_HEAD_OFFSETS: seq<nat> := [0, 8, 40, 44]
  const VAULT_HEAD_KINDS: seq<Kind> := [KNum(8), KKey, KNum(4), KTag(3)]

  lemma FundVaultHeadIs(d: seq<byte>, b: seq<byte>, o: nat, n: u64, k: Key, id: u32, t: nat)
    requires SectionAt(d, b, o, VAULT_HEAD_OFFSETS, VAULT_HEAD_KINDS,
                       [VNum(n), VKey(k), VNum(id), VTag(t)])
    ensures AmountAt(d, o, n) && KeyAt(d, o + 8, k) && |d| >= o + 44 && Le(d[o + 40..o + 44]) == id
    ensures ByteAt(d, o + 44, t)
  {
    var vs := [VNum(n), VKey(k), VNum(id), VTag(t)];
    assert Holds(d, b, o + VAULT_HEAD_OFFSETS[0], VAULT_HEAD_KINDS[0], vs[0]);
    assert Holds(d, b, o + VAULT_HEAD_OFFSETS[1], VAULT_HEAD_KINDS[1], vs[1]);
    assert Holds(d, b, o + VAULT_HEAD_OFFSETS[2], VAULT_HEAD_KINDS[2], vs[2]);
    assert Holds(d, b, o + VAULT_HEAD_OFFSETS[3], VAULT_HEAD_KINDS[3], vs[3]);
    AmountIs(d, b, o, n);
    KeyIs(d, b, o + 8, k);
    PowValues();
    LeOfToLe(id, 4);
    TagIs(d, b, o + 44, 3, t);
  }

  const VAULT_TAIL_OFFSETS: seq<nat> := [0, 8, 16]
  const VAULT_TAIL_KINDS: seq<Kind> := [KNum(8), KTime, KNum(1)]

  lemma FundVaultTailIs(d: seq<byte>, b: seq<byte>, o: nat, n: u64, t: int, v: byte)
    requires SectionAt(d, b, o, VAULT_TAIL_OFFSETS, VAULT_TAIL_KINDS,
                       [VNum(n), VTime(t), VNum(v)])
    ensures AmountAt(d, o, n) && TimeAt(d, o + 8, t) && ByteAt(d, o + 16, v)
  {
    var vs := [VNum(n), VTime(t), VNum(v)];
    assert Holds(d, b, o + VAULT_TAIL_OFFSETS[0], VAULT_TAIL_KINDS[0], vs[0]);
    assert Holds(d, b, o + VAULT_TAIL_OFFSETS[1], VAULT_TAIL_KINDS[1], vs[1]);
    assert Holds(d, b, o + VAULT_TAIL_OFFSETS[2], VAULT_TAIL_KINDS[2], vs[2]);
    AmountIs(d, b, o, n);
    TimeIs(d, b, o + 8, t);
    ByteIs(d, b, o + 16, v);
  }

  lemma VaultOffsets()
    ensures VAULT_BYTES_OFFSETS == Offsets(VAULT_BYTES_KINDS)
    ensures CUSTODIES_OFFSETS == Offsets(CUSTODIES_KINDS)
  {
    NextOffset(VAULT_BYTES_KINDS, 0);
    NextOffset(VAULT_BYTES_KINDS, 1);
    NextOffset(VAULT_BYTES_KINDS, 2);
    NextOffset(VAULT_BYTES_KINDS, 3);
    NextOffset(CUSTODIES_KINDS, 0);
    NextOffset(CUSTODIES_KINDS, 1);
    NextOffset(CUSTODIES_KINDS, 2);
  }

  lemma FundOffsets()
    ensures FOUR_BYTES_OFFSETS == Offsets(FOUR_BYTES_KINDS)
    ensures TWO_REFS_OFFSETS == Offsets(TWO_REFS_KINDS)
    ensures TEXT_AND_BYTE_OFFSETS == Offsets(TEXT_AND_BYTE_KINDS)
    ensures ACTION_OFFSETS == Offsets(ACTION_KINDS)
  {
    NextOffset(FOUR_BYTES_KINDS, 0);
    NextOffset(FOUR_BYTES_KINDS, 1);
    NextOffset(FOUR_BYTES_KINDS, 2);
    NextOffset(TWO_REFS_KINDS, 0);
    NextOffset(TWO_REFS_KINDS, 1);
    NextOffset(TEXT_AND_BYTE_KINDS, 0);
    NextOffset(ACTION_KINDS, 0);
  }

  lemma AssetOffsets()
    ensures CUSTODY_HEAD_OFFSETS == Offsets(CUSTODY_HEAD_KINDS)
    ensures ONE_BYTE_OFFSETS == Offsets(ONE_BYTE_KINDS)
    ensures VAULT_HEAD_OFFSETS == Offsets(VAULT_HEAD_KINDS)
    ensures VAULT_TAIL_OFFSETS == Offsets(VAULT_TAIL_KINDS)
  {
    NextOffset(CUSTODY_HEAD_KINDS, 0);
    NextOffset(CUSTODY_HEAD_KINDS, 1);
    NextOffset(CUSTODY_HEAD_KINDS, 2);
    NextOffset(CUSTODY_HEAD_KINDS, 3);
    NextOffset(VAULT_HEAD_KINDS, 0);
    NextOffset(VAULT_HEAD_KINDS, 1);
    NextOffset(VAULT_HEAD_KINDS, 2);
    NextOffset(VAULT_TAIL_KINDS, 0);
    NextOffset(VAULT_TAIL_KINDS, 1);
  }

  // ---- sections of a record ----

  lemma KeysLie(d: seq<byte>, b: seq<byte>, o: nat, keys: seq<Key>)
    requires SectionAt(d, b, o, Multiples(32, |keys|), Many(KKey, |keys|), Keys(keys))
    ensures KeysAt(d, o, keys)
  {
    var at, ks, vs := Multiples(32, |keys|), Many(KKey, |keys|), Keys(keys);
    forall j | 0 <= j < |keys|
      ensures KeyAt(d, o + 32 * j, keys[j])
    {
      assert Holds(d, b, o + at[j], ks[j], vs[j]);
      KeyIs(d, b, o + at[j], keys[j]);
    }
  }

  lemma OptKeysLie(d: seq<byte>, b: seq<byte>, o: nat, keys: seq<Option<Key>>)
    requires SectionAt(d, b, o, Multiples(33, |keys|), Many(KOptKey, |keys|), OptKeys(keys))
    ensures OptKeysAt(d, b, o, keys)
  {
    var at, ks, vs := Multiples(33, |keys|), Many(KOptKey, |keys|), OptKeys(keys);
    forall j | 0 <= j < |keys|
      ensures OptKeyAt(d, b, o + 33 * j, keys[j])
    {
      assert Holds(d, b, o + at[j], ks[j], vs[j]);
      OptKeyIs(d, b, o + at[j], keys[j]);
    }
  }

  lemma KeySection(x: Record, b: seq<byte>, i: nat, o: nat, keys: seq<Key>)
    requires InRange(x) && |b| >= Length(ShapeOf(x))
    requires i < |Sections(ShapeOf(x))| && i < |ValueSections(x)| && o == Start(Sections(ShapeOf(x)), i)
    requires Sections(ShapeOf(x))[i] == Many(KKey, |keys|) && ValueSections(x)[i] == Keys(keys)
    ensures KeysAt(PackedOver(x, b), o, keys)
  {
    OffsetsOfMany(KKey, |keys|);
    SectionLies(x, b, i, o, Many(KKey, |keys|), Keys(keys));
    KeysLie(PackedOver(x, b), b, o, keys);
  }

  lemma OptKeySection(x: Record, b: seq<byte>, i: nat, o: nat, keys: seq<Option<Key>>)
    requires InRange(x) && |b| >= Length(ShapeOf(x))
    requires i < |Sections(ShapeOf(x))| && i < |ValueSections(x)| && o == Start(Sections(ShapeOf(x)), i)
    requires Sections(ShapeOf(x))[i] == Many(KOptKey, |keys|) && ValueSections(x)[i] == OptKeys(keys)
    ensures OptKeysAt(PackedOver(x, b), b, o, keys)
  {
    OffsetsOfMany(KOptKey, |keys|);
    SectionLies(x, b, i, o, Many(KOptKey, |keys|), OptKeys(keys));
    OptKeysLie(PackedOver(x, b), b, o, keys);
  }

  lemma InfoSection(x: Record, b: seq<byte>, i: nat, o: nat, variants: nat, info: Info)
    requires InRange(x) && |b| >= Length(ShapeOf(x))
    requires i < |Sections(ShapeOf(x))| && i < |ValueSections(x)| && o == Start(Sections(ShapeOf(x)), i)
    requires Sections(ShapeOf(x))[i] == InfoKinds(variants) && ValueSections(x)[i] == InfoValues(info)
    ensures InfoAt(PackedOver(x, b), b, o, info)
  {
    InfoOffsets(variants);
    SectionLies(x, b, i, o, InfoKinds(variants), InfoValues(info));
    InfoLies(PackedOver(x, b), b, o, variants, info);
  }

  lemma TagSectionAt(x: Record, b: seq<byte>, t: nat)
    requires InRange(x) && |b| >= Length(ShapeOf(x))
    requires |Sections(ShapeOf(x))| > 0 && Sections(ShapeOf(x))[0] == [KTag(2)]
    requires |ValueSections(x)| > 0 && ValueSections(x)[0] == [VTag(t)]
    ensures ByteAt(PackedOver(x, b), 0, t)
  {
    var ks, vs := [KTag(2)], [VTag(t)];
    var at := Offsets(ks);
    SectionLies(x, b, 0, 0, ks, vs);
    assert Holds(PackedOver(x, b), b, 0 + at[0], ks[0], vs[0]);
    TagIs(PackedOver(x, b), b, 0, 2, t);
  }

  // ---- where the sections of each layout begin ----

  /** The sizes of the sections lead from one start to the next. */
  ghost predicate AreSteps(at: seq<nat>, kss: seq<seq<Kind>>) {
    && 0 < |at| == |kss| <= 8 && at[0] == 0
    && IsStep(at, kss, 0) && IsStep(at, kss, 1) && IsStep(at, kss, 2) && IsStep(at, kss, 3)
    && IsStep(at, kss, 4) && IsStep(at, kss, 5) && IsStep(at, kss, 6)
  }

  ghost predicate IsStep(at: seq<nat>, kss: seq<seq<Kind>>, i: nat)
    requires |at| == |kss|
  {
    i + 1 < |kss| ==> at[i + 1] == at[i] + TotalSize(kss[i])
  }

  lemma {:induction false} StepsAreStarts(at: seq<nat>, kss: seq<seq<Kind>>, j: nat)
    requires AreSteps(at, kss) && j < |kss|
    ensures at[j] == Start(kss, j)
  {
    if j > 0 {
      StepsAreStarts(at, kss, j - 1);
      assert IsStep(at, kss, j - 1);
      NextStart(kss, j - 1);
    }
  }

  /** The first bytes of the sections, as literal numbers. */
  function Starts(s: Shape): seq<nat> {
    match s
    case PoolRaydium => [0, 1, 76, 241, 657]
    case PoolOrca => [0, 1, 76, 241]
    case FarmRaydium => [0, 1, 76, 175, 367]
    case FarmOrca => [0, 1, 76, 175]
    case VaultCompound => [0, 1, 76, 81, 241, 307, 563, 693]
    case FundPlain => [0, 75, 79]
    case UserRequests => [0, 72, 88, 104, 120, 136]
    case Custody => [0, 46, 142]
    case VaultOfFund => [0, 45, 205]
  }

  lemma StartsAre(s: Shape, i: nat)
    requires i < |Sections(s)|
    ensures i < |Starts(s)| && Start(Sections(s), i) == Starts(s)[i]
  {
    StepsOf(s);
    StepsAreStarts(Starts(s), Sections(s), i);
  }

  lemma StepsOf(s: Shape)
    ensures AreSteps(Starts(s), Sections(s))
  {
    match s
    case PoolRaydium => PoolSteps(s);
    case PoolOrca => PoolSteps(s);
    case FarmRaydium => FarmSteps(s);
    case FarmOrca => FarmSteps(s);
    case VaultCompound => VaultSteps();
    case _ => FundSteps(s);
  }

  lemma PoolSteps(s: Shape)
    requires s == PoolRaydium || s == PoolOrca
    ensures AreSteps(Starts(s), Sections(s))
  {
    var kss := Sections(s);
    assert kss[0] == [KTag(2)] && kss[1] == InfoKinds(2) && kss[2] == Many(KOptKey, 5);
    assert s == PoolRaydium ==> kss[3] == Many(KKey, 13);
    SizesOfSmallGroups();
    GroupSizes(2, 5, 13);
  }

  lemma FarmSteps(s: Shape)
    requires s == FarmRaydium || s == FarmOrca
    ensures AreSteps(Starts(s), Sections(s))
  {
    SizesOfSmallGroups();
    GroupSizes(3, 3, 6);
  }

  lemma GroupSizes(variants: nat, opts: nat, keys: nat)
    requires opts <= 13 && keys <= 13
    ensures TotalSize(InfoKinds(variants)) == 75
    ensures TotalSize(Many(KOptKey, opts)) == 33 * opts && TotalSize(Many(KKey, keys)) == 32 * keys
  {
    SizesOfGroups();
  }

  lemma VaultSteps()
    ensures AreSteps(Starts(VaultCompound), Sections(VaultCompound))
  {
    VaultSizes(Sections(VaultCompound));
  }

  lemma VaultSizes(kss: seq<seq<Kind>>)
    requires kss == Sections(VaultCompound)
    ensures |kss| == 8
    ensures TotalSize(kss[0]) == 1 && TotalSize(kss[1]) == 75 && TotalSize(kss[2]) == 5 && TotalSize(kss[3]) == 160
    ensures TotalSize(kss[4]) == 66 && TotalSize(kss[5]) == 256 && TotalSize(kss[6]) == 130
  {
    SizesOfGroups();
    SizesOfSmallGroups();
  }

  lemma FundSteps(s: Shape)
    requires s == FundPlain || s == UserRequests || s == Custody || s == VaultOfFund
    ensures AreSteps(Starts(s), Sections(s))
  {
    SizesOfSmallGroups();
    SizesOfFundGroups();
    match s
    case FundPlain =>
      SizesOfGroups();
      assert TotalSize(InfoKinds(1)) == 75;
    case Custody => SizeOfMany(KKey, 3);
    case VaultOfFund => SizeOfMany(KKey, 5);
    case UserRequests =>
  }

  // ---- the layouts ----

  lemma InfoOfRecord(x: Record, b: seq<byte>)
    requires InRange(x) && |b| >= Length(ShapeOf(x)) && (x.Pool? || x.Farm? || x.Vault? || x.Fund?)
    ensures InfoAt(PackedOver(x, b), b, if x.Fund? then 0 else 1, x.info)
  {
    var i := if x.Fund? then 0 else 1;
    StartsAre(ShapeOf(x), i);
    InfoSection(x, b, i, i, if x.Pool? then 2 else if x.Farm? then 3 else 1, x.info);
  }

  lemma PoolTokens(x: Record, b: seq<byte>)
    requires InRange(x) && x.Pool? && |b| >= Length(ShapeOf(x))
    ensures var d := PackedOver(x, b);
      && OptKeyAt(d, b, 76, x.tokenARef) && OptKeyAt(d, b, 109, x.tokenBRef) && OptKeyAt(d, b, 142, x.lpTokenRef)
      && OptKeyAt(d, b, 175, x.tokenAAccount) && OptKeyAt(d, b, 208, x.tokenBAccount)
  {
    var keys := [x.tokenARef, x.tokenBRef, x.lpTokenRef, x.tokenAAccount, x.tokenBAccount];
    StartsAre(ShapeOf(x), 2);
    OptKeySection(x, b, 2, 76, keys);
    OptKeysOneByOne(PackedOver(x, b), b, 76, keys);
  }

  lemma PoolRaydiumKeys(x: Record, b: seq<byte>)
    requires InRange(x) && x.Pool? && x.poolRoute.PoolOnRaydium? && |b| >= Length(ShapeOf(x))
    ensures var d := PackedOver(x, b);
      && KeyAt(d, 241, x.routerProgramId) && KeyAt(d, 273, x.poolProgramId) && KeyAt(d, 305, x.poolRoute.ammId)
      && KeyAt(d, 337, x.poolRoute.ammAuthority) && KeyAt(d, 369, x.poolRoute.ammOpenOrders)
      && KeyAt(d, 401, x.poolRoute.ammTarget) && KeyAt(d, 433, x.poolRoute.poolWithdrawQueue)
      && KeyAt(d, 465, x.poolRoute.poolTempLpTokenAccount) && KeyAt(d, 497, x.poolRoute.serumProgramId)
      && KeyAt(d, 529, x.poolRoute.serumMarket) && KeyAt(d, 561, x.poolRoute.serumCoinVaultAccount)
      && KeyAt(d, 593, x.poolRoute.serumPcVaultAccount) && KeyAt(d, 625, x.poolRoute.serumVaultSigner)
  {
    var keys := [
      x.routerProgramId, x.poolProgramId, x.poolRoute.ammId, x.poolRoute.ammAuthority, x.poolRoute.ammOpenOrders,
      x.poolRoute.ammTarget, x.poolRoute.poolWithdrawQueue, x.poolRoute.poolTempLpTokenAccount,
      x.poolRoute.serumProgramId, x.poolRoute.serumMarket, x.poolRoute.serumCoinVaultAccount,
      x.poolRoute.serumPcVaultAccount, x.poolRoute.serumVaultSigner];
    StartsAre(ShapeOf(x), 3);
    KeySection(x, b, 3, 241, keys);
    KeysOneByOne(PackedOver(x, b), 241, keys);
  }

  lemma PoolRaydiumOptions(x: Record, b: seq<byte>)
    requires InRange(x) && x.Pool? && x.poolRoute.PoolOnRaydium? && |b| >= Length(ShapeOf(x))
    ensures var d := PackedOver(x, b);
      && OptKeyAt(d, b, 657, x.poolRoute.serumBids) && OptKeyAt(d, b, 690, x.poolRoute.serumAsks)
      && OptKeyAt(d, b, 723, x.poolRoute.serumEventQueue)
  {
    var keys := [x.poolRoute.serumBids, x.poolRoute.serumAsks, x.poolRoute.serumEventQueue];
    StartsAre(ShapeOf(x), 4);
    OptKeySection(x, b, 4, 657, keys);
    OptKeysOneByOne(PackedOver(x, b), b, 657, keys);
  }

  lemma PoolOrcaKeys(x: Record, b: seq<byte>)
    requires InRange(x) && x.Pool? && x.poolRoute.PoolOnOrca? && |b| >= Length(ShapeOf(x))
    ensures var d := PackedOver(x, b);
      && KeyAt(d, 241, x.routerProgramId) && KeyAt(d, 273, x.poolProgramId) && KeyAt(d, 305, x.poolRoute.orcaAmmId)
      && KeyAt(d, 337, x.poolRoute.orcaAmmAuthority) && KeyAt(d, 369, x.poolRoute.feesAccount)
  {
    var keys := [
      x.routerProgramId, x.poolProgramId, x.poolRoute.orcaAmmId, x.poolRoute.orcaAmmAuthority, x.poolRoute.feesAccount];
    StartsAre(ShapeOf(x), 3);
    KeySection(x, b, 3, 241, keys);
    KeysOneByOne(PackedOver(x, b), 241, keys);
  }

  lemma PoolLies(x: Record, b: seq<byte>)
    requires InRange(x) && x.Pool? && |b| >= Length(ShapeOf(x))
    ensures PoolAt(PackedOver(x, b), b, x)
  {
    RestStays(x, b);
    InfoOfRecord(x, b);
    PoolTokens(x, b);
    if x.poolRoute.PoolOnRaydium? {
      TagSectionAt(x, b, 0);
      PoolRaydiumKeys(x, b);
      PoolRaydiumOptions(x, b);
    } else {
      TagSectionAt(x, b, 1);
      PoolOrcaKeys(x, b);
    }
  }

  lemma FarmTokens(x: Record, b: seq<byte>)
    requires InRange(x) && x.Farm? && |b| >= Length(ShapeOf(x))
    ensures var d := PackedOver(x, b);
      && OptKeyAt(d, b, 76, x.lpTokenRef) && OptKeyAt(d, b, 109, x.firstRewardTokenRef)
      && OptKeyAt(d, b, 142, x.secondRewardTokenRef)
  {
    var keys := [x.lpTokenRef, x.firstRewardTokenRef, x.secondRewardTokenRef];
    StartsAre(ShapeOf(x), 2);
    OptKeySection(x, b, 2, 76, keys);
    OptKeysOneByOne(PackedOver(x, b), b, 76, keys);
  }

  lemma FarmRaydiumKeys(x: Record, b: seq<byte>)
    requires InRange(x) && x.Farm? && x.farmRoute.FarmOnRaydium? && |b| >= Length(ShapeOf(x))
    ensures var d := PackedOver(x, b);
      && KeyAt(d, 175, x.routerProgramId) && KeyAt(d, 207, x.farmProgramId) && KeyAt(d, 239, x.farmRoute.farmId)
      && KeyAt(d, 271, x.farmRoute.farmAuthority) && KeyAt(d, 303, x.farmRoute.farmLpTokenAccount)
      && KeyAt(d, 335, x.farmRoute.farmFirstRewardTokenAccount)
  {
    var keys := [
      x.routerProgramId, x.farmProgramId, x.farmRoute.farmId, x.farmRoute.farmAuthority,
      x.farmRoute.farmLpTokenAccount, x.farmRoute.farmFirstRewardTokenAccount];
    StartsAre(ShapeOf(x), 3);
    KeySection(x, b, 3, 175, keys);
    KeysOneByOne(PackedOver(x, b), 175, keys);
  }

  lemma FarmRaydiumOption(x: Record, b: seq<byte>)
    requires InRange(x) && x.Farm? && x.farmRoute.FarmOnRaydium? && |b| >= Length(ShapeOf(x))
    ensures OptKeyAt(PackedOver(x, b), b, 367, x.farmRoute.farmSecondRewardTokenAccount)
  {
    var keys := [x.farmRoute.farmSecondRewardTokenAccount];
    StartsAre(ShapeOf(x), 4);
    OptKeySection(x, b, 4, 367, keys);
    OptKeysOneByOne(PackedOver(x, b), b, 367, keys);
  }

  lemma FarmOrcaKeys(x: Record, b: seq<byte>)
    requires InRange(x) && x.Farm? && x.farmRoute.FarmOnOrca? && |b| >= Length(ShapeOf(x))
    ensures var d := PackedOver(x, b);
      && KeyAt(d, 175, x.routerProgramId) && KeyAt(d, 207, x.farmProgramId) && KeyAt(d, 239, x.farmRoute.orcaFarmId)
      && KeyAt(d, 271, x.farmRoute.orcaFarmAuthority) && KeyAt(d, 303, x.farmRoute.farmTokenRef)
      && KeyAt(d, 335, x.farmRoute.baseTokenVault) && KeyAt(d, 367, x.farmRoute.rewardTokenVault)
  {
    var keys := [
      x.routerProgramId, x.farmProgramId, x.farmRoute.orcaFarmId, x.farmRoute.orcaFarmAuthority,
      x.farmRoute.farmTokenRef, x.farmRoute.baseTokenVault, x.farmRoute.rewardTokenVault];
    StartsAre(ShapeOf(x), 3);
    KeySection(x, b, 3, 175, keys);
    KeysOneByOne(PackedOver(x, b), 175, keys);
  }

  lemma FarmLies(x: Record, b: seq<byte>)
    requires InRange(x) && x.Farm? && |b| >= Length(ShapeOf(x))
    ensures FarmAt(PackedOver(x, b), b, x)
  {
    RestStays(x, b);
    InfoOfRecord(x, b);
    FarmTokens(x, b);
    if x.farmRoute.FarmOnRaydium? {
      TagSectionAt(x, b, 0);
      FarmRaydiumKeys(x, b);
      FarmRaydiumOption(x, b);
    } else {
      TagSectionAt(x, b, 1);
      FarmOrcaKeys(x, b);
    }
  }

  lemma VaultBytes(x: Record, b: seq<byte>)
    requires InRange(x) && x.Vault? && |b| >= Length(ShapeOf(x))
    ensures var d := PackedOver(x, b);
      && ByteAt(d, 76, x.metadataBump) && ByteAt(d, 77, x.authorityBump) && ByteAt(d, 78, x.vaultTokenBump)
      && FlagAt(d, 79, x.lockRequired) && FlagAt(d, 80, x.unlockRequired)
  {
    VaultOffsets();
    StartsAre(VaultCompound, 2);
    SectionLies(x, b, 2, 76, VAULT_BYTES_KINDS,
                [VNum(x.metadataBump), VNum(x.authorityBump), VNum(x.vaultTokenBump), Flag(x.lockRequired),
                 Flag(x.unlockRequired)]);
    BytesAndFlagsIs(PackedOver(x, b), b, 76, x.metadataBump, x.authorityBump, x.vaultTokenBump, x.lockRequired,
                    x.unlockRequired);
  }

  lemma VaultKeys(x: Record, b: seq<byte>)
    requires InRange(x) && x.Vault? && |b| >= Length(ShapeOf(x))
    ensures var d := PackedOver(x, b);
      && KeyAt(d, 81, x.vaultProgramId) && KeyAt(d, 113, x.vaultAuthority) && KeyAt(d, 145, x.vaultTokenRef)
      && KeyAt(d, 177, x.infoAccount) && KeyAt(d, 209, x.multisigAccount)
  {
    var keys := [x.vaultProgramId, x.vaultAuthority, x.vaultTokenRef, x.infoAccount, x.multisigAccount];
    StartsAre(ShapeOf(x), 3);
    KeySection(x, b, 3, 81, keys);
    KeysOneByOne(PackedOver(x, b), 81, keys);
  }

  lemma VaultFees(x: Record, b: seq<byte>)
    requires InRange(x) && x.Vault? && |b| >= Length(ShapeOf(x))
    ensures var d := PackedOver(x, b);
      && OptKeyAt(d, b, 241, x.feesAccountA) && OptKeyAt(d, b, 274, x.feesAccountB)
  {
    var keys := [x.feesAccountA, x.feesAccountB];
    StartsAre(ShapeOf(x), 4);
    OptKeySection(x, b, 4, 241, keys);
    OptKeysOneByOne(PackedOver(x, b), b, 241, keys);
  }

  lemma VaultRoutes(x: Record, b: seq<byte>)
    requires InRange(x) && x.Vault? && |b| >= Length(ShapeOf(x))
    ensures var d := PackedOver(x, b);
      && KeyAt(d, 307, x.poolRouterId) && KeyAt(d, 339, x.poolId) && KeyAt(d, 371, x.poolRef)
      && KeyAt(d, 403, x.farmRouterId) && KeyAt(d, 435, x.farmId) && KeyAt(d, 467, x.farmRef)
      && KeyAt(d, 499, x.lpTokenCustody) && KeyAt(d, 531, x.tokenACustody)
  {
    var keys := [
      x.poolRouterId, x.poolId, x.poolRef, x.farmRouterId, x.farmId, x.farmRef, x.lpTokenCustody, x.tokenACustody];
    StartsAre(ShapeOf(x), 5);
    KeySection(x, b, 5, 307, keys);
    KeysOneByOne(PackedOver(x, b), 307, keys);
  }

  lemma VaultCustodies(x: Record, b: seq<byte>)
    requires InRange(x) && x.Vault? && |b| >= Length(ShapeOf(x))
    ensures var d := PackedOver(x, b);
      && OptKeyAt(d, b, 563, x.tokenBCustody) && KeyAt(d, 596, x.tokenARewardCustody)
      && OptKeyAt(d, b, 628, x.tokenBRewardCustody) && KeyAt(d, 661, x.vaultStakeInfo)
  {
    VaultOffsets();
    StartsAre(VaultCompound, 6);
    SectionLies(x, b, 6, 563, CUSTODIES_KINDS,
                [VOptKey(x.tokenBCustody), VKey(x.tokenARewardCustody), VOptKey(x.tokenBRewardCustody),
                 VKey(x.vaultStakeInfo)]);
    CustodiesIs(PackedOver(x, b), b, 563, x.tokenBCustody, x.tokenARewardCustody, x.tokenBRewardCustody,
                x.vaultStakeInfo);
  }

  lemma VaultOptions(x: Record, b: seq<byte>)
    requires InRange(x) && x.Vault? && |b| >= Length(ShapeOf(x))
    ensures var d := PackedOver(x, b);
      && OptKeyAt(d, b, 693, x.vaultStakeCustody) && OptKeyAt(d, b, 726, x.rewardExchangePoolId)
      && OptKeyAt(d, b, 759, x.rewardExchangePoolRef)
  {
    var keys := [x.vaultStakeCustody, x.rewardExchangePoolId, x.rewardExchangePoolRef];
    StartsAre(ShapeOf(x), 7);
    OptKeySection(x, b, 7, 693, keys);
    OptKeysOneByOne(PackedOver(x, b), b, 693, keys);
  }

  lemma VaultLies(x: Record, b: seq<byte>)
    requires InRange(x) && x.Vault? && |b| >= Length(ShapeOf(x))
    ensures VaultAt(PackedOver(x, b), b, x)
  {
    RestStays(x, b);
    TagSectionAt(x, b, 0);
    InfoOfRecord(x, b);
    VaultBytes(x, b);
    VaultKeys(x, b);
    VaultFees(x, b);
    VaultRoutes(x, b);
    VaultCustodies(x, b);
    VaultOptions(x, b);
  }

  lemma FundBumps(x: Record, b: seq<byte>)
    requires InRange(x) && x.Fund? && |b| >= Length(ShapeOf(x))
    ensures var d := PackedOver(x, b);
      && ByteAt(d, 75, x.metadataBump) && ByteAt(d, 76, x.authorityBump)
      && ByteAt(d, 77, x.fundTokenBump) && ByteAt(d, 78, x.multisigBump)
  {
    FundOffsets();
    StartsAre(FundPlain, 1);
    SectionLies(x, b, 1, 75, FOUR_BYTES_KINDS,
                [VNum(x.metadataBump), VNum(x.authorityBump), VNum(x.fundTokenBump), VNum(x.multisigBump)]);
    FourBytesIs(PackedOver(x, b), b, 75, x.metadataBump, x.authorityBump, x.fundTokenBump, x.multisigBump);
  }

  lemma FundKeys(x: Record, b: seq<byte>)
    requires InRange(x) && x.Fund? && |b| >= Length(ShapeOf(x))
    ensures var d := PackedOver(x, b);
      && KeyAt(d, 79, x.fundProgramId) && KeyAt(d, 111, x.fundAuthority) && KeyAt(d, 143, x.fundManager)
      && KeyAt(d, 175, x.fundTokenRef) && KeyAt(d, 207, x.infoAccount) && KeyAt(d, 239, x.multisigAccount)
      && KeyAt(d, 271, x.vaultsAssetsInfo) && KeyAt(d, 303, x.custodiesAssetsInfo)
      && KeyAt(d, 335, x.descriptionAccount)
  {
    var keys := [
      x.fundProgramId, x.fundAuthority, x.fundManager, x.fundTokenRef, x.infoAccount, x.multisigAccount,
      x.vaultsAssetsInfo, x.custodiesAssetsInfo, x.descriptionAccount];
    StartsAre(ShapeOf(x), 2);
    KeySection(x, b, 2, 79, keys);
    KeysOneByOne(PackedOver(x, b), 79, keys);
  }

  lemma FundLies(x: Record, b: seq<byte>)
    requires InRange(x) && x.Fund? && |b| >= Length(ShapeOf(x))
    ensures FundAt(PackedOver(x, b), b, x)
  {
    RestStays(x, b);
    InfoOfRecord(x, b);
    FundBumps(x, b);
    FundKeys(x, b);
  }

  lemma RequestsHead(x: Record, b: seq<byte>)
    requires InRange(x) && x.FundUserRequests? && |b| >= Length(ShapeOf(x))
    ensures var d := PackedOver(x, b);
      && AmountAt(d, 0, x.discriminator) && KeyAt(d, 8, x.fundRef) && KeyAt(d, 40, x.tokenRef)
  {
    FundOffsets();
    StartsAre(UserRequests, 0);
    SectionLies(x, b, 0, 0, TWO_REFS_KINDS,
                [VNum(x.discriminator), VKey(x.fundRef), VKey(x.tokenRef)]);
    TwoRefsIs(PackedOver(x, b), b, 0, x.discriminator, x.fundRef, x.tokenRef);
  }

  lemma RequestsTail(x: Record, b: seq<byte>)
    requires InRange(x) && x.FundUserRequests? && |b| >= Length(ShapeOf(x))
    ensures TextAt(PackedOver(x, b), b, 136, x.denyReason) && ByteAt(PackedOver(x, b), 200, x.bump)
  {
    FundOffsets();
    StartsAre(UserRequests, 5);
    SectionLies(x, b, 5, 136, TEXT_AND_BYTE_KINDS,
                [VStr(x.denyReason), VNum(x.bump)]);
    TextAndByteIs(PackedOver(x, b), b, 136, x.denyReason, x.bump);
  }

  /** The four actions nested in a user's requests, time first and amount second. */
  lemma ActionLies(x: Record, b: seq<byte>, i: nat, o: nat, a: Action)
    requires InRange(x) && x.FundUserRequests? && |b| >= Length(ShapeOf(x))
    requires 1 <= i <= 4 && o == 56 + 16 * i && ValueSections(x)[i] == ActionValues(a)
    ensures ActionBytes(PackedOver(x, b), o, a)
  {
    FundOffsets();
    StartsAre(UserRequests, i);
    SectionLies(x, b, i, o, ACTION_KINDS,
                [VTime(a.time), VNum(a.amount)]);
    ActionIs(PackedOver(x, b), b, o, a.time, a.amount);
  }

  lemma SectionsOfRequests(x: Record)
    requires x.FundUserRequests?
    ensures var p := ValueSections(x);
      && |p| == 6
      && p[1] == ActionValues(x.depositRequest) && p[2] == ActionValues(x.lastDeposit)
      && p[3] == ActionValues(x.withdrawalRequest) && p[4] == ActionValues(x.lastWithdrawal)
  {
  }

  lemma RequestsActions(x: Record, b: seq<byte>)
    requires InRange(x) && x.FundUserRequests? && |b| >= Length(ShapeOf(x))
    ensures var d := PackedOver(x, b);
      && ActionBytes(d, 72, x.depositRequest) && ActionBytes(d, 88, x.lastDeposit)
      && ActionBytes(d, 104, x.withdrawalRequest) && ActionBytes(d, 120, x.lastWithdrawal)
  {
    SectionsOfRequests(x);
    ActionLies(x, b, 1, 72, x.depositRequest);
    ActionLies(x, b, 2, 88, x.lastDeposit);
    ActionLies(x, b, 3, 104, x.withdrawalRequest);
    ActionLies(x, b, 4, 120, x.lastWithdrawal);
  }

  lemma RequestsLies(x: Record, b: seq<byte>)
    requires InRange(x) && x.FundUserRequests? && |b| >= Length(ShapeOf(x))
    ensures RequestsAt(PackedOver(x, b), b, x)
  {
    RestStays(x, b);
    RequestsHead(x, b);
    RequestsActions(x, b);
    RequestsTail(x, b);
  }

  lemma CustodyHead(x: Record, b: seq<byte>)
    requires InRange(x) && x.FundCustody? && |b| >= Length(ShapeOf(x))
    ensures var d := PackedOver(x, b);
      && AmountAt(d, 0, x.discriminator) && KeyAt(d, 8, x.fundRef) && |d| >= 44 && Le(d[40..44]) == x.custodyId
      && ByteAt(d, 44, x.custodyType) && FlagAt(d, 45, x.isVaultToken)
  {
    AssetOffsets();
    StartsAre(Custody, 0);
    SectionLies(x, b, 0, 0, CUSTODY_HEAD_KINDS,
                [VNum(x.discriminator), VKey(x.fundRef), VNum(x.custodyId), VTag(x.custodyType), Flag(x.isVaultToken)]);
    CustodyHeadIs(PackedOver(x, b), b, 0, x.discriminator, x.fundRef, x.custodyId, x.custodyType, x.isVaultToken);
  }

  lemma CustodyKeys(x: Record, b: seq<byte>)
    requires InRange(x) && x.FundCustody? && |b| >= Length(ShapeOf(x))
    ensures var d := PackedOver(x, b);
      && KeyAt(d, 46, x.tokenRef) && KeyAt(d, 78, x.address) && KeyAt(d, 110, x.feesAddress)
  {
    var keys := [x.tokenRef, x.address, x.feesAddress];
    StartsAre(ShapeOf(x), 1);
    KeySection(x, b, 1, 46, keys);
    KeysOneByOne(PackedOver(x, b), 46, keys);
  }

  lemma CustodyBump(x: Record, b: seq<byte>)
    requires InRange(x) && x.FundCustody? && |b| >= Length(ShapeOf(x))
    ensures ByteAt(PackedOver(x, b), 142, x.bump)
  {
    AssetOffsets();
    StartsAre(Custody, 2);
    SectionLies(x, b, 2, 142, ONE_BYTE_KINDS, [VNum(x.bump)]);
    OneByteIs(PackedOver(x, b), b, 142, x.bump);
  }

  lemma CustodyLies(x: Record, b: seq<byte>)
    requires InRange(x) && x.FundCustody? && |b| >= Length(ShapeOf(x))
    ensures CustodyAt(PackedOver(x, b), b, x)
  {
    RestStays(x, b);
    CustodyHead(x, b);
    CustodyKeys(x, b);
    CustodyBump(x, b);
  }

  lemma FundVaultHead(x: Record, b: seq<byte>)
    requires InRange(x) && x.FundVault? && |b| >= Length(ShapeOf(x))
    ensures var d := PackedOver(x, b);
      && AmountAt(d, 0, x.discriminator) && KeyAt(d, 8, x.fundRef) && |d| >= 44 && Le(d[40..44]) == x.vaultId
      && ByteAt(d, 44, x.vaultType)
  {
    AssetOffsets();
    StartsAre(VaultOfFund, 0);
    SectionLies(x, b, 0, 0, VAULT_HEAD_KINDS,
                [VNum(x.discriminator), VKey(x.fundRef), VNum(x.vaultId), VTag(x.vaultType)]);
    FundVaultHeadIs(PackedOver(x, b), b, 0, x.discriminator, x.fundRef, x.vaultId, x.vaultType);
  }

  lemma FundVaultKeys(x: Record, b: seq<byte>)
    requires InRange(x) && x.FundVault? && |b| >= Length(ShapeOf(x))
    ensures var d := PackedOver(x, b);
      && KeyAt(d, 45, x.vaultRef) && KeyAt(d, 77, x.routerProgramId) && KeyAt(d, 109, x.underlyingPoolId)
      && KeyAt(d, 141, x.underlyingPoolRef) && KeyAt(d, 173, x.underlyingLpTokenMint)
  {
    var keys := [x.vaultRef, x.routerProgramId, x.underlyingPoolId, x.underlyingPoolRef, x.underlyingLpTokenMint];
    StartsAre(ShapeOf(x), 1);
    KeySection(x, b, 1, 45, keys);
    KeysOneByOne(PackedOver(x, b), 45, keys);
  }

  lemma FundVaultTail(x: Record, b: seq<byte>)
    requires InRange(x) && x.FundVault? && |b| >= Length(ShapeOf(x))
    ensures var d := PackedOver(x, b);
      AmountAt(d, 205, x.lpBalance) && TimeAt(d, 213, x.balanceUpdateTime) && ByteAt(d, 221, x.bump)
  {
    AssetOffsets();
    StartsAre(VaultOfFund, 2);
    SectionLies(x, b, 2, 205, VAULT_TAIL_KINDS,
                [VNum(x.lpBalance), VTime(x.balanceUpdateTime), VNum(x.bump)]);
    FundVaultTailIs(PackedOver(x, b), b, 205, x.lpBalance, x.balanceUpdateTime, x.bump);
  }

  lemma FundVaultLies(x: Record, b: seq<byte>)
    requires InRange(x) && x.FundVault? && |b| >= Length(ShapeOf(x))
    ensures FundVaultAt(PackedOver(x, b), b, x)
  {
    RestStays(x, b);
    FundVaultHead(x, b);
    FundVaultKeys(x, b);
    FundVaultTail(x, b);
  }

  /** Every record is packed to the literal positions of its layout. */
  lemma RecordLies(x: Record, b: seq<byte>)
    requires InRange(x) && |b| >= Length(ShapeOf(x))
    ensures RecordAt(PackedOver(x, b), b, x)
  {
    if x.Pool? {
      PoolLies(x, b);
    } else if x.Farm? {
      FarmLies(x, b);
    } else if x.Vault? {
      VaultLies(x, b);
    } else if x.Fund? {
      FundLies(x, b);
    } else if x.FundUserRequests? {
      RequestsLies(x, b);
    } else if x.FundCustody? {
      CustodyLies(x, b);
    } else {
      FundVaultLies(x, b);
    }
  }

  /** And what is unpacked was read from those positions. */
  lemma UnpackedLies(f: Family, b: seq<byte>)
    requires Unpack(f, b).Ok?
    ensures RecordAt(b, b, Unpack(f, b).value)
  {
    RepackChangesNothing(f, b);
    RecordLies(Unpack(f, b).value, b);
  }
}

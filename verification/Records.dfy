/**
 The stored records of pools, farms, vaults and funds, as values of fixed layouts. Pools,
 farms and vaults come in several layouts, told apart by their first byte.
 */
module Records {
  import opened Bytes
  import opened Pack
  import opened Layout

  datatype Error = AccountDataTooSmall | InvalidAccountData | UnsupportedSysvar

  /** The part that pools, farms, vaults and funds have in common. */
  datatype Info = Info(
    name: Name, version: u16, variant: nat, official: bool, refdbIndex: Option<u32>, refdbCounter: u16)

  datatype PoolRoute =
    | PoolOnRaydium(
        ammId: Key, ammAuthority: Key, ammOpenOrders: Key, ammTarget: Key, poolWithdrawQueue: Key,
        poolTempLpTokenAccount: Key, serumProgramId: Key, serumMarket: Key, serumCoinVaultAccount: Key,
        serumPcVaultAccount: Key, serumVaultSigner: Key,
        serumBids: Option<Key>, serumAsks: Option<Key>, serumEventQueue: Option<Key>)
    | PoolOnOrca(orcaAmmId: Key, orcaAmmAuthority: Key, feesAccount: Key)

  datatype FarmRoute =
    | FarmOnRaydium(
        farmId: Key, farmAuthority: Key, farmLpTokenAccount: Key, farmFirstRewardTokenAccount: Key,
        farmSecondRewardTokenAccount: Option<Key>)
    | FarmOnOrca(
        orcaFarmId: Key, orcaFarmAuthority: Key, farmTokenRef: Key, baseTokenVault: Key, rewardTokenVault: Key)

  datatype Action = Action(time: int, amount: u64)

  datatype Record =
    | Pool(
        info: Info, tokenARef: Option<Key>, tokenBRef: Option<Key>, lpTokenRef: Option<Key>,
        tokenAAccount: Option<Key>, tokenBAccount: Option<Key>, routerProgramId: Key, poolProgramId: Key,
        poolRoute: PoolRoute)
    | Farm(
        info: Info, lpTokenRef: Option<Key>, firstRewardTokenRef: Option<Key>, secondRewardTokenRef: Option<Key>,
        routerProgramId: Key, farmProgramId: Key, farmRoute: FarmRoute)
    | Vault(
        info: Info, metadataBump: byte, authorityBump: byte, vaultTokenBump: byte, lockRequired: bool,
        unlockRequired: bool, vaultProgramId: Key, vaultAuthority: Key, vaultTokenRef: Key, infoAccount: Key,
        multisigAccount: Key, feesAccountA: Option<Key>, feesAccountB: Option<Key>,
        poolRouterId: Key, poolId: Key, poolRef: Key, farmRouterId: Key, farmId: Key, farmRef: Key,
        lpTokenCustody: Key, tokenACustody: Key, tokenBCustody: Option<Key>, tokenARewardCustody: Key,
        tokenBRewardCustody: Option<Key>, vaultStakeInfo: Key, vaultStakeCustody: Option<Key>,
        rewardExchangePoolId: Option<Key>, rewardExchangePoolRef: Option<Key>)
    | Fund(
        info: Info, metadataBump: byte, authorityBump: byte, fundTokenBump: byte, multisigBump: byte,
        fundProgramId: Key, fundAuthority: Key, fundManager: Key, fundTokenRef: Key, infoAccount: Key,
        multisigAccount: Key, vaultsAssetsInfo: Key, custodiesAssetsInfo: Key, descriptionAccount: Key)
    | FundUserRequests(
        discriminator: u64, fundRef: Key, tokenRef: Key, depositRequest: Action, lastDeposit: Action,
        withdrawalRequest: Action, lastWithdrawal: Action, denyReason: Name, bump: byte)
    | FundCustody(
        discriminator: u64, fundRef: Key, custodyId: u32, custodyType: nat, isVaultToken: bool, tokenRef: Key,
        address: Key, feesAddress: Key, bump: byte)
    | FundVault(
        discriminator: u64, fundRef: Key, vaultId: u32, vaultType: nat, vaultRef: Key, routerProgramId: Key,
        underlyingPoolId: Key, underlyingPoolRef: Key, underlyingLpTokenMint: Key, lpBalance: u64,
        balanceUpdateTime: int, bump: byte)

  /** The layouts. */
  datatype Shape =
    | PoolRaydium | PoolOrca | FarmRaydium | FarmOrca | VaultCompound
    | FundPlain | UserRequests | Custody | VaultOfFund

  function ShapeOf(x: Record): Shape {
    if x.Pool? then (if x.poolRoute.PoolOnRaydium? then PoolRaydium else PoolOrca)
    else if x.Farm? then (if x.farmRoute.FarmOnRaydium? then FarmRaydium else FarmOrca)
    else if x.Vault? then VaultCompound
    else if x.Fund? then FundPlain
    else if x.FundUserRequests? then UserRequests
    else if x.FundCustody? then Custody
    else VaultOfFund
  }

  /** The number of bytes of each layout, as declared with the types. */
  function Length(s: Shape): nat {
    match s
    case PoolRaydium => 756
    case PoolOrca => 401
    case FarmRaydium => 400
    case FarmOrca => 399
    case VaultCompound => 792
    case FundPlain => 367
    case UserRequests => 201
    case Custody => 143
    case VaultOfFund => 222
  }

  // ---- the fields ----

  function InfoKinds(variants: nat): seq<Kind> {
    [KStr, KNum(2), KTag(variants), KTag(2), KOptU32, KNum(2)]
  }

  function InfoValues(i: Info): seq<Value> {
    [VStr(i.name), VNum(i.version), VTag(i.variant), Flag(i.official), VOptU32(i.refdbIndex), VNum(i.refdbCounter)]
  }

  function Flag(b: bool): Value {
    VTag(if b then 1 else 0)
  }

  function Keys(keys: seq<Key>): (r: seq<Value>)
    ensures |r| == |keys| && forall i :: 0 <= i < |keys| ==> r[i] == VKey(keys[i])
  {
    seq(|keys|, i requires 0 <= i < |keys| => VKey(keys[i]))
  }

  function OptKeys(keys: seq<Option<Key>>): (r: seq<Value>)
    ensures |r| == |keys| && forall i :: 0 <= i < |keys| ==> r[i] == VOptKey(keys[i])
  {
    seq(|keys|, i requires 0 <= i < |keys| => VOptKey(keys[i]))
  }

  /** The layouts, section by section; the first section of a tagged layout is the tag. */
  function Sections(s: Shape): seq<seq<Kind>> {
    match s
    case PoolRaydium => [[KTag(2)], InfoKinds(2), Many(KOptKey, 5), Many(KKey, 13), Many(KOptKey, 3)]
    case PoolOrca => [[KTag(2)], InfoKinds(2), Many(KOptKey, 5), Many(KKey, 5)]
    case FarmRaydium => [[KTag(2)], InfoKinds(3), Many(KOptKey, 3), Many(KKey, 6), Many(KOptKey, 1)]
    case FarmOrca => [[KTag(2)], InfoKinds(3), Many(KOptKey, 3), Many(KKey, 7)]
    case VaultCompound =>
      [[KTag(2)], InfoKinds(1), [KNum(1), KNum(1), KNum(1), KTag(2), KTag(2)], Many(KKey, 5), Many(KOptKey, 2),
       Many(KKey, 8), [KOptKey, KKey, KOptKey, KKey], Many(KOptKey, 3)]
    case FundPlain => [InfoKinds(1), [KNum(1), KNum(1), KNum(1), KNum(1)], Many(KKey, 9)]
    case UserRequests =>
      [[KNum(8), KKey, KKey], [KTime, KNum(8)], [KTime, KNum(8)], [KTime, KNum(8)], [KTime, KNum(8)], [KStr, KNum(1)]]
    case Custody => [[KNum(8), KKey, KNum(4), KTag(2), KTag(2)], Many(KKey, 3), [KNum(1)]]
    case VaultOfFund => [[KNum(8), KKey, KNum(4), KTag(3)], Many(KKey, 5), [KNum(8), KTime, KNum(1)]]
  }

  /** The number of fields. */
  function Count(s: Shape): nat {
    match s
    case PoolRaydium => 28
    case PoolOrca => 17
    case FarmRaydium => 17
    case FarmOrca => 17
    case VaultCompound => 34
    case FundPlain => 19
    case UserRequests => 13
    case Custody => 9
    case VaultOfFund => 12
  }

  /** The fields one by one. */
  function Kinds(s: Shape): (ks: seq<Kind>)
    ensures |ks| == Count(s)
  {
    seq(Count(s), j requires 0 <= j < Count(s) => KindAt(s, j))
  }

  function KindAt(s: Shape, j: nat): Kind {
    var all := Join(Sections(s));
    if j < |all| then all[j] else KTag(0)
  }

  lemma KindsAreSections(s: Shape)
    ensures Kinds(s) == Join(Sections(s))
  {
    LengthOfJoin(Sections(s));
  }

  function ActionValues(a: Action): seq<Value> {
    [VTime(a.time), VNum(a.amount)]
  }

  /** The values of a record, section by section. */
  function ValueSections(x: Record): seq<seq<Value>> {
    match x
    case Pool(info, tokenARef, tokenBRef, lpTokenRef, tokenAAccount, tokenBAccount, router, program, route) =>
      var optKeys := [tokenARef, tokenBRef, lpTokenRef, tokenAAccount, tokenBAccount];
      (match route
       case PoolOnRaydium(k0, k1, k2, k3, k4, k5, k6, k7, k8, k9, k10, bids, asks, eventQueue) =>
         [[VTag(0)], InfoValues(info), OptKeys(optKeys),
          Keys([router, program, k0, k1, k2, k3, k4, k5, k6, k7, k8, k9, k10]), OptKeys([bids, asks, eventQueue])]
       case PoolOnOrca(ammId, ammAuthority, fees) =>
         [[VTag(1)], InfoValues(info), OptKeys(optKeys), Keys([router, program, ammId, ammAuthority, fees])])
    case Farm(info, lp, first, second, router, program, route) =>
      (match route
       case FarmOnRaydium(id, authority, lpAccount, firstAccount, secondAccount) =>
         [[VTag(0)], InfoValues(info), OptKeys([lp, first, second]),
          Keys([router, program, id, authority, lpAccount, firstAccount]), OptKeys([secondAccount])]
       case FarmOnOrca(id, authority, token, base, reward) =>
         [[VTag(1)], InfoValues(info), OptKeys([lp, first, second]),
          Keys([router, program, id, authority, token, base, reward])])
    case Vault(info, b0, b1, b2, lock, unlock, p0, p1, p2, p3, p4, fa, fb, q0, q1, q2, q3, q4, q5, q6, q7,
               tb, ra, rb, si, sc, ei, er) =>
      [[VTag(0)], InfoValues(info), [VNum(b0), VNum(b1), VNum(b2), Flag(lock), Flag(unlock)],
       Keys([p0, p1, p2, p3, p4]), OptKeys([fa, fb]), Keys([q0, q1, q2, q3, q4, q5, q6, q7]),
       [VOptKey(tb), VKey(ra), VOptKey(rb), VKey(si)], OptKeys([sc, ei, er])]
    case Fund(info, b0, b1, b2, b3, k0, k1, k2, k3, k4, k5, k6, k7, k8) =>
      [InfoValues(info), [VNum(b0), VNum(b1), VNum(b2), VNum(b3)], Keys([k0, k1, k2, k3, k4, k5, k6, k7, k8])]
    case FundUserRequests(discriminator, fund, token, a0, a1, a2, a3, reason, bump) =>
      [[VNum(discriminator), VKey(fund), VKey(token)], ActionValues(a0), ActionValues(a1), ActionValues(a2),
       ActionValues(a3), [VStr(reason), VNum(bump)]]
    case FundCustody(discriminator, fund, id, kind, isVault, token, address, fees, bump) =>
      [[VNum(discriminator), VKey(fund), VNum(id), VTag(kind), Flag(isVault)], Keys([token, address, fees]),
       [VNum(bump)]]
    case FundVault(discriminator, fund, id, kind, vault, router, poolId, poolRef, mint, balance, time, bump) =>
      [[VNum(discriminator), VKey(fund), VNum(id), VTag(kind)], Keys([vault, router, poolId, poolRef, mint]),
       [VNum(balance), VTime(time), VNum(bump)]]
  }

  /** The values one by one. */
  function Values(x: Record): (vs: seq<Value>)
    ensures |vs| == Count(ShapeOf(x))
  {
    seq(Count(ShapeOf(x)), j requires 0 <= j < Count(ShapeOf(x)) => ValueAt(x, j))
  }

  function ValueAt(x: Record, j: nat): Value {
    var all := Join(ValueSections(x));
    if j < |all| then all[j] else VTag(0)
  }

  lemma ValuesAreSections(x: Record)
    ensures Values(x) == Join(ValueSections(x))
  {
    match ShapeOf(x)
    case PoolRaydium => PoolCount(x);
    case PoolOrca => PoolCount(x);
    case VaultCompound => VaultCount(x);
    case _ => OtherCount(x);
  }

  lemma PoolCount(x: Record)
    requires x.Pool?
    ensures |Join(ValueSections(x))| == Count(ShapeOf(x))
  {
    LengthOfJoin(ValueSections(x));
  }

  lemma VaultCount(x: Record)
    requires x.Vault?
    ensures |Join(ValueSections(x))| == Count(ShapeOf(x))
  {
    LengthOfJoin(ValueSections(x));
  }

  lemma OtherCount(x: Record)
    requires !x.Pool? && !x.Vault?
    ensures |Join(ValueSections(x))| == Count(ShapeOf(x))
  {
    LengthOfJoin(ValueSections(x));
  }

  /** Variants and times in the range that the types of the source give them. */
  predicate InRange(x: Record) {
    if x.Pool? then x.info.variant < 2
    else if x.Farm? then x.info.variant < 3
    else if x.FundUserRequests? then
      && IsTime(x.depositRequest.time) && IsTime(x.lastDeposit.time)
      && IsTime(x.withdrawalRequest.time) && IsTime(x.lastWithdrawal.time)
    else if x.FundCustody? then x.custodyType < 2
    else if x.FundVault? then x.vaultType < 3 && IsTime(x.balanceUpdateTime)
    else x.info.variant == 0
  }

  predicate IsTime(t: int) {
    -0x8000_0000_0000_0000 <= t < 0x8000_0000_0000_0000
  }

  lemma SizesOfGroups()
    ensures forall n :: 0 <= n <= 13 ==> TotalSize(Many(KKey, n)) == 32 * n && TotalSize(Many(KOptKey, n)) == 33 * n
    ensures forall variants :: TotalSize(InfoKinds(variants)) == 75
  {
    forall n: nat | n <= 13
      ensures TotalSize(Many(KKey, n)) == 32 * n && TotalSize(Many(KOptKey, n)) == 33 * n
    {
      SizeOfMany(KKey, n);
      SizeOfMany(KOptKey, n);
    }
    forall variants
      ensures TotalSize(InfoKinds(variants)) == 75
    {
      assert InfoKinds(variants) == [KStr, KNum(2)] + [KTag(variants)] + [KTag(2), KOptU32, KNum(2)];
      SizeOfBoth([KStr, KNum(2)] + [KTag(variants)], [KTag(2), KOptU32, KNum(2)]);
      SizeOfBoth([KStr, KNum(2)], [KTag(variants)]);
      assert [KTag(variants)][1..] == [];
    }
  }

  lemma SizesOfSmallGroups()
    ensures TotalSize([KTag(2)]) == 1 && TotalSize([KNum(1)]) == 1
    ensures TotalSize([KNum(1), KNum(1), KNum(1), KTag(2), KTag(2)]) == 5
    ensures TotalSize([KOptKey, KKey, KOptKey, KKey]) == 130
    ensures TotalSize([KNum(1), KNum(1), KNum(1), KNum(1)]) == 4
  {
  }

  lemma SizesOfFundGroups()
    ensures TotalSize([KNum(8), KKey, KKey]) == 72
    ensures TotalSize([KTime, KNum(8)]) == 16
    ensures TotalSize([KStr, KNum(1)]) == 65
    ensures TotalSize([KNum(8), KKey, KNum(4), KTag(2), KTag(2)]) == 46
    ensures TotalSize([KNum(8), KKey, KNum(4), KTag(3)]) == 45
    ensures TotalSize([KNum(8), KTime, KNum(1)]) == 17
  {
  }

  /** The fields of each layout fill its declared length. */
  lemma LayoutLength(s: Shape)
    ensures TotalSize(Kinds(s)) == Length(s)
  {
    KindsAreSections(s);
    SizesOfGroups();
    SizesOfSmallGroups();
    SizesOfFundGroups();
    SizeOfJoin(Sections(s));
  }

  lemma InfoFits(i: Info, variants: nat)
    requires i.variant < variants <= 256
    ensures AllFit(InfoKinds(variants), InfoValues(i))
  {
    PowValues();
  }

  lemma ValuesFit(x: Record)
    requires InRange(x)
    ensures SectionsFit(Sections(ShapeOf(x)), ValueSections(x))
  {
    match ShapeOf(x)
    case PoolRaydium => PoolFits(x);
    case PoolOrca => PoolFits(x);
    case FarmRaydium => FarmFits(x);
    case FarmOrca => FarmFits(x);
    case VaultCompound => VaultFits(x);
    case FundPlain => FundFits(x);
    case UserRequests => RequestsFit(x);
    case Custody => CustodyFits(x);
    case VaultOfFund => VaultOfFundFits(x);
  }

  lemma PoolFits(x: Record)
    requires InRange(x) && x.Pool?
    ensures SectionsFit(Sections(ShapeOf(x)), ValueSections(x))
  {
    PowValues();
    InfoFits(x.info, 2);
  }

  lemma FarmFits(x: Record)
    requires InRange(x) && x.Farm?
    ensures SectionsFit(Sections(ShapeOf(x)), ValueSections(x))
  {
    PowValues();
    InfoFits(x.info, 3);
  }

  lemma VaultFits(x: Record)
    requires InRange(x) && x.Vault?
    ensures SectionsFit(Sections(ShapeOf(x)), ValueSections(x))
  {
    PowValues();
    InfoFits(x.info, 1);
  }

  lemma FundFits(x: Record)
    requires InRange(x) && x.Fund?
    ensures SectionsFit(Sections(ShapeOf(x)), ValueSections(x))
  {
    PowValues();
    InfoFits(x.info, 1);
  }

  lemma RequestsFit(x: Record)
    requires InRange(x) && x.FundUserRequests?
    ensures SectionsFit(Sections(ShapeOf(x)), ValueSections(x))
  {
    PowValues();
  }

  lemma CustodyFits(x: Record)
    requires InRange(x) && x.FundCustody?
    ensures SectionsFit(Sections(ShapeOf(x)), ValueSections(x))
  {
    PowValues();
  }

  lemma VaultOfFundFits(x: Record)
    requires InRange(x) && x.FundVault?
    ensures SectionsFit(Sections(ShapeOf(x)), ValueSections(x))
  {
    PowValues();
  }

  // ---- and back ----

  function At(p: seq<seq<Value>>, i: nat, j: nat): Value {
    if i < |p| && j < |p[i]| then p[i][j] else VTag(0)
  }

  function Str(v: Value): Name {
    if v.VStr? then v.str else []
  }

  function Num(v: Value): nat {
    if v.VNum? then v.num else 0
  }

  function Num8(v: Value): byte {
    if Num(v) < 256 then Num(v) else 0
  }

  function Num16(v: Value): u16 {
    if Num(v) < 0x1_0000 then Num(v) else 0
  }

  function Num32(v: Value): u32 {
    if Num(v) < 0x1_0000_0000 then Num(v) else 0
  }

  function Num64(v: Value): u64 {
    if Num(v) < U64_MOD then Num(v) else 0
  }

  function Tag(v: Value): nat {
    if v.VTag? then v.tag else 0
  }

  function Address(v: Value): Key {
    if v.VKey? then v.key else Zeros(32)
  }

  function OptAddress(v: Value): Option<Key> {
    if v.VOptKey? then v.optKey else None
  }

  function KeyAt(p: seq<seq<Value>>, i: nat, j: nat): Key {
    Address(At(p, i, j))
  }

  function OptAt(p: seq<seq<Value>>, i: nat, j: nat): Option<Key> {
    OptAddress(At(p, i, j))
  }

  function FlagAt(p: seq<seq<Value>>, i: nat, j: nat): bool {
    Tag(At(p, i, j)) == 1
  }

  function TimeAt(p: seq<seq<Value>>, i: nat, j: nat): int {
    var v := At(p, i, j);
    if v.VTime? then v.time else 0
  }

  function InfoOf(p: seq<seq<Value>>, i: nat): Info {
    Info(Str(At(p, i, 0)), Num16(At(p, i, 1)), Tag(At(p, i, 2)), FlagAt(p, i, 3),
         (var v := At(p, i, 4); if v.VOptU32? then v.optNum else None), Num16(At(p, i, 5)))
  }

  function ActionOf(p: seq<seq<Value>>, i: nat): Action {
    Action(TimeAt(p, i, 0), Num64(At(p, i, 1)))
  }

  /** The record whose values these are. */
  function RecordOf(s: Shape, p: seq<seq<Value>>): Record {
    match s
    case PoolRaydium =>
      Pool(InfoOf(p, 1), OptAt(p, 2, 0), OptAt(p, 2, 1), OptAt(p, 2, 2), OptAt(p, 2, 3), OptAt(p, 2, 4),
        KeyAt(p, 3, 0), KeyAt(p, 3, 1), PoolOnRaydium(KeyAt(p, 3, 2), KeyAt(p, 3, 3), KeyAt(p, 3, 4),
        KeyAt(p, 3, 5), KeyAt(p, 3, 6), KeyAt(p, 3, 7), KeyAt(p, 3, 8), KeyAt(p, 3, 9), KeyAt(p, 3, 10),
        KeyAt(p, 3, 11), KeyAt(p, 3, 12), OptAt(p, 4, 0), OptAt(p, 4, 1), OptAt(p, 4, 2)))
    case PoolOrca =>
      Pool(InfoOf(p, 1), OptAt(p, 2, 0), OptAt(p, 2, 1), OptAt(p, 2, 2), OptAt(p, 2, 3), OptAt(p, 2, 4),
        KeyAt(p, 3, 0), KeyAt(p, 3, 1), PoolOnOrca(KeyAt(p, 3, 2), KeyAt(p, 3, 3), KeyAt(p, 3, 4)))
    case FarmRaydium =>
      Farm(InfoOf(p, 1), OptAt(p, 2, 0), OptAt(p, 2, 1), OptAt(p, 2, 2), KeyAt(p, 3, 0), KeyAt(p, 3, 1),
        FarmOnRaydium(KeyAt(p, 3, 2), KeyAt(p, 3, 3), KeyAt(p, 3, 4), KeyAt(p, 3, 5), OptAt(p, 4, 0)))
    case FarmOrca =>
      Farm(InfoOf(p, 1), OptAt(p, 2, 0), OptAt(p, 2, 1), OptAt(p, 2, 2), KeyAt(p, 3, 0), KeyAt(p, 3, 1),
        FarmOnOrca(KeyAt(p, 3, 2), KeyAt(p, 3, 3), KeyAt(p, 3, 4), KeyAt(p, 3, 5), KeyAt(p, 3, 6)))
    case VaultCompound =>
      Vault(InfoOf(p, 1), Num8(At(p, 2, 0)), Num8(At(p, 2, 1)), Num8(At(p, 2, 2)), FlagAt(p, 2, 3),
        FlagAt(p, 2, 4), KeyAt(p, 3, 0), KeyAt(p, 3, 1), KeyAt(p, 3, 2), KeyAt(p, 3, 3), KeyAt(p, 3, 4),
        OptAt(p, 4, 0), OptAt(p, 4, 1), KeyAt(p, 5, 0), KeyAt(p, 5, 1), KeyAt(p, 5, 2), KeyAt(p, 5, 3),
        KeyAt(p, 5, 4), KeyAt(p, 5, 5), KeyAt(p, 5, 6), KeyAt(p, 5, 7), OptAt(p, 6, 0), KeyAt(p, 6, 1),
        OptAt(p, 6, 2), KeyAt(p, 6, 3), OptAt(p, 7, 0), OptAt(p, 7, 1), OptAt(p, 7, 2))
    case FundPlain =>
      Fund(InfoOf(p, 0), Num8(At(p, 1, 0)), Num8(At(p, 1, 1)), Num8(At(p, 1, 2)), Num8(At(p, 1, 3)),
        KeyAt(p, 2, 0), KeyAt(p, 2, 1), KeyAt(p, 2, 2), KeyAt(p, 2, 3), KeyAt(p, 2, 4), KeyAt(p, 2, 5),
        KeyAt(p, 2, 6), KeyAt(p, 2, 7), KeyAt(p, 2, 8))
    case UserRequests =>
      FundUserRequests(Num64(At(p, 0, 0)), KeyAt(p, 0, 1), KeyAt(p, 0, 2), ActionOf(p, 1), ActionOf(p, 2),
        ActionOf(p, 3), ActionOf(p, 4), Str(At(p, 5, 0)), Num8(At(p, 5, 1)))
    case Custody =>
      FundCustody(Num64(At(p, 0, 0)), KeyAt(p, 0, 1), Num32(At(p, 0, 2)), Tag(At(p, 0, 3)), FlagAt(p, 0, 4),
        KeyAt(p, 1, 0), KeyAt(p, 1, 1), KeyAt(p, 1, 2), Num8(At(p, 2, 0)))
    case VaultOfFund =>
      FundVault(Num64(At(p, 0, 0)), KeyAt(p, 0, 1), Num32(At(p, 0, 2)), Tag(At(p, 0, 3)), KeyAt(p, 1, 0),
        KeyAt(p, 1, 1), KeyAt(p, 1, 2), KeyAt(p, 1, 3), KeyAt(p, 1, 4), Num64(At(p, 2, 0)),
        TimeAt(p, 2, 1), Num8(At(p, 2, 2)))
  }

  /** The record whose values these are, one by one. */
  function FromValues(s: Shape, vs: seq<Value>): Record
    requires |vs| == Count(s)
  {
    KindsAreSections(s);
    RecordOf(s, CutLike(Sections(s), vs))
  }

  lemma RecordOfValues(x: Record)
    ensures RecordOf(ShapeOf(x), ValueSections(x)) == x
  {
    match ShapeOf(x)
    case PoolRaydium => PoolOfValues(x);
    case PoolOrca => PoolOfValues(x);
    case FarmRaydium => FarmOfValues(x);
    case FarmOrca => FarmOfValues(x);
    case VaultCompound => VaultOfValues(x);
    case FundPlain => FundOfValues(x);
    case UserRequests => RequestsOfValues(x);
    case Custody => CustodyOfValues(x);
    case VaultOfFund => VaultOfFundOfValues(x);
  }

  lemma PoolOfValues(x: Record)
    requires x.Pool?
    ensures RecordOf(ShapeOf(x), ValueSections(x)) == x
  {
  }

  lemma FarmOfValues(x: Record)
    requires x.Farm?
    ensures RecordOf(ShapeOf(x), ValueSections(x)) == x
  {
  }

  lemma VaultOfValues(x: Record)
    requires x.Vault?
    ensures RecordOf(ShapeOf(x), ValueSections(x)) == x
  {
  }

  lemma FundOfValues(x: Record)
    requires x.Fund?
    ensures RecordOf(ShapeOf(x), ValueSections(x)) == x
  {
  }

  lemma RequestsOfValues(x: Record)
    requires x.FundUserRequests?
    ensures RecordOf(ShapeOf(x), ValueSections(x)) == x
  {
  }

  lemma CustodyOfValues(x: Record)
    requires x.FundCustody?
    ensures RecordOf(ShapeOf(x), ValueSections(x)) == x
  {
  }

  lemma VaultOfFundOfValues(x: Record)
    requires x.FundVault?
    ensures RecordOf(ShapeOf(x), ValueSections(x)) == x
  {
  }

  /** The tag byte that the layout begins with, if it has one. */
  function TagOf(s: Shape): Option<nat> {
    match s
    case PoolRaydium => Some(0)
    case PoolOrca => Some(1)
    case FarmRaydium => Some(0)
    case FarmOrca => Some(1)
    case VaultCompound => Some(0)
    case _ => None
  }

  /** What was read as a record gives back the values it was read from, layout by layout. */
  lemma ValuesOfPoolRaydium(p: seq<seq<Value>>)
    requires SectionsFit(Sections(PoolRaydium), p) && p[0][0] == VTag(TagOf(PoolRaydium).value)
    ensures ShapeOf(RecordOf(PoolRaydium, p)) == PoolRaydium && InRange(RecordOf(PoolRaydium, p))
    ensures ValueSections(RecordOf(PoolRaydium, p)) == p
  {
    PowValues();
    var q := ValueSections(RecordOf(PoolRaydium, p));
    assert q[0] == p[0] && q[1] == p[1] && q[2] == p[2] && q[3] == p[3];
    assert q[4] == p[4];
  }

  lemma ValuesOfPoolOrca(p: seq<seq<Value>>)
    requires SectionsFit(Sections(PoolOrca), p) && p[0][0] == VTag(TagOf(PoolOrca).value)
    ensures ShapeOf(RecordOf(PoolOrca, p)) == PoolOrca && InRange(RecordOf(PoolOrca, p))
    ensures ValueSections(RecordOf(PoolOrca, p)) == p
  {
    PowValues();
    var q := ValueSections(RecordOf(PoolOrca, p));
    assert q[0] == p[0] && q[1] == p[1] && q[2] == p[2] && q[3] == p[3];
  }

  lemma ValuesOfFarmRaydium(p: seq<seq<Value>>)
    requires SectionsFit(Sections(FarmRaydium), p) && p[0][0] == VTag(TagOf(FarmRaydium).value)
    ensures ShapeOf(RecordOf(FarmRaydium, p)) == FarmRaydium && InRange(RecordOf(FarmRaydium, p))
    ensures ValueSections(RecordOf(FarmRaydium, p)) == p
  {
    PowValues();
    var q := ValueSections(RecordOf(FarmRaydium, p));
    assert q[0] == p[0] && q[1] == p[1] && q[2] == p[2] && q[3] == p[3];
    assert q[4] == p[4];
  }

  lemma ValuesOfFarmOrca(p: seq<seq<Value>>)
    requires SectionsFit(Sections(FarmOrca), p) && p[0][0] == VTag(TagOf(FarmOrca).value)
    ensures ShapeOf(RecordOf(FarmOrca, p)) == FarmOrca && InRange(RecordOf(FarmOrca, p))
    ensures ValueSections(RecordOf(FarmOrca, p)) == p
  {
    PowValues();
    var q := ValueSections(RecordOf(FarmOrca, p));
    assert q[0] == p[0] && q[1] == p[1] && q[2] == p[2] && q[3] == p[3];
  }

  lemma ValuesOfVaultCompound(p: seq<seq<Value>>)
    requires SectionsFit(Sections(VaultCompound), p) && p[0][0] == VTag(TagOf(VaultCompound).value)
    ensures ShapeOf(RecordOf(VaultCompound, p)) == VaultCompound && InRange(RecordOf(VaultCompound, p))
    ensures ValueSections(RecordOf(VaultCompound, p)) == p
  {
    PowValues();
    var q := ValueSections(RecordOf(VaultCompound, p));
    assert q[0] == p[0] && q[1] == p[1] && q[2] == p[2] && q[3] == p[3];
    assert q[4] == p[4] && q[5] == p[5] && q[6] == p[6] && q[7] == p[7];
  }

  lemma ValuesOfFundPlain(p: seq<seq<Value>>)
    requires SectionsFit(Sections(FundPlain), p)
    ensures ShapeOf(RecordOf(FundPlain, p)) == FundPlain && InRange(RecordOf(FundPlain, p))
    ensures ValueSections(RecordOf(FundPlain, p)) == p
  {
    PowValues();
    var q := ValueSections(RecordOf(FundPlain, p));
    assert q[0] == p[0] && q[1] == p[1] && q[2] == p[2];
  }

  lemma ValuesOfUserRequests(p: seq<seq<Value>>)
    requires SectionsFit(Sections(UserRequests), p)
    ensures ShapeOf(RecordOf(UserRequests, p)) == UserRequests && InRange(RecordOf(UserRequests, p))
    ensures ValueSections(RecordOf(UserRequests, p)) == p
  {
    PowValues();
    var q := ValueSections(RecordOf(UserRequests, p));
    assert q[0] == p[0] && q[1] == p[1] && q[2] == p[2] && q[3] == p[3];
    assert q[4] == p[4] && q[5] == p[5];
  }

  lemma ValuesOfCustody(p: seq<seq<Value>>)
    requires SectionsFit(Sections(Custody), p)
    ensures ShapeOf(RecordOf(Custody, p)) == Custody && InRange(RecordOf(Custody, p))
    ensures ValueSections(RecordOf(Custody, p)) == p
  {
    PowValues();
    var q := ValueSections(RecordOf(Custody, p));
    assert q[0] == p[0] && q[1] == p[1] && q[2] == p[2];
  }

  lemma ValuesOfVaultOfFund(p: seq<seq<Value>>)
    requires SectionsFit(Sections(VaultOfFund), p)
    ensures ShapeOf(RecordOf(VaultOfFund, p)) == VaultOfFund && InRange(RecordOf(VaultOfFund, p))
    ensures ValueSections(RecordOf(VaultOfFund, p)) == p
  {
    PowValues();
    var q := ValueSections(RecordOf(VaultOfFund, p));
    assert q[0] == p[0] && q[1] == p[1] && q[2] == p[2];
  }

  /** Any record that was read gives back the values it was read from. */
  lemma ValuesOfRecord(s: Shape, p: seq<seq<Value>>)
    requires SectionsFit(Sections(s), p)
    requires TagOf(s).Some? ==> p[0][0] == VTag(TagOf(s).value)
    ensures ShapeOf(RecordOf(s, p)) == s && InRange(RecordOf(s, p))
    ensures ValueSections(RecordOf(s, p)) == p
  {
    match s
    case PoolRaydium => ValuesOfPoolRaydium(p);
    case PoolOrca => ValuesOfPoolOrca(p);
    case FarmRaydium => ValuesOfFarmRaydium(p);
    case FarmOrca => ValuesOfFarmOrca(p);
    case VaultCompound => ValuesOfVaultCompound(p);
    case FundPlain => ValuesOfFundPlain(p);
    case UserRequests => ValuesOfUserRequests(p);
    case Custody => ValuesOfCustody(p);
    case VaultOfFund => ValuesOfVaultOfFund(p);
  }
}

/**
 The running SOL and token budget of `build_instructions`. Amounts are unsigned 64-bit
 numbers; an operation whose result would not fit ends the call with `ArithmeticError`,
 which is what the program does when it is built with overflow checks. Whether accounts
 exist is asked of the chain; the answers are part of each step.
 */
module Budget {
  import opened Bytes

  const BASE_TX_FEE_SOL := 5000
  const RENT_EXEMPTION_THRESHOLD_SOL: u64 := 2039280

  /** An account address; only whether two are equal matters here. */
  datatype Address = Address(id: nat)

  datatype Amount = Exact(amount: u64) | ExactWithFees(amount: u64) | MaxButLeaveForTransfer | Max | MaxAndClose

  datatype Asset = Sol | Token(mint: Address)

  datatype SwapMethod = BuyTokensForExactSol | SellExactTokensForSol

  /** For a swap: whether the token account and the wrapped-SOL account exist, as answered at each of four times. */
  datatype Answers = Answers(token1: bool, wsol1: bool, token2: bool, wsol2: bool)

  datatype Step =
    | Transfer(asset: Asset, receiver: Address, amount: Amount, receiverExists: bool)
    | Swap(
        baseMint: Address, quoteMint: Address, swapMethod: SwapMethod, amountIn: Amount, minAmountOut: u64,
        exist: Answers)

  datatype Instruction =
    | SolTransfer(to: Address, lamports: u64)
    | CreateReceiverAccount(owner: Address)
    | TokenTransfer(to: Address, tokens: u64)
    | CloseTokenAccount
    | CreateOwnTokenAccount
    | CreateWrappedSolAccount
    | WrapSol(lamports: u64)
    | SyncNative
    | BuySwap(lamports: u64)
    | SellSwap(tokens: u64, minAmountOut: u64)
    | CloseWrappedSolAccount

  datatype Error =
    | ZeroSolBalance
    | SeveralTokensInOneTx
    | NotEnoughSolBalance
    | NotEnoughTokenBalance
    | UnsupportedPool
    | ArithmeticError

  /** What is the same for all steps. */
  datatype Env = Env(wsol: Address, solBalance: u64, txFee: u64)

  /** What runs along: the SOL left, the fee still to be paid, the tokens left, the instructions so far. */
  datatype State = State(sol: u64, fee: u64, tokens: u64, ixs: seq<Instruction>)

  /** What a step wants to do. */
  datatype Plan = Plan(ixs: seq<Instruction>, solCost: u64, tokenCost: u64)

  type StepResult = Result<Option<Plan>, Error>

  function Checked(x: int): Option<u64> {
    if 0 <= x <= U64_MOD - 1 then Some(x) else None
  }

  /** A SOL transfer of this amount. Its cost includes the fee if that is still to be paid. */
  function PlanSol(receiver: Address, amount: u64, fee: u64): StepResult {
    match Checked(amount + fee)
    case None => Err(ArithmeticError)
    case Some(cost) => Ok(Some(Plan([SolTransfer(receiver, amount)], cost, 0)))
  }

  function PlanSolTransfer(env: Env, s: State, receiver: Address, amount: Amount): StepResult
    requires s.fee <= s.sol
  {
    match amount
    case Exact(a) => if a > 0 then PlanSol(receiver, a, s.fee) else Ok(None)
    case ExactWithFees(a) =>
      if a == 0 then Ok(None)
      else if a < s.fee then Err(ArithmeticError)
      else PlanSol(receiver, a - s.fee, s.fee)
    case MaxButLeaveForTransfer =>
      if Checked(env.txFee + s.fee).None? then Err(ArithmeticError)
      else if s.sol > env.txFee + s.fee then PlanSol(receiver, s.sol - env.txFee - s.fee, s.fee)
      else Ok(None)
    case _ => Ok(Some(Plan([SolTransfer(receiver, env.solBalance)], s.sol - s.fee, 0)))
  }

  /** The amount of a token transfer or a sale: as given, or all there is. */
  function TokenAmount(s: State, amount: Amount): u64 {
    match amount
    case Exact(a) => a
    case ExactWithFees(a) => a
    case _ => s.tokens
  }

  function PlanTokenTransfer(s: State, receiver: Address, amount: Amount, receiverExists: bool): Option<Plan> {
    var tokens := TokenAmount(s, amount);
    if tokens == 0 then None
    else
      Some(Plan((if receiverExists then [] else [CreateReceiverAccount(receiver)])
                + [TokenTransfer(receiver, tokens)]
                + (if amount == MaxAndClose then [CloseTokenAccount] else []),
                if receiverExists then 0 else RENT_EXEMPTION_THRESHOLD_SOL,
                tokens))
  }

  function RentUnless(exists_: bool): u64 {
    if exists_ then 0 else RENT_EXEMPTION_THRESHOLD_SOL
  }

  /** How much SOL a purchase puts in. */
  function BuyAmount(env: Env, s: State, amount: Amount, exist: Answers): Result<u64, Error> {
    var rents := RentUnless(exist.token1) + RentUnless(exist.wsol1);
    match amount
    case Exact(a) => Ok(a)
    case ExactWithFees(a) =>
      if Checked(s.fee + rents).None? then Err(ArithmeticError)
      else if a > s.sol then Err(NotEnoughSolBalance)
      else if a < s.fee + rents then Err(ArithmeticError)
      else Ok(a - (s.fee + rents))
    case Max =>
      if Checked(s.fee + rents).None? then Err(ArithmeticError)
      else if s.fee + rents > s.sol then Err(NotEnoughSolBalance)
      else Ok(s.sol - (s.fee + rents))
    case MaxButLeaveForTransfer =>
      if Checked(s.fee + env.txFee + rents).None? then Err(ArithmeticError)
      else if s.fee + env.txFee + rents > s.sol then Err(NotEnoughSolBalance)
      else Ok(s.sol - (s.fee + env.txFee + rents))
    case MaxAndClose => Ok(s.sol)
  }

  function PlanBuy(env: Env, s: State, amount: Amount, exist: Answers): StepResult {
    match BuyAmount(env, s, amount, exist)
    case Err(e) => Err(e)
    case Ok(lamports) =>
      if lamports == 0 then Ok(None)
      else
        match Checked(lamports + RentUnless(exist.token2))
        case None => Err(ArithmeticError)
        case Some(cost) =>
          Ok(Some(Plan((if exist.token2 then [] else [CreateOwnTokenAccount])
                       + (if exist.wsol2 then [] else [CreateWrappedSolAccount])
                       + [WrapSol(lamports), SyncNative, BuySwap(lamports), CloseWrappedSolAccount],
                       cost, 0)))
  }

  function PlanSell(s: State, amount: Amount, minAmountOut: u64, exist: Answers): Option<Plan> {
    var tokens := TokenAmount(s, amount);
    if tokens == 0 then None
    else
      Some(Plan((if exist.wsol1 then [] else [CreateWrappedSolAccount])
                + [SyncNative, SellSwap(tokens, minAmountOut), CloseWrappedSolAccount],
                0, tokens))
  }

  function PlanStep(env: Env, s: State, step: Step): StepResult
    requires s.fee <= s.sol
  {
    match step
    case Transfer(Sol, receiver, amount, _) => PlanSolTransfer(env, s, receiver, amount)
    case Transfer(Token(_), receiver, amount, receiverExists) =>
      Ok(PlanTokenTransfer(s, receiver, amount, receiverExists))
    case Swap(baseMint, quoteMint, swapMethod, amountIn, minAmountOut, exist) =>
      if baseMint == env.wsol || quoteMint != env.wsol then Err(UnsupportedPool)
      else if swapMethod.BuyTokensForExactSol? then PlanBuy(env, s, amountIn, exist)
      else Ok(PlanSell(s, amountIn, minAmountOut, exist))
  }

  /** Carrying a plan out: the fee is taken off with the first one, and no number goes below zero. */
  function Charge(env: Env, s: State, plan: Plan): State
    requires plan.tokenCost <= s.tokens && (s.fee > 0 ==> env.txFee <= s.sol)
  {
    var afterFee := if s.fee > 0 then s.sol - env.txFee else s.sol;
    State(if plan.solCost < afterFee then afterFee - plan.solCost else 0,
          0, s.tokens - plan.tokenCost, s.ixs + plan.ixs)
  }

  /** What holds between steps: the fee is whole and the balance untouched, or the fee is paid. */
  ghost predicate Sound(env: Env, s: State) {
    env.txFee > 0 && (s.fee == 0 || (s.fee == env.txFee && s.sol == env.solBalance && env.txFee <= s.sol))
  }

  /** After the first `n` steps. */
  function After(env: Env, tokens: u64, steps: seq<Step>, n: nat): (r: Result<State, Error>)
    requires n <= |steps| && 0 < env.txFee <= env.solBalance
    ensures r.Ok? ==> Sound(env, r.value)
  {
    if n == 0 then Ok(State(env.solBalance, env.txFee, tokens, []))
    else
      match After(env, tokens, steps, n - 1)
      case Err(e) => Err(e)
      case Ok(s) =>
        match PlanStep(env, s, steps[n - 1])
        case Err(e) => Err(e)
        case Ok(None) => Ok(s)
        case Ok(Some(plan)) =>
          if plan.tokenCost > s.tokens then Err(NotEnoughTokenBalance) else Ok(Charge(env, s, plan))
  }

  // ---- what the instructions move ----

  function SolMoved(ix: Instruction): nat {
    match ix
    case SolTransfer(_, lamports) => lamports
    case WrapSol(lamports) => lamports
    case _ => 0
  }

  function TokensMoved(ix: Instruction): nat {
    match ix
    case TokenTransfer(_, tokens) => tokens
    case SellSwap(tokens, _) => tokens
    case _ => 0
  }

  /** Rent that stays paid; that of the wrapped-SOL account comes back when the account is closed. */
  function RentPaid(ix: Instruction): nat {
    match ix
    case CreateReceiverAccount(_) => RENT_EXEMPTION_THRESHOLD_SOL
    case CreateOwnTokenAccount => RENT_EXEMPTION_THRESHOLD_SOL
    case _ => 0
  }

  function Total(f: Instruction -> nat, ixs: seq<Instruction>): nat {
    if ixs == [] then 0 else f(ixs[0]) + Total(f, ixs[1..])
  }

  lemma {:induction false} TotalOfBoth(f: Instruction -> nat, a: seq<Instruction>, b: seq<Instruction>)
    ensures Total(f, a + b) == Total(f, a) + Total(f, b)
  {
    if a == [] {
      assert a + b == b;
    } else {
      assert (a + b)[1..] == a[1..] + b;
      TotalOfBoth(f, a[1..], b);
    }
  }

  lemma TotalOfThree(f: Instruction -> nat, a: seq<Instruction>, b: seq<Instruction>, c: seq<Instruction>)
    ensures Total(f, a + b + c) == Total(f, a) + Total(f, b) + Total(f, c)
  {
    TotalOfBoth(f, a, b);
    TotalOfBoth(f, a + b, c);
  }

  lemma TotalOfOne(f: Instruction -> nat, ix: Instruction)
    ensures Total(f, [ix]) == f(ix) && Total(f, []) == 0
  {
    assert [ix][1..] == [];
  }

  /** A SOL transfer of everything: it moves the balance as it was at the start. */
  predicate SweepsSol(step: Step) {
    step.Transfer? && step.asset == Sol && (step.amount == Max || step.amount == MaxAndClose)
  }

  /** Any other SOL transfer. Its plan charges the fee a second time when it comes first. */
  predicate IsPlainSolTransfer(step: Step) {
    step.Transfer? && step.asset == Sol && !SweepsSol(step)
  }

  lemma TokenTransferTotal(f: Instruction -> nat, s: State, receiver: Address, amount: Amount, receiverExists: bool)
    requires PlanTokenTransfer(s, receiver, amount, receiverExists).Some?
    ensures Total(f, PlanTokenTransfer(s, receiver, amount, receiverExists).value.ixs) ==
      (if receiverExists then 0 else f(CreateReceiverAccount(receiver)))
      + f(TokenTransfer(receiver, TokenAmount(s, amount)))
      + (if amount == MaxAndClose then f(CloseTokenAccount) else 0)
  {
    var create := if receiverExists then [] else [CreateReceiverAccount(receiver)];
    var move := TokenTransfer(receiver, TokenAmount(s, amount));
    var close := if amount == MaxAndClose then [CloseTokenAccount] else [];
    TotalOfThree(f, create, [move], close);
    TotalOfOne(f, CreateReceiverAccount(receiver));
    TotalOfOne(f, move);
    TotalOfOne(f, CloseTokenAccount);
  }

  lemma BuyTotal(f: Instruction -> nat, env: Env, s: State, amount: Amount, exist: Answers)
    requires PlanBuy(env, s, amount, exist).Ok? && PlanBuy(env, s, amount, exist).value.Some?
    ensures var lamports := BuyAmount(env, s, amount, exist).value;
      Total(f, PlanBuy(env, s, amount, exist).value.value.ixs) ==
        (if exist.token2 then 0 else f(CreateOwnTokenAccount))
        + (if exist.wsol2 then 0 else f(CreateWrappedSolAccount))
        + f(WrapSol(lamports)) + f(SyncNative) + f(BuySwap(lamports)) + f(CloseWrappedSolAccount)
  {
    var lamports := BuyAmount(env, s, amount, exist).value;
    var create := if exist.token2 then [] else [CreateOwnTokenAccount];
    var wrapped := if exist.wsol2 then [] else [CreateWrappedSolAccount];
    var wrap, swap, close := [WrapSol(lamports), SyncNative], [BuySwap(lamports)], [CloseWrappedSolAccount];
    var rest := [WrapSol(lamports), SyncNative, BuySwap(lamports), CloseWrappedSolAccount];
    TotalOfThree(f, create, wrapped, rest);
    assert rest == wrap + swap + close && wrap == [WrapSol(lamports)] + [SyncNative];
    TotalOfThree(f, wrap, swap, close);
    TotalOfBoth(f, [WrapSol(lamports)], [SyncNative]);
    TotalOfOne(f, CreateOwnTokenAccount);
    TotalOfOne(f, CreateWrappedSolAccount);
    TotalOfOne(f, WrapSol(lamports));
    TotalOfOne(f, SyncNative);
    TotalOfOne(f, BuySwap(lamports));
    TotalOfOne(f, CloseWrappedSolAccount);
  }

  lemma SellTotal(f: Instruction -> nat, s: State, amount: Amount, minAmountOut: u64, exist: Answers)
    requires PlanSell(s, amount, minAmountOut, exist).Some?
    ensures Total(f, PlanSell(s, amount, minAmountOut, exist).value.ixs) ==
      (if exist.wsol1 then 0 else f(CreateWrappedSolAccount))
      + f(SyncNative) + f(SellSwap(TokenAmount(s, amount), minAmountOut)) + f(CloseWrappedSolAccount)
  {
    var sell := SellSwap(TokenAmount(s, amount), minAmountOut);
    var wrapped := if exist.wsol1 then [] else [CreateWrappedSolAccount];
    var rest := [SyncNative, sell, CloseWrappedSolAccount];
    TotalOfBoth(f, wrapped, rest);
    assert rest == [SyncNative] + [sell] + [CloseWrappedSolAccount];
    TotalOfThree(f, [SyncNative], [sell], [CloseWrappedSolAccount]);
    TotalOfOne(f, CreateWrappedSolAccount);
    TotalOfOne(f, SyncNative);
    TotalOfOne(f, sell);
    TotalOfOne(f, CloseWrappedSolAccount);
  }

  /** A plan costs what its instructions move, plus the rent they pay, plus the fee for a plain SOL transfer. */
  lemma PlanAccounts(env: Env, s: State, step: Step)
    requires s.fee <= s.sol
    requires PlanStep(env, s, step).Ok? && PlanStep(env, s, step).value.Some?
    ensures var plan := PlanStep(env, s, step).value.value;
      && plan.tokenCost == Total(TokensMoved, plan.ixs)
      && (SweepsSol(step) ==> plan.solCost == s.sol - s.fee && Total(SolMoved, plan.ixs) == env.solBalance)
      && (!SweepsSol(step) ==>
            plan.solCost == Total(SolMoved, plan.ixs) + Total(RentPaid, plan.ixs)
                            + if IsPlainSolTransfer(step) then s.fee else 0)
  {
    match step
    case Transfer(Sol, receiver, amount, _) => SolTransferAccounts(env, s, receiver, amount);
    case Transfer(Token(_), receiver, amount, receiverExists) =>
      TokenTransferAccounts(s, receiver, amount, receiverExists);
    case Swap(_, _, BuyTokensForExactSol, amountIn, _, exist) => BuyAccounts(env, s, amountIn, exist);
    case Swap(_, _, SellExactTokensForSol, amountIn, minAmountOut, exist) =>
      SellAccounts(s, amountIn, minAmountOut, exist);
  }

  lemma SolTransferAccounts(env: Env, s: State, receiver: Address, amount: Amount)
    requires s.fee <= s.sol
    requires PlanSolTransfer(env, s, receiver, amount).Ok? && PlanSolTransfer(env, s, receiver, amount).value.Some?
    ensures var plan := PlanSolTransfer(env, s, receiver, amount).value.value;
      && plan.tokenCost == Total(TokensMoved, plan.ixs)
      && (amount == Max || amount == MaxAndClose ==>
            plan.solCost == s.sol - s.fee && Total(SolMoved, plan.ixs) == env.solBalance)
      && (amount != Max && amount != MaxAndClose ==>
            plan.solCost == Total(SolMoved, plan.ixs) + Total(RentPaid, plan.ixs) + s.fee)
  {
    var ix := PlanSolTransfer(env, s, receiver, amount).value.value.ixs[0];
    TotalOfOne(SolMoved, ix);
    TotalOfOne(TokensMoved, ix);
    TotalOfOne(RentPaid, ix);
  }

  lemma TokenTransferAccounts(s: State, receiver: Address, amount: Amount, receiverExists: bool)
    requires PlanTokenTransfer(s, receiver, amount, receiverExists).Some?
    ensures var plan := PlanTokenTransfer(s, receiver, amount, receiverExists).value;
      && plan.tokenCost == Total(TokensMoved, plan.ixs)
      && plan.solCost == Total(SolMoved, plan.ixs) + Total(RentPaid, plan.ixs)
  {
    TokenTransferTotal(SolMoved, s, receiver, amount, receiverExists);
    TokenTransferTotal(TokensMoved, s, receiver, amount, receiverExists);
    TokenTransferTotal(RentPaid, s, receiver, amount, receiverExists);
  }

  lemma BuyAccounts(env: Env, s: State, amountIn: Amount, exist: Answers)
    requires PlanBuy(env, s, amountIn, exist).Ok? && PlanBuy(env, s, amountIn, exist).value.Some?
    ensures var plan := PlanBuy(env, s, amountIn, exist).value.value;
      && plan.tokenCost == Total(TokensMoved, plan.ixs)
      && plan.solCost == Total(SolMoved, plan.ixs) + Total(RentPaid, plan.ixs)
  {
    BuyTotal(SolMoved, env, s, amountIn, exist);
    BuyTotal(TokensMoved, env, s, amountIn, exist);
    BuyTotal(RentPaid, env, s, amountIn, exist);
  }

  lemma SellAccounts(s: State, amountIn: Amount, minAmountOut: u64, exist: Answers)
    requires PlanSell(s, amountIn, minAmountOut, exist).Some?
    ensures var plan := PlanSell(s, amountIn, minAmountOut, exist).value;
      && plan.tokenCost == Total(TokensMoved, plan.ixs)
      && plan.solCost == Total(SolMoved, plan.ixs) + Total(RentPaid, plan.ixs)
  {
    SellTotal(SolMoved, s, amountIn, minAmountOut, exist);
    SellTotal(TokensMoved, s, amountIn, minAmountOut, exist);
    SellTotal(RentPaid, s, amountIn, minAmountOut, exist);
  }

  // ---- what holds of any list of steps ----

  /** The number of the first step that is carried out, if any is. */
  function FirstEmitted(env: Env, tokens: u64, steps: seq<Step>, n: nat): Option<nat>
    requires n <= |steps| && 0 < env.txFee <= env.solBalance
  {
    if n == 0 then None
    else
      var before := FirstEmitted(env, tokens, steps, n - 1);
      if before.Some? then before
      else
        match After(env, tokens, steps, n - 1)
        case Err(_) => None
        case Ok(s) =>
          var r := PlanStep(env, s, steps[n - 1]);
          if r.Ok? && r.value.Some? then Some(n - 1) else None
  }

  /** Token conservation: what is sent away and what is left make up what was there. */
  lemma {:induction false} TokensAreConserved(env: Env, tokens: u64, steps: seq<Step>, n: nat)
    requires n <= |steps| && 0 < env.txFee <= env.solBalance
    requires After(env, tokens, steps, n).Ok?
    ensures var s := After(env, tokens, steps, n).value; Total(TokensMoved, s.ixs) + s.tokens == tokens
  {
    if n == 0 {
    } else {
      TokensAreConserved(env, tokens, steps, n - 1);
      var s := After(env, tokens, steps, n - 1).value;
      var r := PlanStep(env, s, steps[n - 1]);
      if r.value.Some? {
        PlanAccounts(env, s, steps[n - 1]);
        TotalOfBoth(TokensMoved, s.ixs, r.value.value.ixs);
      }
    }
  }

  /** The fee is taken off once: it is open until the first step carried out, and paid from then on. */
  lemma {:induction false} FeeIsPaidOnce(env: Env, tokens: u64, steps: seq<Step>, n: nat)
    requires n <= |steps| && 0 < env.txFee <= env.solBalance
    requires After(env, tokens, steps, n).Ok?
    ensures After(env, tokens, steps, n).value.fee
         == if FirstEmitted(env, tokens, steps, n).Some? then 0 else env.txFee
    ensures FirstEmitted(env, tokens, steps, n).None? ==>
      After(env, tokens, steps, n).value == State(env.solBalance, env.txFee, tokens, [])
    ensures FirstEmitted(env, tokens, steps, n).Some? ==> FirstEmitted(env, tokens, steps, n).value < n
  {
    if n == 0 {
    } else {
      FeeIsPaidOnce(env, tokens, steps, n - 1);
    }
  }

  function Minus(a: nat, b: nat): nat {
    if b < a then a - b else 0
  }

  /** What the steps charge: what they move, their rent, and the fee, twice if a plain SOL transfer comes first. */
  function Charged(env: Env, tokens: u64, steps: seq<Step>, n: nat): nat
    requires n <= |steps| && 0 < env.txFee <= env.solBalance
    requires After(env, tokens, steps, n).Ok?
  {
    var ixs := After(env, tokens, steps, n).value.ixs;
    match FirstEmitted(env, tokens, steps, n)
    case None => 0
    case Some(k) =>
      FeeIsPaidOnce(env, tokens, steps, n);
      Total(SolMoved, ixs) + Total(RentPaid, ixs) + env.txFee + if IsPlainSolTransfer(steps[k]) then env.txFee else 0
  }

  /** The SOL budget, exactly: the pointer is what is left of the start after everything charged, or zero. */
  lemma {:induction false} SolIsAccountedFor(env: Env, tokens: u64, steps: seq<Step>, n: nat)
    requires n <= |steps| && 0 < env.txFee <= env.solBalance
    requires After(env, tokens, steps, n).Ok?
    ensures After(env, tokens, steps, n).value.sol == Minus(env.solBalance, Charged(env, tokens, steps, n))
  {
    FeeIsPaidOnce(env, tokens, steps, n);
    if n == 0 {
    } else {
      SolIsAccountedFor(env, tokens, steps, n - 1);
      FeeIsPaidOnce(env, tokens, steps, n - 1);
      var s := After(env, tokens, steps, n - 1).value;
      var r := PlanStep(env, s, steps[n - 1]);
      if r.value.Some? {
        PlanAccounts(env, s, steps[n - 1]);
        TotalOfBoth(SolMoved, s.ixs, r.value.value.ixs);
        TotalOfBoth(RentPaid, s.ixs, r.value.value.ixs);
      }
    }
  }

  /**
   So the pointer never exceeds what is really left, and it falls short of that exactly
   when the fee was charged twice and something was left.
   */
  lemma SolNeverExceedsBudget(env: Env, tokens: u64, steps: seq<Step>, n: nat, s: State, first: nat)
    requires n <= |steps| && 0 < env.txFee <= env.solBalance
    requires After(env, tokens, steps, n) == Ok(s) && FirstEmitted(env, tokens, steps, n) == Some(first)
    ensures first < n
    ensures var left := Minus(env.solBalance, env.txFee + Total(SolMoved, s.ixs) + Total(RentPaid, s.ixs));
      s.sol <= left && (s.sol == left <==> left == 0 || !IsPlainSolTransfer(steps[first]))
  {
    SolIsAccountedFor(env, tokens, steps, n);
    var due := ChargedIs(env, tokens, steps, n, s, first);
    ChargedMore(env.solBalance, due, env.txFee);
  }

  /** The fee charged twice: a transfer of 100 as the first step leaves the pointer a whole fee too low. */
  lemma FeeTwice()
    ensures var env, steps := Env(Address(0), 1_000_000, 5001), [Transfer(Sol, Address(1), Exact(100), true)];
      && After(env, 0, steps, 1) == Ok(State(1_000_000 - 5001 - 100 - 5001, 0, 0, [SolTransfer(Address(1), 100)]))
      && FirstEmitted(env, 0, steps, 1) == Some(0)
  {
    var env, steps := Env(Address(0), 1_000_000, 5001), [Transfer(Sol, Address(1), Exact(100), true)];
    var s := State(1_000_000, 5001, 0, []);
    assert After(env, 0, steps, 0) == Ok(s);
    assert PlanStep(env, s, steps[0]) == Ok(Some(Plan([SolTransfer(Address(1), 100)], 100 + 5001, 0)));
    assert s.ixs + [SolTransfer(Address(1), 100)] == [SolTransfer(Address(1), 100)];
    assert FirstEmitted(env, 0, steps, 0) == None;
  }

  // ---- more than there is ----

  /** A step whose cost the pointer covers, once the fee is off it. A sweep leaves nothing for the fee. */
  predicate Covered(env: Env, s: State, step: Step)
    requires s.fee <= s.sol
  {
    match PlanStep(env, s, step)
    case Ok(Some(plan)) => !SweepsSol(step) && plan.solCost <= s.sol - s.fee
    case _ => true
  }

  predicate AllCovered(env: Env, tokens: u64, steps: seq<Step>, n: nat)
    requires n <= |steps| && 0 < env.txFee <= env.solBalance
    requires After(env, tokens, steps, n).Ok?
  {
    n == 0 ||
    (AllCovered(env, tokens, steps, n - 1) && Covered(env, After(env, tokens, steps, n - 1).value, steps[n - 1]))
  }

  /** The charges stay within the balance exactly if each step is covered; the call itself does not ask. */
  lemma {:induction false} WithinBalance(env: Env, tokens: u64, steps: seq<Step>, n: nat)
    requires n <= |steps| && 0 < env.txFee <= env.solBalance
    requires After(env, tokens, steps, n).Ok?
    ensures Charged(env, tokens, steps, n) <= env.solBalance <==> AllCovered(env, tokens, steps, n)
  {
    if n == 0 {
    } else {
      WithinBalance(env, tokens, steps, n - 1);
      SolIsAccountedFor(env, tokens, steps, n - 1);
      ChargedNext(env, tokens, steps, n, After(env, tokens, steps, n - 1).value);
    }
  }

  /** What one more step adds to the charges. */
  lemma ChargedNext(env: Env, tokens: u64, steps: seq<Step>, n: nat, s: State)
    requires 0 < n <= |steps| && 0 < env.txFee <= env.solBalance
    requires After(env, tokens, steps, n).Ok? && After(env, tokens, steps, n - 1) == Ok(s)
    ensures var r := PlanStep(env, s, steps[n - 1]);
      r.Ok? && (s.fee == 0 ==> Charged(env, tokens, steps, n - 1) > 0) &&
      var before, after := Charged(env, tokens, steps, n - 1), Charged(env, tokens, steps, n);
      if r.value.None? then after == before
      else if SweepsSol(steps[n - 1]) then after >= before + env.solBalance + s.fee
      else after == before + s.fee + r.value.value.solCost
  {
    FeeIsPaidOnce(env, tokens, steps, n - 1);
    var r := PlanStep(env, s, steps[n - 1]);
    if r.value.Some? {
      PlanAccounts(env, s, steps[n - 1]);
      TotalOfBoth(SolMoved, s.ixs, r.value.value.ixs);
      TotalOfBoth(RentPaid, s.ixs, r.value.value.ixs);
    }
  }

  /** What is really spent: the fee once, what the steps move, and the rent they leave paid. */
  function Spent(env: Env, tokens: u64, steps: seq<Step>, n: nat): nat
    requires n <= |steps| && 0 < env.txFee <= env.solBalance
    requires After(env, tokens, steps, n).Ok?
  {
    var ixs := After(env, tokens, steps, n).value.ixs;
    if FirstEmitted(env, tokens, steps, n).None? then 0
    else Total(SolMoved, ixs) + Total(RentPaid, ixs) + env.txFee
  }

  /** A step whose own cost, without the fee, is covered by what is really left, once the fee is off it. */
  predicate Affordable(env: Env, s: State, step: Step, left: int)
    requires s.fee <= s.sol
  {
    match PlanStep(env, s, step)
    case Ok(Some(plan)) =>
      !SweepsSol(step) && plan.solCost - (if IsPlainSolTransfer(step) then s.fee else 0) <= left - s.fee
    case _ => true
  }

  predicate AllAffordable(env: Env, tokens: u64, steps: seq<Step>, n: nat)
    requires n <= |steps| && 0 < env.txFee <= env.solBalance
    requires After(env, tokens, steps, n).Ok?
  {
    n == 0 ||
    (AllAffordable(env, tokens, steps, n - 1)
     && Affordable(env, After(env, tokens, steps, n - 1).value, steps[n - 1],
                   env.solBalance - Spent(env, tokens, steps, n - 1)))
  }

  /** What is really spent stays within the balance exactly if each step is affordable when it comes. */
  lemma {:induction false} SpentWithinBalance(env: Env, tokens: u64, steps: seq<Step>, n: nat)
    requires n <= |steps| && 0 < env.txFee <= env.solBalance
    requires After(env, tokens, steps, n).Ok?
    ensures Spent(env, tokens, steps, n) <= env.solBalance <==> AllAffordable(env, tokens, steps, n)
  {
    if n == 0 {
    } else {
      SpentWithinBalance(env, tokens, steps, n - 1);
      SpentNext(env, tokens, steps, n, After(env, tokens, steps, n - 1).value);
    }
  }

  lemma SpentNext(env: Env, tokens: u64, steps: seq<Step>, n: nat, s: State)
    requires 0 < n <= |steps| && 0 < env.txFee <= env.solBalance
    requires After(env, tokens, steps, n).Ok? && After(env, tokens, steps, n - 1) == Ok(s)
    ensures var r, step := PlanStep(env, s, steps[n - 1]), steps[n - 1];
      r.Ok? && (s.fee == 0 ==> Spent(env, tokens, steps, n - 1) > 0) &&
      var before, after := Spent(env, tokens, steps, n - 1), Spent(env, tokens, steps, n);
      if r.value.None? then after == before
      else if SweepsSol(step) then after >= before + env.solBalance + s.fee
      else after == before + s.fee + r.value.value.solCost - if IsPlainSolTransfer(step) then s.fee else 0
  {
    FeeIsPaidOnce(env, tokens, steps, n - 1);
    var r := PlanStep(env, s, steps[n - 1]);
    if r.value.Some? {
      PlanAccounts(env, s, steps[n - 1]);
      TotalOfBoth(SolMoved, s.ixs, r.value.value.ixs);
      TotalOfBoth(RentPaid, s.ixs, r.value.value.ixs);
    }
  }

  /** The charges are what is really spent, and the fee once more if a plain SOL transfer comes first. */
  lemma ChargedIsSpent(env: Env, tokens: u64, steps: seq<Step>, n: nat)
    requires n <= |steps| && 0 < env.txFee <= env.solBalance
    requires After(env, tokens, steps, n).Ok?
    ensures var first := FirstEmitted(env, tokens, steps, n);
      && (first.Some? ==> first.value < |steps|)
      && var again := if first.Some? && IsPlainSolTransfer(steps[first.value]) then env.txFee else 0;
      Charged(env, tokens, steps, n) == Spent(env, tokens, steps, n) + again
  {
    FeeIsPaidOnce(env, tokens, steps, n);
  }

  /** So a first plain transfer may spend exactly the balance without being covered: the pointer is one fee short. */
  lemma AffordableButNotCovered()
    ensures var env, steps := Env(Address(0), 10_000, 5001), [Transfer(Sol, Address(1), Exact(4999), true)];
      && After(env, 0, steps, 1) == Ok(State(0, 0, 0, [SolTransfer(Address(1), 4999)]))
      && Spent(env, 0, steps, 1) == env.solBalance && !AllCovered(env, 0, steps, 1)
  {
    var env, steps := Env(Address(0), 10_000, 5001), [Transfer(Sol, Address(1), Exact(4999), true)];
    var s := State(10_000, 5001, 0, []);
    assert After(env, 0, steps, 0) == Ok(s);
    assert PlanStep(env, s, steps[0]) == Ok(Some(Plan([SolTransfer(Address(1), 4999)], 4999 + 5001, 0)));
    assert s.ixs + [SolTransfer(Address(1), 4999)] == [SolTransfer(Address(1), 4999)];
    assert FirstEmitted(env, 0, steps, 0) == None;
    TotalOfOne(SolMoved, SolTransfer(Address(1), 4999));
    TotalOfOne(RentPaid, SolTransfer(Address(1), 4999));
  }

  /** So a list of steps can move more than there is: a million out of a balance of ten thousand. */
  lemma OverspendingPasses()
    ensures var env, steps := Env(Address(0), 10_000, 5001), [Transfer(Sol, Address(1), Exact(1_000_000), true)];
      && After(env, 0, steps, 1) == Ok(State(0, 0, 0, [SolTransfer(Address(1), 1_000_000)]))
      && !AllCovered(env, 0, steps, 1)
  {
    var env, steps := Env(Address(0), 10_000, 5001), [Transfer(Sol, Address(1), Exact(1_000_000), true)];
    var s := State(10_000, 5001, 0, []);
    assert After(env, 0, steps, 0) == Ok(s);
    assert PlanStep(env, s, steps[0]) == Ok(Some(Plan([SolTransfer(Address(1), 1_000_000)], 1_000_000 + 5001, 0)));
    assert s.ixs + [SolTransfer(Address(1), 1_000_000)] == [SolTransfer(Address(1), 1_000_000)];
  }

  lemma ChargedIs(env: Env, tokens: u64, steps: seq<Step>, n: nat, s: State, first: nat) returns (due: nat)
    requires n <= |steps| && 0 < env.txFee <= env.solBalance
    requires After(env, tokens, steps, n) == Ok(s) && FirstEmitted(env, tokens, steps, n) == Some(first)
    ensures first < n && due == env.txFee + Total(SolMoved, s.ixs) + Total(RentPaid, s.ixs)
    ensures Charged(env, tokens, steps, n) == due + if IsPlainSolTransfer(steps[first]) then env.txFee else 0
  {
    FeeIsPaidOnce(env, tokens, steps, n);
    due := env.txFee + Total(SolMoved, s.ixs) + Total(RentPaid, s.ixs);
  }

  lemma ChargedMore(start: nat, due: nat, more: nat)
    requires more > 0
    ensures Minus(start, due + more) <= Minus(start, due)
    ensures Minus(start, due + more) == Minus(start, due) <==> Minus(start, due) == 0
  {
  }

  // ---- the whole call ----

  function TokenUsed(wsol: Address, step: Step): Option<Address> {
    match step
    case Transfer(Token(mint), _, _, _) => Some(mint)
    case Transfer(Sol, _, _, _) => None
    case Swap(baseMint, quoteMint, _, _, _, _) => Some(if baseMint != wsol then baseMint else quoteMint)
  }

  /** `get_tokens_used_in_tx`. */
  function TokensUsed(wsol: Address, steps: seq<Step>, n: nat): set<Address>
    requires n <= |steps|
  {
    if n == 0 then {}
    else
      TokensUsed(wsol, steps, n - 1)
      + match TokenUsed(wsol, steps[n - 1]) { case Some(mint) => {mint} case None => {} }
  }

  /** What goes wrong before the first step is looked at. */
  function Refusal(solBalance: u64, tokensUsed: nat, fee: Option<u64>): Option<Error> {
    if solBalance == 0 then Some(ZeroSolBalance)
    else if tokensUsed > 1 then Some(SeveralTokensInOneTx)
    else
      match fee
      case None => Some(ArithmeticError)
      case Some(txFee) => if solBalance < txFee then Some(NotEnoughSolBalance) else None
  }

  function TxFee(price: u64, units: u32): Option<u64> {
    match Checked(price * units)
    case None => None
    case Some(product) => Checked(BASE_TX_FEE_SOL + product / 1_000_000 + 1)
  }

  /** At most the token balance is moved, and the SOL balance is kept to as far as the steps allow it. */
  predicate BudgetKept(env: Env, tokens: u64, steps: seq<Step>, n: nat)
    requires n <= |steps| && 0 < env.txFee <= env.solBalance
    requires After(env, tokens, steps, n).Ok?
  {
    && Total(TokensMoved, After(env, tokens, steps, n).value.ixs) <= tokens
    && (Charged(env, tokens, steps, n) <= env.solBalance <==> AllCovered(env, tokens, steps, n))
    && (Spent(env, tokens, steps, n) <= env.solBalance <==> AllAffordable(env, tokens, steps, n))
  }

  /** `build_instructions`: the instructions of all steps, or the first error. */
  method BuildInstructions(wsol: Address, solBalance: u64, tokenBalance: u64, price: u64, units: u32, steps: seq<Step>)
    returns (r: Result<seq<Instruction>, Error>)
    ensures match Refusal(solBalance, |TokensUsed(wsol, steps, |steps|)|, TxFee(price, units))
            case Some(e) => r == Err(e)
            case None =>
              match After(Env(wsol, solBalance, TxFee(price, units).value), tokenBalance, steps, |steps|)
              case Err(e) => r == Err(e)
              case Ok(s) =>
                && r == Ok(s.ixs)
                && BudgetKept(Env(wsol, solBalance, TxFee(price, units).value), tokenBalance, steps, |steps|)
  {
    var refusal := Refusal(solBalance, |TokensUsed(wsol, steps, |steps|)|, TxFee(price, units));
    if refusal.Some? {
      return Err(refusal.value);
    }
    var env := Env(wsol, solBalance, TxFee(price, units).value);
    var sol, fee, tokens := solBalance, env.txFee, tokenBalance;
    var ixs := [];
    for i := 0 to |steps|
      invariant After(env, tokenBalance, steps, i) == Ok(State(sol, fee, tokens, ixs))
    {
      ghost var s := State(sol, fee, tokens, ixs);
      var plan := PlanStep(env, State(sol, fee, tokens, ixs), steps[i]);
      AfterNext(env, tokenBalance, steps, i, s, plan);
      match plan {
        case Err(e) =>
          ErrorsStay(env, tokenBalance, steps, i + 1, |steps|);
          return Err(e);
        case Ok(None) =>
        case Ok(Some(p)) =>
          if p.tokenCost > tokens {
            ErrorsStay(env, tokenBalance, steps, i + 1, |steps|);
            return Err(NotEnoughTokenBalance);
          }
          ixs := ixs + p.ixs;
          if fee > 0 {
            fee := 0;
            sol := sol - env.txFee;
          }
          sol := if p.solCost < sol then sol - p.solCost else 0;
          tokens := tokens - p.tokenCost;
          assert Charge(env, s, p) == State(sol, fee, tokens, ixs);
      }
    }
    BudgetsAreKept(env, tokenBalance, steps, |steps|);
    return Ok(ixs);
  }

  lemma AfterNext(env: Env, tokens: u64, steps: seq<Step>, n: nat, s: State, plan: StepResult)
    requires n < |steps| && 0 < env.txFee <= env.solBalance
    requires After(env, tokens, steps, n) == Ok(s) && plan == PlanStep(env, s, steps[n])
    ensures Sound(env, s)
    ensures After(env, tokens, steps, n + 1) ==
      match plan
      case Err(e) => Err(e)
      case Ok(None) => Ok(s)
      case Ok(Some(p)) => if p.tokenCost > s.tokens then Err(NotEnoughTokenBalance) else Ok(Charge(env, s, p))
  {
  }

  lemma BudgetsAreKept(env: Env, tokens: u64, steps: seq<Step>, n: nat)
    requires n <= |steps| && 0 < env.txFee <= env.solBalance
    requires After(env, tokens, steps, n).Ok?
    ensures BudgetKept(env, tokens, steps, n)
  {
    TokensAreConserved(env, tokens, steps, n);
    WithinBalance(env, tokens, steps, n);
    SpentWithinBalance(env, tokens, steps, n);
  }

  lemma {:induction false} ErrorsStay(env: Env, tokens: u64, steps: seq<Step>, n: nat, m: nat)
    requires n <= m <= |steps| && 0 < env.txFee <= env.solBalance
    requires After(env, tokens, steps, n).Err?
    ensures After(env, tokens, steps, m) == After(env, tokens, steps, n)
  {
    if n == m {
    } else {
      ErrorsStay(env, tokens, steps, n, m - 1);
    }
  }
}

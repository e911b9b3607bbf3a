/**
 What each step of a list has to do, in terms of what it asks for and of what is left when
 it comes: which amount it moves, with which instructions, and when it fails or does nothing.
 */
module Amounts {
  import opened Bytes
  import opened Budget

  /** The step does nothing. */
  predicate Skips(s: State, after: Result<State, Error>) {
    after == Ok(s)
  }

  /** The step adds these instructions. */
  predicate Adds(s: State, after: Result<State, Error>, ixs: seq<Instruction>) {
    after.Ok? && after.value.ixs == s.ixs + ixs && after.value.fee == 0
  }

  predicate Sends(s: State, after: Result<State, Error>, receiver: Address, lamports: u64) {
    Adds(s, after, [SolTransfer(receiver, lamports)]) && after.value.tokens == s.tokens
  }

  /**
   SOL transfers. Sent and open fee make up an amount with fees; leaving enough for another
   transfer leaves one fee more of the pointer; sending all means the balance at the start.
   */
  predicate TransfersSol(env: Env, s: State, receiver: Address, amount: Amount, after: Result<State, Error>) {
    match amount
    case Exact(a) =>
      if a == 0 then Skips(s, after)
      else if a + s.fee >= U64_MOD then after == Err(ArithmeticError)
      else Sends(s, after, receiver, a)
    case ExactWithFees(a) =>
      if a == 0 then Skips(s, after)
      else if a < s.fee then after == Err(ArithmeticError)
      else exists x: u64 :: x + s.fee == a && Sends(s, after, receiver, x)
    case MaxButLeaveForTransfer =>
      if env.txFee + s.fee >= U64_MOD then after == Err(ArithmeticError)
      else if s.sol <= env.txFee + s.fee then Skips(s, after)
      else exists x: u64 :: x + s.fee + env.txFee == s.sol && Sends(s, after, receiver, x)
    case Max => Sends(s, after, receiver, env.solBalance)
    case MaxAndClose => Sends(s, after, receiver, env.solBalance)
  }

  /** The amount is the one given, or all tokens there are. */
  predicate AsksFor(s: State, amount: Amount, tokens: u64) {
    match amount
    case Exact(a) => tokens == a
    case ExactWithFees(a) => tokens == a
    case MaxButLeaveForTransfer => tokens == s.tokens
    case Max => tokens == s.tokens
    case MaxAndClose => tokens == s.tokens
  }

  /** Nothing for an amount of 0, an error for more than there is, else these instructions and so many fewer tokens. */
  predicate Spends(s: State, after: Result<State, Error>, tokens: u64, ixs: seq<Instruction>) {
    if tokens == 0 then Skips(s, after)
    else if tokens > s.tokens then after == Err(NotEnoughTokenBalance)
    else Adds(s, after, ixs) && after.value.tokens + tokens == s.tokens
  }

  /** Token transfers create a missing account first, and close the own one when asked to. */
  predicate TransfersTokens(s: State, receiver: Address, amount: Amount, receiverExists: bool,
                            after: Result<State, Error>)
  {
    exists tokens: u64 :: AsksFor(s, amount, tokens)
      && Spends(s, after, tokens,
                (if receiverExists then [] else [CreateReceiverAccount(receiver)]) + [TokenTransfer(receiver, tokens)]
                + (if amount == MaxAndClose then [CloseTokenAccount] else []))
  }

  predicate Sells(s: State, amount: Amount, minAmountOut: u64, exist: Answers, after: Result<State, Error>) {
    exists tokens: u64 :: AsksFor(s, amount, tokens)
      && Spends(s, after, tokens,
                (if exist.wsol1 then [] else [CreateWrappedSolAccount])
                + [SyncNative, SellSwap(tokens, minAmountOut), CloseWrappedSolAccount])
  }

  /** A purchase for so many lamports: they are wrapped, swapped, and what is left is unwrapped. */
  predicate PutsIn(s: State, exist: Answers, after: Result<State, Error>, lamports: u64) {
    if lamports == 0 then Skips(s, after)
    else if lamports + (if exist.token2 then 0 else 2_039_280) >= U64_MOD then after == Err(ArithmeticError)
    else
      && Adds(s, after,
              (if exist.token2 then [] else [CreateOwnTokenAccount])
              + (if exist.wsol2 then [] else [CreateWrappedSolAccount])
              + [WrapSol(lamports), SyncNative, BuySwap(lamports), CloseWrappedSolAccount])
      && after.value.tokens == s.tokens
  }

  /** The open fee and the rent for the accounts that do not exist yet. */
  function Dues(s: State, exist: Answers): nat {
    s.fee + (if exist.token1 then 0 else 2_039_280) + (if exist.wsol1 then 0 else 2_039_280)
  }

  /** Purchases. What is put in and the dues make up an amount with fees, or the pointer, or that less another fee. */
  predicate Buys(env: Env, s: State, amount: Amount, exist: Answers, after: Result<State, Error>) {
    match amount
    case Exact(a) => PutsIn(s, exist, after, a)
    case ExactWithFees(a) =>
      if Dues(s, exist) >= U64_MOD then after == Err(ArithmeticError)
      else if a > s.sol then after == Err(NotEnoughSolBalance)
      else if a < Dues(s, exist) then after == Err(ArithmeticError)
      else exists x: u64 :: x + Dues(s, exist) == a && PutsIn(s, exist, after, x)
    case Max =>
      if Dues(s, exist) >= U64_MOD then after == Err(ArithmeticError)
      else if s.sol < Dues(s, exist) then after == Err(NotEnoughSolBalance)
      else exists x: u64 :: x + Dues(s, exist) == s.sol && PutsIn(s, exist, after, x)
    case MaxButLeaveForTransfer =>
      if Dues(s, exist) + env.txFee >= U64_MOD then after == Err(ArithmeticError)
      else if s.sol < Dues(s, exist) + env.txFee then after == Err(NotEnoughSolBalance)
      else exists x: u64 :: x + Dues(s, exist) + env.txFee == s.sol && PutsIn(s, exist, after, x)
    case MaxAndClose => PutsIn(s, exist, after, s.sol)
  }

  /** What becomes of the state `s` by one step, whichever it is. */
  predicate DoesAsAsked(env: Env, s: State, step: Step, after: Result<State, Error>) {
    match step
    case Transfer(Sol, receiver, amount, _) => TransfersSol(env, s, receiver, amount, after)
    case Transfer(Token(_), receiver, amount, receiverExists) =>
      TransfersTokens(s, receiver, amount, receiverExists, after)
    case Swap(baseMint, quoteMint, swapMethod, amount, minAmountOut, exist) =>
      if baseMint == env.wsol || quoteMint != env.wsol then after == Err(UnsupportedPool)
      else
        match swapMethod
        case BuyTokensForExactSol => Buys(env, s, amount, exist, after)
        case SellExactTokensForSol => Sells(s, amount, minAmountOut, exist, after)
  }

  /** In any list of steps each one does as asked, with what the ones before it have left. */
  lemma EachStepDoesAsAsked(env: Env, tokens: u64, steps: seq<Step>, n: nat, s: State)
    requires n < |steps| && 0 < env.txFee <= env.solBalance
    requires After(env, tokens, steps, n) == Ok(s)
    ensures DoesAsAsked(env, s, steps[n], After(env, tokens, steps, n + 1))
  {
    AfterNext(env, tokens, steps, n, s, PlanStep(env, s, steps[n]));
    StepDoesAsAsked(env, s, steps[n], After(env, tokens, steps, n + 1));
  }

  /** The state that a plan leads to. */
  predicate Follows(env: Env, s: State, plan: StepResult, after: Result<State, Error>)
    requires Sound(env, s)
  {
    match plan
    case Err(e) => after == Err(e)
    case Ok(None) => after == Ok(s)
    case Ok(Some(p)) =>
      after == if p.tokenCost > s.tokens then Err(NotEnoughTokenBalance) else Ok(Charge(env, s, p))
  }

  lemma StepDoesAsAsked(env: Env, s: State, step: Step, after: Result<State, Error>)
    requires Sound(env, s) && s.fee <= s.sol && Follows(env, s, PlanStep(env, s, step), after)
    ensures DoesAsAsked(env, s, step, after)
  {
    match step
    case Transfer(Sol, receiver, amount, _) => SolTransferDoes(env, s, receiver, amount, after);
    case Transfer(Token(_), receiver, amount, receiverExists) =>
      TokenTransferDoes(env, s, receiver, amount, receiverExists, after);
    case Swap(_, _, BuyTokensForExactSol, amount, _, exist) =>
      if step.baseMint != env.wsol && step.quoteMint == env.wsol {
        BuyDoes(env, s, amount, exist, after);
      }
    case Swap(_, _, SellExactTokensForSol, amount, minAmountOut, exist) =>
      if step.baseMint != env.wsol && step.quoteMint == env.wsol {
        SellDoes(env, s, amount, minAmountOut, exist, after);
      }
  }

  lemma SolTransferDoes(env: Env, s: State, receiver: Address, amount: Amount, after: Result<State, Error>)
    requires Sound(env, s) && s.fee <= s.sol && Follows(env, s, PlanSolTransfer(env, s, receiver, amount), after)
    ensures TransfersSol(env, s, receiver, amount, after)
  {
    match amount
    case ExactWithFees(a) =>
      if a >= s.fee && a > 0 {
        assert Sends(s, after, receiver, a - s.fee);
      }
    case MaxButLeaveForTransfer =>
      if env.txFee + s.fee < U64_MOD && s.sol > env.txFee + s.fee {
        assert Sends(s, after, receiver, s.sol - env.txFee - s.fee);
      }
    case _ =>
  }

  lemma TokenTransferDoes(env: Env, s: State, receiver: Address, amount: Amount, receiverExists: bool,
                          after: Result<State, Error>)
    requires Sound(env, s) && Follows(env, s, Ok(PlanTokenTransfer(s, receiver, amount, receiverExists)), after)
    ensures TransfersTokens(s, receiver, amount, receiverExists, after)
  {
    assert AsksFor(s, amount, TokenAmount(s, amount));
  }

  lemma SellDoes(env: Env, s: State, amount: Amount, minAmountOut: u64, exist: Answers, after: Result<State, Error>)
    requires Sound(env, s) && Follows(env, s, Ok(PlanSell(s, amount, minAmountOut, exist)), after)
    ensures Sells(s, amount, minAmountOut, exist, after)
  {
    assert AsksFor(s, amount, TokenAmount(s, amount));
  }

  lemma BuyDoes(env: Env, s: State, amount: Amount, exist: Answers, after: Result<State, Error>)
    requires Sound(env, s) && Follows(env, s, PlanBuy(env, s, amount, exist), after)
    ensures Buys(env, s, amount, exist, after)
  {
    var lamports := BuyAmount(env, s, amount, exist);
    if lamports.Ok? {
      PutIn(env, s, amount, exist, after, lamports.value);
    }
  }

  lemma PutIn(env: Env, s: State, amount: Amount, exist: Answers, after: Result<State, Error>, lamports: u64)
    requires Sound(env, s) && Follows(env, s, PlanBuy(env, s, amount, exist), after)
    requires BuyAmount(env, s, amount, exist) == Ok(lamports)
    ensures PutsIn(s, exist, after, lamports)
  {
  }

  // ---- before the first step ----

  /** The fee is 5001 lamports and the whole millionths of the price for all units; the price must fit 64 bits. */
  lemma TxFeeIs(price: u64, units: u32, fee: u64)
    ensures TxFee(price, units) == None <==> price * units >= U64_MOD
    ensures TxFee(price, units) == Some(fee) <==>
      price * units < U64_MOD && (fee - 5001) * 1_000_000 <= price * units < (fee - 5000) * 1_000_000
  {
  }

  /** A call is refused before its first step for one of four reasons, the first of them that holds. */
  lemma RefusalIs(solBalance: u64, tokensUsed: nat, price: u64, units: u32)
    ensures var r, fee := Refusal(solBalance, tokensUsed, TxFee(price, units)), TxFee(price, units);
      && (r == Some(ZeroSolBalance) <==> solBalance == 0)
      && (r == Some(SeveralTokensInOneTx) <==> solBalance > 0 && tokensUsed >= 2)
      && (r == Some(ArithmeticError) <==> solBalance > 0 && tokensUsed <= 1 && price * units >= U64_MOD)
      && (r == Some(NotEnoughSolBalance) <==>
            solBalance > 0 && tokensUsed <= 1 && fee.Some? && solBalance < fee.value)
      && (r == None <==> tokensUsed <= 1 && fee.Some? && 0 < fee.value <= solBalance)
  {
    TxFeeIs(price, units, 0);
  }

  /** The token of a transfer, or of a swap: the mint that is not wrapped SOL, and the quote when the base is. */
  predicate Uses(wsol: Address, step: Step, mint: Address) {
    match step
    case Transfer(Sol, _, _, _) => false
    case Transfer(Token(m), _, _, _) => mint == m
    case Swap(baseMint, quoteMint, _, _, _, _) =>
      (baseMint != wsol && mint == baseMint) || (baseMint == wsol && mint == quoteMint)
  }

  lemma {:induction false} TokensUsedAre(wsol: Address, steps: seq<Step>, n: nat, mint: Address)
    requires n <= |steps|
    ensures mint in TokensUsed(wsol, steps, n) <==> exists i :: 0 <= i < n && Uses(wsol, steps[i], mint)
  {
    if n > 0 {
      TokensUsedAre(wsol, steps, n - 1, mint);
      assert Uses(wsol, steps[n - 1], mint) <==> TokenUsed(wsol, steps[n - 1]) == Some(mint);
    }
  }
}

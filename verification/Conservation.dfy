/** What every operation of the ledger keeps: for every denomination the
    balances add up to the recorded supply, so several of the overflow errors
    can never be answered. */
module Conservation {
  import opened Base
  import opened Issuers
  import opened Ledger

  // -- sums of balances -----------------------------------------------------

  function Part(balances: map<Key, Amount>, k: Key, d: Denom): nat {
    if k in balances && k.1 == d then balances[k] else 0
  }

  ghost function Total(balances: map<Key, Amount>, d: Denom): nat
    decreases |balances|
  {
    if balances == map[] then 0
    else
      var k :| k in balances;
      Part(balances, k, d) + Total(balances - {k}, d)
  }

  /** The sum does not depend on the order it is taken in. */
  lemma {:induction false} TotalWithout(balances: map<Key, Amount>, k: Key, d: Denom)
    ensures Total(balances, d) == Part(balances, k, d) + Total(balances - {k}, d)
    decreases |balances|
  {
    if k !in balances {
      assert balances - {k} == balances;
    } else {
      var first :| first in balances && Total(balances, d) == Part(balances, first, d) + Total(balances - {first}, d);
      if first != k {
        TotalWithout(balances - {first}, k, d);
        TotalWithout(balances - {k}, first, d);
        assert balances - {first} - {k} == balances - {k} - {first};
        assert Part(balances - {first}, k, d) == Part(balances, k, d);
        assert Part(balances - {k}, first, d) == Part(balances, first, d);
      }
    }
  }

  lemma TotalOfWrite(balances: map<Key, Amount>, k: Key, x: Amount, d: Denom)
    ensures Total(Write(balances, k, x), d) + Part(balances, k, d)
         == Total(balances, d) + (if k.1 == d then x else 0)
  {
    var written := Write(balances, k, x);
    TotalWithout(balances, k, d);
    TotalWithout(written, k, d);
    assert written - {k} == balances - {k};
  }

  lemma TwoWithinTotal(balances: map<Key, Amount>, k: Key, k': Key, d: Denom)
    requires k != k'
    ensures Part(balances, k, d) + Part(balances, k', d) <= Total(balances, d)
  {
    TotalWithout(balances, k, d);
    TotalWithout(balances - {k}, k', d);
  }

  // -- the invariant --------------------------------------------------------

  ghost predicate Balanced(l: Ledger, d: Denom) { Total(l.balances, d) == Supply(l, d) }

  ghost predicate Tidy(l: Ledger) {
    && (forall k :: k in l.balances ==> l.balances[k] > 0)
    && (forall d :: d in l.supply ==> l.supply[d] > 0)
    && Native !in l.issuers
    && (forall k :: k in l.frozen ==> k.1.Sovereign?)
  }

  /** Balances add up to supply, no zero is stored, and no issuer reaches the native coin. */
  ghost predicate Solvent(l: Ledger) {
    Tidy(l) && forall d :: Balanced(l, d)
  }

  lemma EmptyIsSolvent()
    ensures Solvent(EMPTY)
  {
  }

  lemma WithBalanceTotal(l: Ledger, a: Address, d: Denom, x: Amount, e: Denom)
    ensures Total(WithBalance(l, a, d, x).balances, e) + (if d == e then Balance(l, a, d) else 0)
         == Total(l.balances, e) + (if d == e then x else 0)
  {
    TotalOfWrite(l.balances, (a, d), x, e);
  }

  lemma TransferKeepsTotal(l: Ledger, from: Address, to: Address, d: Denom, amount: Amount, e: Denom)
    requires from != to && amount <= Balance(l, from, d) && Balance(l, to, d) + amount <= U128_MAX
    ensures var debited := WithBalance(l, from, d, Balance(l, from, d) - amount);
      Total(WithBalance(debited, to, d, Balance(l, to, d) + amount).balances, e) == Total(l.balances, e)
  {
    var debited := WithBalance(l, from, d, Balance(l, from, d) - amount);
    WithBalanceTotal(l, from, d, Balance(l, from, d) - amount, e);
    WithBalanceTotal(debited, to, d, Balance(l, to, d) + amount, e);
    assert Balance(debited, to, d) == Balance(l, to, d);
  }

  lemma CreateKeepsBalanced(l: Ledger, to: Address, d: Denom, amount: Amount, e: Denom)
    requires Supply(l, d) + amount <= U128_MAX && Balance(l, to, d) + amount <= U128_MAX && Balanced(l, e)
    ensures Balanced(Create(l, to, d, amount), e)
  {
    WithBalanceTotal(l, to, d, Balance(l, to, d) + amount, e);
  }

  lemma DestroyKeepsBalanced(l: Ledger, from: Address, d: Denom, amount: Amount, e: Denom)
    requires amount <= Supply(l, d) && amount <= Balance(l, from, d) && Balanced(l, e)
    ensures Balanced(Destroy(l, from, d, amount), e)
  {
    WithBalanceTotal(l, from, d, Balance(l, from, d) - amount, e);
  }

  lemma TransferKeepsBalanced(l: Ledger, from: Address, to: Address, d: Denom, amount: Amount, e: Denom)
    requires Transfer(l, from, to, d, amount).Ok? && Balanced(l, e)
    ensures Balanced(Transfer(l, from, to, d, amount).value, e)
  {
    if from != to {
      TransferKeepsTotal(l, from, to, d, amount, e);
    }
  }

  lemma MintKeepsBalanced(l: Ledger, minter: Address, to: Address, d: Denom, amount: Amount, e: Denom)
    requires Mint(l, minter, to, d, amount).Ok? && Balanced(l, e)
    ensures Balanced(Mint(l, minter, to, d, amount).value, e)
  {
    CreateKeepsBalanced(l, to, d, amount, e);
  }

  lemma ApplyKeepsBalanced(l: Ledger, op: Op, e: Denom)
    requires Apply(l, op).Ok? && Balanced(l, e)
    ensures Balanced(Apply(l, op).value, e)
  {
    match op
    case DoTransfer(from, to, d, x) => TransferKeepsBalanced(l, from, to, d, x, e);
    case DoMint(minter, to, d, x) => MintKeepsBalanced(l, minter, to, d, x, e);
    case DoBurn(minter, d, x) => DestroyKeepsBalanced(l, minter, d, x, e);
    case DoEmit(to, x) => CreateKeepsBalanced(l, to, Native, x, e);
    case DoSlash(from, x) => DestroyKeepsBalanced(l, from, Native, x, e);
    case DoAllocate(to, d, x) => CreateKeepsBalanced(l, to, d, x, e);
    case _ =>
  }

  lemma CreateKeepsTidy(l: Ledger, to: Address, d: Denom, amount: Amount)
    requires Supply(l, d) + amount <= U128_MAX && Balance(l, to, d) + amount <= U128_MAX && Tidy(l)
    ensures Tidy(Create(l, to, d, amount))
  {
  }

  lemma DestroyKeepsTidy(l: Ledger, from: Address, d: Denom, amount: Amount)
    requires amount <= Supply(l, d) && amount <= Balance(l, from, d) && Tidy(l)
    ensures Tidy(Destroy(l, from, d, amount))
  {
  }

  lemma TransferKeepsTidy(l: Ledger, from: Address, to: Address, d: Denom, amount: Amount)
    requires Transfer(l, from, to, d, amount).Ok? && Tidy(l)
    ensures Tidy(Transfer(l, from, to, d, amount).value)
  {
  }

  lemma MintKeepsTidy(l: Ledger, minter: Address, to: Address, d: Denom, amount: Amount)
    requires Mint(l, minter, to, d, amount).Ok? && Tidy(l)
    ensures Tidy(Mint(l, minter, to, d, amount).value)
  {
    CreateKeepsTidy(l, to, d, amount);
  }

  lemma ApplyKeepsTidy(l: Ledger, op: Op)
    requires Apply(l, op).Ok? && Tidy(l)
    ensures Tidy(Apply(l, op).value)
  {
    match op
    case DoTransfer(from, to, d, x) => TransferKeepsTidy(l, from, to, d, x);
    case DoMint(minter, to, d, x) => MintKeepsTidy(l, minter, to, d, x);
    case DoBurn(minter, d, x) => DestroyKeepsTidy(l, minter, d, x);
    case DoEmit(to, x) => CreateKeepsTidy(l, to, Native, x);
    case DoSlash(from, x) => DestroyKeepsTidy(l, from, Native, x);
    case DoAllocate(to, d, x) => CreateKeepsTidy(l, to, d, x);
    case _ =>
  }

  lemma ApplyKeepsSolvent(l: Ledger, op: Op)
    requires Apply(l, op).Ok? && Solvent(l)
    ensures Solvent(Apply(l, op).value)
  {
    ApplyKeepsTidy(l, op);
    forall e ensures Balanced(Apply(l, op).value, e) { ApplyKeepsBalanced(l, op, e); }
  }

  /** Conservation: whatever is attempted in whatever order, the balances keep adding up. */
  lemma {:induction false} RunKeepsSolvent(l: Ledger, ops: seq<Op>)
    requires Solvent(l)
    ensures Solvent(Run(l, ops))
    decreases |ops|
  {
    if ops != [] {
      if Apply(l, ops[0]).Ok? {
        ApplyKeepsSolvent(l, ops[0]);
      }
      RunKeepsSolvent(After(l, ops[0]), ops[1..]);
    }
  }

  function DenomOf(op: Op): Denom { if op.DoEmit? || op.DoSlash? then Native else op.denom }

  lemma BalanceWithinSupply(l: Ledger, a: Address, d: Denom)
    requires Balanced(l, d)
    ensures Balance(l, a, d) <= Supply(l, d)
  {
    TotalWithout(l.balances, (a, d), d);
  }

  lemma CreditFits(l: Ledger, from: Address, to: Address, d: Denom, x: Amount)
    requires Balanced(l, d)
    ensures from != to && x <= Balance(l, from, d) ==> Balance(l, to, d) + x <= U128_MAX
  {
    if from != to {
      TwoWithinTotal(l.balances, (from, d), (to, d), d);
    }
  }

  /** Of the nine overflow errors only three can be answered, each exactly when the supply itself is full. */
  lemma OnlySupplyOverflows(l: Ledger, op: Op)
    requires Solvent(l) && Apply(l, op).Err? && Apply(l, op).error.Overflow?
    ensures match Apply(l, op).error.site
            case MintSupply => op.DoMint? && Supply(l, op.denom) + op.amount > U128_MAX
            case EmitSupply => op.DoEmit? && Supply(l, Native) + op.amount > U128_MAX
            case GenesisSupply => op.DoAllocate? && Supply(l, op.denom) + op.amount > U128_MAX
            case _ => false
  {
    assert Balanced(l, DenomOf(op));
    match op
    case DoTransfer(from, to, d, x) => CreditFits(l, from, to, d, x);
    case DoMint(_, to, d, _) => BalanceWithinSupply(l, to, d);
    case DoBurn(minter, d, _) => BalanceWithinSupply(l, minter, d);
    case DoEmit(to, _) => BalanceWithinSupply(l, to, Native);
    case DoSlash(from, _) => BalanceWithinSupply(l, from, Native);
    case DoAllocate(to, d, _) => BalanceWithinSupply(l, to, d);
    case _ =>
  }
}

/** The bank as the source writes it (crates/bank/src/lib.rs): every operation
    reads, checks, and only then writes keys of the store it borrows. Each
    method is tied to the ledger operation it carries out, failures included. */
module Bank {
  import opened Base
  import opened Issuers
  import opened Ledger

  type Answer = Result<(), BankError>

  /** The answer and the store agree with the ledger operation; an error changes nothing. */
  predicate Carries(was: Ledger, now: Ledger, answer: Answer, outcome: Outcome) {
    match outcome
    case Ok(l) => answer.Ok? && now == l
    case Err(e) => answer == Err(e) && now == was
  }

  class Bank {
    var balances: map<Key, Amount>
    var supply: map<Denom, Amount>
    var frozen: set<Key>
    var issuers: map<Denom, Issuer>

    function View(): Ledger
      reads this
    {
      Ledger(balances, supply, frozen, issuers)
    }

    constructor (l: Ledger)
      ensures View() == l
    {
      balances, supply, frozen, issuers := l.balances, l.supply, l.frozen, l.issuers;
    }

    // -- reads and writes ---------------------------------------------------

    method ReadBalance(a: Address, d: Denom) returns (x: Amount)
      ensures x == Balance(View(), a, d)
    {
      x := if (a, d) in balances then balances[(a, d)] else 0;
    }

    method ReadSupply(d: Denom) returns (x: Amount)
      ensures x == Supply(View(), d)
    {
      x := if d in supply then supply[d] else 0;
    }

    method WriteBalance(a: Address, d: Denom, x: Amount)
      modifies this`balances
      ensures View() == WithBalance(old(View()), a, d, x)
    {
      if x == 0 {
        balances := balances - {(a, d)};
      } else {
        balances := balances[(a, d) := x];
      }
    }

    method WriteSupply(d: Denom, x: Amount)
      modifies this`supply
      ensures View() == WithSupply(old(View()), d, x)
    {
      if x == 0 {
        supply := supply - {d};
      } else {
        supply := supply[d := x];
      }
    }

    method WriteIssuer(d: Denom, issuer: Issuer)
      modifies this`issuers
      ensures View() == WithIssuer(old(View()), d, issuer)
    {
      issuers := issuers[d := issuer];
    }

    method LoadIssuer(d: Denom) returns (r: Result<Issuer, BankError>)
      ensures r == RequireIssuer(View(), d)
    {
      if d.Native? {
        return Err(NativeNotIssuable);
      }
      if d !in issuers {
        return Err(NoIssuer);
      }
      return Ok(issuers[d]);
    }

    /** The two writes that end every operation creating units. */
    method CreditNew(to: Address, d: Denom, amount: Amount, balance: Amount, total: Amount)
      requires balance == Balance(View(), to, d) && total == Supply(View(), d)
      requires balance + amount <= U128_MAX && total + amount <= U128_MAX
      modifies this
      ensures View() == Create(old(View()), to, d, amount)
    {
      WriteBalance(to, d, balance + amount);
      WriteSupply(d, total + amount);
    }

    // -- operations ---------------------------------------------------------

    method TransferFunds(from: Address, to: Address, d: Denom, amount: Amount) returns (r: Answer)
      modifies this
      ensures Carries(old(View()), View(), r, Transfer(old(View()), from, to, d, amount))
    {
      if amount == 0 {
        return Err(ZeroAmount);
      }
      if (from, d) in frozen || (to, d) in frozen {
        return Err(AccountFrozen);
      }
      var fromBalance := ReadBalance(from, d);
      if from == to {
        if fromBalance < amount {
          return Err(InsufficientFunds);
        }
        return Ok(());
      }
      var toBalance := ReadBalance(to, d);
      if fromBalance < amount {
        return Err(InsufficientFunds);
      }
      if toBalance + amount > U128_MAX {
        return Err(Overflow(TransferCredit));
      }
      WriteBalance(from, d, fromBalance - amount);
      WriteBalance(to, d, toBalance + amount);
      return Ok(());
    }

    method MintTo(minter: Address, to: Address, d: Denom, amount: Amount) returns (r: Answer)
      modifies this
      ensures Carries(old(View()), View(), r, Mint(old(View()), minter, to, d, amount))
    {
      if amount == 0 {
        return Err(ZeroAmount);
      }
      var loaded := LoadIssuer(d);
      if loaded.Err? {
        return Err(loaded.error);
      }
      var issuer := loaded.value;
      if !IsMinter(issuer, minter) {
        return Err(NotMinter);
      }
      if issuer.paused {
        return Err(IssuerPaused);
      }
      if (to, d) in frozen {
        return Err(AccountFrozen);
      }
      var total := ReadSupply(d);
      if total + amount > U128_MAX {
        return Err(Overflow(MintSupply));
      }
      if issuer.maxSupply.Some? && total + amount > issuer.maxSupply.value {
        return Err(SupplyCapExceeded);
      }
      var balance := ReadBalance(to, d);
      if balance + amount > U128_MAX {
        return Err(Overflow(MintCredit));
      }
      var spent := SpendAllowance(issuer, minter, amount);
      if spent.None? {
        return Err(MintAllowanceExceeded);
      }
      CreditNew(to, d, amount, balance, total);
      WriteIssuer(d, spent.value);
      return Ok(());
    }

    method BurnFrom(minter: Address, d: Denom, amount: Amount) returns (r: Answer)
      modifies this
      ensures Carries(old(View()), View(), r, Burn(old(View()), minter, d, amount))
    {
      if amount == 0 {
        return Err(ZeroAmount);
      }
      var loaded := LoadIssuer(d);
      if loaded.Err? {
        return Err(loaded.error);
      }
      if !IsMinter(loaded.value, minter) {
        return Err(NotMinter);
      }
      if (minter, d) in frozen {
        return Err(AccountFrozen);
      }
      var balance := ReadBalance(minter, d);
      if balance < amount {
        return Err(InsufficientFunds);
      }
      var total := ReadSupply(d);
      if total < amount {
        return Err(Overflow(BurnSupply));
      }
      WriteBalance(minter, d, balance - amount);
      WriteSupply(d, total - amount);
      return Ok(());
    }

    method ConfigureIssuer(authority: Address, d: Denom, setting: Setting) returns (r: Answer)
      modifies this
      ensures Carries(old(View()), View(), r, Configure(old(View()), authority, d, setting))
    {
      var loaded := LoadIssuer(d);
      if loaded.Err? {
        return Err(loaded.error);
      }
      if loaded.value.authority != authority {
        return Err(NotIssuer);
      }
      var amended := Amend(loaded.value, setting);
      if amended.Err? {
        return Err(BadIssuer(amended.error));
      }
      WriteIssuer(d, amended.value);
      return Ok(());
    }

    method TakeUpAuthority(caller: Address, d: Denom) returns (r: Answer)
      modifies this
      ensures Carries(old(View()), View(), r, AcceptIssuerAuthority(old(View()), caller, d))
    {
      var loaded := LoadIssuer(d);
      if loaded.Err? {
        return Err(loaded.error);
      }
      var accepted := AcceptAuthority(loaded.value, caller);
      if accepted.Err? {
        return Err(BadIssuer(accepted.error));
      }
      WriteIssuer(d, accepted.value);
      return Ok(());
    }

    method Emit(to: Address, amount: Amount) returns (r: Answer)
      modifies this
      ensures Carries(old(View()), View(), r, EmitNative(old(View()), to, amount))
    {
      if amount == 0 {
        return Err(ZeroAmount);
      }
      var total := ReadSupply(Native);
      if total + amount > U128_MAX {
        return Err(Overflow(EmitSupply));
      }
      var balance := ReadBalance(to, Native);
      if balance + amount > U128_MAX {
        return Err(Overflow(EmitCredit));
      }
      CreditNew(to, Native, amount, balance, total);
      return Ok(());
    }

    method Slash(from: Address, amount: Amount) returns (r: Answer)
      modifies this
      ensures Carries(old(View()), View(), r, SlashNative(old(View()), from, amount))
    {
      if amount == 0 {
        return Err(ZeroAmount);
      }
      var balance := ReadBalance(from, Native);
      if balance < amount {
        return Err(InsufficientFunds);
      }
      var total := ReadSupply(Native);
      if total < amount {
        return Err(Overflow(SlashSupply));
      }
      WriteBalance(from, Native, balance - amount);
      WriteSupply(Native, total - amount);
      return Ok(());
    }

    method Allocate(to: Address, d: Denom, amount: Amount) returns (r: Answer)
      modifies this
      ensures Carries(old(View()), View(), r, GenesisAllocate(old(View()), to, d, amount))
    {
      if amount == 0 {
        return Err(ZeroAmount);
      }
      var total := ReadSupply(d);
      if total + amount > U128_MAX {
        return Err(Overflow(GenesisSupply));
      }
      var balance := ReadBalance(to, d);
      if balance + amount > U128_MAX {
        return Err(Overflow(GenesisCredit));
      }
      CreditNew(to, d, amount, balance, total);
      return Ok(());
    }

    method Register(d: Denom, issuer: Issuer) returns (r: Answer)
      modifies this
      ensures Carries(old(View()), View(), r, RegisterIssuer(old(View()), d, issuer))
    {
      if d.Native? {
        return Err(NativeNotIssuable);
      }
      WriteIssuer(d, issuer);
      return Ok(());
    }

    method Admit(d: Denom, authority: Address) returns (r: Answer)
      modifies this
      ensures Carries(old(View()), View(), r, AdmitIssuer(old(View()), d, authority))
    {
      if d in issuers {
        return Err(IssuerExists);
      }
      r := Register(d, NewIssuer(authority));
    }

    method MarkFrozen(caller: Address, a: Address, d: Denom, on: bool) returns (r: Answer)
      modifies this
      ensures Carries(old(View()), View(), r, SetFrozen(old(View()), caller, a, d, on))
    {
      var loaded := LoadIssuer(d);
      if loaded.Err? {
        return Err(loaded.error);
      }
      if !MayFreeze(loaded.value, caller) {
        return Err(NotFreezer);
      }
      frozen := if on then frozen + {(a, d)} else frozen - {(a, d)};
      return Ok(());
    }
  }
}

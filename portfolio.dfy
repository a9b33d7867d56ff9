/**
 * The portfolio page's grand total: the user's cash plus, for every holding
 * row of the user, the shares times the symbol's current quote. The rows come
 * back from the database in no particular order, so the total is defined over
 * the set of held symbols and shown independent of the order of summation.
 */
module Portfolio {
  import opened Trading

  /** The symbols of the user's holding rows. */
  function HeldSymbols(inventory: map<Key, int>, user: UserId): (held: set<Symbol>)
    ensures forall s :: s in held <==> (user, s) in inventory
  {
    set k | k in inventory && k.0 == user :: k.1
  }

  /** Every symbol in `syms` has a quote. */
  predicate Quoted(syms: set<Symbol>, lookup: Lookup)
  {
    forall s :: s in syms ==> lookup(s).Some?
  }

  /** The market value of one position. */
  function RowValue(inventory: map<Key, int>, user: UserId, s: Symbol, lookup: Lookup): int
    requires lookup(s).Some?
  {
    Shares(inventory, user, s) * lookup(s).value
  }

  /** The market value of the user's positions in `syms`, summed in an arbitrary order. */
  ghost function Value(syms: set<Symbol>, inventory: map<Key, int>, user: UserId, lookup: Lookup): int
    requires Quoted(syms, lookup)
    decreases syms
  {
    if syms == {} then 0
    else
      var s :| s in syms;
      RowValue(inventory, user, s, lookup) + Value(syms - {s}, inventory, user, lookup)
  }

  /**
   * The total of the portfolio page, or None when the page raises instead:
   * no users row for the id, or a held symbol without a quote.
   */
  ghost function Total(l: Ledger, user: UserId, lookup: Lookup): Option<int>
  {
    if user !in l.cash then None
    else
      var held := HeldSymbols(l.inventory, user);
      if !Quoted(held, lookup) then None
      else Some(l.cash[user] + Value(held, l.inventory, user, lookup))
  }

  /** Any one position can be taken out of the sum first: the order of the rows does not matter. */
  lemma {:induction false} ValueRemove(syms: set<Symbol>, x: Symbol, inventory: map<Key, int>, user: UserId, lookup: Lookup)
    requires Quoted(syms, lookup)
    requires x in syms
    ensures Value(syms, inventory, user, lookup) ==
            RowValue(inventory, user, x, lookup) + Value(syms - {x}, inventory, user, lookup)
    decreases syms
  {
    var y :| y in syms && Value(syms, inventory, user, lookup) ==
                          RowValue(inventory, user, y, lookup) + Value(syms - {y}, inventory, user, lookup);
    if y != x {
      ValueRemove(syms - {y}, x, inventory, user, lookup);
      ValueRemove(syms - {x}, y, inventory, user, lookup);
      assert syms - {y} - {x} == syms - {x} - {y};
    }
  }

  /** The sum depends only on the user's share counts of the symbols summed. */
  lemma {:induction false} ValueFrame(syms: set<Symbol>, inv: map<Key, int>, inv': map<Key, int>, user: UserId, lookup: Lookup)
    requires Quoted(syms, lookup)
    requires forall s :: s in syms ==> Shares(inv, user, s) == Shares(inv', user, s)
    ensures Value(syms, inv, user, lookup) == Value(syms, inv', user, lookup)
    decreases syms
  {
    if syms != {} {
      var s :| s in syms;
      ValueRemove(syms, s, inv, user, lookup);
      ValueRemove(syms, s, inv', user, lookup);
      ValueFrame(syms - {s}, inv, inv', user, lookup);
    }
  }

  /**
   * Changing the user's share count of one symbol x by d, and nothing else,
   * moves the value of the positions in syms + {x} by d times x's quote.
   */
  lemma ValueAdjust(syms: set<Symbol>, x: Symbol, d: int, inv: map<Key, int>, inv': map<Key, int>, user: UserId, lookup: Lookup)
    requires Quoted(syms + {x}, lookup)
    requires Shares(inv', user, x) == Shares(inv, user, x) + d
    requires forall s :: s != x ==> Shares(inv', user, s) == Shares(inv, user, s)
    ensures Value(syms + {x}, inv', user, lookup) == Value(syms + {x}, inv, user, lookup) + d * lookup(x).value
  {
    ValueRemove(syms + {x}, x, inv, user, lookup);
    ValueRemove(syms + {x}, x, inv', user, lookup);
    ValueFrame(syms + {x} - {x}, inv, inv', user, lookup);
    var before, price := Shares(inv, user, x), lookup(x).value;
    assert RowValue(inv', user, x, lookup) == RowValue(inv, user, x, lookup) + d * price by {
      MulAddRight(before, d, price);
    }
  }

  /** Distributivity of multiplication over addition: the arithmetic step ValueAdjust and SellKeepsTotal use inside `assert ... by`. */
  lemma MulAddRight(a: int, d: int, p: int)
    ensures (a + d) * p == a * p + d * p
  {
  }

  /** A symbol of which the user holds nothing adds nothing to the sum. */
  lemma ValueAbsent(syms: set<Symbol>, x: Symbol, inv: map<Key, int>, user: UserId, lookup: Lookup)
    requires Quoted(syms + {x}, lookup)
    requires Shares(inv, user, x) == 0
    ensures Value(syms + {x}, inv, user, lookup) == Value(syms - {x}, inv, user, lookup)
  {
    ValueRemove(syms + {x}, x, inv, user, lookup);
    assert syms + {x} - {x} == syms - {x};
  }

  /** A trade that touches only `user`'s cash and one of `user`'s rows leaves every other user's total as it was. */
  lemma TotalFrame(l: Ledger, next: Ledger, user: UserId, symbol: Symbol, other: UserId, lookup: Lookup)
    requires TouchesOnly(l, next, user, symbol)
    requires other != user
    ensures Total(next, other, lookup) == Total(l, other, lookup)
  {
    var held := HeldSymbols(l.inventory, other);
    assert HeldSymbols(next.inventory, other) == held;
    if other in l.cash && Quoted(held, lookup) {
      ValueFrame(held, l.inventory, next.inventory, other, lookup);
    }
  }

  /**
   * Buying at the quoted price does not change the buyer's portfolio total
   * (cash falls by what the new shares are worth), and leaves every other
   * user's total as it was.
   */
  lemma BuyKeepsTotal(l: Ledger, user: UserId, symbol: Symbol, shares: Option<real>, lookup: Lookup, other: UserId)
    requires Buy(l, user, symbol, shares, lookup).Ok?
    ensures Total(Buy(l, user, symbol, shares, lookup).value, user, lookup) == Total(l, user, lookup)
    ensures other != user ==> Total(Buy(l, user, symbol, shares, lookup).value, other, lookup) == Total(l, other, lookup)
  {
    var next := Buy(l, user, symbol, shares, lookup).value;
    var n, p := shares.value.Floor, lookup(symbol).value;
    var held := HeldSymbols(l.inventory, user);
    var held' := HeldSymbols(next.inventory, user);
    assert held' == held + {symbol};
    if Quoted(held, lookup) {
      ValueAdjust(held, symbol, n, l.inventory, next.inventory, user, lookup);
      if symbol !in held {
        ValueAbsent(held, symbol, l.inventory, user, lookup);
        assert held - {symbol} == held;
      } else {
        assert held + {symbol} == held;
      }
    } else {
      assert !Quoted(held', lookup);
    }
    if other != user {
      BuyFrame(l, user, symbol, shares, lookup);
      TotalFrame(l, next, user, symbol, other, lookup);
    }
  }

  /**
   * Selling at the quoted price does not change the seller's portfolio total
   * (cash rises by what the sold shares were worth, whatever the amount's
   * sign), and leaves every other user's total as it was.
   */
  lemma SellKeepsTotal(l: Ledger, user: UserId, symbol: Symbol, amount: Option<int>, lookup: Lookup, other: UserId)
    requires Consistent(l)
    requires Sell(l, user, symbol, amount, lookup).Ok?
    ensures Total(Sell(l, user, symbol, amount, lookup).value, user, lookup) == Total(l, user, lookup)
    ensures other != user ==> Total(Sell(l, user, symbol, amount, lookup).value, other, lookup) == Total(l, other, lookup)
  {
    var next := Sell(l, user, symbol, amount, lookup).value;
    SellEffect(l, user, symbol, amount, lookup);
    var a, p := amount.value, lookup(symbol).value;
    var held := HeldSymbols(l.inventory, user);
    var held' := HeldSymbols(next.inventory, user);
    assert symbol in held;
    assert held + {symbol} == held;
    if Quoted(held, lookup) {
      ValueAdjust(held, symbol, -a, l.inventory, next.inventory, user, lookup);
      var v, v' := Value(held, l.inventory, user, lookup), Value(held, next.inventory, user, lookup);
      assert v' == v - a * p by { MulAddRight(a, -a, p); }
      if symbol !in held' {
        assert held' == held - {symbol};
        ValueAbsent(held, symbol, next.inventory, user, lookup);
      } else {
        assert held' == held;
      }
      assert Value(held', next.inventory, user, lookup) == v';
    } else {
      var s :| s in held && lookup(s).None?;
      assert s != symbol;
      assert s in held';
    }
    if other != user {
      SellFrame(l, user, symbol, amount, lookup);
      TotalFrame(l, next, user, symbol, other, lookup);
    }
  }
}

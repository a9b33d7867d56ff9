/**
 * The application's database (users.cash, inventory, transactions) as an
 * object whose request handlers update its tables in place, statement by
 * statement, as the route handlers do. Each handler is proved to leave the
 * tables exactly as the corresponding function of module Trading says, and to
 * keep the ledger invariant.
 */
module Finance {
  import opened Trading
  import opened Portfolio

  class Database {
    var cash: map<UserId, int>
    var inventory: map<Key, int>
    var transactions: seq<Tx>

    /** The three tables as a value. */
    function State(): Ledger
      reads this
    {
      Ledger(cash, inventory, transactions)
    }

    ghost predicate Valid()
      reads this
    {
      Consistent(State())
    }

    /** A database with the given registered users and their balances, and no trades. */
    constructor (users: map<UserId, int>)
      ensures Valid()
      ensures cash == users && inventory == map[] && transactions == []
    {
      cash := users;
      inventory := map[];
      transactions := [];
      OpeningLedgerConsistent(users);
    }

    /**
     * The users insert of the register handler: a new users row, under an id
     * not yet in use, with the table's default balance.
     */
    method AddUser(user: UserId, balance: int)
      requires Valid()
      requires user !in cash
      modifies this
      ensures Valid()
      ensures cash == old(cash)[user := balance]
      ensures inventory == old(inventory) && transactions == old(transactions)
    {
      RegisterKeepsConsistent(State(), user, balance);
      cash := cash[user := balance];
    }

    /**
     * The buy form handler. On success the tables are as Trading.Buy computes
     * from the old ones; on error nothing changed.
     */
    method Buy(user: UserId, symbol: Symbol, shares: Option<real>, lookup: Lookup) returns (r: Response)
      requires Valid()
      modifies this
      ensures Valid()
      ensures r == Reply(Trading.Buy(old(State()), user, symbol, shares, lookup))
      ensures State() == After(old(State()), Trading.Buy(old(State()), user, symbol, shares, lookup))
      ensures r.Failed? ==> unchanged(this)
    {
      ghost var before := State();
      BuyPreservesConsistent(before, user, symbol, shares, lookup);
      if symbol == "" {
        return Failed(InvalidSymbol);
      }
      if !WholePositive(shares) {
        return Failed(InvalidShares);
      }
      var n := shares.value.Floor;
      var quote := lookup(symbol);
      if quote.None? {
        return Failed(UnknownSymbol);
      }
      if user !in cash {
        return Failed(UnknownUser);
      }
      var totalCost := n * quote.value;
      if cash[user] < totalCost {
        return Failed(NotEnoughCash);
      }
      cash := cash[user := cash[user] - totalCost];
      transactions := transactions + [Tx(user, symbol, n, quote.value)];
      var key := (user, symbol);
      if key !in inventory {
        inventory := inventory[key := n];
      } else {
        inventory := inventory[key := inventory[key] + n];
      }
      r := Redirect;
    }

    /**
     * The sell form handler. On success the tables are as Trading.Sell
     * computes from the old ones; on error nothing changed.
     */
    method Sell(user: UserId, symbol: Symbol, amount: Option<int>, lookup: Lookup) returns (r: Response)
      requires Valid()
      modifies this
      ensures Valid()
      ensures r == Reply(Trading.Sell(old(State()), user, symbol, amount, lookup))
      ensures State() == After(old(State()), Trading.Sell(old(State()), user, symbol, amount, lookup))
      ensures r.Failed? ==> unchanged(this)
    {
      ghost var before := State();
      SellPreservesConsistent(before, user, symbol, amount, lookup);
      if amount.None? {
        return Failed(UnparsableAmount);
      }
      var a := amount.value;
      var quote := lookup(symbol);
      if quote.None? {
        return Failed(UnknownSymbol);
      }
      var key := (user, symbol);
      if key !in inventory {
        return Failed(NoHolding);
      }
      var held := inventory[key];
      if a > held {
        return Failed(NotEnoughShares);
      }
      if user in cash {
        cash := cash[user := cash[user] + a * quote.value];
      }
      var newShares := held - a;
      if newShares == 0 {
        inventory := inventory - {key};
      } else {
        inventory := inventory[key := newShares];
      }
      transactions := transactions + [Tx(user, symbol, -a, quote.value)];
      r := Redirect;
    }

    /**
     * The grand total of the portfolio page: cash plus shares times quote over
     * the user's holding rows, visited in whatever order the rows come. None
     * when the page would raise (no users row, or a row without a quote).
     */
    method PortfolioTotal(user: UserId, lookup: Lookup) returns (total: Option<int>)
      ensures total == Total(State(), user, lookup)
    {
      if user !in cash {
        return None;
      }
      var rows := HeldSymbols(inventory, user);
      var sum := cash[user];
      ghost var seen: set<Symbol> := {};
      while rows != {}
        invariant rows !! seen && rows + seen == HeldSymbols(inventory, user)
        invariant Quoted(seen, lookup)
        invariant sum == cash[user] + Value(seen, inventory, user, lookup)
        decreases rows
      {
        var s :| s in rows;
        var quote := lookup(s);
        if quote.None? {
          return None;
        }
        sum := sum + inventory[(user, s)] * quote.value;
        ValueRemove(seen + {s}, s, inventory, user, lookup);
        assert seen + {s} - {s} == seen;
        rows := rows - {s};
        seen := seen + {s};
      }
      total := Some(sum);
    }
  }
}

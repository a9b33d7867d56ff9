/**
 * The trading ledger of the stock-trading web application: a cash balance per
 * user, a holdings table keyed by (user, symbol), and an append-only log of
 * signed share movements. This module describes the ledger as a value and the
 * buy and sell request handlers as functions from a ledger to a new ledger or
 * an error; module Finance runs the same handlers as in-place updates.
 */
module Trading {

  datatype Option<+T> = None | Some(value: T)

  datatype Result<+T, +E> = Ok(value: T) | Err(error: E)

  /** The `id` column of the users table. */
  type UserId = int

  /** A ticker symbol exactly as the form submitted it (no case folding). */
  type Symbol = string

  /** The primary key of a holdings (inventory) row. */
  type Key = (UserId, Symbol)

  /** The quote provider: the current price of a symbol in cents, or None when it is unknown. */
  type Lookup = Symbol -> Option<nat>

  /** One row of the transactions table; `delta` is positive for a buy and negative for a sell. */
  datatype Tx = Tx(user: UserId, symbol: Symbol, delta: int, price: nat)

  /** The three tables the handlers touch: users.cash, inventory and transactions. */
  datatype Ledger = Ledger(cash: map<UserId, int>, inventory: map<Key, int>, transactions: seq<Tx>)

  /**
   * Why a request changed nothing. The first four of buy, and UnknownSymbol and
   * NotEnoughShares of sell, are messages rendered back to the user; UnknownUser,
   * UnparsableAmount and NoHolding are exceptions the handler does not catch.
   */
  datatype Error =
    | InvalidSymbol      // blank symbol field
    | InvalidShares      // share count that is not a positive whole number
    | UnknownSymbol      // lookup returned no quote
    | NotEnoughCash      // cost above the cash balance
    | UnknownUser        // no users row for the session's id (index 0 of an empty result)
    | UnparsableAmount   // sell's share field is not an integer literal
    | NoHolding          // no inventory row for (user, symbol) (index 0 of an empty result)
    | NotEnoughShares    // amount above the held share count

  /** What the handler answers: a redirect to the portfolio page, or an error. */
  datatype Response = Redirect | Failed(error: Error)

  function Reply(r: Result<Ledger, Error>): Response
  {
    match r
    case Ok(_) => Redirect
    case Err(e) => Failed(e)
  }

  /** The ledger after a handler ran: the new one on success, the old one untouched on error. */
  function After(l: Ledger, r: Result<Ledger, Error>): Ledger
  {
    match r
    case Ok(next) => next
    case Err(_) => l
  }

  /** The shares a user holds of a symbol; 0 when there is no row. */
  function Shares(inventory: map<Key, int>, user: UserId, symbol: Symbol): int
  {
    if (user, symbol) in inventory then inventory[(user, symbol)] else 0
  }

  /** Buy's check on the parsed share field: a positive number with no fractional part. */
  predicate WholePositive(shares: Option<real>)
    ensures WholePositive(shares) <==>
              shares.Some? && shares.value.Floor > 0 && shares.value.Floor as real == shares.value
  {
    shares.Some? && shares.value > 0.0 && shares.value.Floor as real == shares.value
  }

  /** `UPDATE users SET cash = cash + amount WHERE id = user`: no row, no change. */
  function Credit(cash: map<UserId, int>, user: UserId, amount: int): (c: map<UserId, int>)
    ensures c.Keys == cash.Keys
    ensures user in cash ==> c[user] == cash[user] + amount
    ensures forall u :: u in cash && u != user ==> c[u] == cash[u]
  {
    if user in cash then cash[user := cash[user] + amount] else cash
  }

  /**
   * The buy handler. `shares` is the share field as float() reads it (None when
   * float() rejects the text, and for the readings nan and inf, which the
   * is_integer test rejects with the same message). Checks, in order: symbol, share count, quote,
   * user row, cash; then debits the cost, logs a positive movement and inserts
   * or increments the holding.
   */
  function Buy(l: Ledger, user: UserId, symbol: Symbol, shares: Option<real>, lookup: Lookup): Result<Ledger, Error>
  {
    if symbol == "" then Err(InvalidSymbol)
    else if !WholePositive(shares) then Err(InvalidShares)
    else
      var n := shares.value.Floor;
      match lookup(symbol)
      case None => Err(UnknownSymbol)
      case Some(price) =>
        if user !in l.cash then Err(UnknownUser)
        else
          var cost := n * price;
          if l.cash[user] < cost then Err(NotEnoughCash)
          else
            var key := (user, symbol);
            Ok(Ledger(
              l.cash[user := l.cash[user] - cost],
              if key in l.inventory then l.inventory[key := l.inventory[key] + n] else l.inventory[key := n],
              l.transactions + [Tx(user, symbol, n, price)]))
  }

  /**
   * The sell handler. `amount` is the share field as int() reads it (None when
   * int() rejects the text). The amount is not checked for sign. Checks, in
   * order: amount parse, quote, holding row, held count; then credits the
   * proceeds, lowers the holding (deleting a row that reaches zero) and logs a
   * negative movement.
   */
  function Sell(l: Ledger, user: UserId, symbol: Symbol, amount: Option<int>, lookup: Lookup): Result<Ledger, Error>
  {
    match amount
    case None => Err(UnparsableAmount)
    case Some(a) =>
      match lookup(symbol)
      case None => Err(UnknownSymbol)
      case Some(price) =>
        var key := (user, symbol);
        if key !in l.inventory then Err(NoHolding)
        else if a > l.inventory[key] then Err(NotEnoughShares)
        else
          var rest := l.inventory[key] - a;
          Ok(Ledger(
            Credit(l.cash, user, a * price),
            if rest == 0 then l.inventory - {key} else l.inventory[key := rest],
            l.transactions + [Tx(user, symbol, -a, price)]))
  }

  // ---------------------------------------------------------------------------
  // The ledger invariant

  /** How much one logged movement contributes to the (user, symbol) position. */
  function Contribution(t: Tx, user: UserId, symbol: Symbol): int
  {
    if t.user == user && t.symbol == symbol then t.delta else 0
  }

  /** The signed sum of all logged movements of `symbol` by `user`. */
  function DeltaSum(txs: seq<Tx>, user: UserId, symbol: Symbol): int
    decreases |txs|
  {
    if txs == [] then 0
    else DeltaSum(txs[..|txs| - 1], user, symbol) + Contribution(txs[|txs| - 1], user, symbol)
  }

  /** Logging one movement moves its own (user, symbol) position by its delta and no other. */
  lemma DeltaSumAppend(txs: seq<Tx>, t: Tx, user: UserId, symbol: Symbol)
    ensures DeltaSum(txs + [t], user, symbol) == DeltaSum(txs, user, symbol) + Contribution(t, user, symbol)
  {
    assert (txs + [t])[..|txs|] == txs;
  }

  /**
   * The consistency of the three tables: every holding row is positive and
   * belongs to a registered user, and every position equals the net of its
   * logged movements (0 when there is no row).
   */
  ghost predicate Consistent(l: Ledger)
  {
    && (forall k :: k in l.inventory ==> l.inventory[k] > 0)
    && (forall k :: k in l.inventory ==> k.0 in l.cash)
    && (forall u, s :: DeltaSum(l.transactions, u, s) == Shares(l.inventory, u, s))
  }

  /** No user's cash balance is negative. */
  ghost predicate Solvent(l: Ledger)
  {
    forall u :: u in l.cash ==> l.cash[u] >= 0
  }

  /**
   * `next` differs from `l` at most in `user`'s cash and the (user, symbol)
   * holding, and extends the log by exactly one entry.
   */
  ghost predicate TouchesOnly(l: Ledger, next: Ledger, user: UserId, symbol: Symbol)
  {
    && next.cash.Keys == l.cash.Keys
    && (forall u :: u in l.cash && u != user ==> next.cash[u] == l.cash[u])
    && (forall k :: k != (user, symbol) ==> (k in next.inventory <==> k in l.inventory))
    && (forall k :: k != (user, symbol) && k in l.inventory ==> next.inventory[k] == l.inventory[k])
    && |next.transactions| == |l.transactions| + 1
    && next.transactions[..|l.transactions|] == l.transactions
  }

  /** A ledger with registered users and no trades yet satisfies the invariant. */
  lemma OpeningLedgerConsistent(users: map<UserId, int>)
    ensures Consistent(Ledger(users, map[], []))
  {
  }

  /**
   * Registering a user adds a users row, with the table's default balance, for
   * an id not yet in use; the ledger invariant survives it.
   */
  lemma RegisterKeepsConsistent(l: Ledger, user: UserId, balance: int)
    requires Consistent(l)
    requires user !in l.cash
    ensures Consistent(Ledger(l.cash[user := balance], l.inventory, l.transactions))
  {
  }

  // ---------------------------------------------------------------------------
  // Buy

  /** Buy fails exactly when one of its guards does, with that guard's error. */
  lemma BuyRejects(l: Ledger, user: UserId, symbol: Symbol, shares: Option<real>, lookup: Lookup)
    ensures symbol == "" ==> Buy(l, user, symbol, shares, lookup) == Err(InvalidSymbol)
    ensures symbol != "" && !WholePositive(shares) ==> Buy(l, user, symbol, shares, lookup) == Err(InvalidShares)
    ensures symbol != "" && WholePositive(shares) && lookup(symbol).None? ==>
              Buy(l, user, symbol, shares, lookup) == Err(UnknownSymbol)
    ensures symbol != "" && WholePositive(shares) && lookup(symbol).Some? && user !in l.cash ==>
              Buy(l, user, symbol, shares, lookup) == Err(UnknownUser)
    ensures symbol != "" && WholePositive(shares) && lookup(symbol).Some? && user in l.cash &&
            l.cash[user] < shares.value.Floor * lookup(symbol).value ==>
              Buy(l, user, symbol, shares, lookup) == Err(NotEnoughCash)
    ensures Buy(l, user, symbol, shares, lookup).Ok? <==>
              symbol != "" && WholePositive(shares) && lookup(symbol).Some? && user in l.cash &&
              shares.value.Floor * lookup(symbol).value <= l.cash[user]
  {
  }

  /**
   * A successful buy of n shares at price p debits exactly n * p (a cost equal
   * to the balance is allowed, so the balance stays non-negative), logs
   * (user, symbol, +n, p) and adds n to the holding, creating the row if needed.
   */
  lemma BuyEffect(l: Ledger, user: UserId, symbol: Symbol, shares: Option<real>, lookup: Lookup)
    requires Buy(l, user, symbol, shares, lookup).Ok?
    ensures WholePositive(shares) && lookup(symbol).Some? && user in l.cash
    ensures var next := Buy(l, user, symbol, shares, lookup).value;
            var n, p := shares.value.Floor, lookup(symbol).value;
            && n > 0
            && user in next.cash
            && next.cash[user] == l.cash[user] - n * p
            && next.cash[user] >= 0
            && next.transactions == l.transactions + [Tx(user, symbol, n, p)]
            && (user, symbol) in next.inventory
            && Shares(next.inventory, user, symbol) == Shares(l.inventory, user, symbol) + n
  {
  }

  /** Buy changes only the acting user's cash and that user's row for the symbol. */
  lemma BuyFrame(l: Ledger, user: UserId, symbol: Symbol, shares: Option<real>, lookup: Lookup)
    requires Buy(l, user, symbol, shares, lookup).Ok?
    ensures TouchesOnly(l, Buy(l, user, symbol, shares, lookup).value, user, symbol)
  {
  }

  lemma BuyPreservesConsistent(l: Ledger, user: UserId, symbol: Symbol, shares: Option<real>, lookup: Lookup)
    requires Consistent(l)
    ensures Consistent(After(l, Buy(l, user, symbol, shares, lookup)))
  {
    var r := Buy(l, user, symbol, shares, lookup);
    if r.Ok? {
      var next := r.value;
      var t := next.transactions[|l.transactions|];
      assert next.transactions == l.transactions + [t];
      forall u, s ensures DeltaSum(next.transactions, u, s) == Shares(next.inventory, u, s) {
        DeltaSumAppend(l.transactions, t, u, s);
      }
    }
  }

  lemma BuyKeepsSolvent(l: Ledger, user: UserId, symbol: Symbol, shares: Option<real>, lookup: Lookup)
    requires Solvent(l)
    ensures Solvent(After(l, Buy(l, user, symbol, shares, lookup)))
  {
  }

  // ---------------------------------------------------------------------------
  // Sell

  /** Sell fails exactly when one of its guards does, with that guard's error. */
  lemma SellRejects(l: Ledger, user: UserId, symbol: Symbol, amount: Option<int>, lookup: Lookup)
    ensures amount.None? ==> Sell(l, user, symbol, amount, lookup) == Err(UnparsableAmount)
    ensures amount.Some? && lookup(symbol).None? ==> Sell(l, user, symbol, amount, lookup) == Err(UnknownSymbol)
    ensures amount.Some? && lookup(symbol).Some? && (user, symbol) !in l.inventory ==>
              Sell(l, user, symbol, amount, lookup) == Err(NoHolding)
    ensures amount.Some? && lookup(symbol).Some? && (user, symbol) in l.inventory &&
            amount.value > l.inventory[(user, symbol)] ==>
              Sell(l, user, symbol, amount, lookup) == Err(NotEnoughShares)
    ensures Sell(l, user, symbol, amount, lookup).Ok? <==>
              amount.Some? && lookup(symbol).Some? && (user, symbol) in l.inventory &&
              amount.value <= l.inventory[(user, symbol)]
  {
  }

  /**
   * A successful sell of a shares at price p credits a * p, leaves held - a
   * shares (no row at all when that is zero) and logs (user, symbol, -a, p).
   */
  lemma SellEffect(l: Ledger, user: UserId, symbol: Symbol, amount: Option<int>, lookup: Lookup)
    requires Consistent(l)
    requires Sell(l, user, symbol, amount, lookup).Ok?
    ensures amount.Some? && lookup(symbol).Some? && (user, symbol) in l.inventory && user in l.cash
    ensures var next := Sell(l, user, symbol, amount, lookup).value;
            var a, p, held := amount.value, lookup(symbol).value, l.inventory[(user, symbol)];
            && user in next.cash
            && next.cash[user] == l.cash[user] + a * p
            && Shares(next.inventory, user, symbol) == held - a
            && ((user, symbol) in next.inventory <==> held - a != 0)
            && next.transactions == l.transactions + [Tx(user, symbol, -a, p)]
  {
  }

  /** Sell changes only the acting user's cash and that user's row for the symbol. */
  lemma SellFrame(l: Ledger, user: UserId, symbol: Symbol, amount: Option<int>, lookup: Lookup)
    requires Sell(l, user, symbol, amount, lookup).Ok?
    ensures TouchesOnly(l, Sell(l, user, symbol, amount, lookup).value, user, symbol)
  {
  }

  /** Also for a negative amount: the held count never goes below zero, and zero rows are deleted. */
  lemma SellPreservesConsistent(l: Ledger, user: UserId, symbol: Symbol, amount: Option<int>, lookup: Lookup)
    requires Consistent(l)
    ensures Consistent(After(l, Sell(l, user, symbol, amount, lookup)))
  {
    var r := Sell(l, user, symbol, amount, lookup);
    if r.Ok? {
      var next := r.value;
      var t := next.transactions[|l.transactions|];
      assert next.transactions == l.transactions + [t];
      forall u, s ensures DeltaSum(next.transactions, u, s) == Shares(next.inventory, u, s) {
        DeltaSumAppend(l.transactions, t, u, s);
      }
    }
  }

  /** Cash stays non-negative under sell only when the amount is not negative. */
  lemma SellKeepsSolvent(l: Ledger, user: UserId, symbol: Symbol, amount: Option<int>, lookup: Lookup)
    requires Solvent(l)
    requires amount.Some? ==> amount.value >= 0
    ensures Solvent(After(l, Sell(l, user, symbol, amount, lookup)))
  {
  }

  /**
   * Sell does not check the amount's sign: a negative amount passes the guard,
   * lowers the cash balance by |a| * p and raises the holding by |a|, with no
   * check against the balance, so cash can go negative.
   */
  lemma SellNegativeAmountOverdraws(quotes: Lookup)
    requires quotes("ACME") == Some(100)
    ensures var l := Ledger(map[7 := 0], map[(7, "ACME") := 1], [Tx(7, "ACME", 1, 100)]);
            && Consistent(l) && Solvent(l)
            && Sell(l, 7, "ACME", Some(-5), quotes).Ok?
            && Sell(l, 7, "ACME", Some(-5), quotes).value.cash[7] == -500
            && Sell(l, 7, "ACME", Some(-5), quotes).value.inventory[(7, "ACME")] == 6
            && !Solvent(Sell(l, 7, "ACME", Some(-5), quotes).value)
  {
  }

  // ---------------------------------------------------------------------------
  // Buy followed by sell

  /**
   * Buying n shares and then selling the same n at the same price restores the
   * cash balances and the holdings table exactly, and logs +n then -n.
   */
  lemma BuyThenSellRestores(l: Ledger, user: UserId, symbol: Symbol, n: int, lookup: Lookup)
    requires Consistent(l)
    requires Buy(l, user, symbol, Some(n as real), lookup).Ok?
    ensures var bought := Buy(l, user, symbol, Some(n as real), lookup).value;
            && Sell(bought, user, symbol, Some(n), lookup).Ok?
            && Sell(bought, user, symbol, Some(n), lookup).value.cash == l.cash
            && Sell(bought, user, symbol, Some(n), lookup).value.inventory == l.inventory
            && Sell(bought, user, symbol, Some(n), lookup).value.transactions ==
                 l.transactions + [Tx(user, symbol, n, lookup(symbol).value), Tx(user, symbol, -n, lookup(symbol).value)]
  {
  }

  /**
   * A concrete run: 10000 cents of cash, buy 10 shares at 100, then sell
   * 10 at 120, leaves 10200 cents, no holding and the two log entries.
   */
  lemma BuySellExample(at100: Lookup, at120: Lookup)
    requires at100("AAPL") == Some(100) && at120("AAPL") == Some(120)
    ensures var start := Ledger(map[1 := 10000], map[], []);
            var bought := Ledger(map[1 := 9000], map[(1, "AAPL") := 10], [Tx(1, "AAPL", 10, 100)]);
            && Buy(start, 1, "AAPL", Some(10.0), at100) == Ok(bought)
            && Sell(bought, 1, "AAPL", Some(10), at120) ==
                 Ok(Ledger(map[1 := 10200], map[], [Tx(1, "AAPL", 10, 100), Tx(1, "AAPL", -10, 120)]))
  {
    var key := (1, "AAPL");
    assert (10.0).Floor == 10;
    assert map[1 := 10000][1 := 10000 - 10 * 100] == map[1 := 9000];
    assert map[][key := 10] == map[key := 10];
    assert [] + [Tx(1, "AAPL", 10, 100)] == [Tx(1, "AAPL", 10, 100)];
    assert map[1 := 9000][1 := 9000 + 10 * 120] == map[1 := 10200];
    assert map[key := 10] - {key} == map[];
    var bought := Ledger(map[1 := 9000], map[(1, "AAPL") := 10], [Tx(1, "AAPL", 10, 100)]);
    assert Buy(Ledger(map[1 := 10000], map[], []), 1, "AAPL", Some(10.0), at100) == Ok(bought);
    assert [Tx(1, "AAPL", 10, 100)] + [Tx(1, "AAPL", -10, 120)] == [Tx(1, "AAPL", 10, 100), Tx(1, "AAPL", -10, 120)];
  }

  // ---------------------------------------------------------------------------
  // Sequences of requests

  /** A submitted buy or sell form together with the quotes in force when it is handled. */
  datatype Request =
    | BuyForm(user: UserId, symbol: Symbol, shares: Option<real>, lookup: Lookup)
    | SellForm(user: UserId, symbol: Symbol, amount: Option<int>, lookup: Lookup)

  function Handle(l: Ledger, req: Request): Result<Ledger, Error>
  {
    match req
    case BuyForm(user, symbol, shares, lookup) => Buy(l, user, symbol, shares, lookup)
    case SellForm(user, symbol, amount, lookup) => Sell(l, user, symbol, amount, lookup)
  }

  /** The ledger after the requests are handled one after another. */
  function Run(l: Ledger, reqs: seq<Request>): Ledger
    decreases |reqs|
  {
    if reqs == [] then l else Run(After(l, Handle(l, reqs[0])), reqs[1..])
  }

  /** After any sequence of buys and sells every position is the net of its logged movements. */
  lemma {:induction false} RunPreservesConsistent(l: Ledger, reqs: seq<Request>)
    requires Consistent(l)
    ensures Consistent(Run(l, reqs))
    decreases |reqs|
  {
    if reqs != [] {
      match reqs[0] {
        case BuyForm(user, symbol, shares, lookup) => BuyPreservesConsistent(l, user, symbol, shares, lookup);
        case SellForm(user, symbol, amount, lookup) => SellPreservesConsistent(l, user, symbol, amount, lookup);
      }
      RunPreservesConsistent(After(l, Handle(l, reqs[0])), reqs[1..]);
    }
  }

  /** The transaction log is append-only: earlier entries are never changed or removed. */
  lemma {:induction false} RunExtendsLog(l: Ledger, reqs: seq<Request>)
    ensures l.transactions <= Run(l, reqs).transactions
    decreases |reqs|
  {
    if reqs != [] {
      var next := After(l, Handle(l, reqs[0]));
      assert l.transactions <= next.transactions;
      RunExtendsLog(next, reqs[1..]);
    }
  }

  /** A sell request whose amount (when it parses) is not negative. */
  predicate NonNegativeSell(req: Request)
  {
    req.SellForm? && req.amount.Some? ==> req.amount.value >= 0
  }

  /** No balance goes negative over a run in which no sell has a negative amount. */
  lemma {:induction false} RunKeepsSolvent(l: Ledger, reqs: seq<Request>)
    requires Solvent(l)
    requires forall i :: 0 <= i < |reqs| ==> NonNegativeSell(reqs[i])
    ensures Solvent(Run(l, reqs))
    decreases |reqs|
  {
    if reqs != [] {
      assert NonNegativeSell(reqs[0]);
      match reqs[0] {
        case BuyForm(user, symbol, shares, lookup) => BuyKeepsSolvent(l, user, symbol, shares, lookup);
        case SellForm(user, symbol, amount, lookup) => SellKeepsSolvent(l, user, symbol, amount, lookup);
      }
      assert forall i :: 0 <= i < |reqs[1..]| ==> NonNegativeSell(reqs[1..][i]) by {
        forall i | 0 <= i < |reqs[1..]| ensures NonNegativeSell(reqs[1..][i]) {
          assert reqs[1..][i] == reqs[i + 1];
        }
      }
      RunKeepsSolvent(After(l, Handle(l, reqs[0])), reqs[1..]);
    }
  }
}

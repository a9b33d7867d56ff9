# Trading ledger of the stock-trading web application

A Dafny model of the part of the application that keeps the money and the
shares straight: the `buy` and `sell` request handlers and the grand total of
the portfolio page, all in `main.py`.

The state is three tables:

- `users.cash`: a cash balance per user id (`Database.cash`, a `map`);
- `inventory`: a positive share count per (user id, symbol) (`Database.inventory`, a `map`);
- `transactions`: an append-only log of (user id, symbol, signed share delta, price) (`Database.transactions`, a `seq`).

Files:

- `trading.dfy`, module `Trading`: the tables as a value (`Ledger`), the two
  handlers as functions `Buy` and `Sell` from a ledger to a new ledger or an
  `Error`, the ledger invariant `Consistent`, and lemmas about single requests
  and about runs of many requests (`Run`).
- `portfolio.dfy`, module `Portfolio`: the portfolio total `Total`, defined as
  cash plus the order-independent sum over the held symbols of shares times
  quote, and lemmas that trading at the quoted price leaves it unchanged.
- `finance.dfy`, module `Finance`: class `Database` whose methods `Buy` and
  `Sell` update the tables in place, one statement per SQL statement of the
  handler, `AddUser`, the users insert of `register`, and `PortfolioTotal`, the summing loop of the portfolio page. Each
  method is proved equal to the function of `Trading` or `Portfolio` that
  specifies it, and all three updates keep `Valid()`.

Conventions:

- The session's user id is an explicit parameter.
- The quote provider `lookup` is a parameter of type `Symbol -> Option<nat>`.
  Prices are whole numbers of cents, and so are cash balances.
- The buy form's share field arrives as its `float()` reading (`Option<real>`).
  It is `None` for text that `float()` rejects, and also for the readings
  `nan` and `inf`. `float()` accepts those two, but the `is_integer` test at
  main.py:71 rejects them with the same "Invalid shares" outcome
  (`InvalidShares`). The sell form's share field arrives as its `int()`
  reading (`Option<int>`).
- A handler either returns `Redirect` with the tables updated, or returns
  `Failed(e)` with nothing changed. Errors the source renders as a message
  and exceptions it does not catch are both `Failed` outcomes. The exceptions
  are `UnknownUser`, `UnparsableAmount` and `NoHolding`.

Behaviour of the code that the model keeps as written, where one would expect
the handler to refuse the request or to behave as a unit:

- `sell` reads `[0]` of the inventory query before its `not row` test
  (main.py:236-239). A missing holding therefore raises instead of being
  reported, and the `not row` test can never fire. The model returns
  `NoHolding` at that point.
- `sell` never checks that the amount is positive (main.py:228-239). A
  negative amount passes the guard, lowers cash by |amount| × price and raises
  the holding, with no check against the balance (`SellNegativeAmountOverdraws`).
  "Cash never goes negative" therefore holds for every buy, but for sells only
  when the amount is not negative (`SellKeepsSolvent`, `RunKeepsSolvent`).
  Holding positivity and the delta-sum invariant hold whatever the sign.
- The handlers issue separate SQL statements with no database transaction around
  them. The model runs each handler to completion.

## Model

| member | source | states |
|---|---|---|
| `Trading.WholePositive` | main.py:69-76 | The share check admits a reading exactly when it is a whole number whose integer conversion is positive. So it rejects zero, negatives, fractions, and the readings `float()` refuses. |
| `Trading.Credit` | main.py:243 | The cash UPDATE keeps the set of users. It adds the amount to the named user's balance when that user has a row, and leaves every other balance alone. |
| `Trading.Buy` | main.py:62-104 | The buy handler on ledger values. It has no `ensures` of its own; its contract is carried by `BuyRejects` (guards and errors), `BuyEffect` and `BuyFrame` (the new state), `BuyPreservesConsistent` and `BuyKeepsSolvent` (invariants), and `Finance.Database.Buy` (the in-place version). |
| `Trading.BuyRejects` | main.py:62-85 | Buy fails with `InvalidSymbol` on a blank symbol. It fails with `InvalidShares` on a share count that is not a positive whole number, `UnknownSymbol` when lookup has no quote, `UnknownUser` when there is no users row, and `NotEnoughCash` when cost exceeds cash, checked in that order. It succeeds exactly when none of these holds; cost equal to cash succeeds. |
| `Trading.BuyEffect` | main.py:83-104 | After a successful buy of n shares at price p: n > 0, and the buyer's cash drops by exactly n × p and stays ≥ 0. Exactly one entry (user, symbol, +n, p) is appended to the log. The holding row exists and equals its old count (0 if absent) plus n. |
| `Trading.BuyFrame` | main.py:88-104 | A successful buy changes no other user's cash and no other holding row. It adds or removes no users, and the earlier log is a prefix of the new one, longer by one entry. |
| `Trading.BuyPreservesConsistent` | main.py:88-104 | Buy keeps the ledger invariant: every holding row is positive and belongs to a users row, and every (user, symbol) position equals the signed sum of its logged deltas (0 when there is no row). |
| `Trading.BuyKeepsSolvent` | main.py:83-88 | If no balance was negative before a buy, none is after it. |
| `Trading.DeltaSumAppend` | main.py:91-92 | Appending one log entry adds its delta to the net position of its own (user, symbol) pair and nothing to any other pair. |
| `Trading.OpeningLedgerConsistent` | main.py:206-210 | The opening ledger, with its registered users and no holdings or trades, satisfies the ledger invariant. |
| `Trading.RegisterKeepsConsistent` | main.py:206-210 | Adding a users row for an unused id, with any balance, between trades keeps the ledger invariant. |
| `Trading.Sell` | main.py:227-254 | The sell handler on ledger values. It has no `ensures` of its own; its contract is carried by `SellRejects` (guards and errors), `SellEffect` and `SellFrame` (the new state), `SellPreservesConsistent` and `SellKeepsSolvent` (invariants), `SellNegativeAmountOverdraws` (the unchecked sign), and `Finance.Database.Sell` (the in-place version). |
| `Trading.SellRejects` | main.py:227-240 | Sell fails with `UnparsableAmount` when the amount does not parse, and with `UnknownSymbol` when lookup has no quote. It fails with `NoHolding` when there is no inventory row, and with `NotEnoughShares` when the amount exceeds the held count, checked in that order. It succeeds exactly when none of these holds. |
| `Trading.SellEffect` | main.py:243-254 | After a successful sell of amount a at price p: the seller's cash rises by exactly a × p and the position becomes held − a. The row is deleted exactly when that is zero. Exactly one entry (user, symbol, −a, p) is appended. |
| `Trading.SellFrame` | main.py:243-254 | A successful sell changes no other user's cash and no other holding row. The earlier log is a prefix of the new one, longer by one entry. |
| `Trading.SellPreservesConsistent` | main.py:239-254 | Sell keeps the ledger invariant, even for a negative amount. No zero row is ever stored, and positions still equal the net of the logged deltas. |
| `Trading.SellKeepsSolvent` | main.py:228-243 | If no balance was negative before a sell with a non-negative amount, none is after it. |
| `Trading.SellNegativeAmountOverdraws` | main.py:228-243 | A concrete consistent, solvent ledger where a sell of −5 shares succeeds, drives the balance to −500 and raises the holding from 1 to 6. |
| `Trading.BuyThenSellRestores` | main.py:83-254 | Buying n shares and then selling the same n at the same price leaves the cash map and the holdings table exactly as before. The log grows by (+n, p) and then (−n, p). |
| `Trading.BuySellExample` | main.py:83-254 | Worked case: with 10000 cash, buying 10 at 100 gives cash 9000, holding 10 and one log entry. Then selling 10 at 120 gives cash 10200, no holding row and a second entry (−10, 120). |
| `Trading.RunPreservesConsistent` | main.py:88-254 | After any sequence of buy and sell requests from a consistent ledger, every holding is positive and equals the signed sum of its logged deltas. |
| `Trading.RunExtendsLog` | main.py:91-254 | Over any sequence of requests the transaction log only grows: the old log is a prefix of the new one. |
| `Trading.RunKeepsSolvent` | main.py:83-243 | Over any sequence of requests in which no sell has a negative amount, no balance goes negative. |
| `Portfolio.HeldSymbols` | main.py:43 | The symbols the portfolio page visits are exactly those of the user's inventory rows. |
| `Portfolio.Total` | main.py:42-51 | The portfolio total: the user's cash plus, over the held symbols, shares × quote; None when there is no users row or a held symbol has no quote. It has no `ensures` of its own. Its contract is carried by `Finance.Database.PortfolioTotal` (the loop computes it), `ValueRemove` (row order does not matter), and `BuyKeepsTotal`, `SellKeepsTotal` and `TotalFrame` (how trades move it). |
| `Portfolio.ValueRemove` | main.py:45-51 | The summed value of the positions does not depend on the order in which the rows are visited: any one row can be added first. |
| `Portfolio.ValueFrame` | main.py:45-51 | The summed value depends only on the user's share counts of the symbols summed. |
| `Portfolio.ValueAdjust` | main.py:47-51 | Changing one symbol's share count by d, and nothing else, changes the summed value by d times that symbol's quote. |
| `Portfolio.ValueAbsent` | main.py:47-51 | A symbol the user holds nothing of contributes nothing to the summed value. |
| `Portfolio.TotalFrame` | main.py:42-51 | A change that touches only one user's cash and one of that user's rows leaves every other user's portfolio total as it was. |
| `Portfolio.BuyKeepsTotal` | main.py:83-104 | A buy at the quoted price leaves the buyer's portfolio total unchanged: cash falls by what the new shares are worth. Every other user's total is also unchanged. |
| `Portfolio.SellKeepsTotal` | main.py:243-254 | A sell at the quoted price, of either sign, leaves the seller's portfolio total unchanged, and every other user's total too. |
| `Finance.Database.AddUser` | main.py:206-210 | The users insert of register adds exactly one cash entry for the new id, keeps `Valid()`, and leaves inventory and transactions unchanged. |
| `Finance.Database.Buy` | main.py:57-106 | The in-place buy handler keeps `Valid()`. Its response and the new cash, inventory and transactions tables are those `Trading.Buy` gives for the old tables; on any error nothing changes. |
| `Finance.Database.Sell` | main.py:221-256 | The in-place sell handler keeps `Valid()`. Its response and its new tables are those `Trading.Sell` gives for the old tables; on any error nothing changes. |
| `Finance.Database.PortfolioTotal` | main.py:42-52 | The summing loop returns the user's cash plus, over all the user's holding rows, shares × quote, visiting the rows in any order. It returns None when there is no users row or a held symbol has no quote. |

## Left out

- Web plumbing: routing, the GET branches, the session, templates, redirects
  and the no-cache response headers (main.py:25-31). The portfolio page's
  per-row display fields and its logged-out branch that counts transactions
  (main.py:37-39) are also left out.
- The login, logout, quote and history routes, and the username, password
  and session handling of register (main.py:110-216). `login` and `logout`
  both manage the session, and `login` also checks a password hash
  (main.py:141-143). `quote` is a single call to the quote provider.
  `history` is an unfiltered read of all transactions. None of these four
  changes cash, inventory or the transaction log. `register` inserts a users
  row (main.py:206-210), which comes with the table's default balance. The
  model keeps only that insert, as `Finance.Database.AddUser` with the balance
  as a parameter, for an id not yet in use. Opening balances are the
  constructor's argument.
- The quote provider's network call and its floating-point prices. Prices are
  integer cents, so float rounding in `shares * price` and in the cash
  comparison is not modelled.
- Parsing of the share fields. A missing buy share field makes `float(None)`
  raise an uncaught TypeError; this is not modelled. Nor is float precision
  loss on very long digit strings.
- The `datetime('now')` timestamp column of the transactions table.
- The SQL engine itself, including a statement failing halfway through a
  handler. Such a failure would leave a partial update; the model always runs
  a handler to completion.
- Concurrent requests racing on the same user; the source has no concurrency
  control.
- Trading.SellKeepsSolvent: requires a non-negative amount, because the source
  accepts negative sell amounts and those can drive cash below zero.
- Trading.RunKeepsSolvent: requires every sell in the run to have a
  non-negative amount, for the same reason.

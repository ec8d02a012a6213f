# Ledger-Bot core in Dafny

Ledger-Bot is a pair of Discord bots that keep the books of poker nights.
This project models the bookkeeping inside their command handlers.

- **The bank bot** (`bot.py`) keeps an event-sourced ledger. It is an
  ordered list of transfers `{u_from, u_to, amount, t}` between player ids,
  the `pot` and the mint account `"U.S. Federal Reserve"`. Balances are never
  stored; they are replays of the list:
  - the running balance series of one player;
  - the credits-minus-debits aggregation behind the leaderboard;
  - the settlement sampling behind the leaderboard graph. It takes a snapshot
    of every account whenever the pot's running balance is at or below 0.

  The commands `buyin`, `updatebank` and `mint` each append at most one
  entry. `updatebank` refuses payouts larger than the pot. `mint` refuses to
  take an account's lifetime minted total above 800. `money_fmt` prints an
  amount as `$n` or `-$n`.
- **The poker bot** (`ledger-bot.py`) keeps a snapshot table instead. It maps
  a player's name to `{bank, bank_history, hands_won, hands_lost, folds}`,
  and its commands update the table in place.

Modules:

- `Money` (money.dfy) holds `money_fmt` and a parser for its output, so the
  format can be shown to lose nothing.
- `Ranking` (ranking.dfy) holds the stable descending sort that both
  leaderboards use (`sorted(..., key=lambda x: x[1], reverse=True)`).
- `Ledger` (ledger.dfy) holds the transfer record and the replays as folds
  over the list. It proves conservation, the agreement between the replays,
  the settlement sampling and the mint totals.
- `Replay` (replay.dfy) holds the loops of `bot.py` as methods proved against
  those folds.
- `LedgerCommands` (commands.dfy) holds the ledger as a class whose methods
  append.
- `PlayerTable` (table.dfy) holds the snapshot table as a class over a map,
  plus the dict's insertion order.

Modelling choices:

- Timestamps (`time()`) are an integer parameter of each command.
- Discord members are given by their id or name string.
- Every command is one atomic step.
- Python dicts iterate in insertion order, and the leaderboards list ties in
  that order. So the model keeps that order explicitly: `Accounts` for the
  aggregated balances and `Table.order` for the table.
- The set `players` of the settlement replay comes from
  `ledger_data.unique_players()`. The model takes it as a parameter that holds
  `pot` and every id in the ledger. Per player, the loop over that set becomes
  one map update.
- The `ledger` module that defines `PersistentLedger` and `player_balance` is
  not part of this model. Wherever the bot asks for a balance, the model uses
  the credits-minus-debits fold of `bot.py:337-343` (`Ledger.Balance`).

The reference definitions that the contracts below are stated against are
plain folds over the ledger:

- `Ledger.Balance` is credits minus debits, as in the aggregation at
  bot.py:337-343.
- `Ledger.RunningBalance` is the sender-first replay of one player at
  bot.py:70-73.
- `Ledger.Accounts` is the key order of the aggregated dict at
  bot.py:338-341.
- `Ledger.SettleTimes` and `Ledger.SettleSeries` are the settlement samples
  at bot.py:113-122.
- `Ledger.MintedTo` is the minted total at bot.py:388-393.
- `Ranking.Ties` gives the rows of one value in their order, which is the
  measure of stability for the sort at bot.py:345 and ledger-bot.py:545.

`LedgerCommands.BuyinThenCashOut` is a small client of the ledger class. It
shows a buy-in of 200 followed by a payout of 50 leaving 150 in the pot.

Behaviour of the code worth knowing:

- The per-player series has one point per ledger entry, entries of other
  players included, so an unseen id gets a series of zeros rather than an
  empty one.
- Amounts are not checked for sign. `buyin`, `updatebank` and `mint` accept
  negative amounts.
- The mint cap is enforced by the `mint` command, on the lifetime net total.

## Model

| member | source | states |
|---|---|---|
| Money.MoneyFmt | bot.py:43-47 | a negative amount prints as "-$" then digits, any other amount as "$" then digits; the text starts with '-' exactly when the amount is negative |
| Money.Decimal | bot.py:45-47 | an int is printed as at least one decimal digit, with no leading zero unless it is 0 |
| Money.MoneyRoundTrip | bot.py:43-47 | parsing the formatted text gives back the amount, so different amounts never print alike |
| Money.NoMinusAfterDollar | bot.py:43-47 | every '$' in the formatted text is followed by a digit, so a minus sign never follows the dollar sign |
| Ranking.SortDesc | bot.py:345 | the sorted rows are a permutation of the input, with values non-increasing |
| Ranking.Insert | bot.py:345 | inserting a row adds exactly that row and puts it at the front or keeps the old head |
| Ranking.InsertTies | bot.py:345 | the inserted row comes before every row of its own value, and the rows of any value keep their order |
| Ranking.SortDescStable | bot.py:345 | the sort is stable: for every value, the rows of that value come out in their input order |
| Ranking.SortDescKeeps | ledger-bot.py:545 | sorting keeps the number of rows, the set of names and the total of the values |
| Ranking.SortDescDistinct | ledger-bot.py:545 | sorting rows whose names are distinct gives rows whose names are distinct |
| Ledger.BalanceAppend | bot.py:338-343 | one more entry lowers its sender's balance and raises its receiver's by its amount, and adds both ids to the participants |
| Ledger.UnseenBalance | bot.py:338-343 | an id that never appears as sender or receiver has balance 0 |
| Ledger.AccountsAreParticipants | bot.py:338-343 | the aggregated dict's keys, in insertion order, are exactly the ids that appear as sender or receiver, each once |
| Ledger.Conservation | bot.py:337-343 | the balances of all accounts that ever appeared, the mint account included, sum to 0 |
| Ledger.ConservationOver | bot.py:337-343 | the balances over any repeat-free list of accounts covering all participants sum to 0 |
| Ledger.RunningIsBalance | bot.py:70-73 | if the player never transfers to itself, the per-player running balance equals credits minus debits |
| Ledger.SelfTransferDiffers | bot.py:70-73 | for any ledger, a transfer from the player to itself lowers the per-player running balance by its amount but leaves credits minus debits unchanged |
| Ledger.UnseenRunningBalance | bot.py:62-76 | the running balance of an id that never appears stays 0 |
| Ledger.SettleAppend | bot.py:113-122 | one more entry adds a timestamp, and a snapshot to every series, exactly when it leaves the pot at or below 0, and keeps all earlier samples |
| Ledger.SettleLengths | bot.py:119-122 | every account's settlement series is as long as the timestamp list |
| Ledger.MintedToAppend | bot.py:388-393 | one more entry raises an account's minted total exactly when it is a mint entry to that account |
| Replay.PlayerHistory | bot.py:62-76 | one (timestamp, balance) point per entry in ledger order; the balance starts from 0 and each step debits when the player sent the entry, else credits when it received it, else stays |
| Replay.Leaderboard | bot.py:335-345 | the rows are the stable descending sort of (account, credits minus debits) in first-appearance order: a permutation over exactly the participants, each named once, in non-increasing order of balance, with ties in first-appearance order, summing to 0 |
| Replay.SettlementSeries | bot.py:106-122 | the timestamps and each listed account's series equal the settlement sampling of the ledger; every series is as long as the timestamp list |
| Replay.TotalMinted | bot.py:388-393 | the loop sums the amounts of the entries from the reserve to the player |
| Replay.AggregateStep | bot.py:337-343 | one iteration of the aggregation loop keeps the dict equal to the balances of the prefix replayed so far, and keeps its key order |
| Replay.SettleStep | bot.py:113-122 | one iteration of the settlement loop keeps the running balances and the samples equal to the replay of one more entry |
| Replay.RankingFacts | bot.py:345 | the sorted standings name every participant once, with its balance, and sum to 0 |
| LedgerCommands.LedgerData.constructor | bot.py:19 | the ledger starts as the loaded list of entries |
| LedgerCommands.LedgerData.Buyin | bot.py:183-186 | appends exactly one player-to-pot entry, with no bound on the amount; the player's balance drops and the pot's rises by the amount; the mint cap still holds |
| LedgerCommands.LedgerData.UpdateBank | bot.py:216-237 | if the amount exceeds the pot balance, nothing is appended; otherwise exactly one pot-to-player entry is appended and the pot balance stays at or above 0; earlier entries never change |
| LedgerCommands.LedgerData.Mint | bot.py:387-415 | if the amount exceeds 800 minus the total already minted to the player, nothing is appended; otherwise exactly one reserve-to-player entry is appended and that total stays at most 800 |
| PlayerTable.NewPlayer | ledger-bot.py:147-154 | a new record has bank 800, bank history [800] and all three counters at 0 |
| PlayerTable.WithCount | ledger-bot.py:263-264 | changing one counter leaves the other two counters, the name, the bank and the history unchanged |
| PlayerTable.Table.constructor | ledger-bot.py:620 | the table starts with no players |
| PlayerTable.Table.AddPlayer | ledger-bot.py:138-154 | an existing name leaves the table unchanged; otherwise exactly one new-player record is added, last in insertion order |
| PlayerTable.Table.Buyin | ledger-bot.py:169-181 | an amount below 200 is refused; an unknown name changes nothing; otherwise only that player's bank drops by the amount, and the history is untouched |
| PlayerTable.Table.UpdateBank | ledger-bot.py:214-236 | an unknown name changes nothing; otherwise only that player's bank rises by the amount and the new bank is appended to the history, which grows by one and ends with the bank |
| PlayerTable.Table.Increment | ledger-bot.py:255-264 | a known player's chosen counter rises by 1 and nothing else changes; an unknown player is rejected |
| PlayerTable.Table.Decrement | ledger-bot.py:287-306 | an unknown player or a counter at or below 0 is rejected; otherwise only that counter drops by 1 |
| PlayerTable.Table.AddWin | ledger-bot.py:249-264 | an unknown player is rejected; otherwise only that player's hands_won rises by 1 |
| PlayerTable.Table.RemoveWin | ledger-bot.py:282-306 | an unknown player is rejected, and so is hands_won at or below 0; otherwise only hands_won drops by 1; counters never go negative |
| PlayerTable.Table.AddLoss | ledger-bot.py:322-337 | an unknown player is rejected; otherwise only that player's hands_lost rises by 1 |
| PlayerTable.Table.RemoveLoss | ledger-bot.py:356-382 | an unknown player is rejected, and so is hands_lost at or below 0; otherwise only hands_lost drops by 1 |
| PlayerTable.Table.AddFold | ledger-bot.py:398-413 | an unknown player is rejected; otherwise only that player's folds rises by 1 |
| PlayerTable.Table.RemoveFold | ledger-bot.py:432-458 | an unknown player is rejected, and so is folds at or below 0; otherwise only folds drops by 1 |
| PlayerTable.Table.Leaderboard | ledger-bot.py:536-561 | "bank" lists every player exactly once with its bank, in non-increasing order of bank, with players of equal bank in insertion order; "ratio" is accepted; any other criterion is rejected |
| PlayerTable.BankBoardFacts | ledger-bot.py:541-545 | the sorted (name, bank) rows name each player once, with that player's bank |
| PlayerTable.BankRowsNames | ledger-bot.py:542 | the (name, bank) rows list each player once |

## Left out

- Discord plumbing is not modelled: embeds, `ctx.respond`/`ctx.defer`,
  `get_username`, `disp_name`/`fetch_user` and command registration. Players
  are given by their id or name string, and the reply texts are not modelled.
- Chart rendering with matplotlib is not modelled, including the graph's
  omission of `pot` and the reserve and the floating-point layout. The series
  it draws are modelled.
- JSON file I/O is not modelled: `get_player_data`, `update_player_data`,
  `setup_ledger`, secrets loading and the hands picture. The table and the
  ledger are in-memory state; `LedgerData.constructor` takes the loaded list.
- The `ledger` module (`PersistentLedger` with `append`, `player_balance`,
  `unique_players` and persistence) is not part of this model. Its list is a
  `seq<Entry>` with append, and its balance is the fold at bot.py:337-343.
- asyncio locks and interleavings are not modelled: every command is one
  atomic step. In `updatebank`, the pot is read outside the lock
  (bot.py:216 against bot.py:234). That is a race between concurrent
  commands, which a sequential model cannot show.
- PlayerTable.Table.Leaderboard: the "ratio" ranking (`hands_won /
  max(1, hands_lost)`, sorted and rounded in floating point) is not computed.
  The board only says that the criterion was accepted.
- PlayerTable.Table.Buyin: an unknown name raises `KeyError` in the source,
  which aborts the command before anything is written. The model returns
  `UnknownPlayer` with the table unchanged.
- `time()` and `datetime.fromtimestamp` become an opaque integer timestamp.

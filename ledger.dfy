/** The event-sourced ledger of the bank bot: an ordered list of transfers.
    Balances are never stored; every quantity here is a replay of the list,
    written as a fold over its prefixes so that "one more entry" is one
    more step. */
module Ledger {
  import opened Ranking

  /** One transfer `{u_from, u_to, amount, t}`; the timestamp is opaque. */
  datatype Entry = Entry(sender: string, receiver: string, amount: int, time: int)

  /** The table's account: buy-ins go in, cash-outs come out. */
  const Pot: string := "pot"
  /** The account newly minted money comes from. */
  const Reserve: string := "U.S. Federal Reserve"
  /** Lifetime amount the reserve may mint to one account. */
  const MintCap: int := 800

  /** Total sent by `x`. */
  function Debits(l: seq<Entry>, x: string): int {
    if l == [] then 0
    else Debits(l[..|l| - 1], x) + (if l[|l| - 1].sender == x then l[|l| - 1].amount else 0)
  }

  /** Total received by `x`. */
  function Credits(l: seq<Entry>, x: string): int {
    if l == [] then 0
    else Credits(l[..|l| - 1], x) + (if l[|l| - 1].receiver == x then l[|l| - 1].amount else 0)
  }

  /** An account's balance: what it received minus what it sent. */
  function Balance(l: seq<Entry>, x: string): int {
    Credits(l, x) - Debits(l, x)
  }

  /** Every id that occurs as sender or receiver. */
  function Participants(l: seq<Entry>): set<string> {
    if l == [] then {}
    else Participants(l[..|l| - 1]) + {l[|l| - 1].sender, l[|l| - 1].receiver}
  }

  lemma AppendPrefix(l: seq<Entry>, e: Entry)
    ensures (l + [e])[..|l|] == l && (l + [e])[|l|] == e
  {
  }

  /** One more entry moves its amount from its sender to its receiver. */
  lemma BalanceAppend(l: seq<Entry>, e: Entry, x: string)
    ensures Balance(l + [e], x)
         == Balance(l, x) - (if e.sender == x then e.amount else 0)
                          + (if e.receiver == x then e.amount else 0)
    ensures Participants(l + [e]) == Participants(l) + {e.sender, e.receiver}
  {
    AppendPrefix(l, e);
  }

  /** An id that never occurs has balance 0. */
  lemma {:induction false} UnseenBalance(l: seq<Entry>, x: string)
    requires x !in Participants(l)
    ensures Balance(l, x) == 0
  {
    if l != [] {
      UnseenBalance(l[..|l| - 1], x);
    }
  }

  // ---------------------------------------------------------------------
  // Per-player replay (the balance graph of one player)
  // ---------------------------------------------------------------------

  /** How one entry moves a single player's running balance: a debit when the
      player sent it, otherwise a credit when the player received it, so an
      entry from the player to itself counts only as a debit. */
  function Delta(e: Entry, x: string): int {
    if e.sender == x then -e.amount else if e.receiver == x then e.amount else 0
  }

  /** The player's running balance after replaying `l` from 0. */
  function RunningBalance(l: seq<Entry>, x: string): int {
    if l == [] then 0 else RunningBalance(l[..|l| - 1], x) + Delta(l[|l| - 1], x)
  }

  /** No entry of `l` is a transfer from `x` to itself. */
  ghost predicate NoSelfTransfer(l: seq<Entry>, x: string) {
    forall i :: 0 <= i < |l| && l[i].sender == x ==> l[i].receiver != x
  }

  /** Without self-transfers of `x`, the per-player replay and the
      credits-minus-debits balance agree. */
  lemma {:induction false} RunningIsBalance(l: seq<Entry>, x: string)
    requires NoSelfTransfer(l, x)
    ensures RunningBalance(l, x) == Balance(l, x)
  {
    if l != [] {
      var p := l[..|l| - 1];
      assert NoSelfTransfer(p, x) by {
        forall i | 0 <= i < |p| && p[i].sender == x ensures p[i].receiver != x {
          assert p[i] == l[i];
        }
      }
      RunningIsBalance(p, x);
    }
  }

  /** A transfer from `x` to itself counts only as a debit in the per-player
      replay, while the aggregate nets it to zero. */
  lemma SelfTransferDiffers(l: seq<Entry>, e: Entry, x: string)
    requires e.sender == x && e.receiver == x
    ensures RunningBalance(l + [e], x) == RunningBalance(l, x) - e.amount
    ensures Balance(l + [e], x) == Balance(l, x)
  {
    AppendPrefix(l, e);
  }

  /** An id that never occurs keeps a running balance of 0. */
  lemma {:induction false} UnseenRunningBalance(l: seq<Entry>, x: string)
    requires x !in Participants(l)
    ensures RunningBalance(l, x) == 0
  {
    if l != [] {
      UnseenRunningBalance(l[..|l| - 1], x);
    }
  }

  // ---------------------------------------------------------------------
  // All-accounts aggregation (the leaderboard)
  // ---------------------------------------------------------------------

  /** Adds a key at the end unless it is there already, as assigning a new
      key of a Python dict does. */
  function AddKey(ks: seq<string>, k: string): seq<string> {
    if k in ks then ks else ks + [k]
  }

  /** The accounts in order of first appearance: the key order of the
      aggregated dict, each entry's sender before its receiver. */
  function Accounts(l: seq<Entry>): seq<string> {
    if l == [] then []
    else AddKey(AddKey(Accounts(l[..|l| - 1]), l[|l| - 1].sender), l[|l| - 1].receiver)
  }

  /** The first-appearance order lists every participant exactly once. */
  lemma {:induction false} AccountsAreParticipants(l: seq<Entry>)
    ensures Distinct(Accounts(l))
    ensures forall k :: k in Accounts(l) <==> k in Participants(l)
  {
    if l != [] {
      AccountsAreParticipants(l[..|l| - 1]);
    }
  }

  /** The rows (account, balance) for the accounts `ks`, in that order. */
  function Standings(ks: seq<string>, l: seq<Entry>): (r: seq<Row>)
    ensures |r| == |ks|
    ensures forall i :: 0 <= i < |r| ==> r[i] == (ks[i], Balance(l, ks[i]))
  {
    if ks == [] then [] else [(ks[0], Balance(l, ks[0]))] + Standings(ks[1..], l)
  }

  lemma {:induction false} StandingsNames(ks: seq<string>, l: seq<Entry>)
    ensures Names(Standings(ks, l)) == set k | k in ks
    ensures Distinct(ks) ==> DistinctNames(Standings(ks, l))
  {
    var r := Standings(ks, l);
    forall n | n in Names(r) ensures n in ks {
      var i :| 0 <= i < |r| && r[i].0 == n;
    }
    forall n | n in ks ensures n in Names(r) {
      var i :| 0 <= i < |ks| && ks[i] == n;
      assert r[i].0 == n;
    }
  }

  lemma {:induction false} StandingsOfEmpty(ks: seq<string>)
    ensures SumValues(Standings(ks, [])) == 0
  {
    if ks != [] {
      StandingsOfEmpty(ks[1..]);
    }
  }

  /** Over distinct accounts, one more entry changes the total by minus its
      amount if its sender is listed and plus its amount if its receiver is. */
  lemma {:induction false} StandingsAppend(ks: seq<string>, l: seq<Entry>, e: Entry)
    requires Distinct(ks)
    ensures SumValues(Standings(ks, l + [e]))
         == SumValues(Standings(ks, l)) - (if e.sender in ks then e.amount else 0)
                                        + (if e.receiver in ks then e.amount else 0)
  {
    if ks != [] {
      assert Distinct(ks[1..]) by {
        forall i, j | 0 <= i < j < |ks[1..]| ensures ks[1..][i] != ks[1..][j] {
          assert ks[1..][i] == ks[i + 1] && ks[1..][j] == ks[j + 1];
        }
      }
      StandingsAppend(ks[1..], l, e);
      BalanceAppend(l, e, ks[0]);
      assert ks == [ks[0]] + ks[1..];
      assert e.sender in ks <==> e.sender == ks[0] || e.sender in ks[1..];
      assert e.receiver in ks <==> e.receiver == ks[0] || e.receiver in ks[1..];
      assert ks[0] !in ks[1..];
    }
  }

  /** Conservation over any distinct list of accounts covering every
      participant. */
  lemma {:induction false} ConservationOver(ks: seq<string>, l: seq<Entry>)
    requires Distinct(ks)
    requires forall k :: k in Participants(l) ==> k in ks
    ensures SumValues(Standings(ks, l)) == 0
  {
    if l == [] {
      StandingsOfEmpty(ks);
    } else {
      var p, e := l[..|l| - 1], l[|l| - 1];
      assert l == p + [e];
      BalanceAppend(p, e, e.sender);
      ConservationOver(ks, p);
      StandingsAppend(ks, p, e);
    }
  }

  /** Conservation: the balances of all accounts that ever occurred sum to 0. */
  lemma Conservation(l: seq<Entry>)
    ensures SumValues(Standings(Accounts(l), l)) == 0
  {
    AccountsAreParticipants(l);
    ConservationOver(Accounts(l), l);
  }

  // ---------------------------------------------------------------------
  // Settlement sampling (the leaderboard graph)
  // ---------------------------------------------------------------------

  /** After the last entry of `l`, the pot has paid out at least what it took in. */
  predicate Settled(l: seq<Entry>) {
    Balance(l, Pot) <= 0
  }

  /** Timestamps of the entries after which the pot was settled. */
  function SettleTimes(l: seq<Entry>): seq<int> {
    if l == [] then []
    else SettleTimes(l[..|l| - 1]) + (if Settled(l) then [l[|l| - 1].time] else [])
  }

  /** The balance of `p` at each settlement point. */
  function SettleSeries(l: seq<Entry>, p: string): seq<int> {
    if l == [] then []
    else SettleSeries(l[..|l| - 1], p) + (if Settled(l) then [Balance(l, p)] else [])
  }

  /** One more entry adds a sample exactly when it leaves the pot settled,
      and keeps every earlier sample. */
  lemma SettleAppend(l: seq<Entry>, e: Entry, p: string)
    ensures SettleTimes(l + [e]) == SettleTimes(l) + (if Settled(l + [e]) then [e.time] else [])
    ensures SettleSeries(l + [e], p)
         == SettleSeries(l, p) + (if Settled(l + [e]) then [Balance(l + [e], p)] else [])
  {
    AppendPrefix(l, e);
  }

  /** Every account's series has one value per settlement timestamp. */
  lemma {:induction false} SettleLengths(l: seq<Entry>, p: string)
    ensures |SettleSeries(l, p)| == |SettleTimes(l)|
  {
    if l != [] {
      SettleLengths(l[..|l| - 1], p);
    }
  }

  // ---------------------------------------------------------------------
  // Minting
  // ---------------------------------------------------------------------

  /** Lifetime total the reserve has minted to `x`. */
  function MintedTo(l: seq<Entry>, x: string): int {
    if l == [] then 0
    else MintedTo(l[..|l| - 1], x)
         + (if l[|l| - 1].sender == Reserve && l[|l| - 1].receiver == x then l[|l| - 1].amount else 0)
  }

  lemma MintedToAppend(l: seq<Entry>, e: Entry, x: string)
    ensures MintedTo(l + [e], x)
         == MintedTo(l, x) + (if e.sender == Reserve && e.receiver == x then e.amount else 0)
  {
    AppendPrefix(l, e);
  }

  /** No account has been minted more than the cap. */
  ghost predicate WithinMintCap(l: seq<Entry>) {
    forall x :: MintedTo(l, x) <= MintCap
  }
}

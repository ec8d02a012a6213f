/** The loops of the bank bot that replay the ledger, proved against the
    replay functions of module Ledger. */
module Replay {
  import opened Ranking
  import opened Ledger

  function Lookup(m: map<string, int>, k: string): int {
    if k in m then m[k] else 0
  }

  /** The balance series of one player (create_player_bank_graph): starting
      from 0, one (timestamp, balance) point per entry, in ledger order,
      entries of other players included. */
  method PlayerHistory(l: seq<Entry>, ident: string) returns (times: seq<int>, balances: seq<int>)
    ensures |times| == |l| && |balances| == |l|
    ensures forall i :: 0 <= i < |l| ==> times[i] == l[i].time
    ensures forall i :: 0 <= i < |l| ==> balances[i] == RunningBalance(l[..i + 1], ident)
    ensures |l| > 0 ==> balances[0] == Delta(l[0], ident)
    ensures forall i :: 0 < i < |l| ==> balances[i] == balances[i - 1] + Delta(l[i], ident)
  {
    var running := 0;
    times, balances := [], [];
    for i := 0 to |l|
      invariant running == RunningBalance(l[..i], ident)
      invariant |times| == i && |balances| == i
      invariant forall j :: 0 <= j < i ==> times[j] == l[j].time
      invariant forall j :: 0 <= j < i ==> balances[j] == RunningBalance(l[..j + 1], ident)
    {
      var e := l[i];
      if e.sender == ident {
        running := running - e.amount;
      } else if e.receiver == ident {
        running := running + e.amount;
      }
      assert l[..i + 1][..i] == l[..i];
      times := times + [e.time];
      balances := balances + [running];
    }
    assert |l| > 0 ==> l[..1][..0] == [];
    forall i | 0 < i < |l| ensures balances[i] == balances[i - 1] + Delta(l[i], ident) {
      assert l[..i + 1][..i] == l[..i];
    }
  }

  /** The leaderboard of the bank bot: every account that ever sent or
      received, with credits minus debits, largest balance first; accounts
      with equal balances keep their order of first appearance. */
  method Leaderboard(l: seq<Entry>) returns (ranking: seq<Row>)
    ensures ranking == SortDesc(Standings(Accounts(l), l))
    ensures forall v :: Ties(ranking, v) == Ties(Standings(Accounts(l), l), v)
    ensures multiset(ranking) == multiset(Standings(Accounts(l), l))
    ensures NonIncreasing(ranking)
    ensures Names(ranking) == Participants(l) && DistinctNames(ranking)
    ensures forall i :: 0 <= i < |ranking| ==> ranking[i].1 == Balance(l, ranking[i].0)
    ensures SumValues(ranking) == 0
  {
    var bals: map<string, int> := map[];
    var keys: seq<string> := [];
    for i := 0 to |l|
      invariant Aggregated(l[..i], keys, bals)
    {
      var e := l[i];
      AggregateStep(l, i, keys, bals);
      bals := bals[e.sender := Lookup(bals, e.sender) - e.amount];
      keys := AddKey(keys, e.sender);
      bals := bals[e.receiver := Lookup(bals, e.receiver) + e.amount];
      keys := AddKey(keys, e.receiver);
    }
    assert l[..|l|] == l;
    AccountsAreParticipants(l);
    var rows := Items(keys, bals);
    ItemsAreStandings(keys, bals, l);
    ranking := SortDesc(rows);
    RankingFacts(l, ranking);
    forall v { SortDescStable(rows, v); }
  }

  /** One iteration of the aggregation loop keeps the dict equal to the
      balances of the prefix replayed so far, and its key order equal to the
      order of first appearance. */
  ghost predicate Aggregated(p: seq<Entry>, keys: seq<string>, bals: map<string, int>) {
    && keys == Accounts(p)
    && bals.Keys == Participants(p)
    && forall k :: k in bals ==> bals[k] == Balance(p, k)
  }

  lemma AggregateStep(l: seq<Entry>, i: nat, keys: seq<string>, bals: map<string, int>)
    requires i < |l|
    requires Aggregated(l[..i], keys, bals)
    ensures var e := l[i];
            var b1 := bals[e.sender := Lookup(bals, e.sender) - e.amount];
            var b2 := b1[e.receiver := Lookup(b1, e.receiver) + e.amount];
            Aggregated(l[..i + 1], AddKey(AddKey(keys, e.sender), e.receiver), b2)
  {
    var p, e := l[..i], l[i];
    assert l[..i + 1] == p + [e];
    AppendPrefix(p, e);
    var b1 := bals[e.sender := Lookup(bals, e.sender) - e.amount];
    var b2 := b1[e.receiver := Lookup(b1, e.receiver) + e.amount];
    BalanceAppend(p, e, e.sender);
    forall k | k in b2 ensures b2[k] == Balance(p + [e], k) {
      BalanceAppend(p, e, k);
      if k !in bals { UnseenBalance(p, k); }
    }
  }

  /** The (key, value) pairs of a dict, in key order (`dict.items()`). */
  function Items(keys: seq<string>, m: map<string, int>): (r: seq<Row>)
    requires forall k :: k in keys ==> k in m
    ensures |r| == |keys|
    ensures forall j :: 0 <= j < |r| ==> r[j] == (keys[j], m[keys[j]])
  {
    if keys == [] then [] else [(keys[0], m[keys[0]])] + Items(keys[1..], m)
  }

  lemma ItemsAreStandings(keys: seq<string>, m: map<string, int>, l: seq<Entry>)
    requires forall k :: k in keys ==> k in m && m[k] == Balance(l, k)
    ensures Items(keys, m) == Standings(keys, l)
  {
  }

  /** What the sorted standings of a ledger promise. */
  lemma RankingFacts(l: seq<Entry>, ranking: seq<Row>)
    requires ranking == SortDesc(Standings(Accounts(l), l))
    ensures Names(ranking) == Participants(l) && DistinctNames(ranking)
    ensures forall i :: 0 <= i < |ranking| ==> ranking[i].1 == Balance(l, ranking[i].0)
    ensures SumValues(ranking) == 0
  {
    var rows := Standings(Accounts(l), l);
    AccountsAreParticipants(l);
    SortDescKeeps(rows);
    StandingsNames(Accounts(l), l);
    SortDescDistinct(rows);
    Conservation(l);
    forall i | 0 <= i < |ranking| ensures ranking[i].1 == Balance(l, ranking[i].0) {
      assert ranking[i] in multiset(rows);
      var j :| 0 <= j < |rows| && rows[j] == ranking[i];
    }
  }

  /** The settlement series of the leaderboard graph
      (create_leaderboard_graph): after each entry that leaves the pot at or
      below 0, the timestamp and every listed account's running balance are
      recorded; other entries record nothing. */
  method SettlementSeries(l: seq<Entry>, players: set<string>)
    returns (times: seq<int>, series: map<string, seq<int>>)
    requires Pot in players
    requires forall k :: k in Participants(l) ==> k in players
    ensures times == SettleTimes(l)
    ensures series.Keys == players
    ensures forall p :: p in series ==> series[p] == SettleSeries(l, p) && |series[p]| == |times|
  {
    var running: map<string, int> := map p | p in players :: 0;
    times := [];
    series := map p | p in players :: [];
    for i := 0 to |l|
      invariant Sampled(l[..i], players, running, times, series)
    {
      var e := l[i];
      assert l[..i + 1] == l[..i] + [e];
      ParticipantsOfPrefix(l, i + 1);
      SettleStep(l[..i], e, players, running, times, series);
      running := Transfer(running, e);
      if running[Pot] <= 0 {
        series := Snapshot(series, running);
        times := times + [e.time];
      }
    }
    assert l[..|l|] == l;
    forall p | p in series {
      SettleLengths(l, p);
    }
  }

  /** The running balances after one more entry: its amount moves from its
      sender to its receiver. */
  function Transfer(running: map<string, int>, e: Entry): (r: map<string, int>)
    requires e.sender in running && e.receiver in running
    ensures r.Keys == running.Keys
  {
    var r1 := running[e.sender := running[e.sender] - e.amount];
    r1[e.receiver := r1[e.receiver] + e.amount]
  }

  /** Every series extended by the account's current running balance. */
  function Snapshot(series: map<string, seq<int>>, running: map<string, int>): (r: map<string, seq<int>>)
    requires series.Keys <= running.Keys
    ensures r.Keys == series.Keys
    ensures forall p :: p in r ==> r[p] == series[p] + [running[p]]
  {
    map p | p in series :: series[p] + [running[p]]
  }

  /** The loop state of the settlement replay after the prefix `p`. */
  ghost predicate Sampled(p: seq<Entry>, players: set<string>, running: map<string, int>,
                          times: seq<int>, series: map<string, seq<int>>)
  {
    && running.Keys == players && series.Keys == players
    && (forall k :: k in players ==> running[k] == Balance(p, k))
    && times == SettleTimes(p)
    && (forall k :: k in players ==> series[k] == SettleSeries(p, k))
  }

  /** One iteration of the settlement loop keeps its state equal to the
      replay of one more entry. */
  lemma SettleStep(p: seq<Entry>, e: Entry, players: set<string>, running: map<string, int>,
                   times: seq<int>, series: map<string, seq<int>>)
    requires Pot in players
    requires forall k :: k in Participants(p + [e]) ==> k in players
    requires Sampled(p, players, running, times, series)
    ensures e.sender in running && e.receiver in running
    ensures Settled(p + [e]) <==> Transfer(running, e)[Pot] <= 0
    ensures Settled(p + [e]) ==>
              Sampled(p + [e], players, Transfer(running, e), times + [e.time],
                      Snapshot(series, Transfer(running, e)))
    ensures !Settled(p + [e]) ==> Sampled(p + [e], players, Transfer(running, e), times, series)
  {
    BalanceAppend(p, e, e.sender);
    var r := Transfer(running, e);
    forall k | k in players ensures r[k] == Balance(p + [e], k) {
      BalanceAppend(p, e, k);
    }
    forall k | k in players ensures SettleSeries(p + [e], k)
         == SettleSeries(p, k) + (if Settled(p + [e]) then [Balance(p + [e], k)] else []) {
      SettleAppend(p, e, k);
    }
    SettleAppend(p, e, Pot);
  }

  lemma {:induction false} ParticipantsOfPrefix(l: seq<Entry>, n: nat)
    requires n <= |l|
    ensures forall k :: k in Participants(l[..n]) ==> k in Participants(l)
  {
    if n < |l| {
      var p := l[..|l| - 1];
      assert p[..n] == l[..n];
      ParticipantsOfPrefix(p, n);
    } else {
      assert l[..n] == l;
    }
  }

  /** Lifetime total minted to `ident`: the sum over the entries from the
      reserve to `ident` (the check in `mint`). */
  method TotalMinted(l: seq<Entry>, ident: string) returns (total: int)
    ensures total == MintedTo(l, ident)
  {
    total := 0;
    for i := 0 to |l|
      invariant total == MintedTo(l[..i], ident)
    {
      assert l[..i + 1][..i] == l[..i];
      if l[i].sender == Reserve && l[i].receiver == ident {
        total := total + l[i].amount;
      }
    }
    assert l[..|l|] == l;
  }
}

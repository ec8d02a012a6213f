/** The poker bot's per-player snapshot table: a dict from player name to a
    record of bank, bank history and hand counters, changed in place by the
    commands.  Commands are atomic steps; the dict's insertion order is kept
    explicitly because the leaderboard lists ties in that order. */
module PlayerTable {
  import opened Ranking

  /** One player's record. */
  datatype Player = Player(name: string, bank: int, bankHistory: seq<int>,
                           handsWon: int, handsLost: int, folds: int)

  /** Bank a new player starts with. */
  const StartingBank: int := 800
  /** Smallest accepted buy-in. */
  const MinimumBuyin: int := 200

  /** The answer a command gives; every status but Done leaves the table as it was. */
  datatype Status = Done | AlreadyExists | UnknownPlayer | BelowMinimum | NothingToRemove

  /** The three hand counters of a record. */
  datatype Counter = Won | Lost | Folded

  function Count(p: Player, c: Counter): int {
    match c
    case Won => p.handsWon
    case Lost => p.handsLost
    case Folded => p.folds
  }

  /** The record with one counter set to `v` and everything else kept. */
  function WithCount(p: Player, c: Counter, v: int): (r: Player)
    ensures Count(r, c) == v
    ensures forall d :: d != c ==> Count(r, d) == Count(p, d)
    ensures r.name == p.name && r.bank == p.bank && r.bankHistory == p.bankHistory
  {
    match c
    case Won => p.(handsWon := v)
    case Lost => p.(handsLost := v)
    case Folded => p.(folds := v)
  }

  /** The record `addplayer` creates. */
  function NewPlayer(name: string): (p: Player)
    ensures p.name == name && p.bank == StartingBank && p.bankHistory == [StartingBank]
    ensures forall c :: Count(p, c) == 0
  {
    Player(name, StartingBank, [StartingBank], 0, 0, 0)
  }

  /** The rows (name, bank) of the listed players, in that order. */
  function BankRows(names: seq<string>, players: map<string, Player>): (r: seq<Row>)
    requires forall n :: n in names ==> n in players
    ensures |r| == |names|
    ensures forall j :: 0 <= j < |r| ==> r[j] == (names[j], players[names[j]].bank)
  {
    if names == [] then [] else [(names[0], players[names[0]].bank)] + BankRows(names[1..], players)
  }

  /** What `leaderboard` shows: the bank ranking, the win/loss ranking (kept
      abstract: it is computed in floating point) or a rejected criterion. */
  datatype Board = BankBoard(ranking: seq<Row>) | RatioBoard | Rejected

  class Table {
    /** Records by player name. */
    var players: map<string, Player>
    /** Player names in insertion order, the iteration order of the dict. */
    var order: seq<string>

    ghost predicate Valid()
      reads this
    {
      && Distinct(order)
      && (forall n :: n in players <==> n in order)
      && (forall n :: n in players ==> players[n].name == n)
      && (forall n, c :: n in players ==> Count(players[n], c) >= 0)
    }

    /** The table as first set up: no players. */
    constructor ()
      ensures Valid() && players == map[] && order == []
    {
      players := map[];
      order := [];
    }

    /** `addplayer`: a new record with the starting bank, unless the name is taken. */
    method AddPlayer(name: string) returns (status: Status)
      requires Valid()
      modifies this
      ensures Valid()
      ensures status == (if name in old(players) then AlreadyExists else Done)
      ensures status == AlreadyExists ==> players == old(players) && order == old(order)
      ensures status == Done ==> players == old(players)[name := NewPlayer(name)]
      ensures status == Done ==> order == old(order) + [name]
    {
      if name in players {
        return AlreadyExists;
      }
      players := players[name := NewPlayer(name)];
      order := order + [name];
      status := Done;
    }

    /** `buyin`: the bank drops by `amount`; the history is not extended.
        An amount below the minimum is refused before the table is looked
        at; an unknown name fails the lookup and changes nothing. */
    method Buyin(name: string, amount: int) returns (status: Status)
      requires Valid()
      modifies this
      ensures Valid() && order == old(order)
      ensures status == (if amount < MinimumBuyin then BelowMinimum
                         else if name !in old(players) then UnknownPlayer
                         else Done)
      ensures status != Done ==> players == old(players)
      ensures status == Done ==>
                players == old(players)[name := old(players)[name].(bank := old(players)[name].bank - amount)]
    {
      if amount < MinimumBuyin {
        return BelowMinimum;
      }
      if name !in players {
        return UnknownPlayer;
      }
      var p := players[name];
      var q := p.(bank := p.bank - amount);
      assert forall c :: Count(q, c) == Count(p, c);
      players := players[name := q];
      status := Done;
    }

    /** `updatebank`: the bank rises by `amount` (which may be negative) and
        the new bank is appended to the history. */
    method UpdateBank(name: string, amount: int) returns (status: Status)
      requires Valid()
      modifies this
      ensures Valid() && order == old(order)
      ensures status == (if name in old(players) then Done else UnknownPlayer)
      ensures status != Done ==> players == old(players)
      ensures status == Done ==>
                var p := old(players)[name];
                players == old(players)[name := p.(bank := p.bank + amount,
                                                   bankHistory := p.bankHistory + [p.bank + amount])]
      ensures status == Done ==>
                |players[name].bankHistory| == |old(players)[name].bankHistory| + 1
                && players[name].bankHistory[|players[name].bankHistory| - 1] == players[name].bank
    {
      if name !in players {
        return UnknownPlayer;
      }
      var p := players[name];
      var newAmount := p.bank + amount;
      var q := p.(bank := newAmount, bankHistory := p.bankHistory + [newAmount]);
      assert forall c :: Count(q, c) == Count(p, c);
      players := players[name := q];
      status := Done;
    }

    /** Adds one to a counter of a known player. */
    method Increment(name: string, c: Counter) returns (status: Status)
      requires Valid()
      modifies this
      ensures Valid() && order == old(order)
      ensures status == (if name in old(players) then Done else UnknownPlayer)
      ensures status != Done ==> players == old(players)
      ensures status == Done ==>
                players == old(players)[name := WithCount(old(players)[name], c, Count(old(players)[name], c) + 1)]
    {
      if name !in players {
        return UnknownPlayer;
      }
      var p := players[name];
      players := players[name := WithCount(p, c, Count(p, c) + 1)];
      status := Done;
    }

    /** Takes one from a counter of a known player, refusing when it is not
        above 0. */
    method Decrement(name: string, c: Counter) returns (status: Status)
      requires Valid()
      modifies this
      ensures Valid() && order == old(order)
      ensures status == (if name !in old(players) then UnknownPlayer
                         else if Count(old(players)[name], c) <= 0 then NothingToRemove
                         else Done)
      ensures status != Done ==> players == old(players)
      ensures status == Done ==>
                players == old(players)[name := WithCount(old(players)[name], c, Count(old(players)[name], c) - 1)]
    {
      if name !in players {
        return UnknownPlayer;
      }
      var p := players[name];
      if Count(p, c) <= 0 {
        return NothingToRemove;
      }
      players := players[name := WithCount(p, c, Count(p, c) - 1)];
      status := Done;
    }

    /** `addwin` */
    method AddWin(name: string) returns (status: Status)
      requires Valid()
      modifies this
      ensures Valid() && order == old(order)
      ensures status == (if name in old(players) then Done else UnknownPlayer)
      ensures status != Done ==> players == old(players)
      ensures status == Done ==>
                players == old(players)[name := old(players)[name].(handsWon := old(players)[name].handsWon + 1)]
    {
      status := Increment(name, Won);
    }

    /** `removewin` */
    method RemoveWin(name: string) returns (status: Status)
      requires Valid()
      modifies this
      ensures Valid() && order == old(order)
      ensures status == (if name !in old(players) then UnknownPlayer
                         else if old(players)[name].handsWon <= 0 then NothingToRemove
                         else Done)
      ensures status != Done ==> players == old(players)
      ensures status == Done ==>
                players == old(players)[name := old(players)[name].(handsWon := old(players)[name].handsWon - 1)]
    {
      status := Decrement(name, Won);
    }

    /** `addloss` */
    method AddLoss(name: string) returns (status: Status)
      requires Valid()
      modifies this
      ensures Valid() && order == old(order)
      ensures status == (if name in old(players) then Done else UnknownPlayer)
      ensures status != Done ==> players == old(players)
      ensures status == Done ==>
                players == old(players)[name := old(players)[name].(handsLost := old(players)[name].handsLost + 1)]
    {
      status := Increment(name, Lost);
    }

    /** `removeloss` */
    method RemoveLoss(name: string) returns (status: Status)
      requires Valid()
      modifies this
      ensures Valid() && order == old(order)
      ensures status == (if name !in old(players) then UnknownPlayer
                         else if old(players)[name].handsLost <= 0 then NothingToRemove
                         else Done)
      ensures status != Done ==> players == old(players)
      ensures status == Done ==>
                players == old(players)[name := old(players)[name].(handsLost := old(players)[name].handsLost - 1)]
    {
      status := Decrement(name, Lost);
    }

    /** `addfold` */
    method AddFold(name: string) returns (status: Status)
      requires Valid()
      modifies this
      ensures Valid() && order == old(order)
      ensures status == (if name in old(players) then Done else UnknownPlayer)
      ensures status != Done ==> players == old(players)
      ensures status == Done ==>
                players == old(players)[name := old(players)[name].(folds := old(players)[name].folds + 1)]
    {
      status := Increment(name, Folded);
    }

    /** `removefold` */
    method RemoveFold(name: string) returns (status: Status)
      requires Valid()
      modifies this
      ensures Valid() && order == old(order)
      ensures status == (if name !in old(players) then UnknownPlayer
                         else if old(players)[name].folds <= 0 then NothingToRemove
                         else Done)
      ensures status != Done ==> players == old(players)
      ensures status == Done ==>
                players == old(players)[name := old(players)[name].(folds := old(players)[name].folds - 1)]
    {
      status := Decrement(name, Folded);
    }

    /** `leaderboard`: for "bank", every player exactly once, largest bank
        first, players with equal banks in insertion order; "ratio" is
        accepted; any other criterion is rejected. */
    method Leaderboard(criterion: string) returns (board: Board)
      requires Valid()
      ensures board.BankBoard? <==> criterion == "bank"
      ensures board.RatioBoard? <==> criterion == "ratio"
      ensures board.Rejected? <==> criterion != "bank" && criterion != "ratio"
      ensures board.BankBoard? ==> board.ranking == SortDesc(BankRows(order, players))
      ensures board.BankBoard? ==> forall v :: Ties(board.ranking, v) == Ties(BankRows(order, players), v)
      ensures board.BankBoard? ==>
                && NonIncreasing(board.ranking)
                && Names(board.ranking) == players.Keys
                && DistinctNames(board.ranking)
                && |board.ranking| == |players|
                && forall i :: 0 <= i < |board.ranking| ==>
                     board.ranking[i].0 in players && board.ranking[i].1 == players[board.ranking[i].0].bank
    {
      if criterion == "bank" {
        var rows := BankRows(order, players);
        board := BankBoard(SortDesc(rows));
        BankBoardFacts(order, players);
        forall v { SortDescStable(rows, v); }
      } else if criterion == "ratio" {
        board := RatioBoard;
      } else {
        board := Rejected;
      }
    }
  }

  /** The bank rows of a table name each player once. */
  lemma BankRowsNames(order: seq<string>, players: map<string, Player>)
    requires Distinct(order)
    requires forall n :: n in players <==> n in order
    ensures Names(BankRows(order, players)) == players.Keys
    ensures DistinctNames(BankRows(order, players))
    ensures |BankRows(order, players)| == |players|
  {
    var rows := BankRows(order, players);
    RowNamesAreOrder(order, players);
    forall i, j | 0 <= i < j < |rows| ensures rows[i].0 != rows[j].0 {
      assert rows[i].0 == order[i] && rows[j].0 == order[j];
    }
    KeysCardinality(order, players);
  }

  lemma RowNamesAreOrder(order: seq<string>, players: map<string, Player>)
    requires forall n :: n in order ==> n in players
    ensures Names(BankRows(order, players)) == set n | n in order
  {
    var rows := BankRows(order, players);
    forall n | n in order ensures n in Names(rows) {
      var j :| 0 <= j < |order| && order[j] == n;
      assert rows[j].0 == n;
    }
  }

  lemma KeysCardinality(order: seq<string>, players: map<string, Player>)
    requires Distinct(order)
    requires forall n :: n in players <==> n in order
    ensures |players| == |order|
  {
    DistinctCardinality(order);
    assert players.Keys == set n | n in order;
  }

  /** The sorted bank rows of a table list each player once with its bank. */
  lemma BankBoardFacts(order: seq<string>, players: map<string, Player>)
    requires Distinct(order)
    requires forall n :: n in players <==> n in order
    ensures var ranking := SortDesc(BankRows(order, players));
            && Names(ranking) == players.Keys
            && DistinctNames(ranking)
            && |ranking| == |players|
            && forall i :: 0 <= i < |ranking| ==>
                 ranking[i].0 in players && ranking[i].1 == players[ranking[i].0].bank
  {
    var rows := BankRows(order, players);
    var ranking := SortDesc(rows);
    BankRowsNames(order, players);
    SortDescKeeps(rows);
    SortDescDistinct(rows);
    forall i | 0 <= i < |ranking|
      ensures ranking[i].0 in players && ranking[i].1 == players[ranking[i].0].bank
    {
      assert ranking[i] in multiset(rows);
      var j :| 0 <= j < |rows| && rows[j] == ranking[i];
    }
  }

  /** A list without repeats has as many elements as its set. */
  lemma {:induction false} DistinctCardinality(s: seq<string>)
    requires Distinct(s)
    ensures |set n | n in s| == |s|
  {
    if s != [] {
      var t := s[1..];
      DistinctCardinality(t);
      assert (set n | n in s) == (set n | n in t) + {s[0]};
      assert s[0] !in t;
    }
  }
}

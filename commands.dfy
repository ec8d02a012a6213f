/** The commands of the bank bot that write to the ledger.  Each one is an
    atomic step that appends at most one entry to the in-memory list; none
    edits or removes an earlier entry. */
module LedgerCommands {
  import opened Ledger
  import Replay

  class LedgerData {
    /** The ordered transfer list (`ledger_data.data`). */
    var entries: seq<Entry>

    /** The ledger as loaded at start-up. */
    constructor (loaded: seq<Entry>)
      ensures entries == loaded
    {
      entries := loaded;
    }

    /** `buyin`: the player pays `amount` into the pot.  There is no lower
        bound on `amount` and no check of the player's balance. */
    method Buyin(ident: string, amount: int, now: int)
      modifies this
      ensures entries == old(entries) + [Entry(ident, Pot, amount, now)]
      ensures ident != Pot ==> Balance(entries, ident) == Balance(old(entries), ident) - amount
      ensures ident != Pot ==> Balance(entries, Pot) == Balance(old(entries), Pot) + amount
      ensures ident != Reserve && old(WithinMintCap(entries)) ==> WithinMintCap(entries)
    {
      var e := Entry(ident, Pot, amount, now);
      BalanceAppend(entries, e, ident);
      BalanceAppend(entries, e, Pot);
      forall x { MintedToAppend(entries, e, x); }
      entries := entries + [e];
    }

    /** `updatebank`: the pot pays `amount` out to the player, unless that is
        more than the pot holds, in which case nothing is appended. */
    method UpdateBank(ident: string, amount: int, now: int) returns (accepted: bool)
      modifies this
      ensures accepted <==> amount <= Balance(old(entries), Pot)
      ensures accepted ==> entries == old(entries) + [Entry(Pot, ident, amount, now)]
      ensures !accepted ==> entries == old(entries)
      ensures accepted && ident != Pot ==> Balance(entries, Pot) >= 0
      ensures old(WithinMintCap(entries)) ==> WithinMintCap(entries)
    {
      var potBalance := Balance(entries, Pot);
      if amount > potBalance {
        accepted := false;
        return;
      }
      var e := Entry(Pot, ident, amount, now);
      BalanceAppend(entries, e, Pot);
      forall x { MintedToAppend(entries, e, x); }
      entries := entries + [e];
      accepted := true;
    }

    /** `mint`: the reserve creates `amount` for the player, unless that
        would take the player's lifetime minted total above the cap. */
    method Mint(ident: string, amount: int, now: int) returns (accepted: bool)
      modifies this
      ensures accepted <==> amount <= MintCap - MintedTo(old(entries), ident)
      ensures accepted ==> entries == old(entries) + [Entry(Reserve, ident, amount, now)]
      ensures !accepted ==> entries == old(entries)
      ensures accepted ==> MintedTo(entries, ident) <= MintCap
      ensures accepted ==> MintedTo(entries, ident) == MintedTo(old(entries), ident) + amount
      ensures old(WithinMintCap(entries)) ==> WithinMintCap(entries)
    {
      var totalMinted := Replay.TotalMinted(entries, ident);
      if amount > MintCap - totalMinted {
        accepted := false;
        return;
      }
      var e := Entry(Reserve, ident, amount, now);
      forall x { MintedToAppend(entries, e, x); }
      entries := entries + [e];
      accepted := true;
    }
  }

  /** A buy-in followed by a cash-out, as a caller sees them through the
      contracts alone: the pot keeps the difference and nothing is lost. */
  method BuyinThenCashOut()
  {
    var ledger := new LedgerData([]);
    ledger.Buyin("17", 200, 1);
    var ok := ledger.UpdateBank("42", 50, 2);
    assert ok;
    assert ledger.entries == [Entry("17", Pot, 200, 1), Entry(Pot, "42", 50, 2)];
    assert Balance(ledger.entries, Pot) == 150;
  }
}

/**
  A worked message for the coin assistant: a short question whose best
  scoring entry is not the one the override answers with.
 */
module CoinScenarios {
  import opened Text
  import opened Opt
  import opened ResponseTables
  import opened CoinChatbot
  import opened CoinScores

  /** Against the example message the first entry scores 2, as high as any,
      and so leads the scoring loop. */
  lemma ExampleBest(lower: string)
    requires lower == ShortWalletQuestion
    ensures IsBest(CoinTable, lower, 0)
    ensures KeyScore(CoinTable[0].0, lower) == 2
  {
    CoinKeys();
    EntryScore0(CoinTable[0].0, lower);
    forall j | 0 <= j < |CoinTable| && Scored(CoinTable, j)
      ensures KeyScore(CoinTable[j].0, lower) <= 2
    {
      if j == 0 { }
      if j == 1 { EntryScore1(CoinTable[1].0, lower); }
      else if j == 2 { EntryScore2(CoinTable[2].0, lower); }
      else if j == 3 { EntryScore3(CoinTable[3].0, lower); }
      else if j == 4 { EntryScore4(CoinTable[4].0, lower); }
      else if j == 5 { EntryScore5(CoinTable[5].0, lower); }
      else if j == 6 { EntryScore6(CoinTable[6].0, lower); }
      else if j == 7 { EntryScore7(CoinTable[7].0, lower); }
      else if j == 8 { EntryScore8(CoinTable[8].0, lower); }
      else if j == 9 { EntryScore9(CoinTable[9].0, lower); }
      else if j == 10 { EntryScore10(CoinTable[10].0, lower); }
      else if j == 11 { EntryScore11(CoinTable[11].0, lower); }
    }
  }

  /** The example message splits into five pieces. */
  lemma ExamplePieces(lower: string)
    requires lower == ShortWalletQuestion
    ensures |Split(lower, ' ')| == 5
  {
    var pieces := ["gì", "ví", "usdvnc", "", ""];
    assert Join(pieces[3..], " ") == " " by {
      assert pieces[3..][1..] == [""];
    }
    assert Join(pieces[2..], " ") == "usdvnc  " by {
      assert pieces[2..][1..] == pieces[3..];
    }
    assert Join(pieces[1..], " ") == "ví usdvnc  " by {
      assert pieces[1..][1..] == pieces[2..];
    }
    assert Join(pieces, " ") == lower;
    SplitJoin(pieces, ' ');
  }

  /** The scoring loop ends with the first entry in the lead. */
  lemma ExampleLead(lower: string)
    requires lower == ShortWalletQuestion
    ensures Best(CoinTable, lower) == Pick(Some(0), 2)
  {
    ExampleBest(lower);
    BestFound(CoinTable, lower, 0);
  }

  /** The example message asks about wallets and not about buying. */
  lemma ExampleAsks(lower: string)
    requires lower == ShortWalletQuestion
    ensures !AsksPurchase(lower) && AsksWallet(lower)
  {
    Hits(lower);
    MissingChar(lower, "mua", 'm');
  }

  /** The example message is short, and its best score is below half its
      pieces. */
  lemma ExampleOverrides(lower: string)
    requires lower == ShortWalletQuestion
    ensures Overrides(CoinTable, lower)
  {
    ExampleLead(lower);
    ExamplePieces(lower);
    assert Utf16Length(lower) == 14;
  }

  /** "gì ví usdvnc  " is short and its best score, 2, is below half its five
      pieces, so `getResponse` takes the wallet branch although the best
      scoring entry is "usdvnc là gì"; `GetResponse` answers that branch with
      the wallet entry's text. */
  lemma ShortWalletOverride(message: string)
    requires message == ShortWalletQuestion
    ensures IsBest(CoinTable, Lower(message), 0)
    ensures Decide(CoinTable, message) == WalletHelp
  {
    var lower := Lower(message);
    assert lower == ShortWalletQuestion;
    ExampleBest(lower);
    ExampleOverrides(lower);
    ExampleAsks(lower);
  }
}

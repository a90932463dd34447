/**
  The score of every key phrase of `coinBotResponses` against the example
  message of the coin assistant scenario. This module models nothing of its
  own: it is proof scaffolding for `CoinScenarios.ExampleBest`. Each key
  phrase has its own small lemmas, so that no single proof expands many
  literal strings at once; several of them differ only in the words they
  check.
 */
module CoinScores {
  import opened Text
  import opened ResponseTables
  import opened CoinChatbot

  /** The example message, already lower case: 14 UTF-16 code units and
      five `' '`-separated pieces, the last two empty. */
  const ShortWalletQuestion: string := "gì ví usdvnc  "

  /** The three key words the example message holds. */
  lemma Hits(lower: string)
    requires lower == "gì ví usdvnc  "
    ensures Contains(lower, "gì") && Contains(lower, "ví") && Contains(lower, "usdvnc")
  {
    HitFirst(lower);
    HitSecond(lower);
    HitThird(lower);
  }

  lemma HitFirst(lower: string)
    requires lower == "gì ví usdvnc  "
    ensures Contains(lower, "gì")
  {
    assert lower == "" + "gì" + " ví usdvnc  ";
    ContainsInfix("", "gì", " ví usdvnc  ");
  }

  lemma HitSecond(lower: string)
    requires lower == "gì ví usdvnc  "
    ensures Contains(lower, "ví")
  {
    assert lower == "gì " + "ví" + " usdvnc  ";
    ContainsInfix("gì ", "ví", " usdvnc  ");
  }

  lemma HitThird(lower: string)
    requires lower == "gì ví usdvnc  "
    ensures Contains(lower, "usdvnc")
  {
    assert lower == "gì ví " + "usdvnc" + "  ";
    ContainsInfix("gì ví ", "usdvnc", "  ");
  }

  lemma WordsScore0(lower: string)
    requires lower == "gì ví usdvnc  "
    ensures Score(["usdvnc", "là", "gì"], lower) == 2
  {
    Hits(lower);
    MissingChar(lower, "là", 'l');
    ScoreCount(["usdvnc", "là", "gì"], lower, [true, false, true]);
  }

  lemma EntryScore0(key: string, lower: string)
    requires key == "usdvnc là gì"
    requires lower == ShortWalletQuestion
    ensures KeyScore(key, lower) == 2
  {
    assert key == Join(["usdvnc", "là", "gì"], " ");
    SplitJoin(["usdvnc", "là", "gì"], ' ');
    WordsScore0(lower);
  }

  lemma WordsScore1(lower: string)
    requires lower == "gì ví usdvnc  "
    ensures Score(["usdvnc", "hoạt"], lower) == 1
  {
    Hits(lower);
    MissingChar(lower, "hoạt", 'h');
    ScoreCount(["usdvnc", "hoạt"], lower, [true, false]);
  }

  lemma WordsScore1Tail(lower: string)
    requires lower == "gì ví usdvnc  "
    ensures Score(["động", "thế", "nào"], lower) == 0
  {
    MissingChar(lower, "động", 'đ');
    MissingChar(lower, "thế", 't');
    MissingChar(lower, "nào", 'à');
    ScoreCount(["động", "thế", "nào"], lower, [false, false, false]);
  }

  lemma HowWords(key: string)
    requires key == "usdvnc hoạt động thế nào"
    ensures Split(key, ' ') == ["usdvnc", "hoạt", "động", "thế", "nào"]
  {
    assert key == Join(["usdvnc", "hoạt", "động", "thế", "nào"], " ");
    SplitJoin(["usdvnc", "hoạt", "động", "thế", "nào"], ' ');
  }

  lemma EntryScore1(key: string, lower: string)
    requires key == "usdvnc hoạt động thế nào"
    requires lower == ShortWalletQuestion
    ensures KeyScore(key, lower) == 1
  {
    var front, back := ["usdvnc", "hoạt"], ["động", "thế", "nào"];
    HowWords(key);
    assert Split(key, ' ') == front + back;
    WordsScore1(lower);
    WordsScore1Tail(lower);
    ScoreAppend(front, back, lower);
  }

  lemma WordsScore2(lower: string)
    requires lower == "gì ví usdvnc  "
    ensures Score(["ưu", "điểm", "của", "usdvnc"], lower) == 1
  {
    Hits(lower);
    MissingChar(lower, "ưu", 'ư');
    MissingChar(lower, "điểm", 'đ');
    MissingChar(lower, "của", 'ủ');
    ScoreCount(["ưu", "điểm", "của", "usdvnc"], lower, [false, false, false, true]);
  }

  lemma EntryScore2(key: string, lower: string)
    requires key == "ưu điểm của usdvnc"
    requires lower == ShortWalletQuestion
    ensures KeyScore(key, lower) == 1
  {
    assert key == Join(["ưu", "điểm", "của", "usdvnc"], " ");
    SplitJoin(["ưu", "điểm", "của", "usdvnc"], ' ');
    WordsScore2(lower);
  }

  lemma WordsScore3(lower: string)
    requires lower == "gì ví usdvnc  "
    ensures Score(["blockchain", "là", "gì"], lower) == 1
  {
    Hits(lower);
    MissingChar(lower, "blockchain", 'b');
    MissingChar(lower, "là", 'l');
    ScoreCount(["blockchain", "là", "gì"], lower, [false, false, true]);
  }

  lemma EntryScore3(key: string, lower: string)
    requires key == "blockchain là gì"
    requires lower == ShortWalletQuestion
    ensures KeyScore(key, lower) == 1
  {
    assert key == Join(["blockchain", "là", "gì"], " ");
    SplitJoin(["blockchain", "là", "gì"], ' ');
    WordsScore3(lower);
  }

  lemma WordsScore4(lower: string)
    requires lower == "gì ví usdvnc  "
    ensures Score(["smart", "contract", "là", "gì"], lower) == 1
  {
    Hits(lower);
    MissingChar(lower, "smart", 'm');
    MissingChar(lower, "contract", 'o');
    MissingChar(lower, "là", 'l');
    ScoreCount(["smart", "contract", "là", "gì"], lower, [false, false, false, true]);
  }

  lemma EntryScore4(key: string, lower: string)
    requires key == "smart contract là gì"
    requires lower == ShortWalletQuestion
    ensures KeyScore(key, lower) == 1
  {
    assert key == Join(["smart", "contract", "là", "gì"], " ");
    SplitJoin(["smart", "contract", "là", "gì"], ' ');
    WordsScore4(lower);
  }

  lemma WordsScore5(lower: string)
    requires lower == "gì ví usdvnc  "
    ensures Score(["defi", "là", "gì"], lower) == 1
  {
    Hits(lower);
    MissingChar(lower, "defi", 'e');
    MissingChar(lower, "là", 'l');
    ScoreCount(["defi", "là", "gì"], lower, [false, false, true]);
  }

  lemma EntryScore5(key: string, lower: string)
    requires key == "defi là gì"
    requires lower == ShortWalletQuestion
    ensures KeyScore(key, lower) == 1
  {
    assert key == Join(["defi", "là", "gì"], " ");
    SplitJoin(["defi", "là", "gì"], ' ');
    WordsScore5(lower);
  }

  lemma WordsScore6(lower: string)
    requires lower == "gì ví usdvnc  "
    ensures Score(["nft", "là", "gì"], lower) == 1
  {
    Hits(lower);
    MissingChar(lower, "nft", 'f');
    MissingChar(lower, "là", 'l');
    ScoreCount(["nft", "là", "gì"], lower, [false, false, true]);
  }

  lemma EntryScore6(key: string, lower: string)
    requires key == "nft là gì"
    requires lower == ShortWalletQuestion
    ensures KeyScore(key, lower) == 1
  {
    assert key == Join(["nft", "là", "gì"], " ");
    SplitJoin(["nft", "là", "gì"], ' ');
    WordsScore6(lower);
  }

  lemma WordsScore7(lower: string)
    requires lower == "gì ví usdvnc  "
    ensures Score(["stablecoin", "là", "gì"], lower) == 1
  {
    Hits(lower);
    MissingChar(lower, "stablecoin", 't');
    MissingChar(lower, "là", 'l');
    ScoreCount(["stablecoin", "là", "gì"], lower, [false, false, true]);
  }

  lemma EntryScore7(key: string, lower: string)
    requires key == "stablecoin là gì"
    requires lower == ShortWalletQuestion
    ensures KeyScore(key, lower) == 1
  {
    assert key == Join(["stablecoin", "là", "gì"], " ");
    SplitJoin(["stablecoin", "là", "gì"], ' ');
    WordsScore7(lower);
  }

  lemma WordsScore8(lower: string)
    requires lower == "gì ví usdvnc  "
    ensures Score(["làm", "thế", "nào"], lower) == 0
  {
    MissingChar(lower, "làm", 'l');
    MissingChar(lower, "thế", 't');
    MissingChar(lower, "nào", 'à');
    ScoreCount(["làm", "thế", "nào"], lower, [false, false, false]);
  }

  lemma WordsScore8Tail(lower: string)
    requires lower == "gì ví usdvnc  "
    ensures Score(["để", "mua", "usdvnc"], lower) == 1
  {
    Hits(lower);
    MissingChar(lower, "để", 'đ');
    MissingChar(lower, "mua", 'm');
    ScoreCount(["để", "mua", "usdvnc"], lower, [false, false, true]);
  }

  lemma PurchaseWords(key: string)
    requires key == "làm thế nào để mua usdvnc"
    ensures Split(key, ' ') == ["làm", "thế", "nào", "để", "mua", "usdvnc"]
  {
    assert key == Join(["làm", "thế", "nào", "để", "mua", "usdvnc"], " ");
    SplitJoin(["làm", "thế", "nào", "để", "mua", "usdvnc"], ' ');
  }

  lemma EntryScore8(key: string, lower: string)
    requires key == "làm thế nào để mua usdvnc"
    requires lower == ShortWalletQuestion
    ensures KeyScore(key, lower) == 1
  {
    var front, back := ["làm", "thế", "nào"], ["để", "mua", "usdvnc"];
    PurchaseWords(key);
    assert Split(key, ' ') == front + back;
    WordsScore8(lower);
    WordsScore8Tail(lower);
    ScoreAppend(front, back, lower);
  }

  lemma WordsScore9(lower: string)
    requires lower == "gì ví usdvnc  "
    ensures Score(["usdvnc", "có", "an", "toàn", "không"], lower) == 1
  {
    Hits(lower);
    MissingChar(lower, "có", 'ó');
    MissingChar(lower, "an", 'a');
    MissingChar(lower, "toàn", 't');
    MissingChar(lower, "không", 'k');
    ScoreCount(["usdvnc", "có", "an", "toàn", "không"], lower, [true, false, false, false, false]);
  }

  lemma EntryScore9(key: string, lower: string)
    requires key == "usdvnc có an toàn không"
    requires lower == ShortWalletQuestion
    ensures KeyScore(key, lower) == 1
  {
    assert key == Join(["usdvnc", "có", "an", "toàn", "không"], " ");
    SplitJoin(["usdvnc", "có", "an", "toàn", "không"], ' ');
    WordsScore9(lower);
  }

  lemma WordsScore10(lower: string)
    requires lower == "gì ví usdvnc  "
    ensures Score(["ví", "nào", "hỗ", "trợ", "usdvnc"], lower) == 2
  {
    Hits(lower);
    MissingChar(lower, "nào", 'à');
    MissingChar(lower, "hỗ", 'h');
    MissingChar(lower, "trợ", 't');
    ScoreCount(["ví", "nào", "hỗ", "trợ", "usdvnc"], lower, [true, false, false, false, true]);
  }

  lemma EntryScore10(key: string, lower: string)
    requires key == "ví nào hỗ trợ usdvnc"
    requires lower == ShortWalletQuestion
    ensures KeyScore(key, lower) == 2
  {
    assert key == Join(["ví", "nào", "hỗ", "trợ", "usdvnc"], " ");
    SplitJoin(["ví", "nào", "hỗ", "trợ", "usdvnc"], ' ');
    WordsScore10(lower);
  }

  lemma WordsScore11(lower: string)
    requires lower == "gì ví usdvnc  "
    ensures Score(["câu", "hỏi", "khác"], lower) == 0
  {
    Hits(lower);
    MissingChar(lower, "câu", 'â');
    MissingChar(lower, "hỏi", 'h');
    MissingChar(lower, "khác", 'k');
    ScoreCount(["câu", "hỏi", "khác"], lower, [false, false, false]);
  }

  lemma EntryScore11(key: string, lower: string)
    requires key == "câu hỏi khác"
    requires lower == ShortWalletQuestion
    ensures KeyScore(key, lower) == 0
  {
    assert key == Join(["câu", "hỏi", "khác"], " ");
    SplitJoin(["câu", "hỏi", "khác"], ' ');
    WordsScore11(lower);
  }
  /** The key phrases of `coinBotResponses`. */
  lemma CoinKeys()
    ensures CoinTable[0].0 == "usdvnc là gì"
    ensures CoinTable[1].0 == "usdvnc hoạt động thế nào"
    ensures CoinTable[2].0 == "ưu điểm của usdvnc"
    ensures CoinTable[3].0 == "blockchain là gì"
    ensures CoinTable[4].0 == "smart contract là gì"
    ensures CoinTable[5].0 == "defi là gì"
    ensures CoinTable[6].0 == "nft là gì"
    ensures CoinTable[7].0 == "stablecoin là gì"
    ensures CoinTable[8].0 == "làm thế nào để mua usdvnc"
    ensures CoinTable[9].0 == "usdvnc có an toàn không"
    ensures CoinTable[10].0 == "ví nào hỗ trợ usdvnc"
    ensures CoinTable[11].0 == "câu hỏi khác"
    ensures CoinTable[12].0 == DefaultKey
  {
  }
}

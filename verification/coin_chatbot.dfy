/**
  The coin assistant widget: its response table and its word-overlap
  scoring, with the override for short questions.
 */
module CoinChatbot {
  import opened Text
  import opened Opt
  import opened ResponseTables

  /** `coinBotResponses`, in declaration order. */
  const CoinTable: Table := [
    ("usdvnc là gì",
     "USDVN là một stablecoin được thiết kế để sử dụng như một phương tiện thanh toán chung tại Việt Nam, với giá trị được neo cố định theo tỷ giá 1 USDVN = 1.000 VND."),
    ("usdvnc hoạt động thế nào",
     "USDVN hoạt động trên nền tảng blockchain (tương thích ERC-20 và BEP-20), đảm bảo tính minh bạch, bảo mật và khả năng chuyển giao nhanh chóng. Mỗi USDVN được phát hành sẽ được đảm bảo bằng tài sản tương ứng."),
    ("ưu điểm của usdvnc",
     "Tính ổn định cao (1 USDVN = 1.000 VND), chi phí giao dịch thấp, tốc độ nhanh, minh bạch và dễ dàng sử dụng cho thanh toán, chuyển khoản, lưu trữ giá trị."),
    ("blockchain là gì",
     "Blockchain (chuỗi khối) là một sổ cái kỹ thuật số phi tập trung, ghi lại các giao dịch một cách an toàn, minh bạch và không thể thay đổi. Dữ liệu được nhóm thành các khối và liên kết với nhau bằng mã hóa."),
    ("smart contract là gì",
     "Hợp đồng thông minh (Smart Contract) là các chương trình máy tính tự động thực thi các điều khoản của một hợp đồng khi các điều kiện được xác định trước được đáp ứng. Chúng chạy trên blockchain, giúp loại bỏ nhu cầu về trung gian."),
    ("defi là gì",
     "DeFi (Decentralized Finance - Tài chính Phi tập trung) là một hệ sinh thái các ứng dụng tài chính được xây dựng trên công nghệ blockchain, nhằm mục đích tạo ra một hệ thống tài chính mở, minh bạch và không cần trung gian."),
    ("nft là gì",
     "NFT (Non-Fungible Token - Token Không thể Thay thế) là một loại tài sản kỹ thuật số duy nhất trên blockchain, đại diện cho quyền sở hữu một mục cụ thể như tác phẩm nghệ thuật, vật phẩm trong game, hoặc bất động sản ảo."),
    ("stablecoin là gì",
     "Stablecoin là một loại tiền mã hóa được thiết kế để duy trì một giá trị ổn định, thường được neo vào một tài sản ổn định khác như tiền tệ fiat (ví dụ: USD, VND) hoặc hàng hóa (ví dụ: vàng)."),
    ("làm thế nào để mua usdvnc",
     "Hiện tại, bạn có thể tìm hiểu thông tin về USDVN trên trang này. Các kênh mua bán và giao dịch chính thức sẽ được công bố sớm. Hãy theo dõi để cập nhật!"),
    ("usdvnc có an toàn không",
     "USDVN được thiết kế với các biện pháp bảo mật cao và cơ chế đảm bảo bằng tài sản thực. Tuy nhiên, như mọi tài sản kỹ thuật số, người dùng cần tự bảo vệ ví và thông tin cá nhân của mình."),
    ("ví nào hỗ trợ usdvnc",
     "USDVN tương thích với các ví hỗ trợ chuẩn ERC-20 và BEP-20 như MetaMask, Trust Wallet, và nhiều ví phổ biến khác. Chúng tôi cũng sẽ sớm ra mắt ví riêng cho USDVN."),
    ("câu hỏi khác",
     "Tôi có thể cung cấp thêm thông tin về các chủ đề như: Lịch sử Blockchain, Các loại Blockchain (Public, Private, Consortium), Cơ chế đồng thuận (PoW, PoS), Ứng dụng của Blockchain ngoài tài chính,... Bạn muốn tìm hiểu cụ thể về điều gì?"),
    ("default",
     "Tôi đang học hỏi thêm mỗi ngày! Bạn có thể hỏi cụ thể hơn về USDVN Coin, các khái niệm blockchain cơ bản (ví dụ: Smart Contract, DeFi, NFT), hoặc cách sử dụng USDVN. Tôi sẽ cố gắng hết sức để trả lời.")
  ]

  /** The entry the short-question override answers for buying. */
  const PurchaseKey: string := "làm thế nào để mua usdvnc"

  /** The entry the short-question override answers for wallets. */
  const WalletKey: string := "ví nào hỗ trợ usdvnc"

  /** Messages shorter than this many UTF-16 code units are short. */
  const ShortLength: nat := 15

  /** What `getResponse` needs of its table: an object literal (unique keys)
      with the fallback and both override entries. */
  predicate WellFormed(table: Table) {
    && UniqueKeys(table)
    && HasKey(table, DefaultKey)
    && HasKey(table, PurchaseKey)
    && HasKey(table, WalletKey)
  }

  /** How many of `words`, counted with repetition, occur in `lower`. */
  function Score(words: seq<string>, lower: string): (n: nat)
    ensures n <= |words|
    ensures n == 0 <==> forall i :: 0 <= i < |words| ==> !Contains(lower, words[i])
    ensures n == |words| <==> forall i :: 0 <= i < |words| ==> Contains(lower, words[i])
    decreases |words|
  {
    if |words| == 0 then 0
    else (if Contains(lower, words[0]) then 1 else 0) + Score(words[1..], lower)
  }

  /** How many of `hits` are true. */
  function CountTrue(hits: seq<bool>): (n: nat)
    ensures n <= |hits|
  {
    if |hits| == 0 then 0 else (if hits[0] then 1 else 0) + CountTrue(hits[1..])
  }

  /** The score of `words` is the number of them marked as hits, when the
      marks say exactly which words occur. */
  lemma {:induction false} ScoreCount(words: seq<string>, lower: string, hits: seq<bool>)
    requires |hits| == |words|
    requires forall i :: 0 <= i < |words| ==> (hits[i] <==> Contains(lower, words[i]))
    ensures Score(words, lower) == CountTrue(hits)
    decreases |words|
  {
    if |words| > 0 {
      ScoreCount(words[1..], lower, hits[1..]);
    }
  }

  /** Scores add up over a concatenation of word lists. */
  lemma {:induction false} ScoreAppend(a: seq<string>, b: seq<string>, lower: string)
    ensures Score(a + b, lower) == Score(a, lower) + Score(b, lower)
    decreases |a|
  {
    if |a| > 0 {
      ScoreAppend(a[1..], b, lower);
      assert (a + b)[0] == a[0];
      assert (a + b)[1..] == a[1..] + b;
    } else {
      assert a + b == b;
    }
  }

  /** The score of a key phrase: its words are `key.split(' ')`. */
  function KeyScore(key: string, lower: string): nat {
    Score(Split(key, ' '), lower)
  }

  /** Entry `j` takes part in scoring. */
  predicate Scored(table: Table, j: int)
    requires 0 <= j < |table|
  {
    table[j].0 != DefaultKey
  }

  /** Entry `k` has the highest score of the scored entries, a positive one,
      and every scored entry before it has a lower score. */
  predicate IsBest(table: Table, lower: string, k: int) {
    && 0 <= k < |table|
    && Scored(table, k)
    && KeyScore(table[k].0, lower) > 0
    && (forall j :: 0 <= j < |table| && Scored(table, j) ==>
          KeyScore(table[j].0, lower) <= KeyScore(table[k].0, lower))
    && (forall j :: 0 <= j < k && Scored(table, j) ==>
          KeyScore(table[j].0, lower) < KeyScore(table[k].0, lower))
  }

  /** At most one entry is the best. */
  lemma BestUnique(table: Table, lower: string, k1: int, k2: int)
    requires IsBest(table, lower, k1) && IsBest(table, lower, k2)
    ensures k1 == k2
  {
  }

  /** The loop state of `getResponse`: the entry holding the lead, if any
      (`None` stands for the initial `'default'`), and its score. */
  datatype Pick = Pick(best: Option<nat>, score: nat)

  /** `p` is the loop state once the first `i` entries have been scored. */
  predicate Leads(table: Table, lower: string, i: nat, p: Pick)
    requires i <= |table|
  {
    && (p.best.None? <==> p.score == 0)
    && (forall j :: 0 <= j < i && Scored(table, j) ==> KeyScore(table[j].0, lower) <= p.score)
    && (p.best.Some? ==>
          && p.best.value < i
          && Scored(table, p.best.value)
          && KeyScore(table[p.best.value].0, lower) == p.score
          && forall j :: 0 <= j < p.best.value && Scored(table, j) ==>
               KeyScore(table[j].0, lower) < p.score)
  }

  /** The scoring loop from entry `i` on: skips `'default'`, and moves the
      lead only to a strictly higher score. */
  function Scan(table: Table, lower: string, i: nat, p: Pick): (r: Pick)
    requires i <= |table| && Leads(table, lower, i, p)
    ensures Leads(table, lower, |table|, r)
    decreases |table| - i
  {
    if i == |table| then p
    else if !Scored(table, i) then
      LeadsSkip(table, lower, i, p);
      Scan(table, lower, i + 1, p)
    else
      var s := KeyScore(table[i].0, lower);
      if s > p.score then
        LeadsTake(table, lower, i, p);
        Scan(table, lower, i + 1, Pick(Some(i), s))
      else
        LeadsKeep(table, lower, i, p);
        Scan(table, lower, i + 1, p)
  }

  /** The `'default'` entry is skipped without changing the lead. */
  lemma LeadsSkip(table: Table, lower: string, i: nat, p: Pick)
    requires i < |table| && Leads(table, lower, i, p) && !Scored(table, i)
    ensures Leads(table, lower, i + 1, p)
  {
  }

  /** A score no higher than the lead's leaves the lead where it is. */
  lemma LeadsKeep(table: Table, lower: string, i: nat, p: Pick)
    requires i < |table| && Leads(table, lower, i, p) && Scored(table, i)
    requires KeyScore(table[i].0, lower) <= p.score
    ensures Leads(table, lower, i + 1, p)
  {
  }

  /** A strictly higher score takes the lead. */
  lemma LeadsTake(table: Table, lower: string, i: nat, p: Pick)
    requires i < |table| && Leads(table, lower, i, p) && Scored(table, i)
    requires KeyScore(table[i].0, lower) > p.score
    ensures Leads(table, lower, i + 1, Pick(Some(i), KeyScore(table[i].0, lower)))
  {
  }

  /** The outcome of the scoring loop over the whole table. */
  function Best(table: Table, lower: string): (p: Pick)
    ensures p.best.None? <==> forall j :: 0 <= j < |table| && Scored(table, j) ==> KeyScore(table[j].0, lower) == 0
    ensures p.best.Some? ==> IsBest(table, lower, p.best.value) && p.score == KeyScore(table[p.best.value].0, lower)
  {
    Scan(table, lower, 0, Pick(None, 0))
  }

  /** The scoring loop ends with the best entry, whenever there is one. */
  lemma BestFound(table: Table, lower: string, k: int)
    requires IsBest(table, lower, k)
    ensures Best(table, lower) == Pick(Some(k), KeyScore(table[k].0, lower))
  {
    var p := Best(table, lower);
    assert p.best.Some?;
    BestUnique(table, lower, k, p.best.value);
  }

  /** Which branch of `getResponse` answers. */
  datatype Choice = Matched(index: nat) | Purchase | WalletHelp | Fallback

  /** The override guard: a short message whose best score is below half its
      number of `' '`-separated pieces, with some entry selected. The source
      compares against the real quotient `pieces / 2`; doubling the score
      states the same comparison over integers. */
  predicate Overrides(table: Table, lower: string) {
    var p := Best(table, lower);
    Utf16Length(lower) < ShortLength && 2 * p.score < |Split(lower, ' ')| && p.best.Some?
  }

  predicate AsksPurchase(lower: string) {
    Contains(lower, "mua") && Contains(lower, "usdvnc")
  }

  predicate AsksWallet(lower: string) {
    Contains(lower, "ví") && Contains(lower, "usdvnc")
  }

  /** The branch `getResponse` takes for `message`. */
  function Decide(table: Table, message: string): (c: Choice)
    ensures c.Fallback? <==>
      forall j :: 0 <= j < |table| && Scored(table, j) ==> KeyScore(table[j].0, Lower(message)) == 0
    ensures c.Matched? ==> IsBest(table, Lower(message), c.index)
    ensures c.Purchase? <==> Overrides(table, Lower(message)) && AsksPurchase(Lower(message))
    ensures c.WalletHelp? <==>
      Overrides(table, Lower(message)) && !AsksPurchase(Lower(message)) && AsksWallet(Lower(message))
    ensures c.Purchase? || c.WalletHelp? ==> Utf16Length(Lower(message)) < ShortLength
  {
    var lower := Lower(message);
    var p := Best(table, lower);
    if Overrides(table, lower) && AsksPurchase(lower) then Purchase
    else if Overrides(table, lower) && AsksWallet(lower) then WalletHelp
    else if p.score > 0 then Matched(p.best.value)
    else Fallback
  }

  /** `getResponse(message)`. */
  function GetResponse(table: Table, message: string): (r: string)
    requires WellFormed(table)
    ensures IsResponse(table, r)
    ensures (forall j :: 0 <= j < |table| && Scored(table, j) ==> KeyScore(table[j].0, Lower(message)) == 0)
      ==> r == Lookup(table, DefaultKey)
    ensures forall k ::
      (IsBest(table, Lower(message), k) && !Decide(table, message).Purchase? && !Decide(table, message).WalletHelp?)
        ==> r == table[k].1
    ensures forall k :: 0 <= k < |table| && table[k].0 == PurchaseKey && Decide(table, message).Purchase? ==> r == table[k].1
    ensures forall k :: 0 <= k < |table| && table[k].0 == WalletKey && Decide(table, message).WalletHelp? ==> r == table[k].1
  {
    var c := Decide(table, message);
    assert forall k :: IsBest(table, Lower(message), k) && c.Matched? ==> c.index == k by {
      forall k | IsBest(table, Lower(message), k) && c.Matched? ensures c.index == k {
        BestUnique(table, Lower(message), k, c.index);
      }
    }
    match c
    case Matched(k) => table[k].1
    case Purchase => Lookup(table, PurchaseKey)
    case WalletHelp => Lookup(table, WalletKey)
    case Fallback => Lookup(table, DefaultKey)
  }

  /** Lower-casing keeps the UTF-16 length. */
  lemma {:induction false} LowerKeepsUtf16Length(s: string)
    ensures Utf16Length(Lower(s)) == Utf16Length(s)
    decreases |s|
  {
    if |s| > 0 {
      LowerKeepsUtf16Length(s[1..]);
      assert Lower(s)[1..] == Lower(s[1..]);
    }
  }

  /** A message of 15 or more UTF-16 code units is answered by scoring alone:
      the best entry, or the fallback when nothing scores. */
  lemma LongMessageScoresOnly(table: Table, message: string)
    requires WellFormed(table)
    requires Utf16Length(message) >= ShortLength
    ensures !Overrides(table, Lower(message))
    ensures forall k :: IsBest(table, Lower(message), k) ==> GetResponse(table, message) == table[k].1
    ensures (forall k :: !IsBest(table, Lower(message), k)) ==> GetResponse(table, message) == Lookup(table, DefaultKey)
  {
    LowerKeepsUtf16Length(message);
    var p := Best(table, Lower(message));
    assert p.best.Some? ==> IsBest(table, Lower(message), p.best.value);
  }

  lemma CoinTableWellFormed()
    ensures WellFormed(CoinTable)
  {
    assert CoinTable[12].0 == DefaultKey;
    assert CoinTable[8].0 == PurchaseKey;
    assert CoinTable[10].0 == WalletKey;
  }

  /** The widget's own `getResponse`, over `coinBotResponses`. */
  function Respond(message: string): (r: string)
    ensures IsResponse(CoinTable, r)
  {
    CoinTableWellFormed();
    GetResponse(CoinTable, message)
  }
}

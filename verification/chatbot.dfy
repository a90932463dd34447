/**
  The portfolio assistant widget: its response table and its first-match
  keyword lookup.
 */
module Chatbot {
  import opened Text
  import opened Opt
  import opened ResponseTables

  /** `botResponses`, in declaration order. */
  const PortfolioTable: Table := [
    ("kinh nghiệm",
     "Yuhz có hơn 3 năm kinh nghiệm trong phát triển web, chuyên về React, Node.js và các công nghệ hiện đại. Anh đã làm việc với nhiều dự án từ startup đến doanh nghiệp lớn."),
    ("dự án",
     "Yuhz đã hoàn thành hơn 50 dự án bao gồm e-commerce, ứng dụng mobile, dashboard AI và nhiều website portfolio. Bạn có thể xem chi tiết trong phần Portfolio."),
    ("kỹ năng",
     "Yuhz thành thạo Frontend (React, Vue.js, TypeScript), Backend (Node.js), Database (PostgreSQL, MongoDB) và có kinh nghiệm về UI/UX Design."),
    ("liên hệ",
     "Bạn có thể liên hệ với Yuhz qua email: dduchuy0711@gmail.com hoặc điện thoại: +84 944 533 041. Anh luôn sẵn sàng thảo luận về dự án mới!"),
    ("học vấn",
     "Yuhz tốt nghiệp Khoa Công nghệ Thông tin và liên tục cập nhật kiến thức qua các khóa học online và chứng chỉ chuyên ngành."),
    ("default",
     "Tôi hiểu bạn muốn biết thêm về Yuhz. Bạn có thể hỏi về kinh nghiệm, dự án, kỹ năng, thông tin liên hệ hoặc học vấn của anh ấy. Tôi sẽ cố gắng trả lời tốt nhất!")
  ]

  /** Key `table[j].0` triggers on the lower-cased message. */
  predicate Triggers(table: Table, j: int, lower: string)
    requires 0 <= j < |table|
  {
    table[j].0 != DefaultKey && Contains(lower, table[j].0)
  }

  /** Entry `k` triggers and no earlier entry does. */
  predicate FirstTrigger(table: Table, k: int, lower: string)
    requires 0 <= k < |table|
  {
    Triggers(table, k, lower) && forall j :: 0 <= j < k ==> !Triggers(table, j, lower)
  }

  /** The loop of `getResponse` from entry `i` on: the first entry whose key
      is not `'default'` and occurs in the message. */
  function FirstMatch(table: Table, lower: string, i: nat): (r: Option<nat>)
    requires i <= |table|
    ensures r.Some? ==>
      && i <= r.value < |table|
      && Triggers(table, r.value, lower)
      && forall j :: i <= j < r.value ==> !Triggers(table, j, lower)
    ensures r.None? <==> forall j :: i <= j < |table| ==> !Triggers(table, j, lower)
    decreases |table| - i
  {
    if i == |table| then None
    else if Triggers(table, i, lower) then Some(i)
    else FirstMatch(table, lower, i + 1)
  }

  /** `getResponse(message)` over a table with a `'default'` entry. */
  function GetResponse(table: Table, message: string): (r: string)
    requires HasKey(table, DefaultKey)
    ensures IsResponse(table, r)
    ensures UniqueKeys(table) ==>
      (forall j :: 0 <= j < |table| ==> !Triggers(table, j, Lower(message)))
      ==> r == Lookup(table, DefaultKey)
    ensures forall k :: 0 <= k < |table| && FirstTrigger(table, k, Lower(message)) ==> r == table[k].1
  {
    match FirstMatch(table, Lower(message), 0)
    case Some(k) => table[k].1
    case None => Lookup(table, DefaultKey)
  }

  /** The `'default'` entry is never the one matched, even when the message
      contains the word "default": a message that triggers no other key gets
      the fallback text. */
  lemma DefaultNeverMatched(table: Table, message: string, j: nat)
    requires j < |table| && table[j].0 == DefaultKey
    ensures !Triggers(table, j, Lower(message))
  {
  }

  /** The answer depends on the message only through its lower-cased form. */
  lemma CaseInsensitive(table: Table, m1: string, m2: string)
    requires HasKey(table, DefaultKey)
    requires Lower(m1) == Lower(m2)
    ensures GetResponse(table, m1) == GetResponse(table, m2)
  {
  }

  lemma PortfolioTableWellFormed()
    ensures HasKey(PortfolioTable, DefaultKey)
    ensures UniqueKeys(PortfolioTable)
  {
    assert PortfolioTable[5].0 == DefaultKey;
  }

  /** The widget's own `getResponse`, over `botResponses`. */
  function Respond(message: string): (r: string)
    ensures IsResponse(PortfolioTable, r)
  {
    PortfolioTableWellFormed();
    GetResponse(PortfolioTable, message)
  }

  /** The widget answers with the first entry that triggers. */
  lemma RespondFirstTrigger(message: string, k: nat)
    requires k < |PortfolioTable| && FirstTrigger(PortfolioTable, k, Lower(message))
    ensures Respond(message) == PortfolioTable[k].1
  {
  }

  /** The widget falls back when no entry triggers. */
  lemma RespondNoTrigger(message: string)
    requires forall j :: 0 <= j < |PortfolioTable| ==> !Triggers(PortfolioTable, j, Lower(message))
    ensures Respond(message) == PortfolioTable[5].1
  {
    PortfolioTableWellFormed();
  }

  /** A message naming one topic gets that topic's answer. */
  lemma ExperienceQuestion(message: string)
    requires message == "Cho tôi biết về kinh nghiệm của anh"
    ensures Respond(message) == PortfolioTable[0].1
  {
    ExperienceLower(message);
    ExperienceHit(Lower(message));
    assert PortfolioTable[0].0 == "kinh nghiệm";
    RespondFirstTrigger(message, 0);
  }

  lemma ExperienceLower(message: string)
    requires message == "Cho tôi biết về kinh nghiệm của anh"
    ensures Lower(message) == "cho tôi biết về kinh nghiệm của anh"
  {
  }

  lemma ExperienceHit(lower: string)
    requires lower == "cho tôi biết về kinh nghiệm của anh"
    ensures Contains(lower, "kinh nghiệm")
  {
    assert lower == "cho tôi biết về " + "kinh nghiệm" + " của anh";
    ContainsInfix("cho tôi biết về ", "kinh nghiệm", " của anh");
  }

  /** A greeting names no topic and gets the fallback text. */
  lemma GreetingFallsBack(message: string)
    requires message == "xin chào"
    ensures Respond(message) == PortfolioTable[5].1
  {
    GreetingTriggersNothing(message);
    RespondNoTrigger(message);
  }

  lemma GreetingTriggersNothing(message: string)
    requires message == "xin chào"
    ensures forall j :: 0 <= j < |PortfolioTable| ==> !Triggers(PortfolioTable, j, Lower(message))
  {
    assert Lower(message) == "xin chào";
    GreetingMisses(Lower(message));
    PortfolioKeys();
  }

  /** The greeting holds none of the keys. */
  lemma GreetingMisses(lower: string)
    requires lower == "xin chào"
    ensures !Contains(lower, "kinh nghiệm") && !Contains(lower, "dự án") && !Contains(lower, "kỹ năng")
    ensures !Contains(lower, "liên hệ") && !Contains(lower, "học vấn")
  {
    MissingChar(lower, "kinh nghiệm", 'k');
    MissingChar(lower, "dự án", 'd');
    MissingChar(lower, "kỹ năng", 'k');
    MissingChar(lower, "liên hệ", 'l');
    MissingChar(lower, "học vấn", 'v');
  }

  /** The keys of `botResponses`, in order. */
  lemma PortfolioKeys()
    ensures |PortfolioTable| == 6
    ensures PortfolioTable[0].0 == "kinh nghiệm" && PortfolioTable[1].0 == "dự án"
    ensures PortfolioTable[2].0 == "kỹ năng" && PortfolioTable[3].0 == "liên hệ"
    ensures PortfolioTable[4].0 == "học vấn" && PortfolioTable[5].0 == DefaultKey
  {
  }

  /** An entry whose key holds a character the message lacks does not trigger. */
  lemma NotTriggered(lower: string, j: nat, c: char)
    requires j < |PortfolioTable| && c in PortfolioTable[j].0 && c !in lower
    ensures !Triggers(PortfolioTable, j, lower)
  {
    MissingChar(lower, PortfolioTable[j].0, c);
  }

  /** Of two topics in one message, the one declared first answers. */
  lemma ProjectsBeforeSkills(message: string)
    requires message == "dự án và kỹ năng"
    ensures Respond(message) == PortfolioTable[1].1
  {
    var lower := Lower(message);
    assert lower == "" + "dự án" + " và kỹ năng";
    NotTriggered(lower, 0, 'i');
    ContainsInfix("", "dự án", " và kỹ năng");
    RespondFirstTrigger(message, 1);
  }
}

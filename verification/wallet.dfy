/**
  The demo wallet: two balances, a transaction history newest first, and an
  optional connected external wallet. Sending and swapping are guarded
  transitions: each either rejects with an error, leaving wallet and form as
  they were, or debits (and for a swap credits) the balances, prepends one
  transaction and resets its form.
 */
module Wallet {
  import opened Opt

  datatype Currency = VND | USDVN

  datatype Balances = Balances(vnd: real, usdvn: real)

  /** `balances[c]`. */
  function BalanceOf(b: Balances, c: Currency): real {
    match c
    case VND => b.vnd
    case USDVN => b.usdvn
  }

  /** `{ ...balances, [c]: v }`. */
  function WithBalance(b: Balances, c: Currency, v: real): (r: Balances)
    ensures BalanceOf(r, c) == v
    ensures forall d :: d != c ==> BalanceOf(r, d) == BalanceOf(b, d)
  {
    match c
    case VND => b.(vnd := v)
    case USDVN => b.(usdvn := v)
  }

  /** Replacing one balance changes the worth by the change in that
      balance, valued at the peg. */
  lemma WorthWithBalance(b: Balances, c: Currency, v: real)
    ensures Worth(WithBalance(b, c, v)) == Worth(b) + InVnd(v - BalanceOf(b, c), c)
  {
  }

  predicate NonNegative(b: Balances) {
    b.vnd >= 0.0 && b.usdvn >= 0.0
  }

  /** VND per USDVN, the fixed peg. */
  const Rate: real := 1000.0

  /** The value of the balances in VND at the peg. */
  function Worth(b: Balances): real {
    b.vnd + Rate * b.usdvn
  }

  /** The value of `amount` of `c` in VND at the peg. */
  function InVnd(amount: real, c: Currency): real {
    match c
    case VND => amount
    case USDVN => Rate * amount
  }

  /** A history entry. `id` is the clock reading (`Date.now()`) when it was
      made and `date` the ISO calendar date. */
  datatype Tx =
    | Receive(id: int, amount: real, currency: Currency, description: string, date: string)
    | Sent(id: int, amount: real, currency: Currency, description: string, date: string)
    | Swapped(id: int, amountFrom: real, currencyFrom: Currency, amountTo: real,
              currencyTo: Currency, description: string, date: string)

  datatype WalletData = WalletData(balances: Balances, transactions: seq<Tx>, connected: Option<string>)

  /** The state the widget starts from without saved data. */
  const InitialWallet: WalletData := WalletData(
    Balances(2500000.0, 500.0),
    [ Receive(1, 500000.0, VND, "Thanh toán dự án website", "2025-05-15"),
      Sent(2, 200000.0, VND, "Mua hosting", "2025-05-14"),
      Receive(3, 120.5, USDVN, "Nhận USDVN từ Airdrop", "2025-05-13"),
      Sent(4, 15.75, USDVN, "Phí giao dịch NFT", "2025-05-12"),
      Swapped(5, 100000.0, VND, 100.0, USDVN, "Swap VND sang USDVN", "2025-05-11") ],
    None)

  lemma InitialWalletFacts()
    ensures NonNegative(InitialWallet.balances)
    ensures Worth(InitialWallet.balances) == 3000000.0
    ensures |InitialWallet.transactions| == 5
    ensures InitialWallet.connected.None?
  {
  }

  /** Why an action was refused; each carries the toast text shown. A send
      without address or amount and a swap without amount are told apart. */
  datatype Error = MissingFields | MissingAmount | InvalidAmount | UnsupportedPair {
    function Message(): string {
      match this
      case MissingFields => "Vui lòng nhập địa chỉ và số tiền."
      case MissingAmount => "Vui lòng nhập số tiền muốn swap."
      case InvalidAmount => "Số tiền không hợp lệ hoặc không đủ số dư."
      case UnsupportedPair => "Cặp swap không được hỗ trợ."
    }
  }

  /** An amount input: `None` is the empty string, `Some(x)` what
      `parseFloat` reads from a filled-in input. */
  type Amount = Option<real>

  datatype SendForm = SendForm(address: string, amount: Amount, currency: Currency, memo: string)

  const EmptySendForm: SendForm := SendForm("", None, VND, "")

  datatype SwapForm = SwapForm(fromCurrency: Currency, toCurrency: Currency, fromAmount: Amount, toAmount: Amount)

  const EmptySwapForm: SwapForm := SwapForm(VND, USDVN, None, None)

  /** The state after an action: the wallet, the action's form, and the
      error when the action was refused. */
  datatype Outcome<F> = Outcome(wallet: WalletData, form: F, error: Option<Error>)

  /** `s.substring(0, n)`. */
  function Prefix(s: string, n: nat): (r: string)
    ensures |r| == if |s| < n then |s| else n
    ensures r <= s
  {
    if |s| < n then s else s[..n]
  }

  /** The description of a send: the first ten characters of the address,
      and the memo in parentheses when there is one. */
  function SendDescription(address: string, memo: string): (r: string)
    ensures |r| == 12 + |Prefix(address, 10)| + (if memo == "" then 0 else |memo| + 2)
    ensures r[..8] == "Gửi đến "
    ensures r[8..8 + |Prefix(address, 10)|] == Prefix(address, 10)
    ensures r[8 + |Prefix(address, 10)|..12 + |Prefix(address, 10)|] == "... "
    ensures memo != "" ==> r[12 + |Prefix(address, 10)|..] == "(" + memo + ")"
  {
    "Gửi đến " + Prefix(address, 10) + "... " + (if memo == "" then "" else "(" + memo + ")")
  }

  /** Only the first ten characters of the address reach the description. */
  lemma SendDescriptionTruncates(a1: string, a2: string, memo: string)
    requires |a1| >= 10 && |a2| >= 10 && a1[..10] == a2[..10]
    ensures SendDescription(a1, memo) == SendDescription(a2, memo)
  {
  }

  /** `handleSendMoney`, at clock reading `now` on calendar date `today`. */
  function Send(w: WalletData, f: SendForm, now: int, today: string): (r: Outcome<SendForm>)
    ensures r.error == Some(MissingFields) <==> f.address == "" || f.amount.None?
    ensures r.error == Some(InvalidAmount) <==>
      f.address != "" && f.amount.Some? &&
      (f.amount.value <= 0.0 || f.amount.value > BalanceOf(w.balances, f.currency))
    ensures r.error != Some(UnsupportedPair) && r.error != Some(MissingAmount)
    ensures r.error.Some? ==> r.wallet == w && r.form == f
    ensures r.error.None? ==>
      && BalanceOf(r.wallet.balances, f.currency) == BalanceOf(w.balances, f.currency) - f.amount.value
      && (forall c :: c != f.currency ==> BalanceOf(r.wallet.balances, c) == BalanceOf(w.balances, c))
      && Worth(r.wallet.balances) == Worth(w.balances) - InVnd(f.amount.value, f.currency)
      && r.wallet.connected == w.connected
      && |r.wallet.transactions| == |w.transactions| + 1
      && r.wallet.transactions[1..] == w.transactions
      && r.wallet.transactions[0].Sent?
      && r.wallet.transactions[0].amount == f.amount.value
      && r.wallet.transactions[0].currency == f.currency
      && r.wallet.transactions[0].description == SendDescription(f.address, f.memo)
      && r.wallet.transactions[0].id == now
      && r.wallet.transactions[0].date == today
      && r.form == EmptySendForm
    ensures NonNegative(w.balances) ==> NonNegative(r.wallet.balances)
  {
    if f.address == "" || f.amount.None? then
      Outcome(w, f, Some(MissingFields))
    else
      var amount := f.amount.value;
      var balance := BalanceOf(w.balances, f.currency);
      if amount <= 0.0 || amount > balance then
        Outcome(w, f, Some(InvalidAmount))
      else
        var tx := Sent(now, amount, f.currency, SendDescription(f.address, f.memo), today);
        var balances := WithBalance(w.balances, f.currency, balance - amount);
        WorthWithBalance(w.balances, f.currency, balance - amount);
        Outcome(w.(balances := balances, transactions := [tx] + w.transactions), EmptySendForm, None)
  }

  /** The amount of `to` that `amount` of `from` converts to, for the two
      supported directions. */
  function Convert(amount: real, from: Currency, to: Currency): (r: Option<real>)
    ensures r.Some? <==> from != to
    ensures r.Some? ==> InVnd(r.value, to) == InVnd(amount, from)
  {
    match (from, to)
    case (VND, USDVN) => Some(amount / Rate)
    case (USDVN, VND) => Some(amount * Rate)
    case _ => None
  }

  /** `handleSwapCurrency`, at clock reading `now` on calendar date `today`.
      The amount is checked before the currency pair. */
  function Swap(w: WalletData, f: SwapForm, now: int, today: string): (r: Outcome<SwapForm>)
    ensures r.error == Some(MissingAmount) <==> f.fromAmount.None?
    ensures r.error != Some(MissingFields)
    ensures r.error == Some(InvalidAmount) <==>
      f.fromAmount.Some? &&
      (f.fromAmount.value <= 0.0 || f.fromAmount.value > BalanceOf(w.balances, f.fromCurrency))
    ensures r.error == Some(UnsupportedPair) <==>
      f.fromAmount.Some? &&
      0.0 < f.fromAmount.value <= BalanceOf(w.balances, f.fromCurrency) &&
      f.fromCurrency == f.toCurrency
    ensures r.error.Some? ==> r.wallet == w && r.form == f
    ensures r.error.None? ==>
      && f.fromCurrency != f.toCurrency
      && BalanceOf(r.wallet.balances, f.fromCurrency) == BalanceOf(w.balances, f.fromCurrency) - f.fromAmount.value
      && InVnd(BalanceOf(r.wallet.balances, f.toCurrency), f.toCurrency) ==
           InVnd(BalanceOf(w.balances, f.toCurrency), f.toCurrency) + InVnd(f.fromAmount.value, f.fromCurrency)
      && Worth(r.wallet.balances) == Worth(w.balances)
      && r.wallet.connected == w.connected
      && |r.wallet.transactions| == |w.transactions| + 1
      && r.wallet.transactions[1..] == w.transactions
      && r.wallet.transactions[0].Swapped?
      && r.wallet.transactions[0].amountFrom == f.fromAmount.value
      && r.wallet.transactions[0].currencyFrom == f.fromCurrency
      && r.wallet.transactions[0].currencyTo == f.toCurrency
      && r.wallet.transactions[0].description == "Swap " + CurrencyName(f.fromCurrency) + " sang " + CurrencyName(f.toCurrency)
      && InVnd(r.wallet.transactions[0].amountTo, f.toCurrency) == InVnd(f.fromAmount.value, f.fromCurrency)
      && r.wallet.transactions[0].id == now
      && r.wallet.transactions[0].date == today
      && r.form == EmptySwapForm
    ensures NonNegative(w.balances) ==> NonNegative(r.wallet.balances)
  {
    if f.fromAmount.None? then
      Outcome(w, f, Some(MissingAmount))
    else
      var amount := f.fromAmount.value;
      if amount <= 0.0 || amount > BalanceOf(w.balances, f.fromCurrency) then
        Outcome(w, f, Some(InvalidAmount))
      else
        match Convert(amount, f.fromCurrency, f.toCurrency)
        case None => Outcome(w, f, Some(UnsupportedPair))
        case Some(converted) =>
          var tx := Swapped(now, amount, f.fromCurrency, converted, f.toCurrency,
                            "Swap " + CurrencyName(f.fromCurrency) + " sang " + CurrencyName(f.toCurrency), today);
          var debited := WithBalance(w.balances, f.fromCurrency, BalanceOf(w.balances, f.fromCurrency) - amount);
          var balances := WithBalance(debited, f.toCurrency, BalanceOf(w.balances, f.toCurrency) + converted);
          WorthWithBalance(w.balances, f.fromCurrency, BalanceOf(w.balances, f.fromCurrency) - amount);
          WorthWithBalance(debited, f.toCurrency, BalanceOf(w.balances, f.toCurrency) + converted);
          Outcome(w.(balances := balances, transactions := [tx] + w.transactions), EmptySwapForm, None)
  }

  function CurrencyName(c: Currency): string {
    match c
    case VND => "VND"
    case USDVN => "USDVN"
  }

  /** The direction button: exchanges the two currencies and the two amounts. */
  function Toggle(f: SwapForm): (r: SwapForm)
    ensures r.fromCurrency == f.toCurrency && r.toCurrency == f.fromCurrency
    ensures r.fromAmount == f.toAmount && r.toAmount == f.fromAmount
  {
    SwapForm(f.toCurrency, f.fromCurrency, f.toAmount, f.fromAmount)
  }

  /** Pressing the direction button twice restores the form. */
  lemma ToggleTwice(f: SwapForm)
    ensures Toggle(Toggle(f)) == f
  {
  }

  /** Toggling keeps a supported pair supported and an unsupported one
      unsupported. */
  lemma ToggleKeepsPairSupport(f: SwapForm, amount: real)
    ensures Convert(amount, Toggle(f).fromCurrency, Toggle(f).toCurrency).Some? <==>
            Convert(amount, f.fromCurrency, f.toCurrency).Some?
  {
  }

  /** Choosing the from-currency clears the to-amount preview. */
  function SelectFrom(f: SwapForm, c: Currency): (r: SwapForm)
    ensures r.fromCurrency == c && r.toAmount.None?
    ensures r.toCurrency == f.toCurrency && r.fromAmount == f.fromAmount
  {
    f.(fromCurrency := c, toAmount := None)
  }

  /** Choosing the to-currency clears the from-amount. */
  function SelectTo(f: SwapForm, c: Currency): (r: SwapForm)
    ensures r.toCurrency == c && r.fromAmount.None?
    ensures r.fromCurrency == f.fromCurrency && r.toAmount == f.toAmount
  {
    f.(toCurrency := c, fromAmount := None)
  }

  /** A swap straight after choosing the to-currency is refused for want of
      an amount: the choice cleared it. */
  lemma SwapAfterSelectTo(w: WalletData, f: SwapForm, c: Currency, now: int, today: string)
    ensures Swap(w, SelectTo(f, c), now, today).error == Some(MissingAmount)
    ensures Swap(w, SelectTo(f, c), now, today).error.value.Message() == "Vui lòng nhập số tiền muốn swap."
    ensures Swap(w, SelectTo(f, c), now, today).wallet == w
  {
  }

  /** Choosing the currency already on the other side makes any swap with a
      valid amount fail on the pair. */
  lemma SameCurrencyRefused(w: WalletData, f: SwapForm, now: int, today: string)
    requires f.fromAmount.Some? && 0.0 < f.fromAmount.value <= BalanceOf(w.balances, f.toCurrency)
    ensures Swap(w, SelectFrom(f, f.toCurrency), now, today).error == Some(UnsupportedPair)
    ensures Swap(w, SelectFrom(f, f.toCurrency), now, today).wallet == w
  {
  }

  /** Swapping an amount of VND into USDVN and then swapping the USDVN
      received back restores the balances (with exact arithmetic). */
  lemma {:induction false} SwapThereAndBack(w: WalletData, amount: real, now1: int, now2: int, today: string)
    requires 0.0 < amount <= w.balances.vnd && w.balances.usdvn >= 0.0
    ensures Swap(w, SwapForm(VND, USDVN, Some(amount), None), now1, today).error.None?
    ensures
      var w1 := Swap(w, SwapForm(VND, USDVN, Some(amount), None), now1, today).wallet;
      var r2 := Swap(w1, SwapForm(USDVN, VND, Some(amount / Rate), None), now2, today);
      r2.error.None? && r2.wallet.balances == w.balances && |r2.wallet.transactions| == |w.transactions| + 2
  {
    var r1 := Swap(w, SwapForm(VND, USDVN, Some(amount), None), now1, today);
    var w1 := r1.wallet;
    assert w1.balances == Balances(w.balances.vnd - amount, w.balances.usdvn + amount / Rate);
    var r2 := Swap(w1, SwapForm(USDVN, VND, Some(amount / Rate), None), now2, today);
    assert r2.error.None?;
    assert r2.wallet.balances.vnd == w1.balances.vnd + amount / Rate * Rate;
  }

  /** `handleConnectWallet`: records the demo address. */
  function Connect(w: WalletData): (r: WalletData)
    ensures r.connected.Some?
    ensures r.balances == w.balances && r.transactions == w.transactions
  {
    w.(connected := Some("0x123...abc (Demo)"))
  }

  /** `handleDisconnectWallet`. */
  function Disconnect(w: WalletData): (r: WalletData)
    ensures r.connected.None?
    ensures r.balances == w.balances && r.transactions == w.transactions
  {
    w.(connected := None)
  }

  /** Connecting a disconnected wallet and disconnecting it again gives back
      the wallet, and connecting twice is connecting once. */
  lemma ConnectDisconnect(w: WalletData)
    ensures w.connected.None? ==> Disconnect(Connect(w)) == w
    ensures Connect(Connect(w)) == Connect(w)
    ensures Disconnect(Disconnect(w)) == Disconnect(w)
  {
  }

  /** A confirmed send or swap dialog, with the clock reading and date at
      which it was confirmed. */
  datatype Action =
    | DoSend(sendForm: SendForm, at: int, date: string)
    | DoSwap(swapForm: SwapForm, at: int, date: string)

  /** The wallet after one confirmed dialog, accepted or not. */
  function Step(w: WalletData, a: Action): (r: WalletData)
    ensures NonNegative(w.balances) ==> NonNegative(r.balances)
    ensures IsTail(w.transactions, r.transactions)
    ensures r.connected == w.connected
    ensures a.DoSwap? ==> Worth(r.balances) == Worth(w.balances)
  {
    match a
    case DoSend(f, at, date) => Send(w, f, at, date).wallet
    case DoSwap(f, at, date) => Swap(w, f, at, date).wallet
  }

  /** `t` ends with `s`. */
  predicate IsTail(s: seq<Tx>, t: seq<Tx>) {
    |s| <= |t| && t[|t| - |s|..] == s
  }

  lemma IsTailTrans(s: seq<Tx>, t: seq<Tx>, u: seq<Tx>)
    requires IsTail(s, t) && IsTail(t, u)
    ensures IsTail(s, u)
  {
    assert u[|u| - |s|..] == u[|u| - |t|..][|t| - |s|..];
  }

  predicate AllSwaps(actions: seq<Action>) {
    forall i :: 0 <= i < |actions| ==> actions[i].DoSwap?
  }

  /** The wallet after a sequence of confirmed dialogs. Over non-negative
      balances the balances stay non-negative, the earlier history stays as
      the tail of the new one, and swaps alone keep the worth. */
  function Run(w: WalletData, actions: seq<Action>): (r: WalletData)
    ensures NonNegative(w.balances) ==> NonNegative(r.balances)
    ensures IsTail(w.transactions, r.transactions)
    ensures r.connected == w.connected
    ensures AllSwaps(actions) ==> Worth(r.balances) == Worth(w.balances)
    decreases |actions|
  {
    if |actions| == 0 then w
    else
      var next := Step(w, actions[0]);
      var r := Run(next, actions[1..]);
      IsTailTrans(w.transactions, next.transactions, r.transactions);
      assert AllSwaps(actions) ==> AllSwaps(actions[1..]) by {
        if AllSwaps(actions) {
          forall i | 0 <= i < |actions[1..]| ensures actions[1..][i].DoSwap? {
            assert actions[1..][i] == actions[i + 1];
          }
        }
      }
      r
  }
}

/** What one Horizon operation credits to a wallet: the decisions `process` makes about a record. */
module Deposits {
  import opened Wrappers
  import opened Bytes
  import opened Toid
  import Amount
  import opened Digits

  datatype TransactionRecord = TransactionRecord(
    memoType: Option<string>, memo: Option<string>, ledger: Option<I64>)

  datatype PaymentRecord = PaymentRecord(
    id: string, pagingToken: string, kind: string, transactionHash: Option<string>,
    transactionSuccessful: bool, from: Option<string>, to: Option<string>, toMuxed: Option<string>,
    assetType: Option<string>, assetCode: Option<string>, assetIssuer: Option<string>,
    amount: Option<string>, startingBalance: Option<string>,
    transaction: Option<TransactionRecord>, balanceId: Option<string>, claimant: Option<string>)

  datatype Effect = Effect(
    kind: string, account: Option<string>, amount: Option<string>,
    assetType: Option<string>, assetCode: Option<string>, assetIssuer: Option<string>)

  datatype Origin = Origin(
    kind: string, sourceAccount: Option<string>, transaction: Option<TransactionRecord>)

  datatype Muxed = Muxed(base: string, id: nat)

  /**
   * What Horizon answers about settled operations, and how muxed addresses decode. Settled history
   * does not change, so these are functions; a request that fails is a failed step instead.
   */
  datatype Chain = Chain(
    effects: string -> seq<Effect>,
    creations: string -> seq<Origin>,
    muxed: string -> Option<Muxed>)

  datatype Credit = Credit(
    amount: string, assetType: Option<string>, assetCode: Option<string>, assetIssuer: Option<string>,
    sourceAccount: Option<string>, destinationAccount: Option<string>,
    customerId: Option<I64>, memoId: Option<I64>)

  /** A row of `transactions` with direction `deposit`. */
  datatype Deposit = Deposit(
    walletId: Uuid, addressId: Option<Uuid>, assetCode: string, assetIssuer: Option<string>,
    amountStroops: I64, sourceAccount: Option<string>, destinationAccount: Option<string>,
    txHash: string, operationIndex: nat, horizonOpId: string, ledger: Option<I64>, memoId: Option<I64>)

  datatype Wallet = Wallet(id: Uuid, account: string)

  const CLAIM_KIND := "claim_claimable_balance"

  predicate IsPathPayment(kind: string) {
    kind == "path_payment_strict_send" || kind == "path_payment_strict_receive"
  }

  predicate IsCreditKind(kind: string) {
    kind == "payment" || kind == "create_account" || IsPathPayment(kind)
  }

  function OrElse<T>(value: Option<T>, other: Option<T>): Option<T> {
    if value.Some? then value else other
  }

  function MemoIdOfTx(tx: TransactionRecord): Option<I64> {
    if tx.memoType != Some("id") || tx.memo.None? then None else ParseI64(tx.memo.value)
  }

  function MemoId(rec: PaymentRecord): Option<I64> {
    if rec.transaction.None? then None else MemoIdOfTx(rec.transaction.value)
  }

  /** The muxed id of the destination, if it decodes to our own account and fits. */
  function MuxedId(chain: Chain, account: string, rec: PaymentRecord): Option<I64> {
    if rec.toMuxed.None? then None
    else
      match chain.muxed(rec.toMuxed.value)
      case None => None
      case Some(m) => if m.base != account || m.id > I64_MAX then None else Some(m.id)
  }

  function CreditedAmount(rec: PaymentRecord): Option<string> {
    if rec.kind == "create_account" then rec.startingBalance else rec.amount
  }

  /** What an operation other than a claim brings us, if it pays our account. */
  function DirectCredit(chain: Chain, account: string, rec: PaymentRecord): Option<Credit> {
    if !IsCreditKind(rec.kind) || rec.to != Some(account) then None
    else if IsPathPayment(rec.kind) && rec.from == Some(account) then None
    else
      var amount := CreditedAmount(rec);
      Some(Credit(
        if amount.Some? then amount.value else "", rec.assetType, rec.assetCode, rec.assetIssuer,
        rec.from, OrElse(rec.toMuxed, rec.to),
        OrElse(MuxedId(chain, account, rec), MemoId(rec)), MemoId(rec)))
  }

  predicate IsBalanceId(id: string) {
    id != "" && |id| <= 80
    && forall i :: 0 <= i < |id| ==> IsDigit(id[i]) || 'a' <= id[i] <= 'f' || 'A' <= id[i] <= 'F'
  }

  /** The first effect that credits the account; without an amount it credits nothing. */
  function FirstCredit(effects: seq<Effect>, account: string): Option<Effect> {
    if effects == [] then None
    else if effects[0].kind == "account_credited" && effects[0].account == Some(account) then
      (if effects[0].amount.Some? then Some(effects[0]) else None)
    else FirstCredit(effects[1..], account)
  }

  /** The operation that created a claimable balance, if Horizon knows it. */
  function OriginOf(chain: Chain, balanceId: string): Option<Origin> {
    var ops := chain.creations(balanceId);
    if ops != [] && ops[0].kind == "create_claimable_balance" then Some(ops[0]) else None
  }

  /** What a claim of ours brings, as its effects and the balance's creation tell it. */
  function ClaimCredit(chain: Chain, account: string, rec: PaymentRecord): Option<Credit> {
    if rec.claimant != Some(account) || rec.balanceId.None? || !IsBalanceId(rec.balanceId.value) then None
    else
      match FirstCredit(chain.effects(rec.id), account)
      case None => None
      case Some(effect) =>
        var origin := OriginOf(chain, rec.balanceId.value);
        var creator := if origin.Some? then origin.value.sourceAccount else None;
        if creator == Some(account) then None
        else
          var memoId := if origin.Some? && origin.value.transaction.Some?
                        then MemoIdOfTx(origin.value.transaction.value) else None;
          Some(Credit(
            if effect.amount.Some? then effect.amount.value else "", effect.assetType, effect.assetCode,
            effect.assetIssuer, creator, rec.claimant, memoId, memoId))
  }

  function CreditFor(chain: Chain, account: string, rec: PaymentRecord): Option<Credit> {
    if rec.kind == CLAIM_KIND then ClaimCredit(chain, account, rec) else DirectCredit(chain, account, rec)
  }

  function LedgerOf(rec: PaymentRecord): Option<I64> {
    if rec.transaction.Some? then rec.transaction.value.ledger else None
  }

  /** The record's operation id, decoded and cross-checked with the transaction's ledger. */
  function ToidOf(rec: PaymentRecord, maxLedger: U32): Option<Toid> {
    var toid := Decode(rec.id, maxLedger);
    var ledger := LedgerOf(rec);
    if toid.Some? && (ledger.None? || toid.value.ledger == ledger.value) then toid else None
  }

  function HashOf(rec: PaymentRecord): string {
    if rec.transactionHash.Some? then rec.transactionHash.value else ""
  }

  function AssetOf(credit: Credit): (string, Option<string>) {
    if credit.assetType.None? || credit.assetType == Some("native") then ("native", None)
    else (if credit.assetCode.Some? then credit.assetCode.value else "unknown", credit.assetIssuer)
  }

  /** The row `process` would insert, given the customer address it looked up; None when it skips. */
  function DepositFor(chain: Chain, wallet: Wallet, rec: PaymentRecord, maxLedger: U32, address: Option<Uuid>)
    : Option<Deposit>
  {
    if !rec.transactionSuccessful then None
    else
      match ToidOf(rec, maxLedger)
      case None => None
      case Some(toid) =>
        match CreditFor(chain, wallet.account, rec)
        case None => None
        case Some(credit) =>
          match Amount.Stroops(credit.amount)
          case None => None
          case Some(stroops) =>
            if stroops <= 0 then None
            else
              var (code, issuer) := AssetOf(credit);
              Some(Deposit(
                wallet.id, if credit.customerId.Some? then address else None, code, issuer, stroops,
                credit.sourceAccount, credit.destinationAccount, HashOf(rec), toid.operationIndex,
                rec.id, LedgerOf(rec), credit.memoId))
  }

  /** The row with no customer on it: what the operation credits, whenever it is processed. */
  function Owed(chain: Chain, wallet: Wallet, rec: PaymentRecord): Option<Deposit> {
    DepositFor(chain, wallet, rec, U32_MAX, None)
  }

  /** The deposit apart from the customer it was attributed to. */
  function Unattributed(d: Deposit): Deposit {
    d.(addressId := None)
  }

  /** The clock and the address lookup change nothing else, unless the clock rules the ledger out. */
  lemma ProcessedAtAnyTime(chain: Chain, wallet: Wallet, rec: PaymentRecord, now: nat, address: Option<Uuid>)
    ensures var row := DepositFor(chain, wallet, rec, PlausibleMaxLedger(now), address);
      var owed := Owed(chain, wallet, rec);
      if owed.Some? && ToidOf(rec, U32_MAX).value.ledger <= PlausibleMaxLedger(now)
        then row.Some? && Unattributed(row.value) == owed.value
        else row.None?
  {
    CeilingOnlyAdmits(rec.id, PlausibleMaxLedger(now), U32_MAX);
  }

  /** An operation credits at most one account, so at most one wallet. */
  lemma OneDestination(chain: Chain, a: Wallet, b: Wallet, rec: PaymentRecord)
    requires Owed(chain, a, rec).Some? && Owed(chain, b, rec).Some?
    ensures a.account == b.account
  {
  }

  /** The id memo of a transaction, if it has one that is a number. */
  predicate HasMemoId(tx: Option<TransactionRecord>, memo: Option<I64>) {
    memo == if tx.Some? && tx.value.memoType == Some("id") && tx.value.memo.Some?
            then ParseI64(tx.value.memo.value) else None
  }

  /** The asset as the row names it: lumens carry no issuer, and a missing code is "unknown". */
  predicate NamesAsset(d: Deposit, assetType: Option<string>, code: Option<string>, issuer: Option<string>) {
    if assetType == None || assetType == Some("native") then d.assetCode == "native" && d.assetIssuer == None
    else d.assetIssuer == issuer && d.assetCode == if code.Some? then code.value else "unknown"
  }

  /** What every owed row says of its record, and what its record must be: successful, with an id that fits it. */
  predicate FromRecord(d: Deposit, wallet: Wallet, rec: PaymentRecord) {
    && rec.transactionSuccessful && Decode(rec.id, U32_MAX).Some?
    && var ledger := if rec.transaction.Some? then rec.transaction.value.ledger else None;
    && (ledger.Some? ==> Decode(rec.id, U32_MAX).value.ledger == ledger.value)
    && d.walletId == wallet.id && d.addressId == None && d.horizonOpId == rec.id && d.ledger == ledger
    && d.operationIndex == Decode(rec.id, U32_MAX).value.operationIndex
    && d.txHash == (if rec.transactionHash.Some? then rec.transactionHash.value else "")
    && 0 < d.amountStroops
  }

  lemma OwedRow(chain: Chain, wallet: Wallet, rec: PaymentRecord)
    requires Owed(chain, wallet, rec).Some?
    ensures FromRecord(Owed(chain, wallet, rec).value, wallet, rec)
  {
  }

  /** What was paid: the starting balance of a new account, else the amount. */
  predicate Pays(d: Deposit, rec: PaymentRecord) {
    var paid := if rec.kind == "create_account" then rec.startingBalance else rec.amount;
    paid.Some? && Amount.Stroops(paid.value) == Some(d.amountStroops)
  }

  /**
   * Exactly which operations other than claims are owed, and as what row: one of the four kinds, to our
   * account, no conversion of our own, of a positive readable amount.
   */
  lemma DirectOwedIff(chain: Chain, wallet: Wallet, rec: PaymentRecord, d: Deposit)
    requires rec.kind != "claim_claimable_balance"
    ensures Owed(chain, wallet, rec) == Some(d) <==>
      && FromRecord(d, wallet, rec) && Pays(d, rec)
      && rec.kind in {"payment", "create_account", "path_payment_strict_send", "path_payment_strict_receive"}
      && rec.to == Some(wallet.account)
      && !(rec.kind in {"path_payment_strict_send", "path_payment_strict_receive"} && rec.from == Some(wallet.account))
      && NamesAsset(d, rec.assetType, rec.assetCode, rec.assetIssuer)
      && d.sourceAccount == rec.from && d.destinationAccount == (if rec.toMuxed.Some? then rec.toMuxed else rec.to)
      && HasMemoId(rec.transaction, d.memoId)
  {
    NoAmount();
  }

  /** An empty text is no amount. */
  lemma NoAmount()
    ensures Amount.Stroops("") == None
  {
  }

  /** The claim's effect and who created the balance, if that is known. */
  predicate Claims(d: Deposit, chain: Chain, balanceId: string, effect: Effect) {
    var ops := chain.creations(balanceId);
    var known := ops != [] && ops[0].kind == "create_claimable_balance";
    && effect.amount.Some? && Amount.Stroops(effect.amount.value) == Some(d.amountStroops)
    && NamesAsset(d, effect.assetType, effect.assetCode, effect.assetIssuer)
    && d.sourceAccount == (if known then ops[0].sourceAccount else None)
    && HasMemoId(if known then ops[0].transaction else None, d.memoId)
  }

  /**
   * Exactly which claims are owed, and as what row: of ours, of a well-formed balance that someone else
   * created, for what the first effect crediting us says.
   */
  lemma ClaimOwedIff(chain: Chain, wallet: Wallet, rec: PaymentRecord, d: Deposit)
    requires rec.kind == "claim_claimable_balance"
    ensures Owed(chain, wallet, rec) == Some(d) <==>
      && FromRecord(d, wallet, rec) && rec.claimant == Some(wallet.account) && d.destinationAccount == rec.claimant
      && rec.balanceId.Some? && 1 <= |rec.balanceId.value| <= 80 && IsHexText(rec.balanceId.value)
      && d.sourceAccount != Some(wallet.account)
      && exists i ::
           && IsFirstCredit(chain.effects(rec.id), wallet.account, i)
           && Claims(d, chain, rec.balanceId.value, chain.effects(rec.id)[i])
  {
    FirstCreditIff(chain.effects(rec.id), wallet.account);
  }

  predicate IsHexText(s: string) {
    forall i :: 0 <= i < |s| ==> '0' <= s[i] <= '9' || 'a' <= s[i] <= 'f' || 'A' <= s[i] <= 'F'
  }

  /** Exactly when a processed row can carry a customer: an id on our own muxed address, or an id memo. */
  lemma AttributedIff(chain: Chain, wallet: Wallet, rec: PaymentRecord, maxLedger: U32, address: Option<Uuid>)
    requires DepositFor(chain, wallet, rec, maxLedger, address).Some? && rec.kind != "claim_claimable_balance"
    ensures var muxed := if rec.toMuxed.Some? then chain.muxed(rec.toMuxed.value) else None;
      var d := DepositFor(chain, wallet, rec, maxLedger, address).value;
      var ours := muxed.Some? && muxed.value.base == wallet.account && muxed.value.id <= I64_MAX;
      d.addressId == if ours || d.memoId.Some? then address else None
  {
  }

  lemma ClaimAttributedIff(chain: Chain, wallet: Wallet, rec: PaymentRecord, maxLedger: U32, address: Option<Uuid>)
    requires DepositFor(chain, wallet, rec, maxLedger, address).Some? && rec.kind == "claim_claimable_balance"
    ensures var d := DepositFor(chain, wallet, rec, maxLedger, address).value;
      d.addressId == if d.memoId.Some? then address else None
  {
  }

  predicate Credits(e: Effect, account: string) {
    e.kind == "account_credited" && e.account == Some(account)
  }

  /** Effect `i` credits the account, names an amount, and is the first to credit it. */
  predicate IsFirstCredit(effects: seq<Effect>, account: string, i: int) {
    && 0 <= i < |effects| && Credits(effects[i], account) && effects[i].amount.Some?
    && forall j :: 0 <= j < i ==> !Credits(effects[j], account)
  }

  /** The effect found is the first that credits the account, and only one without an amount is not found. */
  lemma {:induction false} FirstCreditIff(effects: seq<Effect>, account: string)
    ensures FirstCredit(effects, account).Some? <==> exists i :: IsFirstCredit(effects, account, i)
    ensures forall i :: IsFirstCredit(effects, account, i) ==> FirstCredit(effects, account) == Some(effects[i])
  {
    if effects != [] {
      if Credits(effects[0], account) {
        assert effects[0].amount.Some? ==> IsFirstCredit(effects, account, 0);
      } else {
        var rest := effects[1..];
        FirstCreditIff(rest, account);
        forall i ensures IsFirstCredit(effects, account, i) <==> IsFirstCredit(rest, account, i - 1) {
          assert 0 < i < |effects| ==> effects[i] == rest[i - 1];
          if IsFirstCredit(rest, account, i - 1) {
            assert forall j :: 0 < j < i ==> effects[j] == rest[j - 1];
          }
          if IsFirstCredit(effects, account, i) {
            assert forall j :: 0 <= j < i - 1 ==> rest[j] == effects[j + 1];
          }
        }
        if i :| IsFirstCredit(rest, account, i) {
          assert IsFirstCredit(effects, account, i + 1);
        }
      }
    }
  }

  // --- as the protocol sees it ------------------------------------------------------------------------

  /** How records become deposits. */
  datatype Rules = Rules(process: (Wallet, PaymentRecord, U32, Option<Uuid>) -> Option<Deposit>)
  {
    /** What the operation credits, whenever it is processed and whoever it is attributed to. */
    function Owed(wallet: Wallet, rec: PaymentRecord): Option<Deposit> {
      process(wallet, rec, U32_MAX, None)
    }
  }

  /** The rules `process` implements. */
  function RulesOf(chain: Chain): Rules {
    Rules((wallet: Wallet, rec: PaymentRecord, maxLedger: U32, address: Option<Uuid>) =>
      DepositFor(chain, wallet, rec, maxLedger, address))
  }

  /** The row depends on the clock only through the ledger ceiling, and carries the operation's id. */
  ghost predicate Lawful(rules: Rules) {
    forall wallet, rec, now: nat, address :: ObeysClock(rules, wallet, rec, now, address)
  }

  ghost predicate ObeysClock(rules: Rules, wallet: Wallet, rec: PaymentRecord, now: nat, address: Option<Uuid>) {
    var row, owed := rules.process(wallet, rec, PlausibleMaxLedger(now), address), rules.Owed(wallet, rec);
    && (owed.Some? ==> owed.value.horizonOpId == rec.id && ToidOf(rec, U32_MAX).Some?)
    && if owed.Some? && ToidOf(rec, U32_MAX).value.ledger <= PlausibleMaxLedger(now)
       then row.Some? && Unattributed(row.value) == owed.value
       else row.None?
  }

  lemma RulesAreLawful(chain: Chain)
    ensures Lawful(RulesOf(chain))
  {
    var rules := RulesOf(chain);
    forall wallet, rec, now: nat, address ensures ObeysClock(rules, wallet, rec, now, address) {
      ProcessedAtAnyTime(chain, wallet, rec, now, address);
    }
  }
}

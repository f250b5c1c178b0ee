/** The withdrawal estimate: what may leave an account after fee and reserve, in 64-bit arithmetic. */
module Estimate {
  import opened Wrappers
  import opened Bytes
  import Amount

  const MAX_OPERATIONS: int := 100
  const BASE_RESERVE_STROOPS: int := 5_000_000

  datatype Balance = Balance(balance: string, assetType: string, assetCode: Option<string>, assetIssuer: Option<string>)
  datatype AccountInfo = AccountInfo(balances: seq<Balance>, subentryCount: I64, numSponsoring: I64, numSponsored: I64)
  datatype FeeStats = FeeStats(lastLedgerBaseFee: I64, feeChargedP90: I64)
  datatype Request = Request(asset: Option<(string, string)>, amount: Option<I64>, operations: I64)

  datatype Quote = Quote(
    operations: I64, baseFee: I64, recommendedFee: I64, estimatedFee: I64, minReserve: I64,
    nativeBalance: I64, assetBalance: Option<I64>, feeCovered: bool, maxWithdrawable: I64, sufficient: Option<bool>)

  datatype ApiError = BadOperations | BadAmount | NoTrustline

  // --- reading the account -----------------------------------------------------------------------------

  /** The reserve in unbounded integers. */
  function ExactReserve(info: AccountInfo): int {
    var entries := 2 + info.subentryCount + info.numSponsoring - info.numSponsored;
    BASE_RESERVE_STROOPS * if entries < 0 then 0 else entries
  }

  /** The sum and the product both stay within 64 bits. */
  predicate ReserveFits(info: AccountInfo) {
    && I64_MIN <= 2 + info.subentryCount <= I64_MAX
    && I64_MIN <= 2 + info.subentryCount + info.numSponsoring <= I64_MAX
    && I64_MIN <= 2 + info.subentryCount + info.numSponsoring - info.numSponsored <= I64_MAX
    && ExactReserve(info) <= I64_MAX
  }

  function FirstNative(balances: seq<Balance>): Option<string> {
    if balances == [] then None
    else if balances[0].assetType == "native" then Some(balances[0].balance)
    else FirstNative(balances[1..])
  }

  function FirstAsset(balances: seq<Balance>, code: string, issuer: string): Option<string> {
    if balances == [] then None
    else if balances[0].assetCode == Some(code) && balances[0].assetIssuer == Some(issuer)
      then Some(balances[0].balance)
    else FirstAsset(balances[1..], code, issuer)
  }

  function Stroops(text: Option<string>): Option<int> {
    if text.None? then None else Amount.ParsedAmount(text.value)
  }

  function NativeBalance(info: AccountInfo): int {
    var parsed := Stroops(FirstNative(info.balances));
    if parsed.Some? then parsed.value else 0
  }

  function AssetBalance(info: AccountInfo, asset: (string, string)): Option<int> {
    Stroops(FirstAsset(info.balances, asset.0, asset.1))
  }

  /** Nothing read from the account overflows 64 bits. */
  predicate Fits(info: AccountInfo, req: Request) {
    && ReserveFits(info)
    && I64_MIN <= NativeBalance(info) <= I64_MAX
    && (req.asset.Some? && AssetBalance(info, req.asset.value).Some? ==>
          I64_MIN <= AssetBalance(info, req.asset.value).value <= I64_MAX)
  }

  /** Balances as Horizon reports them: not negative either. */
  predicate InRange(info: AccountInfo, req: Request) {
    && Fits(info, req)
    && NativeBalance(info) >= 0
    && (req.asset.Some? && AssetBalance(info, req.asset.value).Some? ==> AssetBalance(info, req.asset.value).value >= 0)
  }

  /** Every account of the protocol, with its 32-bit counts and balances from 0 to 2^63 - 1, is in range. */
  lemma AccountsFit(info: AccountInfo, req: Request)
    requires 0 <= info.subentryCount < 0x1_0000_0000 && 0 <= info.numSponsoring < 0x1_0000_0000
    requires 0 <= info.numSponsored < 0x1_0000_0000 && 0 <= NativeBalance(info) <= 0x7FFF_FFFF_FFFF_FFFF
    requires req.asset.Some? && AssetBalance(info, req.asset.value).Some? ==>
      0 <= AssetBalance(info, req.asset.value).value <= 0x7FFF_FFFF_FFFF_FFFF
    ensures Fits(info, req) && InRange(info, req)
  {
  }

  /** The first native line's balance, or nothing where there is no such line. */
  lemma {:induction false} FirstNativeIs(balances: seq<Balance>, i: nat)
    requires i <= |balances| && forall j :: 0 <= j < i ==> balances[j].assetType != "native"
    ensures i == |balances| ==> FirstNative(balances) == None
    ensures i < |balances| && balances[i].assetType == "native" ==> FirstNative(balances) == Some(balances[i].balance)
  {
    if i > 0 {
      FirstNativeIs(balances[1..], i - 1);
    }
  }

  /** The balance of the first line with this code and this issuer, or nothing where there is none. */
  lemma {:induction false} FirstAssetIs(balances: seq<Balance>, code: string, issuer: string, i: nat)
    requires i <= |balances|
    requires forall j :: 0 <= j < i ==> balances[j].assetCode != Some(code) || balances[j].assetIssuer != Some(issuer)
    ensures i == |balances| ==> FirstAsset(balances, code, issuer) == None
    ensures i < |balances| && balances[i].assetCode == Some(code) && balances[i].assetIssuer == Some(issuer) ==>
      FirstAsset(balances, code, issuer) == Some(balances[i].balance)
  {
    if i > 0 {
      FirstAssetIs(balances[1..], code, issuer, i - 1);
    }
  }

  /** Half a lumen for each of two entries, each subentry and each sponsoring, less those sponsored; never negative. */
  lemma ReserveIs(info: AccountInfo)
    ensures ExactReserve(info) >= 0
    ensures info.numSponsored <= 2 + info.subentryCount + info.numSponsoring ==>
      ExactReserve(info)
      == 10_000_000 + 5_000_000 * info.subentryCount + 5_000_000 * info.numSponsoring - 5_000_000 * info.numSponsored
    ensures info.numSponsored >= 2 + info.subentryCount + info.numSponsoring ==> ExactReserve(info) == 0
  {
  }

  // --- the estimate ----------------------------------------------------------------------------------------

  function Saturate(n: int): I64 {
    if n > I64_MAX then I64_MAX else if n < I64_MIN then I64_MIN else n
  }

  function Max(a: I64, b: I64): I64 {
    if a < b then b else a
  }

  /** `estimate`. */
  function QuoteFor(info: AccountInfo, fees: FeeStats, req: Request): Result<Quote, ApiError>
    requires Fits(info, req)
  {
    if !(1 <= req.operations <= MAX_OPERATIONS) then Err(BadOperations)
    else if req.amount.Some? && req.amount.value <= 0 then Err(BadAmount)
    else
      var baseFee := Max(fees.lastLedgerBaseFee, 0);
      var recommended := Max(baseFee, fees.feeChargedP90);
      var estimatedFee := Saturate(recommended * req.operations);
      var spendable := Saturate(NativeBalance(info) - ExactReserve(info));
      var covered := spendable >= estimatedFee;
      match req.asset
      case None =>
        var max := Max(Saturate(spendable - estimatedFee), 0);
        Ok(Quote(req.operations, baseFee, recommended, estimatedFee, ExactReserve(info), NativeBalance(info), None,
                 covered, max, Sufficient(req.amount, covered, max)))
      case Some(asset) =>
        match AssetBalance(info, asset)
        case None => Err(NoTrustline)
        case Some(balance) =>
          var max := if covered then Max(balance, 0) else 0;
          Ok(Quote(req.operations, baseFee, recommended, estimatedFee, ExactReserve(info), NativeBalance(info),
                   Some(balance), covered, max, Sufficient(req.amount, covered, max)))
  }

  function Sufficient(amount: Option<I64>, covered: bool, max: I64): Option<bool> {
    if amount.None? then None else Some(covered && amount.value <= max)
  }

  // --- in unbounded integers -----------------------------------------------------------------------------------

  /** The fee per operation to bid, times the operations. */
  function ExactFee(fees: FeeStats, operations: int): int {
    var base := if fees.lastLedgerBaseFee < 0 then 0 else fees.lastLedgerBaseFee;
    (if base < fees.feeChargedP90 then fees.feeChargedP90 else base) * operations
  }

  /** The amount can leave the account: balance covers it together with fee and reserve. */
  predicate CanSend(info: AccountInfo, fees: FeeStats, req: Request, amount: int) {
    match req.asset
    case None => amount + ExactFee(fees, req.operations) + ExactReserve(info) <= NativeBalance(info)
    case Some(asset) =>
      && ExactFee(fees, req.operations) + ExactReserve(info) <= NativeBalance(info)
      && AssetBalance(info, asset).Some? && amount <= AssetBalance(info, asset).value
  }

  lemma FeeIsNatural(fees: FeeStats, operations: int)
    requires operations >= 1
    ensures ExactFee(fees, operations) >= 0
  {
  }

  /** The one family where saturating decides: no reserve, a full balance, and a fee beyond 64 bits. */
  predicate Saturates(info: AccountInfo, fees: FeeStats, req: Request) {
    ExactReserve(info) == 0 && NativeBalance(info) == I64_MAX && ExactFee(fees, req.operations) > I64_MAX
  }

  /** The quoted fee is the fee exactly while it fits in 64 bits. */
  lemma FeeIsExactIff(info: AccountInfo, fees: FeeStats, req: Request)
    requires InRange(info, req) && QuoteFor(info, fees, req).Ok?
    ensures QuoteFor(info, fees, req).value.estimatedFee == ExactFee(fees, req.operations)
       <==> ExactFee(fees, req.operations) <= I64_MAX
  {
    FeeIsNatural(fees, req.operations);
  }

  /** Coverage is exact but for that family. */
  lemma CoverageIsExactIff(info: AccountInfo, fees: FeeStats, req: Request)
    requires InRange(info, req) && QuoteFor(info, fees, req).Ok?
    ensures QuoteFor(info, fees, req).value.feeCovered
         == (ExactFee(fees, req.operations) + ExactReserve(info) <= NativeBalance(info))
       <==> !Saturates(info, fees, req)
  {
    FeeIsNatural(fees, req.operations);
  }

  /** Sufficiency is exact for native and credit assets alike, but for credit amounts in that family. */
  lemma SufficientIsExactIff(info: AccountInfo, fees: FeeStats, req: Request)
    requires InRange(info, req) && QuoteFor(info, fees, req).Ok? && req.amount.Some?
    ensures QuoteFor(info, fees, req).value.sufficient == Some(CanSend(info, fees, req, req.amount.value))
       <==> !(&& Saturates(info, fees, req) && req.asset.Some?
              && req.amount.value <= AssetBalance(info, req.asset.value).value)
  {
    CoverageIsExactIff(info, fees, req);
    FeeIsNatural(fees, req.operations);
  }

  /** The greatest amount that can be sent, or zero when there is none. */
  ghost predicate IsGreatest(info: AccountInfo, fees: FeeStats, req: Request, max: int) {
    && 0 <= max && (forall amount: nat :: CanSend(info, fees, req, amount) ==> amount <= max)
    && (if CanSend(info, fees, req, 0) then CanSend(info, fees, req, max) else max == 0)
  }

  lemma MaximumIsGreatestIff(info: AccountInfo, fees: FeeStats, req: Request)
    requires InRange(info, req) && QuoteFor(info, fees, req).Ok?
    ensures IsGreatest(info, fees, req, QuoteFor(info, fees, req).value.maxWithdrawable)
       <==> !(Saturates(info, fees, req) && req.asset.Some? && AssetBalance(info, req.asset.value).value > 0)
  {
    CoverageIsExactIff(info, fees, req);
    FeeIsNatural(fees, req.operations);
  }

  /** `parse_amount_stroops` reads canonical text back. */
  lemma CanonicalParses(v: nat)
    requires v <= I64_MAX
    ensures Amount.ParsedAmount(Amount.Print(v)) == Some(v)
  {
    Amount.PrintRoundTrip(v);
    Amount.ParsersAgree(Amount.Print(v), v);
  }

  /** A fully sponsored account with a full balance is told it can send, though its fee is beyond any balance. */
  lemma SaturationMisleads(fees: FeeStats, operations: I64, asset: (string, string))
    requires 1 <= operations <= MAX_OPERATIONS && ExactFee(fees, operations) > I64_MAX
    ensures var native := Balance(Amount.Print(I64_MAX), "native", None, None);
      var credit := Balance(Amount.Print(1), "credit_alphanum4", Some(asset.0), Some(asset.1));
      var info := AccountInfo([native, credit], 0, 0, 2);
      var req := Request(Some(asset), Some(1), operations);
      && InRange(info, req) && QuoteFor(info, fees, req).Ok?
      && var quote := QuoteFor(info, fees, req).value;
      && quote.estimatedFee != ExactFee(fees, operations) && quote.feeCovered
      && quote.sufficient == Some(true) && !CanSend(info, fees, req, 1)
      && quote.maxWithdrawable == 1 && !CanSend(info, fees, req, 0)
  {
    CanonicalParses(I64_MAX);
    CanonicalParses(1);
    var balances := [Balance(Amount.Print(I64_MAX), "native", None, None),
                     Balance(Amount.Print(1), "credit_alphanum4", Some(asset.0), Some(asset.1))];
    assert FirstNative(balances) == Some(Amount.Print(I64_MAX));
    assert balances[1..][0] == balances[1];
    assert FirstAsset(balances, asset.0, asset.1) == Some(Amount.Print(1));
  }

  /** It refuses exactly bad operation counts, then non-positive amounts, then assets with no readable trustline. */
  lemma RefusesIff(info: AccountInfo, fees: FeeStats, req: Request)
    requires Fits(info, req)
    ensures var r := QuoteFor(info, fees, req);
      var counted := 1 <= req.operations <= 100;
      var positive := req.amount.None? || req.amount.value >= 1;
      && (r == Err(BadOperations) <==> !counted)
      && (r == Err(BadAmount) <==> counted && !positive)
      && (r == Err(NoTrustline) <==>
            counted && positive && req.asset.Some? && AssetBalance(info, req.asset.value).None?)
  {
  }

  /** The figures a quote is made of are the account's and the network's own. */
  lemma QuoteReports(info: AccountInfo, fees: FeeStats, req: Request)
    requires Fits(info, req) && QuoteFor(info, fees, req).Ok?
    ensures var quote := QuoteFor(info, fees, req).value;
      && quote.operations == req.operations && quote.minReserve == ExactReserve(info)
      && quote.nativeBalance == NativeBalance(info) && (quote.assetBalance.Some? <==> req.asset.Some?)
      && (req.asset.Some? ==> quote.assetBalance == AssetBalance(info, req.asset.value))
      && quote.baseFee == ExactFee(FeeStats(fees.lastLedgerBaseFee, 0), 1)
      && quote.recommendedFee == ExactFee(fees, 1) && (quote.sufficient.Some? <==> req.amount.Some?)
  {
  }

  /** The greater of the last base fee, the 90th percentile and zero, for each operation. */
  lemma FeeIs(fees: FeeStats, operations: nat)
    ensures ExactFee(fees, operations) in
      {0, fees.lastLedgerBaseFee * operations, fees.feeChargedP90 * operations}
    ensures ExactFee(fees, 1) >= 0
    ensures ExactFee(fees, 1) >= fees.lastLedgerBaseFee && ExactFee(fees, 1) >= fees.feeChargedP90
    ensures ExactFee(fees, operations) == ExactFee(fees, 1) * operations
  {
  }

  /** The balances read: what the line's text says in stroops; no native line, or an unreadable one, is nothing. */
  lemma BalancesRead(info: AccountInfo, asset: (string, string), n: int)
    ensures FirstNative(info.balances).None? ==> NativeBalance(info) == 0
    ensures FirstNative(info.balances).Some? ==>
      match Amount.ParsedAmount(FirstNative(info.balances).value)
      case None => NativeBalance(info) == 0
      case Some(stroops) => NativeBalance(info) == stroops
    ensures AssetBalance(info, asset) == Some(n) <==>
      var text := FirstAsset(info.balances, asset.0, asset.1);
      text.Some? && Amount.ParsedAmount(text.value) == Some(n)
  {
  }

  /** More operations never raise the maximum. */
  lemma MoreOperationsNeverHelp(info: AccountInfo, fees: FeeStats, req: Request, operations: I64)
    requires Fits(info, req) && QuoteFor(info, fees, req).Ok? && req.operations <= operations <= MAX_OPERATIONS
    ensures QuoteFor(info, fees, req.(operations := operations)).Ok?
    ensures var more := QuoteFor(info, fees, req.(operations := operations)).value;
      more.maxWithdrawable <= QuoteFor(info, fees, req).value.maxWithdrawable
  {
    RefusesIff(info, fees, req);
    RefusesIff(info, fees, req.(operations := operations));
    var recommended := QuoteFor(info, fees, req).value.recommendedFee;
    Scales(recommended, req.operations, operations);
  }

  lemma Scales(fee: int, few: int, many: int)
    requires fee >= 0 && few <= many
    ensures fee * few <= fee * many
  {
  }
}

/**
 The rows of one user's ledger on one venue, as `AccountTransactionSync` reads them, and the rules by
 which two descriptions (one from the venue's API, one from its CSV export) are the same event.

 A row's id is its position in the ledger: rows are only ever appended or updated in place.
 Times are microseconds, amounts are reals.
 */
module LedgerRows {
  import opened Prelude

  type Time = int

  const SECOND: int := 1_000_000
  const HOUR: int := 3600 * SECOND
  const CREDIT_LAG: int := 600 * SECOND
  const DUST_REACH: int := SECOND
  const DUST_ROUNDING: real := 0.00000001
  const LEGACY_TOKEN_SWAP: string := "Token Swap - Distribution"

  datatype Kind =
    | Buy | Sell | SwapIn | SwapOut | Deposit | Withdrawal
    | StakingReward | LendingInterest | Airdrop | Mining
    | Fee | OtherIncome | Lost | WithholdingTax | ReturnOfCapital
    | Adjustment | UnsupportedActivity

  /** The `completeTime` of an API withdrawal: the key may be missing, or hold no readable time. */
  datatype Completion = Absent | Unreadable | CompletedAt(at: Time)

  /** The keys of `raw_data` that the sync reads. A missing number reads as zero, as `nil.to_d` does. */
  datatype Raw = Raw(
    operation: string,
    hasInsertTime: bool,
    completion: Completion,
    amount: real,
    transactionFee: real,
    fromAsset: string,
    transfered: Option<real>,
    serviceCharge: real,
    mergedIds: set<string>,
    twin: Option<Time>)

  /** A ledger entry as an adapter hands it over, and a ledger row as it is stored. */
  datatype Item = Item(
    kind: Kind,
    currency: string,
    amount: real,
    quoteCurrency: Option<string>,
    quoteAmount: Option<real>,
    feeCurrency: Option<string>,
    feeAmount: Option<real>,
    at: Option<Time>,
    txId: Option<string>,
    groupId: string,
    raw: Raw)

  predicate Blank(s: string) {
    forall i :: 0 <= i < |s| ==> s[i] in {' ', '\t', '\n', '\r'}
  }

  predicate Present(id: Option<string>) {
    id.Some? && !Blank(id.value)
  }

  /** A blank id identifies nothing: it is read as no id. */
  function Presence(id: Option<string>): Option<string> {
    if Present(id) then id else None
  }

  predicate StartsWith(s: string, prefix: string) {
    prefix <= s
  }

  function DeleteSuffix(s: string, suffix: string): string {
    if |suffix| <= |s| && s[|s| - |suffix|..] == suffix then s[..|s| - |suffix|] else s
  }

  // ---- one event described twice by its own fields -------------------------------------------------

  /** Across sources a full second apart is still one event; within one source it is two. */
  predicate WithinASecond(e: Item, r: Item)
    requires e.at.Some? && r.at.Some?
  {
    var acrossSources := if Present(e.txId) then r.txId.None? else r.txId.Some?;
    Gap(e.at.value, r.at.value) < SECOND || (acrossSources && Gap(e.at.value, r.at.value) <= SECOND)
  }

  predicate SameEvent(e: Item, r: Item) {
    && r.kind == e.kind && r.currency == e.currency && r.amount == e.amount
    && e.at.Some? && r.at.Some? && WithinASecond(e, r)
  }

  /** One event by kind, currency and amount, at most a second apart. */
  predicate NearBy(c: Item, r: Item) {
    && r.kind == c.kind && r.currency == c.currency && r.amount == c.amount
    && c.at.Some? && r.at.Some? && Gap(c.at.value, r.at.value) <= SECOND
  }

  /** Which stored rows one caller of the same-event rule lets count. */
  datatype Evidence =
    | AnyRow | IdLess | NotApiTransfer | IdLessNotFileTransfer | NotApiDust | IdLessNotFileDust | OldTokenSwap

  predicate Admits(ev: Evidence, r: Item) {
    match ev
    case AnyRow => true
    case IdLess => r.txId.None?
    case NotApiTransfer => !ApiTransfer(r)
    case IdLessNotFileTransfer => r.txId.None? && !FileTransfer(r)
    case NotApiDust => !ApiDust(r)
    case IdLessNotFileDust => r.txId.None? && !FileDust(r)
    case OldTokenSwap => r.raw.operation == LEGACY_TOKEN_SWAP
  }

  predicate Counts(e: Item, ev: Evidence, r: Item) {
    SameEvent(e, r) && Admits(ev, r)
  }

  /** How many of `rows` are the same event as `e` and may count. */
  function Count(rows: seq<Item>, e: Item, ev: Evidence): nat {
    if rows == [] then 0
    else
      Count(rows[..|rows| - 1], e, ev) + if Counts(e, ev, rows[|rows| - 1]) then 1 else 0
  }

  lemma {:induction false} CountZero(rows: seq<Item>, e: Item, ev: Evidence)
    requires forall i :: 0 <= i < |rows| ==> !Counts(e, ev, rows[i])
    ensures Count(rows, e, ev) == 0
  {
    if rows != [] {
      CountZero(rows[..|rows| - 1], e, ev);
    }
  }

  lemma {:induction false} CountSome(rows: seq<Item>, e: Item, ev: Evidence, i: nat)
    requires i < |rows| && Counts(e, ev, rows[i])
    ensures Count(rows, e, ev) > 0
  {
    var n := |rows| - 1;
    if i < n {
      CountSome(rows[..n], e, ev, i);
    }
  }

  datatype EventKey = EventKey(kind: Kind, currency: string, amount: real, at: Option<Time>)

  function KeyOf(e: Item): EventKey {
    EventKey(e.kind, e.currency, e.amount, e.at)
  }

  // ---- one transfer, as the export and the API each describe it ------------------------------------

  predicate FileTransfer(r: Item) {
    || (r.kind == Deposit && r.raw.operation == "Deposit")
    || (r.kind == Withdrawal && r.raw.operation == "Withdraw")
  }

  predicate ApiTransfer(r: Item) {
    Present(r.txId) && ((r.kind == Deposit && r.raw.hasInsertTime) || (r.kind == Withdrawal && !r.raw.completion.Absent?))
  }

  /** What the file says for an API row: its amount, and the window its date falls in. */
  datatype Side = Side(amount: real, from: Time, to: Time, open: bool)

  function FileSide(api: Item): Option<Side> {
    if api.kind == Deposit then
      if api.at.Some? then Some(Side(api.raw.amount, api.at.value, api.at.value + CREDIT_LAG, false)) else None
    else
      match api.raw.completion
      case CompletedAt(done) => Some(Side(api.raw.amount + api.raw.transactionFee, done - SECOND, done + SECOND, true))
      case _ => None
  }

  predicate Pairs(api: Item, file: Item) {
    && file.kind == api.kind && file.currency == api.currency
    && FileSide(api).Some? && file.at.Some?
    && var side := FileSide(api).value;
       var at := file.at.value;
       file.amount == side.amount
       && (if side.open then side.from < at < side.to else side.from <= at <= side.to)
  }

  /** A stored export row an API transfer may give its id to. */
  predicate FreeFileRow(api: Item, r: Item) {
    r.txId.None? && FileTransfer(r) && Pairs(api, r)
  }

  /** A stored API row that an export row pairs with; a withdrawal was requested before it completed. */
  predicate ApiRowFor(file: Item, r: Item) {
    && r.txId.Some? && r.kind == file.kind && r.currency == file.currency
    && r.at.Some? && file.at.Some?
    && (if file.kind == Deposit then file.at.value - CREDIT_LAG <= r.at.value <= file.at.value
        else r.at.value < file.at.value + SECOND)
    && ApiTransfer(r) && Pairs(r, file)
  }

  /** The row's pairing names an export row dated within a second of `at`. */
  predicate TwinNear(r: Item, at: Time) {
    r.raw.twin.Some? && Gap(r.raw.twin.value, at) < SECOND
  }

  // ---- one dust conversion, as the export and the API each describe it -----------------------------

  predicate IsDustLeg(kind: Kind) {
    kind == SwapOut || kind == SwapIn
  }

  predicate FileDust(r: Item) {
    StartsWith(r.groupId, "dustcsv") && IsDustLeg(r.kind)
  }

  predicate ApiDust(r: Item) {
    r.txId.Some? && StartsWith(r.txId.value, "dust-") && IsDustLeg(r.kind) && r.raw.transfered.Some?
  }

  /** The coin and amount out, and the BNB in net of the charge. */
  datatype Conversion = Conversion(coin: string, amount: real, net: real)

  function ConversionOf(raw: Raw): Conversion {
    Conversion(raw.fromAsset, raw.amount, (if raw.transfered.Some? then raw.transfered.value else 0.0) - raw.serviceCharge)
  }

  predicate MatchesLeg(r: Item, c: Conversion) {
    || (r.kind == SwapOut && r.currency == c.coin && r.amount == c.amount)
    || (r.kind == SwapIn && r.currency == "BNB" && -DUST_ROUNDING <= r.amount - c.net <= DUST_ROUNDING)
  }

  predicate WithinReach(at: Option<Time>, centre: Time) {
    at.Some? && Gap(at.value, centre) <= DUST_REACH
  }

  /** The id a dust leg's id is built from. */
  function ConversionId(txId: string): string {
    DeleteSuffix(DeleteSuffix(txId, "-out"), "-in")
  }

  /** The ids an entry may write: its own, and those of the two legs of its conversion. */
  function IdsOf(e: Item): set<string> {
    if !Present(e.txId) then {}
    else {e.txId.value, ConversionId(e.txId.value) + "-out", ConversionId(e.txId.value) + "-in"}
  }

  /** The positions of an out leg and an in leg. */
  datatype Legs = Legs(out: nat, into: nat)

  /** Every pairing of an out leg with an in leg of the same group. */
  function SameGroup(rows: seq<Item>, outs: seq<nat>, ins: seq<nat>): (legs: seq<Legs>)
    requires forall i :: i in outs || i in ins ==> i < |rows|
    ensures forall l :: l in legs <==> l.out in outs && l.into in ins && rows[l.out].groupId == rows[l.into].groupId
  {
    if outs == [] then []
    else
      assert outs[0] in outs && forall i :: i in outs <==> i == outs[0] || i in outs[1..];
      SameGroup(rows, outs[1..], ins) + WithGroup(rows, outs[0], ins)
  }

  function WithGroup(rows: seq<Item>, out: nat, ins: seq<nat>): (legs: seq<Legs>)
    requires out < |rows| && forall i :: i in ins ==> i < |rows|
    ensures forall l :: l in legs <==> l.out == out && l.into in ins && rows[l.out].groupId == rows[l.into].groupId
  {
    if ins == [] then []
    else
      assert ins[0] in ins && forall i :: i in ins <==> i == ins[0] || i in ins[1..];
      WithGroup(rows, out, ins[1..]) + if rows[ins[0]].groupId == rows[out].groupId then [Legs(out, ins[0])] else []
  }

  /** Every out leg and in leg of one group, among the rows that pass `near`. */
  function LegPairs(rows: seq<Item>, near: Item -> bool): (legs: seq<Legs>)
    ensures forall l :: l in legs <==>
        && l.out < |rows| && l.into < |rows| && near(rows[l.out]) && near(rows[l.into])
        && rows[l.out].kind == SwapOut && rows[l.into].kind == SwapIn && rows[l.out].groupId == rows[l.into].groupId
  {
    SameGroup(rows, Select(rows, (r: Item) => near(r) && r.kind == SwapOut),
              Select(rows, (r: Item) => near(r) && r.kind == SwapIn))
  }

  /** A stored, id-less export leg near `at` that describes one side of the conversion. */
  predicate FreeDustLeg(c: Conversion, at: Time, r: Item) {
    r.txId.None? && StartsWith(r.groupId, "dustcsv") && WithinReach(r.at, at) && MatchesLeg(r, c)
  }

  /** A stored API leg near `at` whose conversion the export leg `file` describes one side of. */
  predicate ApiDustRowFor(file: Item, at: Time, r: Item) {
    WithinReach(r.at, at) && ApiDust(r) && MatchesLeg(file, ConversionOf(r.raw))
  }
}

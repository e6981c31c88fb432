/**
 What `AccountTransactionSync#store!` does to a ledger, as functions of the ledger and the batch.
 `base` is the size of the ledger when the run began: rows at or past it were stored by this run,
 and are no evidence that an entry of the same batch is a duplicate.
 */
module LedgerStore {
  import opened Prelude
  import opened LedgerRows

  /** The rows, and the ids of split legs already stored merged into one adjustment. */
  datatype Ledger = Ledger(rows: seq<Item>, merged: set<string>)

  /** Whether an entry is a duplicate, and the rows once its pairing is written down. */
  datatype Verdict = Verdict(duplicate: bool, rows: seq<Item>)

  predicate HasId(rows: seq<Item>, id: string) {
    exists i :: 0 <= i < |rows| && rows[i].txId == Some(id)
  }

  predicate KnownId(l: Ledger, id: Option<string>) {
    id.Some? && (id.value in l.merged || HasId(l.rows, id.value))
  }

  /** The Nth identical entry of a batch is a duplicate while N such rows were there before the run. */
  predicate Counted(rows: seq<Item>, base: nat, e: Item, ev: Evidence, repeat: nat)
    requires base <= |rows|
  {
    e.at.Some? && Count(rows[..base], e, ev) > repeat
  }

  function WithId(r: Item, id: string): Item {
    r.(txId := Some(id))
  }

  function Stamped(r: Item, at: Time): Item {
    r.(raw := r.raw.(twin := Some(at)))
  }

  // ---- transfers -----------------------------------------------------------------------------------

  /** The export rows an arriving API transfer may give its id to. */
  function FreeFileRows(rows: seq<Item>, api: Item): (free: seq<nat>)
    ensures forall i :: i in free <==> 0 <= i < |rows| && FreeFileRow(api, rows[i])
  {
    Select(rows, (r: Item) => FreeFileRow(api, r))
  }

  function ApiTransferTwin(rows: seq<Item>, base: nat, e: Item, tx: string, repeat: nat): (v: Verdict)
    requires base <= |rows|
    ensures |v.rows| == |rows|
  {
    var free := FreeFileRows(rows, e);
    if Counted(rows, base, e, IdLessNotFileTransfer, repeat) then Verdict(true, rows)
    else if |free| == 1 then
      assert free[0] in free;
      Verdict(true, rows[free[0] := WithId(rows[free[0]], tx)])
    else Verdict(false, rows)
  }

  /** The API rows an arriving export row pairs with, not yet paired. */
  function FreeApiRows(rows: seq<Item>, file: Item): (free: seq<nat>)
    ensures forall i :: i in free <==> 0 <= i < |rows| && ApiRowFor(file, rows[i]) && rows[i].raw.twin.None?
  {
    Select(rows, (r: Item) => ApiRowFor(file, r) && r.raw.twin.None?)
  }

  predicate Twinned(rows: seq<Item>, file: Item) {
    file.at.Some? && exists i :: 0 <= i < |rows| && ApiRowFor(file, rows[i]) && TwinNear(rows[i], file.at.value)
  }

  /** An export row whose pairing is already written down, on it or on an API row. */
  predicate Paired(rows: seq<Item>, file: Item) {
    || (exists i :: 0 <= i < |rows| && rows[i].txId.Some? && SameEvent(file, rows[i]) && !ApiTransfer(rows[i]))
    || Twinned(rows, file)
  }

  predicate Rival(rows: seq<Item>, api: Item, other: Item, itself: bool) {
    !Present(other.txId) && FileTransfer(other) && Pairs(api, other) && (itself || !Paired(rows, other))
  }

  /** The export rows among the first `n` of the batch that could still take the API row. */
  function Rivals(rows: seq<Item>, batch: seq<Item>, n: nat, i: nat, api: Item): nat
    requires n <= |batch|
  {
    if n == 0 then 0
    else Rivals(rows, batch, n - 1, i, api) + if Rival(rows, api, batch[n - 1], n - 1 == i) then 1 else 0
  }

  function FileTransferTwin(rows: seq<Item>, base: nat, batch: seq<Item>, i: nat, repeat: nat): (v: Verdict)
    requires base <= |rows| && i < |batch|
    ensures |v.rows| == |rows|
  {
    var e := batch[i];
    var free := FreeApiRows(rows, e);
    if e.at.None? then Verdict(false, rows)
    else if Counted(rows, base, e, NotApiTransfer, repeat) || Twinned(rows, e) then Verdict(true, rows)
    else if |free| == 1 then
      assert free[0] in free;
      if Rivals(rows, batch, |batch|, i, rows[free[0]]) == 1 then
        Verdict(true, rows[free[0] := Stamped(rows[free[0]], e.at.value)])
      else Verdict(false, rows)
    else Verdict(false, rows)
  }

  // ---- dust conversions ----------------------------------------------------------------------------

  /** Both legs take their ids, or neither does. */
  function TakeBoth(rows: seq<Item>, l: Legs, id: string): (taken: seq<Item>)
    requires l.out < |rows| && l.into < |rows| && l.out != l.into
    ensures |taken| == |rows|
  {
    if HasId(rows, id + "-out") || HasId(rows, id + "-in") then rows
    else rows[l.out := WithId(rows[l.out], id + "-out")][l.into := WithId(rows[l.into], id + "-in")]
  }

  /** The export legs near an arriving API leg that its conversion may give ids to. */
  function FreeDust(rows: seq<Item>, e: Item): (legs: seq<Legs>)
    requires e.at.Some?
    ensures forall l :: l in legs <==>
        && l.out < |rows| && l.into < |rows|
        && FreeDustLeg(ConversionOf(e.raw), e.at.value, rows[l.out]) && FreeDustLeg(ConversionOf(e.raw), e.at.value, rows[l.into])
        && rows[l.out].kind == SwapOut && rows[l.into].kind == SwapIn && rows[l.out].groupId == rows[l.into].groupId
  {
    LegPairs(rows, (r: Item) => FreeDustLeg(ConversionOf(e.raw), e.at.value, r))
  }

  function ApiDustTwin(rows: seq<Item>, base: nat, e: Item, tx: string, repeat: nat): (v: Verdict)
    requires base <= |rows|
    ensures |v.rows| == |rows|
  {
    if e.at.None? then Verdict(false, rows)
    else if Counted(rows, base, e, IdLessNotFileDust, repeat) then Verdict(true, rows)
    else
      var legs := FreeDust(rows, e);
      if |legs| == 1 then
        assert legs[0] in legs;
        Verdict(true, TakeBoth(rows, legs[0], ConversionId(tx)))
      else Verdict(false, rows)
  }

  /** Both legs of one stored API group near the export leg `e`, each of a conversion that `e` is a leg of. */
  predicate ApiLegs(rows: seq<Item>, e: Item, l: Legs)
    requires e.at.Some?
  {
    && l.out < |rows| && l.into < |rows| && rows[l.out].kind == SwapOut && rows[l.into].kind == SwapIn
    && rows[l.out].groupId == rows[l.into].groupId
    && ApiDustRowFor(e, e.at.value, rows[l.out]) && ApiDustRowFor(e, e.at.value, rows[l.into])
  }

  /** The group holds no other leg near `e`: one row out, one in. */
  ghost predicate IsWhole(rows: seq<Item>, e: Item, l: Legs)
    requires e.at.Some?
  {
    ApiLegs(rows, e, l) && forall m :: ApiLegs(rows, e, m) && rows[m.out].groupId == rows[l.out].groupId ==> m == l
  }

  function AllApiLegs(rows: seq<Item>, e: Item): (legs: seq<Legs>)
    requires e.at.Some?
    ensures forall l :: l in legs <==> ApiLegs(rows, e, l)
  {
    LegPairs(rows, (r: Item) => ApiDustRowFor(e, e.at.value, r))
  }

  /** The stored API conversions near the export leg that it is a leg of, each whole. */
  function WholeConversions(rows: seq<Item>, e: Item): (whole: seq<Legs>)
    requires e.at.Some?
    ensures forall l :: l in whole <==> IsWhole(rows, e, l)
    ensures |whole| <= |AllApiLegs(rows, e)|
  {
    var legs := AllApiLegs(rows, e);
    Filter(legs, (l: Legs) => l in legs && forall m :: m in legs && rows[m.out].groupId == rows[l.out].groupId ==>
      m == l)
  }

  /** Those of them that no export row was paired with yet. */
  function FreeConversions(rows: seq<Item>, e: Item): (free: seq<Legs>)
    requires e.at.Some?
    ensures forall l :: l in free <==>
              l in WholeConversions(rows, e) && rows[l.out].raw.twin.None? && rows[l.into].raw.twin.None?
    ensures |free| <= |WholeConversions(rows, e)|
  {
    var whole := WholeConversions(rows, e);
    Filter(whole, (l: Legs) => l in whole && rows[l.out].raw.twin.None? && rows[l.into].raw.twin.None?)
  }

  predicate ConversionTwinned(rows: seq<Item>, e: Item)
    requires e.at.Some?
  {
    exists l :: l in WholeConversions(rows, e) && (TwinNear(rows[l.out], e.at.value) || TwinNear(rows[l.into], e.at.value))
  }

  /** An export leg of the batch that belongs to the conversion the API row is a leg of. */
  predicate BatchLeg(api: Item, other: Item) {
    && !Present(other.txId) && FileDust(other)
    && api.at.Some? && WithinReach(other.at, api.at.value) && MatchesLeg(other, ConversionOf(api.raw))
  }

  /** The legs of the batch's export groups that describe the conversion of one API row. */
  function BatchLegs(batch: seq<Item>, api: Item): (legs: seq<Legs>)
    ensures forall l :: l in legs <==>
        && l.out < |batch| && l.into < |batch| && BatchLeg(api, batch[l.out]) && BatchLeg(api, batch[l.into])
        && batch[l.out].kind == SwapOut && batch[l.into].kind == SwapIn && batch[l.out].groupId == batch[l.into].groupId
  {
    LegPairs(batch, (other: Item) => BatchLeg(api, other))
  }

  function StampBoth(rows: seq<Item>, l: Legs, at: Time): (stamped: seq<Item>)
    requires l.out < |rows| && l.into < |rows|
    ensures |stamped| == |rows|
  {
    rows[l.out := Stamped(rows[l.out], at)][l.into := Stamped(rows[l.into], at)]
  }

  /** The one conversion an export leg may be paired with. */
  function TheConversion(rows: seq<Item>, e: Item): (one: Option<Legs>)
    requires e.at.Some?
    ensures one.Some? ==>
      var l := one.value;
      && l.out < |rows| && l.into < |rows| && l.out != l.into
      && rows[l.out].raw.twin.None? && rows[l.into].raw.twin.None?
  {
    var free := FreeConversions(rows, e);
    if |free| == 1 then
      assert free[0] in free;
      Some(free[0])
    else None
  }

  lemma TheConversionIsWhole(rows: seq<Item>, e: Item)
    requires e.at.Some?
    ensures TheConversion(rows, e).Some? ==> IsWhole(rows, e, TheConversion(rows, e).value)
  {
    hide IsWhole;
    var free := FreeConversions(rows, e);
    assert |free| == 1 ==> free[0] in free;
  }

  /** The group whose legs in the batch, and no other's, are those of the API row's conversion. */
  function TheGroup(batch: seq<Item>, api: Item): Option<string> {
    var legs := BatchLegs(batch, api);
    if |legs| == 1 then
      assert legs[0] in legs;
      Some(batch[legs[0].out].groupId)
    else None
  }

  /** Pairs an export leg's group with the one free conversion it describes, whole or not at all. */
  function PairDust(rows: seq<Item>, batch: seq<Item>, e: Item): (v: Verdict)
    requires e.at.Some?
    ensures |v.rows| == |rows|
  {
    match TheConversion(rows, e)
    case None => Verdict(false, rows)
    case Some(api) =>
      if TheGroup(batch, rows[Min(api.out, api.into)]) == Some(e.groupId) then Verdict(true, StampBoth(rows, api, e.at.value))
      else Verdict(false, rows)
  }

  function FileDustTwin(rows: seq<Item>, base: nat, batch: seq<Item>, i: nat, repeat: nat): (v: Verdict)
    requires base <= |rows| && i < |batch|
    ensures |v.rows| == |rows|
  {
    var e := batch[i];
    if e.at.None? then Verdict(false, rows)
    else if Counted(rows, base, e, NotApiDust, repeat) || ConversionTwinned(rows, e) then Verdict(true, rows)
    else PairDust(rows, batch, e)
  }

  // ---- plain rows ----------------------------------------------------------------------------------

  /** A whole export swap pair against one id-less trade that an older reading stored in its place. */
  predicate ReplacedTrade(rows: seq<Item>, batch: seq<Item>, e: Item) {
    && StartsWith(e.groupId, "swapcsv_") && e.at.Some?
    && var legs := Select(batch, (other: Item) => other.groupId == e.groupId);
       && |legs| == 2
       && assert legs[0] in legs && legs[1] in legs;
          var a, b := batch[legs[0]], batch[legs[1]];
          || (a.kind == SwapIn && b.kind == SwapOut && TradeStored(rows, e, a, b))
          || (a.kind == SwapOut && b.kind == SwapIn && TradeStored(rows, e, b, a))
  }

  predicate TradeStored(rows: seq<Item>, e: Item, into: Item, out: Item)
    requires e.at.Some?
  {
    exists k :: 0 <= k < |rows| && rows[k].txId.None? && rows[k].at.Some? && WithinASecond(e, rows[k]) && TradeOf(rows[k], into, out)
  }

  predicate TradeOf(r: Item, into: Item, out: Item) {
    || (r.kind == Buy && r.currency == into.currency && r.amount == into.amount
        && r.quoteCurrency == Some(out.currency) && r.quoteAmount == Some(out.amount))
    || (r.kind == Sell && r.currency == out.currency && r.amount == out.amount
        && r.quoteCurrency == Some(into.currency) && r.quoteAmount == Some(into.amount))
  }

  predicate OldTokenSwapStored(rows: seq<Item>, base: nat, e: Item, repeat: nat)
    requires base <= |rows|
  {
    && e.kind == Airdrop && e.raw.operation == LEGACY_TOKEN_SWAP
    && Counted(rows, base, e.(kind := OtherIncome), OldTokenSwap, repeat)
  }

  /** The entry is settled by one of the rules for rows an older reading stored differently. */
  predicate SettledByOldReading(rows: seq<Item>, base: nat, batch: seq<Item>, i: nat, repeat: nat)
    requires base <= |rows| && i < |batch|
  {
    && Presence(batch[i].txId).None? && !FileDust(batch[i]) && !FileTransfer(batch[i])
    && !Counted(rows, base, batch[i], AnyRow, repeat)
    && (ReplacedTrade(rows, batch, batch[i]) || OldTokenSwapStored(rows, base, batch[i], repeat))
  }

  function Duplicate(l: Ledger, base: nat, batch: seq<Item>, i: nat, repeat: nat): (v: Verdict)
    requires base <= |l.rows| && i < |batch|
    ensures |v.rows| == |l.rows|
  {
    var e := batch[i];
    match Presence(e.txId)
    case None =>
      if FileDust(e) then FileDustTwin(l.rows, base, batch, i, repeat)
      else if FileTransfer(e) then FileTransferTwin(l.rows, base, batch, i, repeat)
      else Verdict(Counted(l.rows, base, e, AnyRow, repeat) || SettledByOldReading(l.rows, base, batch, i, repeat), l.rows)
    case Some(tx) =>
      if KnownId(l, Some(tx)) then Verdict(true, l.rows)
      else if ApiDust(e) then ApiDustTwin(l.rows, base, e, tx, repeat)
      else if ApiTransfer(e) then ApiTransferTwin(l.rows, base, e, tx, repeat)
      else Verdict(Counted(l.rows, base, e, IdLess, repeat), l.rows)
  }

  // ---- a whole run ---------------------------------------------------------------------------------

  /** The validations a stored row must pass. */
  predicate Saves(e: Item) {
    e.at.Some? && !Blank(e.currency)
  }

  predicate NoFee(e: Item) {
    e.feeAmount.None? || e.feeAmount.value == 0.0
  }

  /** The row an entry is stored as: a blank id and a zero fee are none. */
  function Stored(e: Item): Item {
    e.(txId := Presence(e.txId),
       feeCurrency := if NoFee(e) then None else e.feeCurrency,
       feeAmount := if NoFee(e) then None else e.feeAmount)
  }

  datatype Outcome = Outcome(imported: nat, duplicates: nat, skipped: nat, minSkipped: Option<Time>)

  datatype Progress = Progress(ledger: Ledger, repeats: map<EventKey, nat>, outcome: Outcome)

  function Seen(repeats: map<EventKey, nat>, key: EventKey): nat {
    if key in repeats then repeats[key] else 0
  }

  /** How many identical entries came before this one; an entry its id already names is not counted. */
  function Repeat(p: Progress, e: Item): nat {
    if KnownId(p.ledger, Presence(e.txId)) then 0 else Seen(p.repeats, KeyOf(e))
  }

  function EarliestOf(a: Option<Time>, b: Option<Time>): Option<Time> {
    if a.None? then b else if b.None? then a else Some(Min(a.value, b.value))
  }

  /** Counts the entry, unless its id already names a row. */
  function Tally(p: Progress, e: Item): map<EventKey, nat> {
    if KnownId(p.ledger, Presence(e.txId)) then p.repeats else p.repeats[KeyOf(e) := Seen(p.repeats, KeyOf(e)) + 1]
  }

  /** What becomes of an entry once it is known whether it is a duplicate. */
  function Settle(p: Progress, e: Item, v: Verdict): Progress {
    var o := p.outcome;
    if v.duplicate then
      Progress(p.ledger.(rows := v.rows), Tally(p, e), o.(duplicates := o.duplicates + 1))
    else if Saves(e) then
      Progress(Ledger(v.rows + [Stored(e)], p.ledger.merged + e.raw.mergedIds), Tally(p, e), o.(imported := o.imported + 1))
    else
      Progress(p.ledger.(rows := v.rows), Tally(p, e),
               o.(skipped := o.skipped + 1, minSkipped := EarliestOf(o.minSkipped, e.at)))
  }

  function Step(p: Progress, base: nat, batch: seq<Item>, i: nat): (q: Progress)
    requires base <= |p.ledger.rows| && i < |batch|
    ensures base <= |q.ledger.rows|
  {
    Settle(p, batch[i], Duplicate(p.ledger, base, batch, i, Repeat(p, batch[i])))
  }

  /** The run after the first `n` entries of the batch. */
  function After(l: Ledger, batch: seq<Item>, n: nat): (p: Progress)
    requires n <= |batch|
    ensures |l.rows| <= |p.ledger.rows|
  {
    if n == 0 then Progress(l, map[], Outcome(0, 0, 0, None))
    else Step(After(l, batch, n - 1), |l.rows|, batch, n - 1)
  }

  /** Only entries that came before are counted. */
  lemma {:induction false} RepeatsComeFromBatch(l: Ledger, batch: seq<Item>, n: nat, key: EventKey)
    requires n <= |batch| && key in After(l, batch, n).repeats
    ensures exists j :: 0 <= j < n && key == KeyOf(batch[j])
  {
    hide Duplicate, KeyOf;
    if n > 0 && key != KeyOf(batch[n - 1]) {
      RepeatsComeFromBatch(l, batch, n - 1, key);
    }
  }

  /** `store!` as a whole. */
  function Store(l: Ledger, batch: seq<Item>): Progress {
    After(l, batch, |batch|)
  }
}

/** A venue's ticker rows, the records an import brings, and the names it parks out of the way. */
module TickerRows {
  import opened Prelude

  const TOMBSTONE_PREFIX: string := "__stale_"

  datatype Row = Row(id: nat, baseAsset: nat, quoteAsset: nat, base: string, quote: string, ticker: string, available: bool)

  datatype Record = Record(baseAsset: nat, quoteAsset: nat, base: string, quote: string, ticker: string, assetClass: string)

  /** A name only the row with this id is given when it is moved out of the way. */
  function Stale(id: nat): string {
    TOMBSTONE_PREFIX + Decimal(id) + "_"
  }

  function TombstoneValue(id: nat, value: string): string {
    if TOMBSTONE_PREFIX <= value then value else Stale(id) + value
  }

  function Tombstoned(r: Row): Row {
    r.(ticker := TombstoneValue(r.id, r.ticker), base := TombstoneValue(r.id, r.base), available := false)
  }

  predicate SamePair(r: Row, record: Record) {
    r.baseAsset == record.baseAsset && r.quoteAsset == record.quoteAsset
  }

  /** The table's own indexes, and stale names that carry their own row's id. */
  ghost predicate Indexed(rows: seq<Row>) {
    && (forall i, j :: 0 <= i < j < |rows| ==> rows[i].id != rows[j].id)
    && (forall i, j :: 0 <= i < j < |rows| ==>
         (rows[i].baseAsset, rows[i].quoteAsset) != (rows[j].baseAsset, rows[j].quoteAsset))
    && (forall i, j :: 0 <= i < j < |rows| ==> rows[i].ticker != rows[j].ticker)
    && (forall i :: 0 <= i < |rows| && TOMBSTONE_PREFIX <= rows[i].ticker ==> Stale(rows[i].id) <= rows[i].ticker)
  }

  predicate SameDisplay(r: Row, s: Row, category: nat -> string) {
    category(r.baseAsset) == category(s.baseAsset) && r.base == s.base && r.quote == s.quote
  }

  predicate ShownAs(r: Row, record: Record, category: nat -> string) {
    category(r.baseAsset) == record.assetClass && r.base == record.base && r.quote == record.quote
  }

  /** No two rows are shown under one class, base and quote. The schema has no such index. */
  ghost predicate Displayed(rows: seq<Row>, category: nat -> string) {
    && (forall i, j :: 0 <= i < j < |rows| ==> !SameDisplay(rows[i], rows[j], category))
    && (forall i :: 0 <= i < |rows| && TOMBSTONE_PREFIX <= rows[i].base ==> Stale(rows[i].id) <= rows[i].base)
  }

  function PairOf(record: Record): (nat, nat) {
    (record.baseAsset, record.quoteAsset)
  }

  function DisplayOf(record: Record): (string, string, string) {
    (record.assetClass, record.base, record.quote)
  }

  function NameOf(record: Record): string {
    record.ticker
  }

  ghost predicate DistinctBy<T, K>(xs: seq<T>, key: T -> K) {
    forall i, j :: 0 <= i < j < |xs| ==> key(xs[i]) != key(xs[j])
  }

  /** One record per pair, per display and per name. */
  ghost predicate Deduplicated(records: seq<Record>) {
    && (forall k, m :: 0 <= k < |records| && 0 <= m < |records| && PairOf(records[k]) == PairOf(records[m]) ==> k == m)
    && (forall k, m :: 0 <= k < |records| && 0 <= m < |records| && DisplayOf(records[k]) == DisplayOf(records[m]) ==>
         k == m)
    && (forall k, m :: 0 <= k < |records| && 0 <= m < |records| && records[k].ticker == records[m].ticker ==> k == m)
  }

  /** What an import is given: classes are those of the base assets, and no name reads as stale. */
  ghost predicate Importable(records: seq<Record>, category: nat -> string) {
    && Deduplicated(records)
    && forall k :: 0 <= k < |records| ==>
         && records[k].assetClass == category(records[k].baseAsset)
         && !(TOMBSTONE_PREFIX <= records[k].ticker) && !(TOMBSTONE_PREFIX <= records[k].base)
  }

  // ---- stale names ---------------------------------------------------------------------------------

  lemma {:induction false} DigitsEnd(a: string, b: string, v: string, w: string)
    requires forall i :: 0 <= i < |a| ==> a[i] != '_'
    requires forall i :: 0 <= i < |b| ==> b[i] != '_'
    requires a + "_" + v == b + "_" + w
    ensures a == b
  {
    var s := a + "_" + v;
    assert s[|a|] == '_' && s[|b|] == '_';
    assert forall i :: 0 <= i < |a| ==> s[i] == a[i];
    assert forall i :: 0 <= i < |b| ==> s[i] == b[i];
    assert |a| == |b|;
    assert s[..|a|] == a && s[..|b|] == b;
  }

  /** No stale name of one row is a stale name of another. */
  lemma StaleNamesApart(m: nat, n: nat, v: string, w: string)
    requires m != n
    ensures Stale(m) + v != Stale(n) + w
  {
    DecimalsDiffer(m, n);
    if Stale(m) + v == Stale(n) + w {
      assert (Stale(m) + v)[|TOMBSTONE_PREFIX|..] == Decimal(m) + "_" + v;
      assert (Stale(n) + w)[|TOMBSTONE_PREFIX|..] == Decimal(n) + "_" + w;
      DigitsEnd(Decimal(m), Decimal(n), v, w);
    }
  }

  // ---- the holders a record finds, as indexed before any row is changed ----------------------------

  /** The last position that passes. */
  function LastWhere(rows: seq<Row>, keep: Row -> bool): (at: Option<nat>)
    ensures match at
            case None => forall i :: 0 <= i < |rows| ==> !keep(rows[i])
            case Some(i) => i < |rows| && keep(rows[i]) && forall j :: i < j < |rows| ==> !keep(rows[j])
  {
    if rows == [] then None
    else
      var n := |rows| - 1;
      if keep(rows[n]) then Some(n) else LastWhere(rows[..n], keep)
  }

  function ByPair(rows: seq<Row>, record: Record): (at: Option<nat>)
    ensures match at
            case None => forall i :: 0 <= i < |rows| ==> !SamePair(rows[i], record)
            case Some(i) => i < |rows| && SamePair(rows[i], record)
  {
    LastWhere(rows, (r: Row) => SamePair(r, record))
  }

  function ByTicker(rows: seq<Row>, record: Record): (at: Option<nat>)
    ensures match at
            case None => forall i :: 0 <= i < |rows| ==> rows[i].ticker != record.ticker
            case Some(i) => i < |rows| && rows[i].ticker == record.ticker
  {
    LastWhere(rows, (r: Row) => r.ticker == record.ticker)
  }

  function ByBaseQuote(rows: seq<Row>, category: nat -> string, record: Record): (at: Option<nat>)
    ensures match at
            case None => forall i :: 0 <= i < |rows| ==> !ShownAs(rows[i], record, category)
            case Some(i) => i < |rows| && ShownAs(rows[i], record, category)
  {
    LastWhere(rows, (r: Row) => ShownAs(r, record, category))
  }

  predicate Holds(rows: seq<Row>, category: nat -> string, record: Record, i: nat) {
    ByTicker(rows, record) == Some(i) || ByBaseQuote(rows, category, record) == Some(i)
  }

  /** The row must give up its names: a record of another pair needs them. */
  ghost predicate Displaced(rows: seq<Row>, category: nat -> string, records: seq<Record>, i: nat)
    requires i < |rows|
  {
    exists k :: 0 <= k < |records| && Holds(rows, category, records[k], i) && !SamePair(rows[i], records[k])
  }

  /** A record's name is held by an asset of another class. */
  predicate Foreign(rows: seq<Row>, category: nat -> string, record: Record) {
    ByTicker(rows, record).Some? && category(rows[ByTicker(rows, record).value].baseAsset) != record.assetClass
  }

  ghost function Freed(rows: seq<Row>, category: nat -> string, records: seq<Record>, i: nat): Row
    requires i < |rows|
  {
    if Displaced(rows, category, records, i) then Tombstoned(rows[i]) else rows[i]
  }

  function Renamed(r: Row, record: Record): Row {
    r.(base := record.base, quote := record.quote, ticker := record.ticker)
  }

  /** A record names this row's pair. */
  ghost predicate Named(r: Row, records: seq<Record>) {
    exists k :: 0 <= k < |records| && SamePair(r, records[k])
  }

  /** Whoever holds a record's name is the record's own row. */
  ghost predicate Cleared(rows: seq<Row>, records: seq<Record>) {
    forall i, k :: 0 <= i < |rows| && 0 <= k < |records| && rows[i].ticker == records[k].ticker ==>
      SamePair(rows[i], records[k])
  }

  /** The same of what rows are shown under. */
  ghost predicate ShownApart(rows: seq<Row>, category: nat -> string, records: seq<Record>) {
    && Displayed(rows, category)
    && forall i, k :: 0 <= i < |rows| && 0 <= k < |records| && ShownAs(rows[i], records[k], category) ==>
         SamePair(rows[i], records[k])
  }

  predicate SameRow(r: Row, s: Row) {
    r.id == s.id && r.baseAsset == s.baseAsset && r.quoteAsset == s.quoteAsset
  }

  predicate Carries(r: Row, record: Record) {
    SamePair(r, record) && r.base == record.base && r.quote == record.quote && r.ticker == record.ticker && r.available
  }

  function Taken(r: Row, record: Record): Row {
    Renamed(r, record).(available := true)
  }

  function NewRow(id: nat, record: Record): Row {
    Row(id, record.baseAsset, record.quoteAsset, record.base, record.quote, record.ticker, true)
  }

  /** The first k records each have their row, in place where the pair was known; every other row is as it was. */
  ghost predicate Upserted(was: seq<Row>, now: seq<Row>, records: seq<Record>, k: nat)
    requires k <= |records|
  {
    && |was| <= |now|
    && (forall i :: 0 <= i < |was| ==> SameRow(was[i], now[i]))
    && (forall i :: 0 <= i < |was| && !Named(was[i], records[..k]) ==> now[i] == was[i])
    && (forall i :: |was| <= i < |now| ==> Named(now[i], records[..k]))
    && (forall i, m :: 0 <= i < |now| && 0 <= m < k && SamePair(now[i], records[m]) ==> Carries(now[i], records[m]))
    && (forall m :: 0 <= m < k ==> exists i :: 0 <= i < |now| && Carries(now[i], records[m]))
  }

  /** Every displaced row under its stale names. */
  ghost function FreedRows(rows: seq<Row>, category: nat -> string, records: seq<Record>): (freed: seq<Row>)
    ensures |freed| == |rows| && forall i :: 0 <= i < |rows| ==> freed[i] == Freed(rows, category, records, i)
  {
    seq(|rows|, i requires 0 <= i < |rows| => Freed(rows, category, records, i))
  }

  /** The table an import leaves. */
  ghost predicate ImportOf(was: seq<Row>, now: seq<Row>, category: nat -> string, records: seq<Record>) {
    Upserted(FreedRows(was, category, records), now, records, |records|)
  }

  // ---- the records of one payload ------------------------------------------------------------------

  /** The first of each key, in order. */
  function Uniq<T, K(==)>(xs: seq<T>, key: T -> K): (kept: seq<T>)
    ensures forall i :: 0 <= i < |kept| ==> kept[i] in xs
  {
    if xs == [] then []
    else
      var before := Uniq(xs[..|xs| - 1], key);
      if exists i :: 0 <= i < |before| && key(before[i]) == key(xs[|xs| - 1]) then before else before + [xs[|xs| - 1]]
  }

  /** No key twice. */
  lemma {:induction false} UniqIsDistinct<T, K>(xs: seq<T>, key: T -> K)
    ensures DistinctBy(Uniq(xs, key), key)
  {
    if xs != [] {
      UniqIsDistinct(xs[..|xs| - 1], key);
    }
  }

  /** Every key still there. */
  lemma {:induction false} UniqKeepsOneEach<T, K>(xs: seq<T>, key: T -> K, x: T)
    requires x in xs
    ensures exists y :: y in Uniq(xs, key) && key(y) == key(x)
  {
    var n := |xs| - 1;
    var before := Uniq(xs[..n], key);
    if x in xs[..n] {
      UniqKeepsOneEach(xs[..n], key, x);
    } else if i :| 0 <= i < |before| && key(before[i]) == key(xs[n]) {
      assert before[i] in Uniq(xs, key);
    } else {
      assert x == xs[n] && x in Uniq(xs, key);
    }
  }

  /** Elements told apart by another key still are. */
  lemma {:induction false} UniqKeepsApart<T, K, L>(xs: seq<T>, key: T -> K, other: T -> L)
    requires DistinctBy(xs, other)
    ensures DistinctBy(Uniq(xs, key), other)
  {
    if xs != [] {
      var n := |xs| - 1;
      var before := Uniq(xs[..n], key);
      assert DistinctBy(xs[..n], other);
      UniqKeepsApart(xs[..n], key, other);
      forall j | 0 <= j < |before|
        ensures other(before[j]) != other(xs[n])
      {
        assert before[j] in xs[..n];
      }
    }
  }

  /** One symbol in two asset classes. */
  predicate Ambiguous(records: seq<Record>) {
    exists i, j ::
      && 0 <= i < |records| && 0 <= j < |records|
      && records[i].ticker == records[j].ticker && records[i].assetClass != records[j].assetClass
  }

  /** The records written for a payload, or nothing when one symbol spans classes. */
  function RecordsFor(records: seq<Record>): (kept: Option<seq<Record>>)
  {
    if Ambiguous(records) then None else Some(Uniq(Uniq(Uniq(records, PairOf), DisplayOf), NameOf))
  }

  lemma RecordsAreDeduplicated(records: seq<Record>)
    ensures RecordsFor(records).None? <==>
              exists one, other :: one in records && other in records && one.ticker == other.ticker && one.assetClass != other.assetClass
    ensures RecordsFor(records).Some? ==>
              && Deduplicated(RecordsFor(records).value)
              && forall record :: record in RecordsFor(records).value ==> record in records
  {
    var pairs := Uniq(records, PairOf);
    var shown := Uniq(pairs, DisplayOf);
    var kept := Uniq(shown, NameOf);
    UniqIsDistinct(records, PairOf);
    UniqIsDistinct(pairs, DisplayOf);
    UniqIsDistinct(shown, NameOf);
    UniqKeepsApart(pairs, DisplayOf, PairOf);
    UniqKeepsApart(shown, NameOf, PairOf);
    UniqKeepsApart(shown, NameOf, DisplayOf);
    assert DistinctBy(kept, PairOf) && DistinctBy(kept, DisplayOf) && DistinctBy(kept, NameOf);
    DistinctKeys(kept);
  }

  lemma DistinctKeys(kept: seq<Record>)
    requires DistinctBy(kept, PairOf) && DistinctBy(kept, DisplayOf) && DistinctBy(kept, NameOf)
    ensures Deduplicated(kept)
  {
    forall k, m | 0 <= k < m < |kept|
      ensures PairOf(kept[k]) != PairOf(kept[m]) && DisplayOf(kept[k]) != DisplayOf(kept[m])
      ensures kept[k].ticker != kept[m].ticker
    {
      assert NameOf(kept[k]) == kept[k].ticker && NameOf(kept[m]) == kept[m].ticker;
    }
  }
}

/** The import of a venue's tickers: rows are renamed in place, in two passes, and never deleted. */
module TickerImport {
  import opened Prelude
  import opened TickerRows

  datatype Outcome = Imported | WrongClass

  /** The table, and how many writes a unique index refused. */
  class TickerTable {
    var rows: seq<Row>
    var nextId: nat
    var refused: nat

    ghost predicate Valid()
      reads this
    {
      Indexed(rows) && forall i :: 0 <= i < |rows| ==> rows[i].id < nextId
    }

    constructor ()
      ensures Valid() && rows == [] && refused == 0
    {
      rows, nextId, refused := [], 0, 0;
    }

    /** Writes one row; the unique index on the name refuses one that another row has. */
    method UpdateRow(i: nat, r: Row)
      requires i < |rows| && r.id == rows[i].id && r.baseAsset == rows[i].baseAsset
      requires r.quoteAsset == rows[i].quoteAsset
      modifies this`rows, this`refused
      ensures if forall j :: 0 <= j < |old(rows)| && j != i ==> old(rows)[j].ticker != r.ticker
              then rows == old(rows)[i := r] && refused == old(refused)
              else rows == old(rows) && refused == old(refused) + 1
    {
      if forall j :: 0 <= j < |rows| && j != i ==> rows[j].ticker != r.ticker {
        rows := rows[i := r];
      } else {
        refused := refused + 1;
      }
    }

    /** Adds one row; both unique indexes can refuse it. */
    method InsertRow(record: Record)
      modifies this
      ensures if forall j :: 0 <= j < |old(rows)| ==>
                old(rows)[j].ticker != record.ticker && !SamePair(old(rows)[j], record)
              then rows == old(rows) + [NewRow(old(nextId), record)] && refused == old(refused)
              else rows == old(rows) && refused == old(refused) + 1
      ensures nextId == old(nextId) + 1
    {
      if forall j :: 0 <= j < |rows| ==> rows[j].ticker != record.ticker && !SamePair(rows[j], record) {
        rows := rows + [NewRow(nextId, record)];
      } else {
        refused := refused + 1;
      }
      nextId := nextId + 1;
    }

    /** Moves one holder of a record's names out of the way, unless it is the record's own row. */
    method FreeHolder(i: nat, record: Record, ghost category: nat -> string)
      requires Valid() && i < |rows|
      modifies this`rows, this`refused
      ensures Valid() && refused == old(refused)
      ensures Displayed(old(rows), category) ==> Displayed(rows, category)
      ensures rows == if SamePair(old(rows)[i], record) then old(rows) else old(rows)[i := Tombstoned(old(rows)[i])]
    {
      if !SamePair(rows[i], record) {
        TombstoneFree(rows, i);
        if Displayed(rows, category) {
          TombstoneHidden(rows, i, category);
        }
        UpdateRow(i, Tombstoned(rows[i]));
      }
    }

    /** Frees both holders of one record's names, as they were indexed before the pass. */
    method FreeRecord(indexed: seq<Row>, category: nat -> string, record: Record)
      requires Valid() && |indexed| == |rows|
      requires forall i :: 0 <= i < |rows| ==> SameRow(rows[i], indexed[i])
      modifies this`rows, this`refused
      ensures Valid() && refused == old(refused)
      ensures Displayed(old(rows), category) ==> Displayed(rows, category)
      ensures |rows| == |indexed|
      ensures forall i :: 0 <= i < |rows| ==>
                rows[i] == if Holds(indexed, category, record, i) && !SamePair(indexed[i], record)
                           then Tombstoned(old(rows)[i]) else old(rows)[i]
    {
      hide Indexed, Displayed, LastWhere;
      var byTicker, byDisplay := ByTicker(indexed, record), ByBaseQuote(indexed, category, record);
      if byTicker.Some? {
        FreeHolder(byTicker.value, record, category);
      }
      if byDisplay.Some? && byDisplay != byTicker {
        FreeHolder(byDisplay.value, record, category);
      }
    }

    /** Pass one: every holder of a name that another pair's record needs gives it up. */
    method FreeHolders(category: nat -> string, records: seq<Record>) returns (outcome: Outcome)
      requires Valid()
      modifies this`rows, this`refused
      ensures Valid() && refused == old(refused)
      ensures outcome == WrongClass <==> exists k :: 0 <= k < |records| && Foreign(old(rows), category, records[k])
      ensures outcome == WrongClass ==> rows == old(rows)
      ensures outcome == Imported ==> rows == FreedRows(old(rows), category, records)
      ensures Displayed(old(rows), category) ==> Displayed(rows, category)
    {
      hide Indexed, Displayed, Foreign, Holds, Displaced, Tombstoned;
      var indexed := rows;
      FreedByNone(rows, category);
      for k := 0 to |records|
        invariant Valid() && refused == old(refused)
        invariant rows == FreedRows(indexed, category, records[..k])
        invariant forall m :: 0 <= m < k ==> !Foreign(indexed, category, records[m])
        invariant Displayed(indexed, category) ==> Displayed(rows, category)
      {
        if Foreign(indexed, category, records[k]) {
          rows := indexed;
          return WrongClass;
        }
        FreedKeepsRows(indexed, category, records[..k]);
        FreeRecord(indexed, category, records[k]);
        FreedStep(indexed, category, records, k);
      }
      assert records[..|records|] == records;
      return Imported;
    }

    /** Pass two: the row a record's pair already has takes the record's names. */
    method AlignNames(category: nat -> string, records: seq<Record>)
      requires Valid() && Cleared(rows, records) && Importable(records, category)
      modifies this`rows, this`refused
      ensures Valid() && refused == old(refused) && Cleared(rows, records)
      ensures ShownApart(old(rows), category, records) ==> ShownApart(rows, category, records)
      ensures |rows| == |old(rows)|
      ensures forall i, k :: 0 <= i < |rows| && 0 <= k < |records| && SamePair(old(rows)[i], records[k]) ==>
                rows[i] == Renamed(old(rows)[i], records[k])
      ensures forall i :: 0 <= i < |rows| && !Named(old(rows)[i], records) ==> rows[i] == old(rows)[i]
    {
      hide Indexed, Importable, ShownApart, Cleared, ByPair;
      var indexed := rows;
      for k := 0 to |records|
        invariant Valid() && refused == old(refused) && Cleared(rows, records)
        invariant ShownApart(indexed, category, records) ==> ShownApart(rows, category, records)
        invariant |rows| == |indexed| && forall i :: 0 <= i < |rows| ==> SameRow(rows[i], indexed[i])
        invariant forall i, m :: 0 <= i < |rows| && 0 <= m < k && SamePair(indexed[i], records[m]) ==>
                    rows[i] == Renamed(indexed[i], records[m])
        invariant forall i :: 0 <= i < |rows| && !Named(indexed[i], records[..k]) ==> rows[i] == indexed[i]
      {
        var at := ByPair(indexed, records[k]);
        NamedStep(records, k);
        OtherRecords(records, category, k);
        if at.Some? {
          OwnRowOnly(rows, at.value, records[k]);
          RenameFree(rows, category, records, k, at.value, Renamed(rows[at.value], records[k]));
          UpdateRow(at.value, Renamed(rows[at.value], records[k]));
        }
      }
      assert records[..|records|] == records;
    }

    /** The upsert on the pair: an existing row takes the record, or the record becomes a row. */
    method Upsert(category: nat -> string, records: seq<Record>)
      requires Valid() && Cleared(rows, records) && Importable(records, category)
      modifies this
      ensures Valid() && refused == old(refused)
      ensures ShownApart(old(rows), category, records) ==> ShownApart(rows, category, records)
      ensures Upserted(old(rows), rows, records, |records|)
    {
      hide Indexed, Importable, ShownApart, Cleared, ByPair, Upserted;
      UpsertedNone(rows, records);
      for k := 0 to |records|
        invariant Valid() && refused == old(refused) && Cleared(rows, records)
        invariant ShownApart(old(rows), category, records) ==> ShownApart(rows, category, records)
        invariant Upserted(old(rows), rows, records, k)
      {
        var record := records[k];
        var at := ByPair(rows, record);
        ghost var before := rows;
        if at.Some? {
          RenameFree(rows, category, records, k, at.value, Taken(rows[at.value], record));
          UpdateRow(at.value, Taken(rows[at.value], record));
          UpsertedUpdate(old(rows), before, category, records, k, at.value);
        } else {
          InsertFree(rows, category, records, k, nextId);
          InsertRow(record);
          UpsertedInsert(old(rows), before, category, records, k, rows[|before|]);
        }
      }
    }

    /** One import: nothing at all when a name belongs to another class, else every record has its row. */
    method Import(category: nat -> string, records: seq<Record>) returns (outcome: Outcome)
      requires Valid() && Importable(records, category)
      modifies this
      ensures Valid() && refused == old(refused)
      ensures outcome == WrongClass <==> exists k :: 0 <= k < |records| && Foreign(old(rows), category, records[k])
      ensures outcome == WrongClass ==> rows == old(rows)
      ensures outcome == Imported ==> ImportOf(old(rows), rows, category, records)
      ensures Displayed(old(rows), category) ==> Displayed(rows, category)
    {
      hide Indexed, Importable, Displayed, Cleared, Foreign, Upserted, ImportOf;
      ghost var was := rows;
      outcome := FreeHolders(category, records);
      if outcome == Imported {
        ghost var freed := rows;
        FreeingClears(was, freed, category, records);
        AlignNames(category, records);
        ghost var aligned := rows;
        Upsert(category, records);
        ImportPutTogether(was, aligned, rows, category, records);
      }
    }
  }

  // ---- why no write is refused ---------------------------------------------------------------------

  lemma TombstoneFree(rows: seq<Row>, i: nat)
    requires Indexed(rows) && i < |rows|
    ensures forall j :: 0 <= j < |rows| && j != i ==> rows[j].ticker != Tombstoned(rows[i]).ticker
    ensures Indexed(rows[i := Tombstoned(rows[i])])
  {
    var t := Tombstoned(rows[i]).ticker;
    forall j | 0 <= j < |rows| && j != i
      ensures rows[j].ticker != t
    {
      if rows[j].ticker == t && !(TOMBSTONE_PREFIX <= rows[i].ticker) {
        assert TOMBSTONE_PREFIX <= t;
        StaleNamesApart(rows[i].id, rows[j].id, rows[i].ticker, t[|Stale(rows[j].id)|..]);
      }
    }
  }

  lemma TombstoneHidden(rows: seq<Row>, i: nat, category: nat -> string)
    requires Indexed(rows) && Displayed(rows, category) && i < |rows|
    ensures Displayed(rows[i := Tombstoned(rows[i])], category)
  {
    var t := Tombstoned(rows[i]);
    forall j | 0 <= j < |rows| && j != i
      ensures !SameDisplay(rows[j], t, category)
    {
      if rows[j].base == t.base && !(TOMBSTONE_PREFIX <= rows[i].base) {
        assert TOMBSTONE_PREFIX <= t.base;
        StaleNamesApart(rows[i].id, rows[j].id, rows[i].base, t.base[|Stale(rows[j].id)|..]);
      }
    }
  }

  /** What one record adds to the displaced rows. */
  lemma FreedStep(rows: seq<Row>, category: nat -> string, records: seq<Record>, k: nat)
    requires k < |records|
    ensures forall i :: 0 <= i < |rows| ==>
              Freed(rows, category, records[..k + 1], i) ==
              if Holds(rows, category, records[k], i) && !SamePair(rows[i], records[k])
              then Tombstoned(Freed(rows, category, records[..k], i)) else Freed(rows, category, records[..k], i)
  {
    forall i | 0 <= i < |rows|
      ensures Displaced(rows, category, records[..k + 1], i) <==>
              Displaced(rows, category, records[..k], i) || (Holds(rows, category, records[k], i) && !SamePair(rows[i], records[k]))
    {
      assert records[..k + 1][k] == records[k];
      assert forall m :: 0 <= m < k ==> records[..k + 1][m] == records[..k][m];
    }
    assert forall r: Row :: Tombstoned(Tombstoned(r)) == Tombstoned(r);
  }

  lemma FreedByNone(rows: seq<Row>, category: nat -> string)
    ensures FreedRows(rows, category, []) == rows
  {
  }

  lemma FreedKeepsRows(rows: seq<Row>, category: nat -> string, records: seq<Record>)
    ensures forall i :: 0 <= i < |rows| ==> SameRow(FreedRows(rows, category, records)[i], rows[i])
  {
  }

  /** No pair has two rows. */
  lemma OwnRowOnly(rows: seq<Row>, i: nat, record: Record)
    requires Indexed(rows) && i < |rows| && SamePair(rows[i], record)
    ensures forall j :: 0 <= j < |rows| && j != i ==> !SamePair(rows[j], record)
  {
  }

  /** No pair has two records. */
  lemma OtherRecords(records: seq<Record>, category: nat -> string, k: nat)
    requires Importable(records, category) && k < |records|
    ensures forall r, m :: 0 <= m < |records| && m != k && SamePair(r, records[m]) ==> !SamePair(r, records[k])
  {
    forall m | 0 <= m < |records| && m != k
      ensures PairOf(records[m]) != PairOf(records[k])
    {
    }
  }

  lemma UpsertedNone(rows: seq<Row>, records: seq<Record>)
    ensures Upserted(rows, rows, records, 0)
  {
  }

  lemma NamedStep(records: seq<Record>, k: nat)
    requires k < |records|
    ensures forall r: Row {:trigger Named(r, records[..k + 1])} {:trigger Named(r, records[..k])} ::
              Named(r, records[..k + 1]) <==> Named(r, records[..k]) || SamePair(r, records[k])
  {
    assert records[..k + 1] == records[..k] + [records[k]];
    forall r: Row
      ensures Named(r, records[..k + 1]) <==> Named(r, records[..k]) || SamePair(r, records[k])
    {
      assert records[..k + 1][k] == records[k];
      assert forall m :: 0 <= m < k ==> records[..k + 1][m] == records[..k][m];
    }
  }

  /** After the first pass only a record's own row holds what the record needs. */
  lemma FreeingClears(was: seq<Row>, freed: seq<Row>, category: nat -> string, records: seq<Record>)
    requires Indexed(was) && Importable(records, category) && freed == FreedRows(was, category, records)
    ensures Cleared(freed, records)
    ensures Displayed(was, category) && Displayed(freed, category) ==> ShownApart(freed, category, records)
  {
    forall i, k | 0 <= i < |freed| && 0 <= k < |records| && freed[i].ticker == records[k].ticker
      ensures SamePair(freed[i], records[k])
    {
      assert Holds(was, category, records[k], i);
    }
    if Displayed(was, category) {
      forall i, k | 0 <= i < |freed| && 0 <= k < |records| && ShownAs(freed[i], records[k], category)
        ensures SamePair(freed[i], records[k])
      {
        assert SameDisplay(was[i], was[ByBaseQuote(was, category, records[k]).value], category);
        assert Holds(was, category, records[k], i);
      }
    }
  }

  /** A record's own row can take its names. */
  lemma RenameFree(rows: seq<Row>, category: nat -> string, records: seq<Record>, k: nat, i: nat, r: Row)
    requires Indexed(rows) && Cleared(rows, records) && Importable(records, category)
    requires k < |records| && i < |rows| && SamePair(rows[i], records[k])
    requires SameRow(r, rows[i]) && r.base == records[k].base && r.quote == records[k].quote
    requires r.ticker == records[k].ticker
    ensures forall j :: 0 <= j < |rows| && j != i ==> rows[j].ticker != r.ticker
    ensures Indexed(rows[i := r]) && Cleared(rows[i := r], records)
    ensures ShownApart(rows, category, records) ==> ShownApart(rows[i := r], category, records)
  {
    forall j | 0 <= j < |rows| && j != i
      ensures rows[j].ticker != r.ticker
      ensures ShownApart(rows, category, records) ==> !SameDisplay(rows[j], r, category)
    {
      assert !SamePair(rows[j], records[k]);
      if SameDisplay(rows[j], r, category) {
        assert ShownAs(rows[j], records[k], category);
      }
    }
    RecordShows(records, category, k, r);
  }

  /** Among the records, only this one wants the names its row carries. */
  lemma RecordShows(records: seq<Record>, category: nat -> string, k: nat, r: Row)
    requires Importable(records, category) && k < |records| && SamePair(r, records[k])
    requires r.base == records[k].base && r.quote == records[k].quote && r.ticker == records[k].ticker
    ensures forall m :: 0 <= m < |records| && r.ticker == records[m].ticker ==> SamePair(r, records[m])
    ensures forall m :: 0 <= m < |records| && ShownAs(r, records[m], category) ==> SamePair(r, records[m])
  {
    forall m | 0 <= m < |records| && ShownAs(r, records[m], category)
      ensures m == k
    {
      assert DisplayOf(records[m]) == DisplayOf(records[k]);
    }
  }

  /** A pair the table has no row for can get one. */
  lemma InsertFree(rows: seq<Row>, category: nat -> string, records: seq<Record>, k: nat, id: nat)
    requires Indexed(rows) && Cleared(rows, records) && Importable(records, category)
    requires k < |records| && forall i :: 0 <= i < |rows| ==> !SamePair(rows[i], records[k]) && rows[i].id < id
    ensures forall j :: 0 <= j < |rows| ==> rows[j].ticker != records[k].ticker
    ensures Indexed(rows + [NewRow(id, records[k])]) && Cleared(rows + [NewRow(id, records[k])], records)
    ensures ShownApart(rows, category, records) ==> ShownApart(rows + [NewRow(id, records[k])], category, records)
  {
    var r := NewRow(id, records[k]);
    forall j | 0 <= j < |rows|
      ensures rows[j].ticker != r.ticker
      ensures ShownApart(rows, category, records) ==> !SameDisplay(rows[j], r, category)
    {
      if SameDisplay(rows[j], r, category) {
        assert ShownAs(rows[j], records[k], category);
      }
    }
    RecordShows(records, category, k, r);
  }

  lemma UpsertedUpdate(was: seq<Row>, before: seq<Row>, category: nat -> string, records: seq<Record>, k: nat, i: nat)
    requires Importable(records, category) && k < |records| && i < |before| && Indexed(before)
    requires Upserted(was, before, records, k) && SamePair(before[i], records[k])
    ensures Upserted(was, before[i := Taken(before[i], records[k])], records, k + 1)
  {
    hide Indexed, Importable;
    var now := before[i := Taken(before[i], records[k])];
    OwnRowOnly(before, i, records[k]);
    NamedStep(records, k);
    OtherRecords(records, category, k);
    forall m | 0 <= m < k
      ensures exists j :: 0 <= j < |now| && Carries(now[j], records[m])
    {
      var j :| 0 <= j < |before| && Carries(before[j], records[m]);
      assert Carries(now[j], records[m]);
    }
    assert Carries(now[i], records[k]);
  }

  lemma UpsertedInsert(was: seq<Row>, before: seq<Row>, category: nat -> string, records: seq<Record>, k: nat, r: Row)
    requires Importable(records, category) && k < |records|
    requires forall i :: 0 <= i < |before| ==> !SamePair(before[i], records[k])
    requires Upserted(was, before, records, k) && Carries(r, records[k])
    ensures Upserted(was, before + [r], records, k + 1)
  {
    hide Importable;
    var now := before + [r];
    NamedStep(records, k);
    OtherRecords(records, category, k);
    forall m | 0 <= m < k
      ensures exists j :: 0 <= j < |now| && Carries(now[j], records[m])
    {
      var j :| 0 <= j < |before| && Carries(before[j], records[m]);
      assert Carries(now[j], records[m]);
    }
    assert Carries(now[|before|], records[k]);
  }

  lemma ImportPutTogether(was: seq<Row>, aligned: seq<Row>, now: seq<Row>, category: nat -> string,
                          records: seq<Record>)
    requires |aligned| == |was| && Upserted(aligned, now, records, |records|)
    requires forall i :: 0 <= i < |was| ==> SameRow(aligned[i], was[i])
    requires forall i :: 0 <= i < |was| && !Named(was[i], records) ==> aligned[i] == Freed(was, category, records, i)
    ensures ImportOf(was, now, category, records)
  {
    assert records[..|records|] == records;
  }

  // ---- what an import comes to ---------------------------------------------------------------------

  /** The same records again change nothing, once the displays are apart. */
  lemma ImportTwice(was: seq<Row>, now: seq<Row>, again: seq<Row>, category: nat -> string, records: seq<Record>)
    requires Indexed(now) && Displayed(now, category) && Importable(records, category)
    requires ImportOf(was, now, category, records)
    requires ImportOf(now, again, category, records) && Indexed(again)
    ensures again == now
  {
    assert records[..|records|] == records;
    assert FreedRows(now, category, records) == now by {
      forall i, k | 0 <= i < |now| && 0 <= k < |records| && Holds(now, category, records[k], i)
        ensures SamePair(now[i], records[k])
      {
        HolderIsOwn(now, category, records, k, i);
      }
    }
    UpsertTwice(FreedRows(was, category, records), now, again, records);
  }

  lemma UpsertTwice(was: seq<Row>, now: seq<Row>, again: seq<Row>, records: seq<Record>)
    requires Indexed(again)
    requires Upserted(was, now, records, |records|) && Upserted(now, again, records, |records|)
    ensures again == now
  {
    assert records[..|records|] == records;
    forall k, i | 0 <= k < |records| && |now| <= i < |again|
      ensures !SamePair(again[i], records[k])
    {
      var own :| 0 <= own < |now| && Carries(now[own], records[k]);
      OwnRowOnly(again, own, records[k]);
    }
    assert |again| > |now| ==> Named(again[|now|], records);
    hide Indexed;
    forall i | 0 <= i < |now|
      ensures again[i] == now[i]
    {
    }
  }

  lemma HolderIsOwn(now: seq<Row>, category: nat -> string, records: seq<Record>, k: nat, i: nat)
    requires Indexed(now) && Displayed(now, category) && Importable(records, category)
    requires k < |records| && i < |now| && Holds(now, category, records[k], i)
    requires exists own :: 0 <= own < |now| && Carries(now[own], records[k])
    ensures SamePair(now[i], records[k])
  {
    var own :| 0 <= own < |now| && Carries(now[own], records[k]);
    assert SameDisplay(now[i], now[own], category) || now[i].ticker == now[own].ticker;
  }

  // ---- the import in fields ------------------------------------------------------------------------

  /** The name a row is moved aside under. */
  predicate Parked(id: nat, was: string, now: string) {
    if "__stale_" <= was then now == was else now == "__stale_" + Decimal(id) + "_" + was
  }

  /** The record's class, base and quote are those the row is shown under, or its symbol is the row's. */
  predicate Claims(category: nat -> string, record: Record, r: Row) {
    || r.ticker == record.ticker
    || (category(r.baseAsset) == record.assetClass && r.base == record.base && r.quote == record.quote)
  }

  /** An import is refused exactly when a record's symbol is held by an asset of another class. */
  lemma RefusedExactlyWhen(was: seq<Row>, category: nat -> string, record: Record)
    requires Indexed(was)
    ensures Foreign(was, category, record) <==>
              exists i :: 0 <= i < |was| && was[i].ticker == record.ticker && category(was[i].baseAsset) != record.assetClass
  {
  }

  /** A record's own row is given its names, and is available. */
  lemma OwnRowIsRenamed(was: seq<Row>, now: seq<Row>, category: nat -> string, records: seq<Record>, i: nat, m: nat)
    requires ImportOf(was, now, category, records) && i < |was| && m < |records|
    requires records[m].baseAsset == was[i].baseAsset && records[m].quoteAsset == was[i].quoteAsset
    ensures i < |now| && now[i].id == was[i].id
    ensures now[i].baseAsset == was[i].baseAsset && now[i].quoteAsset == was[i].quoteAsset && now[i].available
    ensures now[i].base == records[m].base && now[i].quote == records[m].quote && now[i].ticker == records[m].ticker
  {
    var freed := FreedRows(was, category, records);
    assert freed[i] == Freed(was, category, records, i);
    FreedInFields(was[i]);
    assert SameRow(freed[i], now[i]) && SamePair(now[i], records[m]);
  }

  /** Of the other rows, one whose names a record claims is moved aside and made unavailable, and no other is touched. */
  lemma OtherRowsAreParkedOrKept(was: seq<Row>, now: seq<Row>, category: nat -> string, records: seq<Record>, i: nat)
    requires Indexed(was) && Displayed(was, category) && ImportOf(was, now, category, records) && i < |was|
    requires forall m :: 0 <= m < |records| ==>
               records[m].baseAsset != was[i].baseAsset || records[m].quoteAsset != was[i].quoteAsset
    ensures i < |now|
    ensures if exists m :: 0 <= m < |records| && Claims(category, records[m], was[i]) then
              && !now[i].available && now[i].id == was[i].id && now[i].quote == was[i].quote
              && now[i].baseAsset == was[i].baseAsset && now[i].quoteAsset == was[i].quoteAsset
              && Parked(was[i].id, was[i].ticker, now[i].ticker) && Parked(was[i].id, was[i].base, now[i].base)
            else now[i] == was[i]
  {
    hide Indexed, Displayed, Claims, Holds, Tombstoned, Parked;
    FreedInFields(was[i]);
    UnnamedIsFreed(was, now, category, records, i);
    if m :| 0 <= m < |records| && Claims(category, records[m], was[i]) {
      ClaimedIsHeld(was, category, records[m], i);
      assert Displaced(was, category, records, i);
    } else if Displaced(was, category, records, i) {
      var k :| 0 <= k < |records| && Holds(was, category, records[k], i) && !SamePair(was[i], records[k]);
      HeldIsClaimed(was, category, records[k], i);
    }
  }

  lemma UnnamedIsFreed(was: seq<Row>, now: seq<Row>, category: nat -> string, records: seq<Record>, i: nat)
    requires ImportOf(was, now, category, records) && i < |was|
    requires forall m :: 0 <= m < |records| ==>
               records[m].baseAsset != was[i].baseAsset || records[m].quoteAsset != was[i].quoteAsset
    ensures i < |now| && now[i] == Freed(was, category, records, i)
  {
    var freed := FreedRows(was, category, records);
    assert freed[i] == Freed(was, category, records, i);
    FreedInFields(was[i]);
    assert !Named(freed[i], records[..|records|]);
  }

  lemma FreedInFields(r: Row)
    ensures var q := Tombstoned(r);
            && !q.available && q.quote == r.quote && Parked(r.id, r.ticker, q.ticker) && Parked(r.id, r.base, q.base)
            && q.id == r.id && q.baseAsset == r.baseAsset && q.quoteAsset == r.quoteAsset
  {
    assert "__stale_" + Decimal(r.id) + "_" + r.ticker == Stale(r.id) + r.ticker;
    assert "__stale_" + Decimal(r.id) + "_" + r.base == Stale(r.id) + r.base;
  }

  lemma ClaimedIsHeld(was: seq<Row>, category: nat -> string, record: Record, i: nat)
    requires Indexed(was) && Displayed(was, category) && i < |was| && Claims(category, record, was[i])
    ensures Holds(was, category, record, i)
  {
    if was[i].ticker != record.ticker {
      var j := ByBaseQuote(was, category, record).value;
      assert SameDisplay(was[i], was[j], category) && SameDisplay(was[j], was[i], category);
    }
  }

  lemma HeldIsClaimed(was: seq<Row>, category: nat -> string, record: Record, i: nat)
    requires i < |was| && Holds(was, category, record, i)
    ensures Claims(category, record, was[i])
  {
  }

  /** The row has the record's pair and names, and is available. */
  predicate Lists(r: Row, record: Record) {
    && r.baseAsset == record.baseAsset && r.quoteAsset == record.quoteAsset
    && r.base == record.base && r.quote == record.quote && r.ticker == record.ticker && r.available
  }

  ghost predicate Listed(rows: seq<Row>, record: Record) {
    exists i :: 0 <= i < |rows| && Lists(rows[i], record)
  }

  ghost predicate ListsOne(r: Row, records: seq<Record>) {
    exists m :: 0 <= m < |records| && Lists(r, records[m])
  }

  /** And of the table: each record is listed, and every row added lists one. */
  lemma RecordsAreListed(was: seq<Row>, now: seq<Row>, category: nat -> string, records: seq<Record>)
    requires ImportOf(was, now, category, records)
    ensures forall m :: 0 <= m < |records| ==> Listed(now, records[m])
    ensures forall i :: |was| <= i < |now| ==> ListsOne(now[i], records)
  {
    forall m | 0 <= m < |records|
      ensures Listed(now, records[m])
    {
      var i :| 0 <= i < |now| && Carries(now[i], records[m]);
      assert Lists(now[i], records[m]);
    }
    forall i | |was| <= i < |now|
      ensures ListsOne(now[i], records)
    {
      assert records[..|records|] == records && Named(now[i], records);
      var m :| 0 <= m < |records| && SamePair(now[i], records[m]);
      assert Carries(now[i], records[m]) && Lists(now[i], records[m]);
    }
  }
}

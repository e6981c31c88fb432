/** Entries that are no leg of a conversion leave its rows alone; the coins of one sweep are such to each other. */
module DustStrangers {
  import opened Prelude
  import opened LedgerRows
  import opened LedgerStore
  import opened DustConvergence

  // ---- strangers -----------------------------------------------------------------------------------

  /** A stamp says nothing of whose row it is. */
  lemma StampedStands(d: Dust, r: Item, at: Time)
    requires !Clashes(d, r)
    ensures !Clashes(d, Stamped(r, at))
  {
  }

  /** Nor does an id, unless it is the conversion's. */
  lemma WithIdStands(d: Dust, r: Item, id: string, ids: set<string>)
    requires !Clashes(d, r) && r.txId.None? && id in ids && NamesNone(d, ids)
    ensures !Clashes(d, WithId(r, id))
  {
  }

  lemma OthersStand(d: Dust, l: Ledger, h: Held, i: nat)
    requires Tracks(d, l, h) && i < |l.rows| && !Owns(h, i)
    ensures !Clashes(d, l.rows[i])
  {
  }

  lemma OwnIsRow(d: Dust, l: Ledger, h: Held, i: nat) returns (own: bool)
    requires Tracks(d, l, h) && Owns(h, i)
    ensures i < |l.rows| && h.s != Unseen && l.rows[i] == RowOf(d, h.s, own)
  {
    own := true in h.at && h.at[true] == i;
  }

  /** Two rows of others change at once. */
  lemma LegsChanged(d: Dust, l: Ledger, h: Held, i: nat, j: nat, r: Item, q: Item)
    requires Tracks(d, l, h) && i < |l.rows| && j < |l.rows|
    requires !Owns(h, i) && !Owns(h, j) && !Clashes(d, r) && !Clashes(d, q)
    ensures Tracks(d, l.(rows := l.rows[i := r][j := q]), h)
  {
    hide Tracks, Clashes;
    TracksChanged(d, l, h, i, r);
    TracksChanged(d, l.(rows := l.rows[i := r]), h, j, q);
  }

  lemma StrangerFindsNoFile(d: Dust, s: Status, own: bool, e: Item)
    requires Described(d) && s != Unseen && !Clashes(d, Stored(e)) && ApiDust(e) && e.at.Some?
    ensures !FreeDustLeg(ConversionOf(e.raw), e.at.value, RowOf(d, s, own))
  {
  }

  lemma StrangerFindsNoApi(d: Dust, s: Status, own: bool, e: Item)
    requires Described(d) && s != Unseen && !Clashes(d, Stored(e)) && FileDust(e) && !Present(e.txId) && e.at.Some?
    ensures !ApiDustRowFor(e, e.at.value, RowOf(d, s, own))
  {
  }

  lemma OwnIsALeg(d: Dust, s: Status, own: bool)
    requires Described(d) && s != Unseen
    ensures IsDustLeg(RowOf(d, s, own).kind)
  {
  }

  lemma StrangerNamesNone(d: Dust, e: Item)
    requires Stranger(d, e)
    ensures NamesNone(d, IdsOf(e)) && NamesNone(d, e.raw.mergedIds)
  {
  }

  lemma FreeLegs(rows: seq<Item>, e: Item, l: Legs)
    requires e.at.Some? && l in FreeDust(rows, e)
    ensures l.out < |rows| && l.into < |rows| && rows[l.out].txId.None? && rows[l.into].txId.None?
    ensures FreeDustLeg(ConversionOf(e.raw), e.at.value, rows[l.out])
    ensures FreeDustLeg(ConversionOf(e.raw), e.at.value, rows[l.into])
  {
  }

  lemma StrangerTakesDust(d: Dust, l: Ledger, h: Held, base: nat, e: Item, repeat: nat)
    requires Described(d) && Tracks(d, l, h) && Stranger(d, e) && Present(e.txId) && ApiDust(e) && base <= |l.rows|
    ensures Tracks(d, l.(rows := ApiDustTwin(l.rows, base, e, e.txId.value, repeat).rows), h)
  {
    hide Tracks, Described, Clashes, Counted, FreeDustLeg, ApiDust, RowOf, ConversionOf;
    var id := ConversionId(e.txId.value);
    if e.at.Some? && |FreeDust(l.rows, e)| == 1 && !HasId(l.rows, id + "-out") && !HasId(l.rows, id + "-in") {
      var legs := FreeDust(l.rows, e)[0];
      assert legs in FreeDust(l.rows, e);
      FreeLegs(l.rows, e, legs);
      StrangerNamesNone(d, e);
      FreeIsOthers(d, l, h, e, legs.out);
      FreeIsOthers(d, l, h, e, legs.into);
      WithIdStands(d, l.rows[legs.out], id + "-out", IdsOf(e));
      WithIdStands(d, l.rows[legs.into], id + "-in", IdsOf(e));
      LegsChanged(d, l, h, legs.out, legs.into,
                  WithId(l.rows[legs.out], id + "-out"), WithId(l.rows[legs.into], id + "-in"));
    }
  }

  lemma FreeIsOthers(d: Dust, l: Ledger, h: Held, e: Item, i: nat)
    requires Described(d) && Tracks(d, l, h) && Stranger(d, e) && ApiDust(e) && e.at.Some?
    requires i < |l.rows| && FreeDustLeg(ConversionOf(e.raw), e.at.value, l.rows[i])
    ensures !Owns(h, i) && !Clashes(d, l.rows[i])
  {
    hide Tracks, Described, Clashes, FreeDustLeg, ApiDust, RowOf, ConversionOf, Owns;
    if Owns(h, i) {
      var own := OwnIsRow(d, l, h, i);
      StrangerFindsNoFile(d, h.s, own, e);
    } else {
      OthersStand(d, l, h, i);
    }
  }

  lemma StrangerStampsDust(d: Dust, l: Ledger, h: Held, base: nat, batch: seq<Item>, i: nat, repeat: nat)
    requires Described(d) && Tracks(d, l, h) && base <= |l.rows| && i < |batch|
    requires Stranger(d, batch[i]) && FileDust(batch[i]) && !Present(batch[i].txId)
    ensures Tracks(d, l.(rows := FileDustTwin(l.rows, base, batch, i, repeat).rows), h)
  {
    hide Tracks, Described, Clashes, Counted, ConversionTwinned, TheGroup, TheConversion, FileDust, ApiDustRowFor,
         RowOf;
    var e := batch[i];
    assert l.(rows := l.rows) == l;
    if e.at.Some? && TheConversion(l.rows, e).Some? {
      var legs := TheConversion(l.rows, e).value;
      TheConversionIsWhole(l.rows, e);
      ApiIsOthers(d, l, h, e, legs.out);
      ApiIsOthers(d, l, h, e, legs.into);
      StampedStands(d, l.rows[legs.out], e.at.value);
      StampedStands(d, l.rows[legs.into], e.at.value);
      LegsChanged(d, l, h, legs.out, legs.into,
                  Stamped(l.rows[legs.out], e.at.value), Stamped(l.rows[legs.into], e.at.value));
    }
  }

  lemma ApiIsOthers(d: Dust, l: Ledger, h: Held, e: Item, i: nat)
    requires Described(d) && Tracks(d, l, h) && Stranger(d, e) && FileDust(e) && !Present(e.txId) && e.at.Some?
    requires i < |l.rows| && ApiDustRowFor(e, e.at.value, l.rows[i])
    ensures !Owns(h, i) && !Clashes(d, l.rows[i])
  {
    hide Tracks, Described, Clashes, ApiDustRowFor, RowOf, Owns;
    if Owns(h, i) {
      var own := OwnIsRow(d, l, h, i);
      StrangerFindsNoApi(d, h.s, own, e);
    } else {
      OthersStand(d, l, h, i);
    }
  }

  /** A row of a deposit or a withdrawal is none of the conversion's. */
  lemma TransferIsOthers(d: Dust, l: Ledger, h: Held, i: nat)
    requires Described(d) && Tracks(d, l, h) && i < |l.rows| && !IsDustLeg(l.rows[i].kind)
    ensures !Owns(h, i) && !Clashes(d, l.rows[i])
  {
    hide Tracks, Described, Clashes, RowOf, Owns;
    if Owns(h, i) {
      var own := OwnIsRow(d, l, h, i);
      OwnIsALeg(d, h.s, own);
    } else {
      OthersStand(d, l, h, i);
    }
  }

  lemma StrangerTakesTransfer(d: Dust, l: Ledger, h: Held, base: nat, e: Item, repeat: nat)
    requires Described(d) && Tracks(d, l, h) && Stranger(d, e) && Present(e.txId) && base <= |l.rows|
    ensures Tracks(d, l.(rows := ApiTransferTwin(l.rows, base, e, e.txId.value, repeat).rows), h)
  {
    hide Tracks, Described, Clashes, Counted, Pairs;
    var free := FreeFileRows(l.rows, e);
    assert l.(rows := l.rows) == l;
    if |free| == 1 {
      var i := free[0];
      assert i in free && FreeFileRow(e, l.rows[i]);
      TransferIsOthers(d, l, h, i);
      StrangerNamesNone(d, e);
      WithIdStands(d, l.rows[i], e.txId.value, IdsOf(e));
      TracksChanged(d, l, h, i, WithId(l.rows[i], e.txId.value));
    }
  }

  lemma StrangerStampsTransfer(d: Dust, l: Ledger, h: Held, base: nat, batch: seq<Item>, i: nat, repeat: nat)
    requires Described(d) && Tracks(d, l, h) && base <= |l.rows| && i < |batch| && FileTransfer(batch[i])
    ensures Tracks(d, l.(rows := FileTransferTwin(l.rows, base, batch, i, repeat).rows), h)
  {
    hide Tracks, Described, Clashes, Counted, Pairs, Rivals, ApiTransfer;
    var e, free := batch[i], FreeApiRows(l.rows, batch[i]);
    assert l.(rows := l.rows) == l;
    if e.at.Some? && |free| == 1 {
      var j := free[0];
      assert j in free && ApiRowFor(e, l.rows[j]);
      TransferIsOthers(d, l, h, j);
      StampedStands(d, l.rows[j], e.at.value);
      TracksChanged(d, l, h, j, Stamped(l.rows[j], e.at.value));
    }
  }

  lemma StrangerVerdict(d: Dust, l: Ledger, h: Held, base: nat, batch: seq<Item>, i: nat, repeat: nat)
    requires Described(d) && Tracks(d, l, h) && base <= |l.rows| && i < |batch| && Stranger(d, batch[i])
    ensures Tracks(d, l.(rows := Duplicate(l, base, batch, i, repeat).rows), h)
  {
    hide Described, Tracks, Stranger, ApiDustTwin, FileDustTwin, ApiTransferTwin, FileTransferTwin, KnownId, FileDust,
         FileTransfer, ApiDust, ApiTransfer, Counted;
    var e := batch[i];
    assert l.(rows := l.rows) == l;
    if Presence(e.txId).None? {
      if FileDust(e) {
        StrangerStampsDust(d, l, h, base, batch, i, repeat);
      } else if FileTransfer(e) {
        StrangerStampsTransfer(d, l, h, base, batch, i, repeat);
      }
    } else if !KnownId(l, e.txId) {
      if ApiDust(e) {
        StrangerTakesDust(d, l, h, base, e, repeat);
      } else if ApiTransfer(e) {
        StrangerTakesTransfer(d, l, h, base, e, repeat);
      }
    }
  }

  /** A stranger leaves the conversion's rows where and as they are, and adds none of its own that could be one. */
  lemma StrangerArrives(d: Dust, p: Progress, h: Held, base: nat, batch: seq<Item>, i: nat)
    requires Described(d) && Tracks(d, p.ledger, h) && base <= |p.ledger.rows| && i < |batch| && Stranger(d, batch[i])
    ensures Tracks(d, Step(p, base, batch, i).ledger, h)
  {
    hide Described, Tracks, Duplicate, Clashes;
    var e, v := batch[i], Duplicate(p.ledger, base, batch, i, Repeat(p, batch[i]));
    StrangerVerdict(d, p.ledger, h, base, batch, i, Repeat(p, e));
    if !v.duplicate && Saves(e) {
      StrangerNamesNone(d, e);
      TracksAdded(d, p.ledger.(rows := v.rows), h, Stored(e), e.raw.mergedIds);
    }
  }

  // ---- several conversions -------------------------------------------------------------------------

  /** Conversions that cannot be taken for each other: the legs of each are strangers to the others. */
  ghost predicate World(ds: seq<Dust>) {
    && (forall v :: 0 <= v < |ds| ==> Described(ds[v]))
    && (forall v, w, fromApi, out :: 0 <= v < |ds| && 0 <= w < |ds| && v != w ==>
          Stranger(ds[v], Leg(ds[w], fromApi, out)))
  }

  function NetOf(d: Dust): real {
    ConversionOf(d.apiOut.raw).net
  }

  /** Two coins of one sweep, with BNB credits that rounding cannot confuse, or conversions some seconds apart. */
  predicate ToldApart(d: Dust, u: Dust) {
    && d.id != u.id
    && ((ConversionOf(d.apiOut.raw).coin != ConversionOf(u.apiOut.raw).coin
         && (NetOf(d) - NetOf(u) > 2.0 * DUST_ROUNDING || NetOf(u) - NetOf(d) > 2.0 * DUST_ROUNDING))
        || (d.apiOut.at.Some? && u.apiOut.at.Some? && Gap(d.apiOut.at.value, u.apiOut.at.value) > 3 * SECOND))
  }

  lemma IdsDiffer(d: Dust, u: Dust)
    requires d.id != u.id
    ensures forall out, other :: IdOf(d, out) != IdOf(u, other)
  {
    forall out, other
      ensures IdOf(d, out) != IdOf(u, other)
    {
      var a, b := IdOf(d, out), IdOf(u, other);
      assert a[|a| - 1] == (if out then 't' else 'n') && b[|b| - 1] == (if other then 't' else 'n');
      assert a[..|d.id|] == d.id && b[..|u.id|] == u.id;
    }
  }

  lemma ApartIds(d: Dust, u: Dust)
    requires ToldApart(d, u)
    ensures d.id != u.id
  {
  }

  lemma ApiLegIsAStranger(d: Dust, u: Dust, out: bool)
    requires Described(d) && Described(u) && ToldApart(d, u)
    ensures !Clashes(d, Stored(Leg(u, true, out)))
  {
    hide Described, ToldApart, ClashesFile, FreeDustLeg, NearBy, ApiDust, ConversionId, ConversionOf, Saves, Stored, Leg,
         IdOf;
    ApartIds(d, u);
    IdsDiffer(d, u);
    ApiLegIsAlike(u, out);
    ApiLegClashesWithNone(d, u, out, true);
    ApiLegClashesWithNone(d, u, out, false);
    WithIdIsNotFree(Stored(Leg(u, true, out)));
    assert Leg(d, false, true) == d.fileOut && Leg(d, false, false) == d.fileIn by {
      LegsAre(d);
    }
  }

  lemma LegsAre(d: Dust)
    ensures Leg(d, false, true) == d.fileOut && Leg(d, false, false) == d.fileIn
  {
  }

  lemma WithIdIsNotFree(r: Item)
    requires r.txId.Some?
    ensures forall c, at :: !FreeDustLeg(c, at, r)
  {
  }

  lemma ApiLegClashesWithNone(d: Dust, u: Dust, out: bool, own: bool)
    requires Described(d) && Described(u) && ToldApart(d, u)
    ensures !ClashesFile(Leg(d, false, own), Stored(Leg(u, true, out)))
  {
    hide NearBy;
  }

  lemma FileLegIsAStranger(d: Dust, u: Dust, out: bool)
    requires Described(d) && Described(u) && ToldApart(d, u)
    ensures !Clashes(d, Stored(Leg(u, false, out)))
  {
    hide Described, ToldApart, NearBy, FreeDustLeg;
    var r := Stored(Leg(u, false, out));
    FileLegIsAlike(u, out);
    FileLegIsNoLeg(d, u, out);
    FileLegIsNotNear(d, u, out, true);
    FileLegIsNotNear(d, u, out, false);
    assert r.txId.None? && r.raw.transfered.None? by {
      FileLegHasNoId(u, out);
    }
  }

  lemma FileLegHasNoId(u: Dust, out: bool)
    requires Described(u)
    ensures Stored(Leg(u, false, out)).txId.None? && Leg(u, false, out).raw.transfered.None?
  {
  }

  lemma FileLegIsNoLeg(d: Dust, u: Dust, out: bool)
    requires Described(d) && Described(u) && ToldApart(d, u)
    ensures d.apiOut.at.Some?
    ensures !FreeDustLeg(ConversionOf(d.apiOut.raw), d.apiOut.at.value, Stored(Leg(u, false, out)))
  {
  }

  lemma FileLegIsNotNear(d: Dust, u: Dust, out: bool, own: bool)
    requires Described(d) && Described(u) && ToldApart(d, u)
    ensures !NearBy(Leg(d, false, own), Stored(Leg(u, false, out)))
  {
  }

  /** The coins of one sweep are strangers to each other, and so are conversions of different moments. */
  lemma SweptCoinsAreStrangers(d: Dust, u: Dust, fromApi: bool, out: bool)
    requires Described(d) && Described(u) && ToldApart(d, u)
    ensures Stranger(d, Leg(u, fromApi, out))
  {
    hide Described, ToldApart, Clashes, ConversionId;
    ApartIds(d, u);
    IdsDiffer(d, u);
    if fromApi {
      ApiLegIsAStranger(d, u, out);
      ApiLegIsAlike(u, out);
      assert IdsOf(Leg(u, true, out)) == {IdOf(u, out), IdOf(u, true), IdOf(u, false)};
    } else {
      FileLegIsAStranger(d, u, out);
      FileLegIsAlike(u, out);
    }
  }

  // ---- the coins of one sweep ----------------------------------------------------------------------

  const EXPORT_RAW: Raw := Raw("Small assets exchange BNB", false, Absent, 0.0, 0.0, "", None, 0.0, {}, None)

  function SweptLeg(kind: Kind, currency: string, amount: real, at: Time, id: Option<string>, group: string, raw: Raw)
    : Item
  {
    Item(kind, currency, amount, None, None, None, None, Some(at), id, group, raw)
  }

  /** One coin of a sweep, as the adapter and the importer write it; the export is dated half a second later. */
  function SweptCoin(id: string, coin: string, amount: real, gross: real, charge: real): Dust {
    var raw := Raw("", false, Absent, amount, 0.0, coin, Some(gross), charge, {}, None);
    Dust(id,
         SweptLeg(SwapOut, coin, amount, 0, Some(id + "-out"), "dust_" + id, raw),
         SweptLeg(SwapIn, "BNB", gross, 0, Some(id + "-in"), "dust_" + id, raw),
         SweptLeg(SwapOut, coin, amount, SECOND / 2, None, "dustcsv_" + coin, EXPORT_RAW),
         SweptLeg(SwapIn, "BNB", gross - charge, SECOND / 2, None, "dustcsv_" + coin, EXPORT_RAW))
  }

  /** An id that ends in a digit is what is left of its legs' ids. */
  lemma LegIdsUnravel(id: string)
    requires id != "" && '0' <= id[|id| - 1] <= '9'
    ensures ConversionId(id + "-out") == id && ConversionId(id + "-in") == id
  {
    assert (id + "-out")[|id|..] == "-out" && (id + "-out")[..|id|] == id;
    assert (id + "-in")[|id|..] == "-in" && (id + "-in")[..|id|] == id;
    assert (id + "-in")[|id + "-in"| - 1] == 'n' && "-out"[3] == 't';
    assert "-in"[2] == 'n';
  }

  lemma SweptApiLeg(id: string, coin: string, amount: real, gross: real, charge: real, out: bool)
    requires "dust-" <= id && '0' <= id[|id| - 1] <= '9' && !Blank(coin)
    ensures var d := SweptCoin(id, coin, amount, gross, charge);
            ApiLeg(d, Leg(d, true, out), if out then SwapOut else SwapIn, if out then "-out" else "-in")
  {
    hide ConversionId;
    LegIdsUnravel(id);
    assert (id + "-out")[0] == 'd' && (id + "-in")[0] == 'd' && "BNB"[0] == 'B';
    assert "dust-" <= id + "-out" && "dust-" <= id + "-in";
  }

  lemma SweptFileLeg(id: string, coin: string, amount: real, gross: real, charge: real, out: bool)
    requires !Blank(coin)
    ensures var d := SweptCoin(id, coin, amount, gross, charge);
            FileLeg(d, Leg(d, false, out), if out then SwapOut else SwapIn)
  {
    assert "dustcsv" <= "dustcsv_" + coin && "BNB"[0] == 'B';
  }

  lemma SweptIsDescribed(id: string, coin: string, amount: real, gross: real, charge: real)
    requires "dust-" <= id && '0' <= id[|id| - 1] <= '9' && !Blank(coin)
    ensures Described(SweptCoin(id, coin, amount, gross, charge))
  {
    hide ApiLeg, FileLeg, Blank;
    SweptApiLeg(id, coin, amount, gross, charge, true);
    SweptApiLeg(id, coin, amount, gross, charge, false);
    SweptFileLeg(id, coin, amount, gross, charge, true);
    SweptFileLeg(id, coin, amount, gross, charge, false);
  }

  function Usdt(): Dust {
    SweptCoin("dust-1", "USDT", 25.47403194, 0.07147454, 0.00142949)
  }

  function Ada(): Dust {
    SweptCoin("dust-2", "ADA", 0.792868, 0.0036264, 0.00007252)
  }

  lemma TheyAreDescribed()
    ensures Described(Usdt()) && Described(Ada())
  {
    hide Described;
    assert "USDT"[0] == 'U' && "ADA"[0] == 'A' && "dust-1"[5] == '1' && "dust-2"[5] == '2';
    SweptIsDescribed("dust-1", "USDT", 25.47403194, 0.07147454, 0.00142949);
    SweptIsDescribed("dust-2", "ADA", 0.792868, 0.0036264, 0.00007252);
  }

  lemma TheyAreToldApart()
    ensures ToldApart(Usdt(), Ada()) && ToldApart(Ada(), Usdt())
  {
    assert "USDT"[0] == 'U' && "ADA"[0] == 'A' && "dust-1"[5] == '1' && "dust-2"[5] == '2';
    assert NetOf(Usdt()) - NetOf(Ada()) > 2.0 * DUST_ROUNDING;
  }

  /** Two coins of one sweep, with the amounts of actual ones, are conversions apart. */
  lemma TwoCoinsOfASweep()
    ensures World([Usdt(), Ada()])
  {
    hide Described, Stranger, ToldApart, Usdt, Ada;
    TheyAreDescribed();
    TheyAreToldApart();
    var ds := [Usdt(), Ada()];
    forall v, w, fromApi, out | 0 <= v < |ds| && 0 <= w < |ds| && v != w
      ensures Stranger(ds[v], Leg(ds[w], fromApi, out))
    {
      SweptCoinsAreStrangers(ds[v], ds[w], fromApi, out);
    }
  }
}

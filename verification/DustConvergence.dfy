/**
 A dust conversion described by both sources: what each arriving leg does to its rows, and that an entry which is
 no leg of it leaves them alone.
 */
module DustConvergence {
  import opened Prelude
  import opened LedgerRows
  import opened LedgerStore

  /** The four copies of one conversion, and the id its API legs share. */
  datatype Dust = Dust(id: string, apiOut: Item, apiIn: Item, fileOut: Item, fileIn: Item)

  predicate ApiLeg(d: Dust, e: Item, kind: Kind, suffix: string) {
    && e.kind == kind && e.txId == Some(d.id + suffix) && Present(e.txId) && ConversionId(d.id + suffix) == d.id
    && ApiDust(e) && Saves(e) && e.raw.twin.None? && e.raw.mergedIds == {}
    && e.at == d.apiOut.at && e.groupId == d.apiOut.groupId && ConversionOf(e.raw) == ConversionOf(d.apiOut.raw)
  }

  predicate FileLeg(d: Dust, e: Item, kind: Kind) {
    && e.kind == kind && FileDust(e) && !Present(e.txId) && Saves(e) && e.raw.mergedIds == {} && e.raw.transfered.None?
    && e.groupId == d.fileOut.groupId && MatchesLeg(e, ConversionOf(d.apiOut.raw))
    && d.apiOut.at.Some? && WithinReach(e.at, d.apiOut.at.value)
  }

  /** Two API rows and one export group describe the conversion; the export dates its legs within a second. */
  predicate Described(d: Dust) {
    && StartsWith(d.id, "dust-")
    && ApiLeg(d, d.apiOut, SwapOut, "-out") && ApiLeg(d, d.apiIn, SwapIn, "-in")
    && FileLeg(d, d.fileOut, SwapOut) && FileLeg(d, d.fileIn, SwapIn)
    && Gap(d.fileOut.at.value, d.fileIn.at.value) < SECOND
  }

  function Leg(d: Dust, fromApi: bool, out: bool): Item {
    if fromApi then if out then d.apiOut else d.apiIn else if out then d.fileOut else d.fileIn
  }

  function IdOf(d: Dust, out: bool): string {
    d.id + if out then "-out" else "-in"
  }

  // ---- whatever else there is ----------------------------------------------------------------------

  /** With or without an id, the row reads as an API leg of a conversion that the export leg is part of. */
  predicate ReadsAsApiOf(file: Item, r: Item) {
    && IsDustLeg(r.kind) && r.raw.transfered.Some? && file.at.Some? && WithinReach(r.at, file.at.value)
    && MatchesLeg(file, ConversionOf(r.raw))
  }

  /** The row could be taken for the export leg's own, or for a row the leg belongs to. */
  predicate ClashesFile(file: Item, r: Item) {
    (!ApiDust(r) && NearBy(file, r)) || ReadsAsApiOf(file, r)
  }

  /** The row could be taken for a copy of the conversion: by its id, as the same event, or as half of the pairing. */
  predicate Clashes(d: Dust, r: Item) {
    || r.txId == Some(IdOf(d, true)) || r.txId == Some(IdOf(d, false))
    || (r.txId.None? && !FileDust(r) && (NearBy(d.apiOut, r) || NearBy(d.apiIn, r)))
    || (d.apiOut.at.Some? && FreeDustLeg(ConversionOf(d.apiOut.raw), d.apiOut.at.value, r))
    || ClashesFile(d.fileOut, r) || ClashesFile(d.fileIn, r)
  }

  predicate NamesNone(d: Dust, ids: set<string>) {
    IdOf(d, true) !in ids && IdOf(d, false) !in ids
  }

  /** An entry that is no leg of the conversion. */
  predicate Stranger(d: Dust, e: Item) {
    !Clashes(d, Stored(e)) && NamesNone(d, e.raw.mergedIds + IdsOf(e))
  }

  /** A ledger that holds nothing of the conversion. */
  predicate Foreign(l: Ledger, d: Dust) {
    (forall i :: 0 <= i < |l.rows| ==> !Clashes(d, l.rows[i])) && NamesNone(d, l.merged)
  }

  // ---- what the ledger holds of the conversion -----------------------------------------------------

  /** Which copies the rows are, and the date stamped on them once the export came second. */
  datatype Status = Unseen | FileOnly | Taken | ApiOnly | Marked(at: Time)

  /** How a conversion is held, and where each leg seen, out or in, has its row. */
  datatype Held = Held(s: Status, at: map<bool, nat>)

  predicate Whole(h: Held) {
    true in h.at && false in h.at
  }

  predicate HasRow(at: map<bool, nat>, i: nat) {
    (true in at && at[true] == i) || (false in at && at[false] == i)
  }

  /** The row is one of the conversion's. */
  predicate Owns(h: Held, i: nat) {
    HasRow(h.at, i)
  }

  function RowOf(d: Dust, s: Status, out: bool): Item
    requires s != Unseen
  {
    match s
    case FileOnly => Stored(Leg(d, false, out))
    case Taken => WithId(Stored(Leg(d, false, out)), IdOf(d, out))
    case ApiOnly => Stored(Leg(d, true, out))
    case Marked(at) => Stamped(Stored(Leg(d, true, out)), at)
  }

  predicate Fits(d: Dust, h: Held) {
    && (h.s == Unseen ==> h.at == map[])
    && (h.s.Taken? || h.s.Marked? ==> Whole(h))
    && (h.s.Marked? ==> Some(h.s.at) in {d.fileOut.at, d.fileIn.at})
    && (Whole(h) ==> h.at[true] != h.at[false])
  }

  /** Each leg seen has its row, and every other row is a stranger's. */
  ghost predicate Tracks(d: Dust, l: Ledger, h: Held) {
    && Fits(d, h)
    && (forall out :: out in h.at ==> h.s != Unseen && h.at[out] < |l.rows| && l.rows[h.at[out]] == RowOf(d, h.s, out))
    && (forall i :: 0 <= i < |l.rows| && !Owns(h, i) ==> !Clashes(d, l.rows[i]))
    && NamesNone(d, l.merged)
  }

  // ---- queries over such a ledger ------------------------------------------------------------------

  lemma TheLegPair(rows: seq<Item>, near: Item -> bool, l: Legs)
    requires l.out < |rows| && l.into < |rows| && near(rows[l.out]) && near(rows[l.into])
    requires rows[l.out].kind == SwapOut && rows[l.into].kind == SwapIn && rows[l.out].groupId == rows[l.into].groupId
    requires forall i :: 0 <= i < |rows| && near(rows[i]) ==> i == l.out || i == l.into
    ensures LegPairs(rows, near) == [l]
  {
    SelectOne(rows, (r: Item) => near(r) && r.kind == SwapOut, l.out);
    SelectOne(rows, (r: Item) => near(r) && r.kind == SwapIn, l.into);
    assert [l.out][1..] == [] && [l.into][1..] == [];
    assert WithGroup(rows, l.out, [l.into]) == [l];
    assert SameGroup(rows, [l.out], [l.into]) == [l];
  }

  lemma {:induction false} NoIns(rows: seq<Item>, outs: seq<nat>)
    requires forall i :: i in outs ==> i < |rows|
    ensures SameGroup(rows, outs, []) == []
  {
    if outs != [] {
      assert outs[0] in outs && forall i :: i in outs[1..] ==> i in outs;
      NoIns(rows, outs[1..]);
    }
  }

  lemma NoLegPair(rows: seq<Item>, near: Item -> bool, kind: Kind)
    requires IsDustLeg(kind) && forall i :: 0 <= i < |rows| && near(rows[i]) ==> rows[i].kind != kind
    ensures LegPairs(rows, near) == []
  {
    if kind == SwapOut {
      SelectNone(rows, (r: Item) => near(r) && r.kind == SwapOut);
    } else {
      SelectNone(rows, (r: Item) => near(r) && r.kind == SwapIn);
      NoIns(rows, Select(rows, (r: Item) => near(r) && r.kind == SwapOut));
    }
  }

  function Places(h: Held): Legs
    requires Whole(h)
  {
    Legs(h.at[true], h.at[false])
  }

  // ---- what an arriving API leg finds --------------------------------------------------------------

  lemma OwnIsNoEvidence(d: Dust, s: Status, out: bool, own: bool)
    requires Described(d) && s != Unseen
    ensures !Counts(Leg(d, true, out), IdLessNotFileDust, RowOf(d, s, own))
  {
    hide SameEvent, Described, FileDust, RowOf;
    OnlyFileIsIdLess(d, s, own);
  }

  lemma OnlyFileIsIdLess(d: Dust, s: Status, own: bool)
    requires Described(d) && s != Unseen
    ensures RowOf(d, s, own).txId.None? ==> FileDust(RowOf(d, s, own))
  {
  }

  lemma ApiNotCounted(d: Dust, l: Ledger, h: Held, base: nat, out: bool, repeat: nat)
    requires Described(d) && Tracks(d, l, h) && base <= |l.rows|
    ensures !Counted(l.rows, base, Leg(d, true, out), IdLessNotFileDust, repeat)
  {
    hide RowOf, Described, Fits;
    forall i | 0 <= i < base
      ensures !Counts(Leg(d, true, out), IdLessNotFileDust, l.rows[i])
    {
      if Owns(h, i) {
        var own := true in h.at && h.at[true] == i;
        OwnIsNoEvidence(d, h.s, out, own);
      } else {
        NotTheApiEvent(d, l.rows[i], out);
      }
    }
    CountZero(l.rows[..base], Leg(d, true, out), IdLessNotFileDust);
  }

  lemma NotTheApiEvent(d: Dust, r: Item, out: bool)
    requires !Clashes(d, r)
    ensures !Counts(Leg(d, true, out), IdLessNotFileDust, r)
  {
  }

  lemma OwnIsFree(d: Dust, s: Status, own: bool)
    requires Described(d) && s != Unseen
    ensures FreeDustLeg(ConversionOf(d.apiOut.raw), d.apiOut.at.value, RowOf(d, s, own)) <==> s == FileOnly
    ensures RowOf(d, s, own).kind == if own then SwapOut else SwapIn
    ensures RowOf(d, s, own).groupId == RowOf(d, s, !own).groupId
  {
  }

  /** The free export legs of the conversion are its own rows, while they are the export's copies. */
  lemma ApiFindsFile(d: Dust, l: Ledger, h: Held, i: nat)
    requires Described(d) && Tracks(d, l, h) && i < |l.rows|
    ensures FreeDustLeg(ConversionOf(d.apiOut.raw), d.apiOut.at.value, l.rows[i]) <==> h.s == FileOnly && Owns(h, i)
  {
    hide RowOf, Fits, FreeDustLeg, ClashesFile;
    if Owns(h, i) {
      var own := true in h.at && h.at[true] == i;
      OwnIsFree(d, h.s, own);
    }
  }

  lemma ApiLegIsAlike(d: Dust, out: bool)
    requires Described(d)
    ensures var e := Leg(d, true, out);
            && e.at == d.apiOut.at && e.at.Some? && ConversionOf(e.raw) == ConversionOf(d.apiOut.raw)
            && e.txId == Some(IdOf(d, out)) && ConversionId(IdOf(d, out)) == d.id && Present(e.txId) && ApiDust(e)
            && Saves(e) && e.raw.mergedIds == {} && Stored(e).txId == e.txId
  {
  }

  /** The API's leg finds both export legs. */
  lemma FreeDustIs(d: Dust, l: Ledger, h: Held, out: bool)
    requires Described(d) && Tracks(d, l, h) && h.s == FileOnly && Whole(h)
    ensures Leg(d, true, out).at.Some? && h.at[true] < |l.rows| && h.at[false] < |l.rows|
    ensures FreeDust(l.rows, Leg(d, true, out)) == [Places(h)]
  {
    hide RowOf, FreeDustLeg, Described, Clashes, ConversionOf;
    var e := Leg(d, true, out);
    ApiLegIsAlike(d, out);
    forall i | 0 <= i < |l.rows|
      ensures FreeDustLeg(ConversionOf(e.raw), e.at.value, l.rows[i]) <==> i == h.at[true] || i == h.at[false]
    {
      ApiFindsFile(d, l, h, i);
    }
    OwnIsFree(d, h.s, true);
    OwnIsFree(d, h.s, false);
    TheLegPair(l.rows, (r: Item) => FreeDustLeg(ConversionOf(e.raw), e.at.value, r), Places(h));
  }

  /** Unless the export's copies stand there whole, it finds none. */
  lemma FreeDustIsNone(d: Dust, l: Ledger, h: Held, out: bool)
    requires Described(d) && Tracks(d, l, h) && (h.s == FileOnly ==> !Whole(h))
    ensures Leg(d, true, out).at.Some? && FreeDust(l.rows, Leg(d, true, out)) == []
  {
    hide RowOf, FreeDustLeg, Described, Clashes, ConversionOf;
    var e := Leg(d, true, out);
    ApiLegIsAlike(d, out);
    var kind := if true in h.at then SwapIn else SwapOut;
    forall i | 0 <= i < |l.rows| && FreeDustLeg(ConversionOf(e.raw), e.at.value, l.rows[i])
      ensures l.rows[i].kind != kind
    {
      ApiFindsFile(d, l, h, i);
      var own := true in h.at && h.at[true] == i;
      OwnIsFree(d, h.s, own);
    }
    NoLegPair(l.rows, (r: Item) => FreeDustLeg(ConversionOf(e.raw), e.at.value, r), kind);
  }

  /** An API leg's id is known exactly when its row carries it. */
  lemma ApiKnown(d: Dust, l: Ledger, h: Held, out: bool)
    requires Described(d) && Tracks(d, l, h)
    ensures KnownId(l, Some(IdOf(d, out))) <==> out in h.at && h.s != FileOnly
  {
    hide Clashes, Described;
    if out in h.at && h.s != FileOnly {
      assert l.rows[h.at[out]].txId == Some(IdOf(d, out)) by {
        RowNames(d, h.s, out, out);
      }
    } else {
      forall i | 0 <= i < |l.rows|
        ensures l.rows[i].txId != Some(IdOf(d, out))
      {
        if Owns(h, i) {
          var own := true in h.at && h.at[true] == i;
          RowNames(d, h.s, own, out);
        } else {
          OthersNameNone(d, l.rows[i], out);
        }
      }
    }
  }

  lemma RowNames(d: Dust, s: Status, own: bool, out: bool)
    requires Described(d) && s != Unseen
    ensures RowOf(d, s, own).txId == Some(IdOf(d, out)) <==> own == out && s != FileOnly
  {
    assert (d.id + "-out")[|d.id + "-out"| - 1] == 't' && (d.id + "-in")[|d.id + "-in"| - 1] == 'n';
  }

  lemma OthersNameNone(d: Dust, r: Item, out: bool)
    requires !Clashes(d, r)
    ensures r.txId != Some(IdOf(d, out))
  {
  }

  // ---- what an arriving export leg finds -----------------------------------------------------------

  lemma OwnIsNoOtherEvent(d: Dust, s: Status, out: bool, own: bool)
    requires Described(d) && s != Unseen
    ensures Counts(Leg(d, false, out), NotApiDust, RowOf(d, s, own)) <==> own == out && s in {FileOnly, Taken}
  {
  }

  lemma NotTheFileEvent(d: Dust, r: Item, out: bool)
    requires !Clashes(d, r)
    ensures !Counts(Leg(d, false, out), NotApiDust, r)
  {
  }

  lemma FileNotCounted(d: Dust, l: Ledger, h: Held, base: nat, out: bool, repeat: nat)
    requires Described(d) && Tracks(d, l, h) && base <= |l.rows| && (out in h.at ==> h.s !in {FileOnly, Taken})
    ensures !Counted(l.rows, base, Leg(d, false, out), NotApiDust, repeat)
  {
    hide RowOf, Described, Fits;
    forall i | 0 <= i < base
      ensures !Counts(Leg(d, false, out), NotApiDust, l.rows[i])
    {
      if Owns(h, i) {
        var own := true in h.at && h.at[true] == i;
        OwnIsNoOtherEvent(d, h.s, out, own);
      } else {
        NotTheFileEvent(d, l.rows[i], out);
      }
    }
    CountZero(l.rows[..base], Leg(d, false, out), NotApiDust);
  }

  /** An export leg stored before the run, claimed or not, is counted. */
  lemma FileCounted(d: Dust, l: Ledger, h: Held, base: nat, out: bool)
    requires Described(d) && Tracks(d, l, h) && h.s in {FileOnly, Taken} && out in h.at && h.at[out] < base <= |l.rows|
    ensures Leg(d, false, out).at.Some? && Counted(l.rows, base, Leg(d, false, out), NotApiDust, 0)
  {
    OwnIsNoOtherEvent(d, h.s, out, out);
    assert l.rows[..base][h.at[out]] == RowOf(d, h.s, out);
    CountSome(l.rows[..base], Leg(d, false, out), NotApiDust, h.at[out]);
  }

  lemma OwnIsApiRow(d: Dust, s: Status, out: bool, own: bool)
    requires Described(d) && s != Unseen
    ensures var e := Leg(d, false, out);
            e.at.Some? && (ApiDustRowFor(e, e.at.value, RowOf(d, s, own)) <==> s == ApiOnly || s.Marked?)
  {
  }

  lemma NotAnApiRow(d: Dust, r: Item, out: bool)
    requires !Clashes(d, r)
    ensures var e := Leg(d, false, out);
            e.at.Some? ==> !ApiDustRowFor(e, e.at.value, r)
  {
  }

  /** The API rows an export leg belongs to are its conversion's own, while they are the API's copies. */
  lemma FileFindsApi(d: Dust, l: Ledger, h: Held, out: bool, i: nat)
    requires Described(d) && Tracks(d, l, h) && i < |l.rows|
    ensures var e := Leg(d, false, out);
            e.at.Some? && (ApiDustRowFor(e, e.at.value, l.rows[i]) <==> (h.s == ApiOnly || h.s.Marked?) && Owns(h, i))
  {
    hide RowOf, Fits, ApiDustRowFor, Clashes, Described;
    FileLegIsAlike(d, out);
    if Owns(h, i) {
      var own := true in h.at && h.at[true] == i;
      OwnIsApiRow(d, h.s, out, own);
    } else {
      NotAnApiRow(d, l.rows[i], out);
    }
  }

  lemma FileLegIsAlike(d: Dust, out: bool)
    requires Described(d)
    ensures var e := Leg(d, false, out);
            && e.at.Some? && FileDust(e) && !Present(e.txId) && Saves(e) && e.groupId == d.fileOut.groupId
            && e.raw.mergedIds == {}
  {
  }

  lemma WholeIs(d: Dust, l: Ledger, h: Held, out: bool)
    requires Described(d) && Tracks(d, l, h) && Whole(h) && (h.s == ApiOnly || h.s.Marked?)
    ensures Leg(d, false, out).at.Some? && h.at[true] < |l.rows| && h.at[false] < |l.rows|
    ensures WholeConversions(l.rows, Leg(d, false, out)) == [Places(h)]
  {
    hide RowOf, ApiDustRowFor, Described, Clashes, IsWhole;
    var e := Leg(d, false, out);
    FileLegIsAlike(d, out);
    forall i | 0 <= i < |l.rows|
      ensures ApiDustRowFor(e, e.at.value, l.rows[i]) <==> i == h.at[true] || i == h.at[false]
    {
      FileFindsApi(d, l, h, out, i);
    }
    OwnIsFree(d, h.s, true);
    OwnIsFree(d, h.s, false);
    TheLegPair(l.rows, (r: Item) => ApiDustRowFor(e, e.at.value, r), Places(h));
    assert AllApiLegs(l.rows, e) == [Places(h)];
    OnlyWhole(l.rows, e, Places(h));
  }

  lemma OnlyWhole(rows: seq<Item>, e: Item, l: Legs)
    requires e.at.Some? && AllApiLegs(rows, e) == [l]
    ensures WholeConversions(rows, e) == [l]
  {
    hide ApiLegs, WholeConversions, AllApiLegs;
    assert forall m :: ApiLegs(rows, e, m) ==> m in AllApiLegs(rows, e);
    assert [l][0] in AllApiLegs(rows, e);
    assert IsWhole(rows, e, l);
    Singleton(WholeConversions(rows, e), l);
  }

  lemma Singleton(xs: seq<Legs>, l: Legs)
    requires l in xs && |xs| <= 1
    ensures xs == [l]
  {
  }

  /** Unless the API's copies stand there whole, there is no conversion to pair with. */
  lemma NoConversion(d: Dust, l: Ledger, h: Held, out: bool)
    requires Described(d) && Tracks(d, l, h) && (h.s == ApiOnly || h.s.Marked? ==> !Whole(h))
    ensures Leg(d, false, out).at.Some?
    ensures TheConversion(l.rows, Leg(d, false, out)) == None && !ConversionTwinned(l.rows, Leg(d, false, out))
  {
    hide RowOf, ApiDustRowFor, Described, Clashes, IsWhole;
    var e := Leg(d, false, out);
    FileLegIsAlike(d, out);
    var kind := if true in h.at then SwapIn else SwapOut;
    forall i | 0 <= i < |l.rows| && ApiDustRowFor(e, e.at.value, l.rows[i])
      ensures l.rows[i].kind != kind
    {
      FileFindsApi(d, l, h, out, i);
      var own := true in h.at && h.at[true] == i;
      OwnIsFree(d, h.s, own);
    }
    NoLegPair(l.rows, (r: Item) => ApiDustRowFor(e, e.at.value, r), kind);
    assert AllApiLegs(l.rows, e) == [];
    assert WholeConversions(l.rows, e) == [];
  }

  lemma UnstampedIsFree(rows: seq<Item>, e: Item, l: Legs)
    requires e.at.Some? && WholeConversions(rows, e) == [l]
    requires l.out < |rows| && l.into < |rows| && rows[l.out].raw.twin.None? && rows[l.into].raw.twin.None?
    ensures TheConversion(rows, e) == Some(l) && !ConversionTwinned(rows, e)
  {
    hide IsWhole, ApiLegs, WholeConversions, FreeConversions;
    assert [l][0] in WholeConversions(rows, e);
    assert l in FreeConversions(rows, e);
    Singleton(FreeConversions(rows, e), l);
  }

  lemma StampedIsTwinned(rows: seq<Item>, e: Item, l: Legs)
    requires e.at.Some? && WholeConversions(rows, e) == [l]
    requires l.out < |rows| && l.into < |rows| && TwinNear(rows[l.out], e.at.value)
    ensures ConversionTwinned(rows, e)
  {
    hide IsWhole, ApiLegs;
    assert [l][0] in WholeConversions(rows, e);
  }

  lemma MarkNear(d: Dust, s: Status, out: bool)
    requires Described(d) && s.Marked? && Some(s.at) in {d.fileOut.at, d.fileIn.at}
    ensures Leg(d, false, out).at.Some? && TwinNear(RowOf(d, s, true), Leg(d, false, out).at.value)
  {
  }

  /** The batch holds both export legs, and no other entry that could be one. */
  predicate GroupShown(d: Dust, batch: seq<Item>, l: Legs) {
    && l.out < |batch| && l.into < |batch| && batch[l.out] == d.fileOut && batch[l.into] == d.fileIn
    && forall i :: 0 <= i < |batch| && i != l.out && i != l.into ==>
         d.apiOut.at.Some? && !FreeDustLeg(ConversionOf(d.apiOut.raw), d.apiOut.at.value, Stored(batch[i]))
  }

  lemma GroupIs(d: Dust, batch: seq<Item>, l: Legs, own: bool)
    requires Described(d) && GroupShown(d, batch, l)
    ensures TheGroup(batch, RowOf(d, ApiOnly, own)) == Some(d.fileOut.groupId)
  {
    var api := RowOf(d, ApiOnly, own);
    TheLegPair(batch, (other: Item) => BatchLeg(api, other), l);
    assert BatchLegs(batch, api) == [l];
  }

  // ---- one leg -------------------------------------------------------------------------------------

  function Arrive(s: Status, fromApi: bool, at: Time): Status {
    match s
    case Unseen => if fromApi then ApiOnly else FileOnly
    case FileOnly => if fromApi then Taken else FileOnly
    case ApiOnly => if fromApi then ApiOnly else Marked(at)
    case _ => s
  }

  /** How the conversion is held once a leg has come, with `n` rows before it. */
  function Arrived(d: Dust, h: Held, fromApi: bool, out: bool, n: nat): Held
    requires Described(d)
  {
    Held(Arrive(h.s, fromApi, Leg(d, fromApi, out).at.value), if out in h.at then h.at else h.at[out := n])
  }

  /**
   What a leg of the second source needs: the first source's rows whole, and, of the export, its group whole in the
   batch. A leg of the export is the first of its key, and stored, if at all, before the run.
   */
  ghost predicate Ready(d: Dust, h: Held, base: nat, batch: seq<Item>, fromApi: bool, out: bool, repeat: nat) {
    if fromApi then h.s == FileOnly ==> Whole(h)
    else
      && repeat == 0
      && (h.s in {FileOnly, Taken} && out in h.at ==> h.at[out] < base)
      && (h.s == ApiOnly ==> Whole(h) && exists l :: GroupShown(d, batch, l))
  }

  function Rewritten(d: Dust, rows: seq<Item>, h: Held, s: Status): (all: seq<Item>)
    requires Described(d) && Whole(h) && h.at[true] < |rows| && h.at[false] < |rows| && s != Unseen
    ensures |all| == |rows|
  {
    rows[h.at[true] := RowOf(d, s, true)][h.at[false] := RowOf(d, s, false)]
  }

  /** The API's leg gives both export legs their ids. */
  lemma TakesBoth(d: Dust, l: Ledger, h: Held)
    requires Described(d) && Tracks(d, l, h) && h.s == FileOnly && Whole(h)
    ensures h.at[true] < |l.rows| && h.at[false] < |l.rows|
    ensures TakeBoth(l.rows, Places(h), d.id) == Rewritten(d, l.rows, h, Taken)
  {
    hide Clashes, Described;
    ApiKnown(d, l, h, true);
    ApiKnown(d, l, h, false);
  }

  lemma ApiVerdict(d: Dust, l: Ledger, h: Held, base: nat, batch: seq<Item>, i: nat, out: bool, repeat: nat)
    requires Described(d) && Tracks(d, l, h) && base <= |l.rows| && i < |batch| && batch[i] == Leg(d, true, out)
    requires Ready(d, h, base, batch, true, out, repeat)
    ensures Duplicate(l, base, batch, i, repeat)
         == if out !in h.at then Verdict(false, l.rows)
            else if h.s != FileOnly then Verdict(true, l.rows)
            else Verdict(true, Rewritten(d, l.rows, h, Taken))
  {
    hide Described, Clashes, RowOf, KnownId, ApiDust, Counted, Present, FreeDustLeg, ConversionId, TakeBoth;
    var e := batch[i];
    ApiLegIsAlike(d, out);
    ApiKnown(d, l, h, out);
    if !(out in h.at && h.s != FileOnly) {
      ApiNotCounted(d, l, h, base, out, repeat);
      if out in h.at {
        FreeDustIs(d, l, h, out);
        TakesBoth(d, l, h);
      } else {
        FreeDustIsNone(d, l, h, out);
      }
    }
  }

  lemma StampsBoth(d: Dust, l: Ledger, h: Held, at: Time)
    requires Described(d) && Tracks(d, l, h) && h.s == ApiOnly && Whole(h)
    ensures h.at[true] < |l.rows| && h.at[false] < |l.rows|
    ensures StampBoth(l.rows, Places(h), at) == Rewritten(d, l.rows, h, Marked(at))
  {
    hide Clashes, Described;
  }

  /** The export's leg stamps both API rows. */
  lemma FileStamps(d: Dust, l: Ledger, h: Held, base: nat, batch: seq<Item>, i: nat, out: bool, g: Legs)
    requires Described(d) && Tracks(d, l, h) && base <= |l.rows| && i < |batch| && batch[i] == Leg(d, false, out)
    requires h.s == ApiOnly && Whole(h) && GroupShown(d, batch, g)
    ensures Leg(d, false, out).at.Some?
    ensures FileDustTwin(l.rows, base, batch, i, 0)
         == Verdict(true, Rewritten(d, l.rows, h, Marked(Leg(d, false, out).at.value)))
  {
    hide Described, Clashes, Counted, GroupShown, TheGroup, TheConversion, ConversionTwinned, StampBoth,
         WholeConversions;
    var e := batch[i];
    FileLegIsAlike(d, out);
    FileNotCounted(d, l, h, base, out, 0);
    WholeIs(d, l, h, out);
    UnstampedLegs(d);
    UnstampedIsFree(l.rows, e, Places(h));
    GroupIs(d, batch, g, h.at[true] < h.at[false]);
    StampsBoth(d, l, h, e.at.value);
  }

  lemma UnstampedLegs(d: Dust)
    requires Described(d)
    ensures RowOf(d, ApiOnly, true).raw.twin.None? && RowOf(d, ApiOnly, false).raw.twin.None?
  {
  }

  lemma FileKnown(d: Dust, l: Ledger, h: Held, base: nat, batch: seq<Item>, i: nat, out: bool)
    requires Described(d) && Tracks(d, l, h) && base <= |l.rows| && i < |batch| && batch[i] == Leg(d, false, out)
    requires out in h.at && h.s !in {Unseen, ApiOnly} && (h.s in {FileOnly, Taken} ==> h.at[out] < base)
    ensures FileDustTwin(l.rows, base, batch, i, 0) == Verdict(true, l.rows)
  {
    hide Described, Clashes, Counted, ConversionTwinned, PairDust, WholeConversions, RowOf;
    FileLegIsAlike(d, out);
    if h.s.Marked? {
      WholeIs(d, l, h, out);
      MarkNear(d, h.s, out);
      StampedIsTwinned(l.rows, batch[i], Places(h));
    } else {
      FileCounted(d, l, h, base, out);
    }
  }

  lemma FileNew(d: Dust, l: Ledger, h: Held, base: nat, batch: seq<Item>, i: nat, out: bool)
    requires Described(d) && Tracks(d, l, h) && base <= |l.rows| && i < |batch| && batch[i] == Leg(d, false, out)
    requires out !in h.at && h.s != ApiOnly
    ensures FileDustTwin(l.rows, base, batch, i, 0) == Verdict(false, l.rows)
  {
    hide Described, Clashes, Counted, ConversionTwinned, TheConversion, RowOf;
    FileLegIsAlike(d, out);
    FileNotCounted(d, l, h, base, out, 0);
    NoConversion(d, l, h, out);
  }

  lemma FileVerdict(d: Dust, l: Ledger, h: Held, base: nat, batch: seq<Item>, i: nat, out: bool)
    requires Described(d) && Tracks(d, l, h) && base <= |l.rows| && i < |batch| && batch[i] == Leg(d, false, out)
    requires Ready(d, h, base, batch, false, out, 0)
    ensures Leg(d, false, out).at.Some?
    ensures Duplicate(l, base, batch, i, 0)
         == if out !in h.at then Verdict(false, l.rows)
            else if h.s != ApiOnly then Verdict(true, l.rows)
            else Verdict(true, Rewritten(d, l.rows, h, Marked(Leg(d, false, out).at.value)))
  {
    hide Described, Clashes, FileDustTwin, RowOf, FileDust, Present;
    FileLegIsAlike(d, out);
    if out !in h.at {
      FileNew(d, l, h, base, batch, i, out);
    } else if h.s == ApiOnly {
      var g :| GroupShown(d, batch, g);
      FileStamps(d, l, h, base, batch, i, out, g);
    } else {
      FileKnown(d, l, h, base, batch, i, out);
    }
  }

  /** A leg alone pairs with nothing: while the other source's rows are one leg short, the leg is stored. */
  lemma OneLegPairsWithNothing(d: Dust, l: Ledger, h: Held, base: nat, batch: seq<Item>, i: nat, fromApi: bool,
                               out: bool, repeat: nat)
    requires Described(d) && Tracks(d, l, h) && base <= |l.rows| && i < |batch| && batch[i] == Leg(d, fromApi, out)
    requires h.s == (if fromApi then FileOnly else ApiOnly) && !Whole(h)
    ensures Duplicate(l, base, batch, i, repeat) == Verdict(false, l.rows)
  {
    hide Described, Clashes, RowOf, KnownId, ApiDust, FileDust, Counted, Present, ConversionTwinned, TheConversion;
    if fromApi {
      ApiLegIsAlike(d, out);
      ApiKnown(d, l, h, out);
      ApiNotCounted(d, l, h, base, out, repeat);
      FreeDustIsNone(d, l, h, out);
    } else {
      FileLegIsAlike(d, out);
      FileNotCounted(d, l, h, base, out, repeat);
      NoConversion(d, l, h, out);
    }
  }

  /** Nor does a leg of the export whose group is not whole in the batch. */
  lemma LoneExportLegIsStored(d: Dust, l: Ledger, h: Held, base: nat, batch: seq<Item>, i: nat, out: bool, repeat: nat)
    requires Described(d) && Tracks(d, l, h) && base <= |l.rows| && i < |batch| && batch[i] == Leg(d, false, out)
    requires h.s == ApiOnly && Whole(h)
    requires forall j, own :: 0 <= j < |batch| && BatchLeg(RowOf(d, ApiOnly, own), batch[j]) ==> batch[j] == batch[i]
    ensures Duplicate(l, base, batch, i, repeat) == Verdict(false, l.rows)
  {
    hide Described, Clashes, RowOf, FileDust, Counted, Present, ConversionTwinned, TheConversion, WholeConversions,
         BatchLeg;
    var e, own := batch[i], h.at[true] < h.at[false];
    FileLegIsAlike(d, out);
    FileNotCounted(d, l, h, base, out, repeat);
    WholeIs(d, l, h, out);
    UnstampedLegs(d);
    UnstampedIsFree(l.rows, e, Places(h));
    LegKind(d, out);
    NoLegPair(batch, (other: Item) => BatchLeg(RowOf(d, ApiOnly, own), other), if out then SwapIn else SwapOut);
    assert BatchLegs(batch, RowOf(d, ApiOnly, own)) == [];
  }

  lemma LegKind(d: Dust, out: bool)
    requires Described(d)
    ensures Leg(d, false, out).kind == if out then SwapOut else SwapIn
  {
  }

  // ---- rows added and changed ----------------------------------------------------------------------

  /** A leg seen for the first time becomes the last row. */
  lemma TracksNew(d: Dust, l: Ledger, h: Held, s: Status, out: bool)
    requires Tracks(d, l, h) && out !in h.at && s in {FileOnly, ApiOnly} && (h.s == Unseen || h.s == s)
    ensures Tracks(d, l.(rows := l.rows + [RowOf(d, s, out)]), Held(s, h.at[out := |l.rows|]))
  {
    hide RowOf, Clashes;
  }

  /** Both rows take their next form in place. */
  lemma TracksRewritten(d: Dust, l: Ledger, h: Held, s: Status)
    requires Described(d) && Tracks(d, l, h) && Whole(h) && h.at[true] < |l.rows| && h.at[false] < |l.rows|
    requires s != Unseen && Fits(d, Held(s, h.at))
    ensures Tracks(d, l.(rows := Rewritten(d, l.rows, h, s)), Held(s, h.at))
  {
    hide RowOf, Clashes, Described;
  }

  lemma TracksAdded(d: Dust, l: Ledger, h: Held, r: Item, ids: set<string>)
    requires Tracks(d, l, h) && !Clashes(d, r) && NamesNone(d, ids)
    ensures Tracks(d, Ledger(l.rows + [r], l.merged + ids), h)
  {
    hide RowOf, Clashes;
  }

  lemma TracksChanged(d: Dust, l: Ledger, h: Held, i: nat, r: Item)
    requires Tracks(d, l, h) && i < |l.rows| && !Owns(h, i) && !Clashes(d, r)
    ensures Tracks(d, l.(rows := l.rows[i := r]), h)
  {
    hide RowOf, Clashes;
  }

  /** The ledger once a leg has come. */
  function LegStored(d: Dust, l: Ledger, h: Held, fromApi: bool, out: bool): Ledger
    requires Described(d) && Tracks(d, l, h)
  {
    var h' := Arrived(d, h, fromApi, out, |l.rows|);
    if out !in h.at then l.(rows := l.rows + [Stored(Leg(d, fromApi, out))])
    else if h'.s == h.s || !Whole(h) then l
    else l.(rows := Rewritten(d, l.rows, h, h'.s))
  }

  /** A leg that may come is stored, known, or writes the pairing on both rows; no other row changes. */
  lemma LegArrives(d: Dust, p: Progress, h: Held, base: nat, batch: seq<Item>, i: nat, fromApi: bool, out: bool)
    requires Described(d) && Tracks(d, p.ledger, h) && base <= |p.ledger.rows| && i < |batch|
    requires batch[i] == Leg(d, fromApi, out) && Ready(d, h, base, batch, fromApi, out, Repeat(p, batch[i]))
    ensures Step(p, base, batch, i).ledger == LegStored(d, p.ledger, h, fromApi, out)
    ensures Tracks(d, Step(p, base, batch, i).ledger, Arrived(d, h, fromApi, out, |p.ledger.rows|))
  {
    hide Described, Clashes, Duplicate, Repeat, Stored, Saves, GroupShown;
    var l, h' := p.ledger, Arrived(d, h, fromApi, out, |p.ledger.rows|);
    if fromApi {
      ApiLegIsAlike(d, out);
      ApiVerdict(d, l, h, base, batch, i, out, Repeat(p, batch[i]));
    } else {
      FileLegIsAlike(d, out);
      FileVerdict(d, l, h, base, batch, i, out);
    }
    assert l.merged + {} == l.merged;
    if out !in h.at {
      TracksNew(d, l, h, h'.s, out);
    } else if h'.s != h.s {
      TracksRewritten(d, l, h, h'.s);
    }
  }
}

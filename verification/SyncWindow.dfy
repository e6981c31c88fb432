/** No hole in the sync window: what the venue posts in time is fetched, and what fails to save is fetched again. */
module SyncWindow {
  import opened Prelude
  import opened LedgerRows
  import opened LedgerStore
  import opened LedgerSync

  /** An entry of the venue's history, and when the venue posted it. */
  datatype Posting = Posting(entry: Item, postedAt: Time)

  /** What happens to one key over time: syncs that fetch, syncs that fail before anything is stored, file imports. */
  datatype Event =
    | Synced(started: Time, fetched: seq<Item>)
    | SyncFailed
    | Imported(entries: seq<Item>)

  datatype Key = Key(ledger: Ledger, mark: Option<Time>)

  function Happens(k: Key, e: Event): Key {
    match e
    case Synced(started, fetched) =>
      var run := Store(k.ledger, fetched);
      Key(run.ledger, Watermark(k.mark, fetched, run.outcome.minSkipped, started))
    case SyncFailed => k
    case Imported(entries) => Key(Store(k.ledger, entries).ledger, k.mark)
  }

  function KeyAfter(k: Key, events: seq<Event>, n: nat): Key
    requires n <= |events|
  {
    if n == 0 then k else Happens(KeyAfter(k, events, n - 1), events[n - 1])
  }

  /** A venue answers with everything it has posted from the start time on; `window` is how far back it can be asked. */
  ghost predicate Complete(window: Option<int>, k: Key, history: seq<Posting>, started: Time, fetched: seq<Item>) {
    var from := StartTime(k.mark, started, window);
    forall p :: p in history && p.postedAt <= started && p.entry.at.Some? && (from.Some? ==>
      from.value <= p.entry.at.value)
      ==> p.entry in fetched
  }

  /** And with nothing from before it. */
  predicate Precise(window: Option<int>, k: Key, started: Time, fetched: seq<Item>) {
    var from := StartTime(k.mark, started, window);
    from.Some? ==> forall e :: e in fetched && e.at.Some? ==> from.value <= e.at.value
  }

  /** The date is not past the reach of a sync that starts then. */
  predicate Reached(window: Option<int>, started: Time, e: Item) {
    e.at.Some? && (window.Some? ==> started - window.value <= e.at.value)
  }

  ghost predicate Run(window: Option<int>, k: Key, history: seq<Posting>, events: seq<Event>) {
    && (forall n :: 0 <= n < |events| && events[n].Synced? ==>
          Complete(window, KeyAfter(k, events, n), history, events[n].started, events[n].fetched))
    && (forall m, n :: 0 <= m < n < |events| && events[m].Synced? && events[n].Synced? ==>
          events[m].started <= events[n].started)
  }

  /** Posted no more than 25 hours after its own date. */
  predicate InTime(p: Posting) {
    p.entry.at.Some? && p.postedAt - 90_000_000_000 <= p.entry.at.value
  }

  /** Entry `i` of the batch fails to save. */
  predicate SkippedAt(l: Ledger, batch: seq<Item>, i: nat)
    requires i < |batch|
  {
    var p := After(l, batch, i);
    !Saves(batch[i]) && !Duplicate(p.ledger, |l.rows|, batch, i, Repeat(p, batch[i])).duplicate
  }

  /** The sync at `n` saved the entry, or found it already there. */
  ghost predicate SettledBy(k: Key, events: seq<Event>, n: nat, e: Item)
    requires n < |events|
  {
    events[n].Synced? && exists i :: 0 <= i < |events[n].fetched| && events[n].fetched[i] == e
                                     && !SkippedAt(KeyAfter(k, events, n).ledger, events[n].fetched, i)
  }

  // ---- the watermark of one sync -------------------------------------------------------------------

  lemma {:induction false} MinSkippedIsEarliest(l: Ledger, batch: seq<Item>, n: nat, i: nat)
    requires i < n <= |batch| && batch[i].at.Some? && SkippedAt(l, batch, i)
    ensures var m := After(l, batch, n).outcome.minSkipped; m.Some? && m.value <= batch[i].at.value
  {
    hide Duplicate;
    if i < n - 1 {
      MinSkippedIsEarliest(l, batch, n - 1, i);
    }
  }

  /** A sync never moves the watermark past its own start, nor past an entry that failed to save in it. */
  lemma WatermarkIsHeldBack(k: Key, started: Time, fetched: seq<Item>)
    ensures var mark := Happens(k, Synced(started, fetched)).mark;
            && (mark.Some? ==> mark.value <= started)
            && forall i :: 0 <= i < |fetched| && fetched[i].at.Some? && SkippedAt(k.ledger, fetched, i) ==>
                 mark.Some? && mark.value <= fetched[i].at.value
  {
    hide SkippedAt, Duplicate;
    forall i | 0 <= i < |fetched| && fetched[i].at.Some? && SkippedAt(k.ledger, fetched, i)
      ensures var m := Store(k.ledger, fetched).outcome.minSkipped; m.Some? && m.value <= fetched[i].at.value
    {
      MinSkippedIsEarliest(k.ledger, fetched, |fetched|, i);
    }
  }

  /** The watermark at any moment is the one it began with, or lies before the start of a sync that ran. */
  lemma {:induction false} WatermarkComesFromASync(k: Key, events: seq<Event>, n: nat)
    requires n <= |events|
    ensures var mark := KeyAfter(k, events, n).mark;
            mark == k.mark || mark.None? || exists m :: 0 <= m < n && events[m].Synced? && mark.value <= events[m].started
  {
    hide Store;
    if n > 0 {
      WatermarkComesFromASync(k, events, n - 1);
      if events[n - 1].Synced? {
        WatermarkIsHeldBack(KeyAfter(k, events, n - 1), events[n - 1].started, events[n - 1].fetched);
      }
    }
  }

  // ---- exactly where the watermark goes ------------------------------------------------------------

  lemma {:induction false} LatestDateIs(entries: seq<Item>)
    ensures LatestDate(entries).None? <==> forall i :: 0 <= i < |entries| ==> entries[i].at.None?
    ensures LatestDate(entries).Some? ==>
              && (exists i :: 0 <= i < |entries| && entries[i].at == LatestDate(entries))
              && forall i :: 0 <= i < |entries| && entries[i].at.Some? ==>
                   entries[i].at.value <= LatestDate(entries).value
  {
    if entries != [] {
      var n := |entries| - 1;
      LatestDateIs(entries[..n]);
      assert forall i :: 0 <= i < n ==> entries[..n][i] == entries[i];
      assert LatestDate(entries) == entries[n].at || LatestDate(entries) == LatestDate(entries[..n]);
    }
  }

  lemma {:induction false} MinSkippedIs(l: Ledger, batch: seq<Item>, n: nat)
    requires n <= |batch|
    ensures var m := After(l, batch, n).outcome.minSkipped;
            && (m.None? <==> forall i :: 0 <= i < n && SkippedAt(l, batch, i) ==> batch[i].at.None?)
            && (m.Some? ==>
                 && (exists i :: 0 <= i < n && SkippedAt(l, batch, i) && batch[i].at == m)
                 && forall i :: 0 <= i < n && SkippedAt(l, batch, i) && batch[i].at.Some? ==> m.value <= batch[i].at.value)
  {
    hide Duplicate, SkippedAt;
    if n > 0 {
      MinSkippedIs(l, batch, n - 1);
      NextSkipped(l, batch, n - 1);
      hide After;
    }
  }

  lemma NextSkipped(l: Ledger, batch: seq<Item>, i: nat)
    requires i < |batch|
    ensures After(l, batch, i + 1).outcome.minSkipped
         == if SkippedAt(l, batch, i) then EarliestOf(After(l, batch, i).outcome.minSkipped, batch[i].at)
            else After(l, batch, i).outcome.minSkipped
  {
    hide Duplicate;
  }

  /** An entry with a date that was neither stored nor a duplicate. */
  predicate DatedSkip(k: Key, fetched: seq<Item>, i: nat) {
    i < |fetched| && fetched[i].at.Some? && SkippedAt(k.ledger, fetched, i)
  }

  predicate Dated(fetched: seq<Item>, i: nat) {
    i < |fetched| && fetched[i].at.Some?
  }

  /** The date, but not past the sync's own start. */
  function Capped(at: Time, started: Time): Time {
    if at <= started then at else started
  }

  /**
   The watermark after a sync. With every dated entry saved it is the latest date; otherwise the earliest date that
   failed to save; with nothing dated it stays; and it never passes the start of the sync.
   */
  lemma WatermarkIsExactly(k: Key, started: Time, fetched: seq<Item>)
    ensures var mark := Happens(k, Synced(started, fetched)).mark;
            && ((exists i: nat :: Dated(fetched, i)) && !(exists i: nat :: DatedSkip(k, fetched, i)) ==>
                 && mark.Some?
                 && (forall i: nat :: Dated(fetched, i) ==> Capped(fetched[i].at.value, started) <= mark.value)
                 && exists i: nat :: Dated(fetched, i) && Capped(fetched[i].at.value, started) == mark.value)
            && ((exists i: nat :: DatedSkip(k, fetched, i)) ==>
                 && mark.Some?
                 && (forall i: nat :: DatedSkip(k, fetched, i) ==> mark.value <= Capped(fetched[i].at.value, started))
                 && exists i: nat :: DatedSkip(k, fetched, i) && Capped(fetched[i].at.value, started) == mark.value)
            && (!(exists i: nat :: Dated(fetched, i)) ==>
                 mark == if k.mark.None? then None else Some(Capped(k.mark.value, started)))
  {
    var least, latest := Store(k.ledger, fetched).outcome.minSkipped, LatestDate(fetched);
    LeastSkipped(k, fetched);
    LatestDated(fetched);
    hide Store, SkippedAt, LatestDate, DatedSkip, Dated;
    assert Happens(k, Synced(started, fetched)).mark == Watermark(k.mark, fetched, least, started);
  }

  lemma LatestDated(fetched: seq<Item>)
    ensures LatestDate(fetched).None? <==> !(exists i: nat :: Dated(fetched, i))
    ensures LatestDate(fetched).Some? ==>
              && (exists i: nat :: Dated(fetched, i) && fetched[i].at == LatestDate(fetched))
              && forall i: nat :: Dated(fetched, i) ==> fetched[i].at.value <= LatestDate(fetched).value
  {
    LatestDateIs(fetched);
    if LatestDate(fetched).Some? {
      var i: nat :| 0 <= i < |fetched| && fetched[i].at == LatestDate(fetched);
      assert Dated(fetched, i);
    }
  }

  lemma LeastSkipped(k: Key, fetched: seq<Item>)
    ensures var least := Store(k.ledger, fetched).outcome.minSkipped;
            && (least.None? <==> !(exists i: nat :: DatedSkip(k, fetched, i)))
            && (least.Some? ==>
                 && (exists i: nat :: DatedSkip(k, fetched, i) && Dated(fetched, i) && fetched[i].at == least)
                 && forall i: nat :: DatedSkip(k, fetched, i) ==> least.value <= fetched[i].at.value)
  {
    hide SkippedAt, After;
    var least := Store(k.ledger, fetched).outcome.minSkipped;
    MinSkippedIs(k.ledger, fetched, |fetched|);
    if least.Some? {
      var i: nat :| 0 <= i < |fetched| && SkippedAt(k.ledger, fetched, i) && fetched[i].at == least;
      assert DatedSkip(k, fetched, i) && Dated(fetched, i);
    }
  }

  /** A sync asks for everything from 25 hours before the watermark, or before its own start when that is earlier. */
  lemma AsksFrom(last: Option<Time>, started: Time, window: Option<int>, at: Time)
    ensures last.None? ==> StartTime(last, started, window) == None
    ensures last.Some? ==>
              && StartTime(last, started, window).Some?
              && (StartTime(last, started, window).value <= at <==>
                    && (last.value - 90_000_000_000 <= at || started - 90_000_000_000 <= at)
                    && (window.Some? ==> started - window.value <= at))
  {
  }

  // ---- whole runs ----------------------------------------------------------------------------------

  /**
   The first sync to start once an entry is posted fetches it, if the entry was posted at most 25 hours after its own
   date and the venue can still be asked for that date. Syncs that failed in between, and imports, change nothing
   about that.
   */
  lemma FirstSyncFetches(window: Option<int>, k: Key, history: seq<Posting>, events: seq<Event>, p: Posting, n: nat)
    requires Run(window, k, history, events) && p in history && InTime(p)
    requires k.mark.None? || k.mark.value <= p.postedAt
    requires n < |events| && events[n].Synced? && p.postedAt <= events[n].started
    requires forall m :: 0 <= m < n && events[m].Synced? ==> events[m].started < p.postedAt
    ensures KeyAfter(k, events, n).mark.None? || Reached(window, events[n].started, p.entry) ==>
              p.entry in events[n].fetched
    ensures Precise(window, KeyAfter(k, events, n), events[n].started, events[n].fetched)
            && p.entry in events[n].fetched ==>
              KeyAfter(k, events, n).mark.None? || Reached(window, events[n].started, p.entry)
  {
    hide Happens;
    WatermarkComesFromASync(k, events, n);
    assert Complete(window, KeyAfter(k, events, n), history, events[n].started, events[n].fetched);
  }

  /** The watermark stays where a sync left it until the next sync that fetches. */
  lemma {:induction false} MarkStays(k: Key, events: seq<Event>, m: nat, n: nat)
    requires m < n <= |events| && forall j :: m < j < n ==> !events[j].Synced?
    ensures KeyAfter(k, events, n).mark == KeyAfter(k, events, m + 1).mark
  {
    hide Store;
    if m + 1 < n {
      MarkStays(k, events, m, n - 1);
    }
  }

  /** An entry that failed to save is fetched again by the next sync, if the venue can still be asked for its date. */
  lemma SkippedIsFetchedAgain(window: Option<int>, k: Key, history: seq<Posting>, events: seq<Event>, p: Posting,
                              m: nat, n: nat, i: nat)
    requires Run(window, k, history, events) && p in history
    requires m < n < |events| && events[m].Synced? && events[n].Synced? && forall j :: m < j < n ==> !events[j].Synced?
    requires Reached(window, events[n].started, p.entry)
    requires i < |events[m].fetched| && events[m].fetched[i] == p.entry
    requires SkippedAt(KeyAfter(k, events, m).ledger, events[m].fetched, i) && p.postedAt <= events[m].started
    ensures p.entry in events[n].fetched
  {
    hide SkippedAt, Happens;
    var before := KeyAfter(k, events, m);
    assert KeyAfter(k, events, m + 1) == Happens(before, events[m]);
    assert events[m] == Synced(events[m].started, events[m].fetched);
    WatermarkIsHeldBack(before, events[m].started, events[m].fetched);
    MarkStays(k, events, m, n);
    assert Complete(window, KeyAfter(k, events, n), history, events[n].started, events[n].fetched);
  }

  /** The last sync among the first `n` events. */
  function LastSync(events: seq<Event>, n: nat): (m: Option<nat>)
    requires n <= |events|
    ensures match m
            case None => forall j :: 0 <= j < n ==> !events[j].Synced?
            case Some(m) => m < n && events[m].Synced? && forall j :: m < j < n ==> !events[j].Synced?
  {
    if n == 0 then None else if events[n - 1].Synced? then Some(n - 1) else LastSync(events, n - 1)
  }

  /**
   Over every run of successful and failed syncs and imports: an entry posted in time is fetched by every sync that
   starts once it is posted and can still ask for its date, until one of them saves it or finds it already there.
   */
  lemma {:induction false} NoHole(window: Option<int>, k: Key, history: seq<Posting>, events: seq<Event>, p: Posting,
                                  n: nat)
    requires Run(window, k, history, events) && p in history && InTime(p)
    requires k.mark.None? || k.mark.value <= p.postedAt
    requires n < |events| && events[n].Synced? && p.postedAt <= events[n].started
    requires Reached(window, events[n].started, p.entry)
    ensures p.entry in events[n].fetched || exists m :: 0 <= m < n && SettledBy(k, events, m, p.entry)
    decreases n
  {
    hide SkippedAt, KeyAfter, Complete, StartTime;
    var last := LastSync(events, n);
    if last.None? || events[last.value].started < p.postedAt {
      FirstSyncFetches(window, k, history, events, p, n);
    } else {
      var m := last.value;
      NoHole(window, k, history, events, p, m);
      if !exists j :: 0 <= j < n && SettledBy(k, events, j, p.entry) {
        assert !SettledBy(k, events, m, p.entry);
        var i :| 0 <= i < |events[m].fetched| && events[m].fetched[i] == p.entry;
        SkippedIsFetchedAgain(window, k, history, events, p, m, n, i);
      }
    }
  }
}

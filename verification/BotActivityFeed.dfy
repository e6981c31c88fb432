/** A bot's transactions and activity log as one newest-first feed, read a page at a time. */
module BotActivityFeed {
  import opened Prelude

  datatype Kind = Activity | Transaction

  /** A place in the feed; the id is only unique within its kind. */
  datatype Cursor = Cursor(at: int, kind: Kind, id: int)

  datatype Entry = Entry(place: Cursor, event: string)

  datatype Page = Page(items: seq<Entry>, next: Option<Cursor>)

  const EXCLUDED_EVENTS: set<string> := {"order_skipped", "order_ignored"}

  function Rank(kind: Kind): int {
    if kind == Activity then 0 else 1
  }

  /** Feed order: newest first, activity before transaction, highest id first. */
  predicate Before(a: Cursor, b: Cursor) {
    a.at > b.at || (a.at == b.at && (Rank(a.kind) < Rank(b.kind) || (a.kind == b.kind && a.id > b.id)))
  }

  predicate FeedOrder(a: Entry, b: Entry) {
    Before(a.place, b.place)
  }

  /** The order a query on one table asks for. */
  predicate TableOrder(a: Entry, b: Entry) {
    a.place.at > b.place.at || (a.place.at == b.place.at && a.place.id > b.place.id)
  }

  /** The tables: the kind goes with the table, and an id names one row of it. */
  ghost predicate Tables(transactions: seq<Entry>, activity: seq<Entry>) {
    && (forall e :: e in transactions ==> e.place.kind == Transaction)
    && (forall e :: e in activity ==> e.place.kind == Activity)
    && (forall e, f :: e in transactions && f in transactions && e.place.id == f.place.id ==> e == f)
    && (forall e, f :: e in activity && f in activity && e.place.id == f.place.id ==> e == f)
  }

  // ---- one page ------------------------------------------------------------------------------------

  function Insert(e: Entry, xs: seq<Entry>, before: (Entry, Entry) -> bool): (r: seq<Entry>)
    ensures forall x :: x in r <==> x == e || x in xs
  {
    if xs == [] || before(e, xs[0]) then [e] + xs else [xs[0]] + Insert(e, xs[1..], before)
  }

  /** The distinct rows of a query, in the order asked for. */
  function OrderBy(xs: seq<Entry>, before: (Entry, Entry) -> bool): (r: seq<Entry>)
    ensures forall x :: x in r <==> x in xs
  {
    if xs == [] then []
    else
      var rest := OrderBy(xs[1..], before);
      if xs[0] in rest then rest else Insert(xs[0], rest, before)
  }

  function Take<T>(xs: seq<T>, n: nat): seq<T> {
    if |xs| <= n then xs else xs[..n]
  }

  predicate CursorPredicate(kind: Kind, cursor: Cursor, e: Entry) {
    if kind == cursor.kind then
      e.place.at < cursor.at || (e.place.at == cursor.at && e.place.id < cursor.id)
    else if Rank(kind) > Rank(cursor.kind) then
      e.place.at <= cursor.at
    else
      e.place.at < cursor.at
  }

  function Fetch(table: seq<Entry>, kind: Kind, before: Option<Cursor>, limit: nat): seq<Entry> {
    var relation := if before.None? then table else Filter(table, e => CursorPredicate(kind, before.value, e));
    Take(OrderBy(relation, TableOrder), limit + 1)
  }

  function Visible(activity: seq<Entry>): seq<Entry> {
    Filter(activity, (e: Entry) => e.event !in EXCLUDED_EVENTS)
  }

  function Load(transactions: seq<Entry>, activity: seq<Entry>, before: Option<Cursor>, limit: nat): Page {
    var candidates := Fetch(transactions, Transaction, before, limit) + Fetch(Visible(activity), Activity, before, limit);
    var ordered := OrderBy(candidates, FeedOrder);
    var items := Take(ordered, limit);
    Page(items, if |ordered| > limit && items != [] then Some(items[|items| - 1].place) else None)
  }

  // ---- the feed it is a page of --------------------------------------------------------------------

  /** Every row that is shown, in feed order. */
  function Feed(transactions: seq<Entry>, activity: seq<Entry>): seq<Entry> {
    OrderBy(transactions + Visible(activity), FeedOrder)
  }

  predicate Past(before: Option<Cursor>, e: Entry) {
    before.None? || Before(before.value, e.place)
  }

  /** The part of the feed a cursor still has ahead of it. */
  function Rest(transactions: seq<Entry>, activity: seq<Entry>, before: Option<Cursor>): seq<Entry> {
    Filter(Feed(transactions, activity), e => Past(before, e))
  }

  ghost predicate InFeedOrder(xs: seq<Entry>) {
    forall i, j :: 0 <= i < j < |xs| ==> FeedOrder(xs[i], xs[j])
  }

  /** No two different rows have one place. */
  ghost predicate Placed(xs: seq<Entry>) {
    forall e, f :: e in xs && f in xs && e.place == f.place ==> e == f
  }

  lemma {:induction false} InsertKeepsOrder(e: Entry, xs: seq<Entry>)
    requires InFeedOrder(xs) && forall x :: x in xs ==> x.place != e.place
    ensures InFeedOrder(Insert(e, xs, FeedOrder))
  {
    if xs != [] && !FeedOrder(e, xs[0]) {
      InsertKeepsOrder(e, xs[1..]);
      var rest := Insert(e, xs[1..], FeedOrder);
      assert forall x :: x in rest ==> FeedOrder(xs[0], x);
      assert forall j :: 0 <= j < |rest| ==> rest[j] in rest;
    }
  }

  lemma {:induction false} OrderByOrders(xs: seq<Entry>)
    requires Placed(xs)
    ensures InFeedOrder(OrderBy(xs, FeedOrder))
  {
    if xs != [] {
      OrderByOrders(xs[1..]);
      if xs[0] !in OrderBy(xs[1..], FeedOrder) {
        InsertKeepsOrder(xs[0], OrderBy(xs[1..], FeedOrder));
      }
    }
  }

  /** The same rows in feed order are the same list. */
  lemma {:induction false} OneOrder(a: seq<Entry>, b: seq<Entry>)
    requires InFeedOrder(a) && InFeedOrder(b) && forall x :: x in a <==> x in b
    ensures a == b
  {
    assert a == [] || a[0] in a;
    assert b == [] || b[0] in b;
    if a != [] && b != [] {
      assert a[0] == b[0];
      forall x
        ensures x in a[1..] <==> x in b[1..]
      {
        assert x in a[1..] <==> x in a && x != a[0];
        assert x in b[1..] <==> x in b && x != b[0];
      }
      OneOrder(a[1..], b[1..]);
    }
  }

  lemma {:induction false} FilterKeepsOrder(xs: seq<Entry>, keep: Entry -> bool)
    requires InFeedOrder(xs)
    ensures InFeedOrder(Filter(xs, keep))
  {
    if xs != [] {
      var rest := Filter(xs[1..], keep);
      FilterKeepsOrder(xs[1..], keep);
      forall j | 0 <= j < |rest|
        ensures FeedOrder(xs[0], rest[j])
      {
        assert rest[j] in xs[1..];
      }
    }
  }

  /** Within one table the query's order is the feed's. */
  lemma {:induction false} TableOrderIsFeedOrder(xs: seq<Entry>)
    requires forall e, f :: e in xs && f in xs ==> e.place.kind == f.place.kind
    ensures OrderBy(xs, TableOrder) == OrderBy(xs, FeedOrder)
  {
    if xs != [] {
      TableOrderIsFeedOrder(xs[1..]);
      InsertAlike(xs[0], OrderBy(xs[1..], FeedOrder));
    }
  }

  lemma {:induction false} InsertAlike(e: Entry, xs: seq<Entry>)
    requires forall x :: x in xs ==> x.place.kind == e.place.kind
    ensures Insert(e, xs, TableOrder) == Insert(e, xs, FeedOrder)
  {
    if xs != [] {
      InsertAlike(e, xs[1..]);
    }
  }

  // ---- merging two ordered lists -------------------------------------------------------------------

  function Merge(a: seq<Entry>, b: seq<Entry>): (r: seq<Entry>)
    ensures forall x :: x in r <==> x in a || x in b
  {
    if a == [] then b
    else if b == [] then a
    else if FeedOrder(a[0], b[0]) then [a[0]] + Merge(a[1..], b)
    else [b[0]] + Merge(a, b[1..])
  }

  lemma {:induction false} MergeKeepsOrder(a: seq<Entry>, b: seq<Entry>)
    requires InFeedOrder(a) && InFeedOrder(b)
    requires forall x, y :: x in a && y in b ==> x.place != y.place
    ensures InFeedOrder(Merge(a, b))
    decreases |a| + |b|
  {
    if a != [] && b != [] {
      if FeedOrder(a[0], b[0]) {
        MergeKeepsOrder(a[1..], b);
        HeadFirst(a[0], a, b);
        InFront(a[0], Merge(a[1..], b));
      } else {
        MergeKeepsOrder(a, b[1..]);
        HeadFirst(b[0], b, a);
        InFront(b[0], Merge(a, b[1..]));
      }
    }
  }

  /** The head that comes before the other list's head comes before everything. */
  lemma HeadFirst(x: Entry, a: seq<Entry>, b: seq<Entry>)
    requires InFeedOrder(a) && InFeedOrder(b) && a != [] && b != [] && a[0] == x
    requires FeedOrder(x, b[0]) || x.place == b[0].place
    ensures forall y :: y in a[1..] ==> FeedOrder(x, y)
    ensures forall y :: y in b && y.place != x.place ==> FeedOrder(x, y)
  {
  }

  lemma InFront(x: Entry, rest: seq<Entry>)
    requires InFeedOrder(rest) && forall y :: y in rest ==> FeedOrder(x, y)
    ensures InFeedOrder([x] + rest)
  {
    assert forall j :: 0 <= j < |rest| ==> rest[j] in rest;
  }

  lemma TakeStep<T>(x: T, xs: seq<T>, n: nat)
    ensures Take([x] + xs, n + 1) == [x] + Take(xs, n)
  {
  }

  lemma TakeTwice<T>(xs: seq<T>, p: nat, n: nat)
    requires n <= p
    ensures Take(Take(xs, p), n) == Take(xs, n)
  {
  }

  lemma MergeStep(x: Entry, xs: seq<Entry>, ys: seq<Entry>)
    ensures ys != [] && FeedOrder(x, ys[0]) ==> Merge([x] + xs, ys) == [x] + Merge(xs, ys)
    ensures ys != [] && !FeedOrder(ys[0], x) ==> Merge(ys, [x] + xs) == [x] + Merge(ys, xs)
  {
    assert ([x] + xs)[1..] == xs;
  }

  lemma TakeHead<T>(xs: seq<T>, n: nat)
    requires n > 0 && xs != []
    ensures Take(xs, n) != [] && Take(xs, n)[0] == xs[0]
  {
  }

  lemma HeadFromLeft(x: Entry, xs: seq<Entry>, ys: seq<Entry>, n: nat, p: nat, q: nat)
    requires 0 < n <= p && 0 < q && ys != [] && FeedOrder(x, ys[0])
    requires Take(Merge(Take(xs, p - 1), Take(ys, q)), n - 1) == Take(Merge(xs, ys), n - 1)
    ensures Take(Merge(Take([x] + xs, p), Take(ys, q)), n) == Take(Merge([x] + xs, ys), n)
  {
    TakeHead(ys, q);
    TakeStep(x, xs, p - 1);
    MergeStep(x, xs, ys);
    MergeStep(x, Take(xs, p - 1), Take(ys, q));
    TakeStep(x, Merge(Take(xs, p - 1), Take(ys, q)), n - 1);
    TakeStep(x, Merge(xs, ys), n - 1);
  }

  lemma HeadFromRight(x: Entry, xs: seq<Entry>, ys: seq<Entry>, n: nat, p: nat, q: nat)
    requires 0 < n <= p && 0 < q && ys != [] && !FeedOrder(ys[0], x)
    requires Take(Merge(Take(ys, q), Take(xs, p - 1)), n - 1) == Take(Merge(ys, xs), n - 1)
    ensures Take(Merge(Take(ys, q), Take([x] + xs, p)), n) == Take(Merge(ys, [x] + xs), n)
  {
    TakeHead(ys, q);
    TakeStep(x, xs, p - 1);
    MergeStep(x, xs, ys);
    MergeStep(x, Take(xs, p - 1), Take(ys, q));
    TakeStep(x, Merge(Take(ys, q), Take(xs, p - 1)), n - 1);
    TakeStep(x, Merge(ys, xs), n - 1);
  }

  /** The first n of a merge need no more than the first n of either side. */
  lemma {:induction false} FirstOfMerge(a: seq<Entry>, b: seq<Entry>, n: nat, p: nat, q: nat)
    requires n <= p && n <= q
    ensures Take(Merge(Take(a, p), Take(b, q)), n) == Take(Merge(a, b), n)
    decreases n
  {
    if n == 0 || a == [] || b == [] {
      TakeTwice(a, p, n);
      TakeTwice(b, q, n);
    } else {
      hide Take, Merge;
      if FeedOrder(a[0], b[0]) {
        FirstOfMerge(a[1..], b, n - 1, p - 1, q);
        HeadFromLeft(a[0], a[1..], b, n, p, q);
        assert a == [a[0]] + a[1..];
      } else {
        FirstOfMerge(a, b[1..], n - 1, p, q - 1);
        HeadFromRight(b[0], b[1..], a, n, q, p);
        assert b == [b[0]] + b[1..];
      }
    }
  }

  // ---- a page is the top of what is left -----------------------------------------------------------

  /** Each table's own predicate is the feed order seen from the cursor. */
  lemma PredicateIsPast(table: seq<Entry>, kind: Kind, before: Option<Cursor>)
    requires forall e :: e in table ==> e.place.kind == kind
    ensures forall e :: e in table ==> (before.None? || CursorPredicate(kind, before.value, e) <==> Past(before, e))
  {
  }

  /** Ordering two lists together is merging them. */
  lemma OrderByMerges(a: seq<Entry>, b: seq<Entry>)
    requires InFeedOrder(a) && InFeedOrder(b) && forall x, y :: x in a && y in b ==> x.place != y.place
    ensures OrderBy(a + b, FeedOrder) == Merge(a, b)
  {
    MergeKeepsOrder(a, b);
    forall e, f | e in a + b && f in a + b && e.place == f.place
      ensures e == f
    {
      assert e in Merge(a, b) && f in Merge(a, b);
    }
    OrderByOrders(a + b);
    OneOrder(OrderBy(a + b, FeedOrder), Merge(a, b));
  }

  /** What a cursor has ahead of it is what each table has ahead of it, merged. */
  lemma RestIsMerge(transactions: seq<Entry>, activity: seq<Entry>, before: Option<Cursor>)
    requires Tables(transactions, activity)
    ensures var keep := (e: Entry) => Past(before, e);
            var t, a := OrderBy(Filter(transactions, keep), FeedOrder), OrderBy(Filter(Visible(activity), keep), FeedOrder);
            && InFeedOrder(t) && InFeedOrder(a) && (forall x, y :: x in t && y in a ==> x.place != y.place)
            && Rest(transactions, activity, before) == Merge(t, a)
  {
    var keep := (e: Entry) => Past(before, e);
    var t, a := Filter(transactions, keep), Filter(Visible(activity), keep);
    OrderByOrders(t);
    OrderByOrders(a);
    OrderByOrders(transactions + Visible(activity));
    FilterKeepsOrder(Feed(transactions, activity), keep);
    MergeKeepsOrder(OrderBy(t, FeedOrder), OrderBy(a, FeedOrder));
    OneOrder(Rest(transactions, activity, before), Merge(OrderBy(t, FeedOrder), OrderBy(a, FeedOrder)));
  }

  lemma TakeKeepsOrder(xs: seq<Entry>, n: nat)
    requires InFeedOrder(xs)
    ensures InFeedOrder(Take(xs, n)) && forall x :: x in Take(xs, n) ==> x in xs
  {
  }

  /** A page holds the next rows of the feed, and a cursor exactly when more follow. */
  lemma PageIsTop(transactions: seq<Entry>, activity: seq<Entry>, before: Option<Cursor>, limit: nat)
    requires Tables(transactions, activity) && limit >= 1
    ensures var page, rest := Load(transactions, activity, before, limit), Rest(transactions, activity, before);
            && page.items == Take(rest, limit)
            && page.next == if |rest| > limit then Some(rest[limit - 1].place) else None
  {
    hide Filter, OrderBy, Merge, InFeedOrder, Past;
    var keep := (e: Entry) => Past(before, e);
    FetchIsTop(transactions, Transaction, before, limit);
    FetchIsTop(Visible(activity), Activity, before, limit);
    RestIsMerge(transactions, activity, before);
    var t, a := OrderBy(Filter(transactions, keep), FeedOrder), OrderBy(Filter(Visible(activity), keep), FeedOrder);
    TakeKeepsOrder(t, limit + 1);
    TakeKeepsOrder(a, limit + 1);
    OrderByMerges(Take(t, limit + 1), Take(a, limit + 1));
    FirstOfMerge(t, a, limit + 1, limit + 1, limit + 1);
    SameTop(Merge(Take(t, limit + 1), Take(a, limit + 1)), Merge(t, a), limit);
  }

  lemma SameTop<T>(xs: seq<T>, ys: seq<T>, limit: nat)
    requires Take(xs, limit + 1) == Take(ys, limit + 1)
    ensures Take(xs, limit) == Take(ys, limit)
    ensures |xs| > limit <==> |ys| > limit
  {
    TakeTwice(xs, limit + 1, limit);
    TakeTwice(ys, limit + 1, limit);
  }

  lemma FetchIsTop(table: seq<Entry>, kind: Kind, before: Option<Cursor>, limit: nat)
    requires forall e :: e in table ==> e.place.kind == kind
    ensures Fetch(table, kind, before, limit) == Take(OrderBy(Filter(table, e => Past(before, e)), FeedOrder), limit + 1)
  {
    var keep := (e: Entry) => Past(before, e);
    if before.None? {
      FilterAll(table, keep);
    } else {
      FilterAlike(table, e => CursorPredicate(kind, before.value, e), keep);
    }
    TableOrderIsFeedOrder(Filter(table, keep));
  }

  lemma {:induction false} FilterAll<T(!new)>(xs: seq<T>, keep: T -> bool)
    requires forall x :: x in xs ==> keep(x)
    ensures Filter(xs, keep) == xs
  {
    if xs != [] {
      FilterAll(xs[1..], keep);
    }
  }

  // ---- following the cursor ------------------------------------------------------------------------

  lemma AfterPlace(xs: seq<Entry>, i: nat, x: Entry)
    requires InFeedOrder(xs) && i < |xs|
    ensures x in xs[i + 1..] <==> x in xs && Before(xs[i].place, x.place)
  {
    var ahead, behind := xs[..i + 1], xs[i + 1..];
    assert xs == ahead + behind;
    assert forall j :: 0 <= j < |ahead| ==> !FeedOrder(xs[i], ahead[j]);
    assert forall j :: 0 <= j < |behind| ==> FeedOrder(xs[i], behind[j]);
  }

  /** A place in the feed has behind it exactly the rows that follow. */
  lemma RestFromPlace(transactions: seq<Entry>, activity: seq<Entry>, before: Option<Cursor>, limit: nat)
    requires Tables(transactions, activity) && limit >= 1 && |Rest(transactions, activity, before)| > limit
    ensures var rest := Rest(transactions, activity, before);
            Rest(transactions, activity, Some(rest[limit - 1].place)) == rest[limit..]
  {
    OrderByOrders(transactions + Visible(activity));
    FilterFrom(Feed(transactions, activity), before, limit - 1);
  }

  lemma FilterFrom(feed: seq<Entry>, before: Option<Cursor>, i: nat)
    requires InFeedOrder(feed) && i < |Filter(feed, e => Past(before, e))|
    ensures var rest := Filter(feed, e => Past(before, e));
            Filter(feed, e => Past(Some(rest[i].place), e)) == rest[i + 1..]
  {
    var keep := (e: Entry) => Past(before, e);
    var rest := Filter(feed, keep);
    var here := rest[i];
    var keepHere := (e: Entry) => Past(Some(here.place), e);
    FilterKeepsOrder(feed, keep);
    FilterKeepsOrder(feed, keepHere);
    assert here in rest;
    hide Filter;
    forall x
      ensures x in rest[i + 1..] <==> x in Filter(feed, keepHere)
    {
      AfterPlace(rest, i, x);
      assert x in rest <==> x in feed && Past(before, x);
      assert Past(before, here);
    }
    OneOrder(Filter(feed, keepHere), rest[i + 1..]);
  }

  /** The pages a reader gets by following the cursor until there is none. */
  function Pages(transactions: seq<Entry>, activity: seq<Entry>, before: Option<Cursor>, limit: nat): seq<seq<Entry>>
    requires Tables(transactions, activity) && limit >= 1
    decreases |Rest(transactions, activity, before)|
  {
    PageIsTop(transactions, activity, before, limit);
    var page := Load(transactions, activity, before, limit);
    if page.next.None? then [page.items]
    else
      RestFromPlace(transactions, activity, before, limit);
      [page.items] + Pages(transactions, activity, page.next, limit)
  }

  function Concat(pages: seq<seq<Entry>>): seq<Entry> {
    if pages == [] then [] else pages[0] + Concat(pages[1..])
  }

  /** Every page but the last is full. */
  ghost predicate FullPages(pages: seq<seq<Entry>>, limit: nat) {
    pages != [] && (forall i :: 0 <= i < |pages| - 1 ==> |pages[i]| == limit) && |pages[|pages| - 1]| <= limit
  }

  lemma OnePageMore(page: seq<Entry>, pages: seq<seq<Entry>>, limit: nat)
    ensures |page| <= limit ==> FullPages([page], limit) && Concat([page]) == page
    ensures |page| == limit && FullPages(pages, limit) ==> FullPages([page] + pages, limit)
    ensures Concat([page] + pages) == page + Concat(pages)
  {
    assert ([page] + pages)[1..] == pages;
    assert Concat([page]) == page + Concat([]);
  }

  lemma {:induction false} PagesAreTheRest(transactions: seq<Entry>, activity: seq<Entry>, before: Option<Cursor>,
                                           limit: nat)
    requires Tables(transactions, activity) && limit >= 1
    ensures Concat(Pages(transactions, activity, before, limit)) == Rest(transactions, activity, before)
    ensures FullPages(Pages(transactions, activity, before, limit), limit)
    decreases |Rest(transactions, activity, before)|
  {
    hide Tables, Load, Rest, Concat, FullPages;
    PageIsTop(transactions, activity, before, limit);
    var page, rest := Load(transactions, activity, before, limit), Rest(transactions, activity, before);
    if page.next.Some? {
      RestFromPlace(transactions, activity, before, limit);
      PagesAreTheRest(transactions, activity, page.next, limit);
      OnePageMore(page.items, Pages(transactions, activity, page.next, limit), limit);
      assert rest == rest[..limit] + rest[limit..];
    } else {
      OnePageMore(page.items, [], limit);
    }
  }

  /** What stands above what: the newer, of one moment the activity, and of one kind the later id. */
  predicate Above(a: Entry, b: Entry) {
    || a.place.at > b.place.at
    || (a.place.at == b.place.at && a.place.kind == Activity && b.place.kind == Transaction)
    || (a.place.at == b.place.at && a.place.kind == b.place.kind && a.place.id > b.place.id)
  }

  /** From the top, the pages are the whole feed: every shown row once, in feed order, in full pages but the last. */
  lemma PagesAreTheFeed(transactions: seq<Entry>, activity: seq<Entry>, limit: nat)
    requires Tables(transactions, activity) && limit >= 1
    ensures var pages := Pages(transactions, activity, None, limit);
            && Concat(pages) == Feed(transactions, activity)
            && InFeedOrder(Concat(pages)) && Distinct(Concat(pages))
            && (forall i, j :: 0 <= i < j < |Concat(pages)| ==> Above(Concat(pages)[i], Concat(pages)[j]))
            && (forall e :: e in Concat(pages) <==>
                  e in transactions || (e in activity && e.event != "order_skipped" && e.event != "order_ignored"))
            && FullPages(pages, limit)
  {
    PagesAreTheRest(transactions, activity, None, limit);
    FilterAll(Feed(transactions, activity), e => Past(None, e));
    OrderByOrders(transactions + Visible(activity));
    hide Tables, Concat, Pages, Feed, FullPages, Visible;
    InOrderIsAbove(Feed(transactions, activity));
  }

  lemma InOrderIsAbove(xs: seq<Entry>)
    requires InFeedOrder(xs)
    ensures forall i, j :: 0 <= i < j < |xs| ==> Above(xs[i], xs[j])
  {
    forall i, j | 0 <= i < j < |xs|
      ensures Above(xs[i], xs[j])
    {
      assert FeedOrder(xs[i], xs[j]);
    }
  }

  /** Rows that arrive or go ahead of a cursor leave every page after it as it was. */
  lemma LaterPagesStay(transactions: seq<Entry>, activity: seq<Entry>, transactions': seq<Entry>, activity': seq<Entry>,
                       cursor: Cursor, limit: nat)
    requires Tables(transactions, activity) && Tables(transactions', activity') && limit >= 1
    requires forall e: Entry :: Before(cursor, e.place) ==>
               (e in transactions <==> e in transactions') && (e in activity <==> e in activity')
    ensures Rest(transactions, activity, Some(cursor)) == Rest(transactions', activity', Some(cursor))
    ensures Load(transactions, activity, Some(cursor), limit) == Load(transactions', activity', Some(cursor), limit)
  {
    var keep := (e: Entry) => Past(Some(cursor), e);
    OrderByOrders(transactions + Visible(activity));
    OrderByOrders(transactions' + Visible(activity'));
    FilterKeepsOrder(Feed(transactions, activity), keep);
    FilterKeepsOrder(Feed(transactions', activity'), keep);
    OneOrder(Rest(transactions, activity, Some(cursor)), Rest(transactions', activity', Some(cursor)));
    PageIsTop(transactions, activity, Some(cursor), limit);
    PageIsTop(transactions', activity', Some(cursor), limit);
  }
}

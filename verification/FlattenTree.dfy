/** Running the event machine over a YAML tree gives the leaves that a recursive walk of the tree gives. */
module FlattenTree {
  import opened Prelude
  import opened Flatten

  // ---- trees, their events, and the walk -----------------------------------------------------------

  datatype Node =
    | Scalar(text: string, plain: bool, anchor: nat)
    | Mapping(anchor: nat, pairs: Pairs)
    | Sequence(anchor: nat, items: Items)
    | Alias(target: nat)

  datatype Pairs = NoPairs | Pair(key: string, plain: bool, keyAnchor: nat, value: Node, rest: Pairs)

  datatype Items = NoItems | Item(head: Node, tail: Items)

  function Events(n: Node): seq<Event> {
    match n
    case Scalar(text, plain, anchor) => [ScalarEvent(text, plain, anchor)]
    case Mapping(anchor, pairs) => [MappingStart(anchor)] + PairEvents(pairs) + [MappingEnd]
    case Sequence(anchor, items) => [SequenceStart(anchor)] + ItemEvents(items) + [SequenceEnd]
    case Alias(target) => [AliasEvent(target)]
  }

  function PairEvents(ps: Pairs): seq<Event> {
    match ps
    case NoPairs => []
    case Pair(key, plain, anchor, value, rest) => [ScalarEvent(key, plain, anchor)] + Events(value) + PairEvents(rest)
  }

  function ItemEvents(xs: Items): seq<Event> {
    match xs
    case NoItems => []
    case Item(head, tail) => Events(head) + ItemEvents(tail)
  }

  /** The leaves of a tree without aliases, each under its full key. */
  function Walk(n: Node, path: string): map<string, string> {
    match n
    case Scalar(text, _, _) => map[path := text]
    case Mapping(_, pairs) => WalkPairs(pairs, path)
    case Sequence(_, items) => WalkItems(items, path, 0)
    case Alias(_) => map[]
  }

  function WalkPairs(ps: Pairs, path: string): map<string, string> {
    match ps
    case NoPairs => map[]
    case Pair(key, plain, _, value, rest) => Walk(value, Join(path, KeyName(key, plain))) + WalkPairs(rest, path)
  }

  function WalkItems(xs: Items, path: string, i: nat): map<string, string> {
    match xs
    case NoItems => map[]
    case Item(head, tail) => Walk(head, Join(path, Decimal(i))) + WalkItems(tail, path, i + 1)
  }

  // ---- aliases substituted -------------------------------------------------------------------------

  /** The completed anchors, each with its tree, aliases already substituted. */
  type Env = map<nat, Node>

  function Mark(env: Env, anchor: nat, n: Node): Env {
    if anchor != 0 then env[anchor := n] else env
  }

  /** The tree with every alias replaced by the tree its anchor marks. */
  function Resolve(n: Node, env: Env): Node
    decreases n, 0
  {
    match n
    case Scalar(_, _, _) => n
    case Mapping(anchor, pairs) => Mapping(anchor, ResolvePairs(pairs, env))
    case Sequence(anchor, items) => Sequence(anchor, ResolveItems(items, env))
    case Alias(target) => if target in env then env[target] else n
  }

  function ResolvePairs(ps: Pairs, env: Env): Pairs
    decreases ps, 0
  {
    match ps
    case NoPairs => NoPairs
    case Pair(key, plain, anchor, value, rest) =>
      Pair(key, plain, anchor, Resolve(value, env), ResolvePairs(rest, EnvAfter(value, env)))
  }

  function ResolveItems(xs: Items, env: Env): Items
    decreases xs, 0
  {
    match xs
    case NoItems => NoItems
    case Item(head, tail) => Item(Resolve(head, env), ResolveItems(tail, EnvAfter(head, env)))
  }

  /** The anchors completed once the node is. */
  function EnvAfter(n: Node, env: Env): Env
    decreases n, 1
  {
    match n
    case Scalar(_, _, anchor) => Mark(env, anchor, n)
    case Mapping(anchor, pairs) => Mark(EnvAfterPairs(pairs, env), anchor, Resolve(n, env))
    case Sequence(anchor, items) => Mark(EnvAfterItems(items, env), anchor, Resolve(n, env))
    case Alias(_) => env
  }

  function EnvAfterPairs(ps: Pairs, env: Env): Env
    decreases ps, 1
  {
    match ps
    case NoPairs => env
    case Pair(_, _, _, value, rest) => EnvAfterPairs(rest, EnvAfter(value, env))
  }

  function EnvAfterItems(xs: Items, env: Env): Env
    decreases xs, 1
  {
    match xs
    case NoItems => env
    case Item(head, tail) => EnvAfterItems(tail, EnvAfter(head, env))
  }

  // ---- the trees the files hold --------------------------------------------------------------------

  predicate DotFree(segment: string) {
    segment != "" && forall i :: 0 <= i < |segment| ==> segment[i] != '.'
  }

  function KeyNames(ps: Pairs): set<string> {
    match ps
    case NoPairs => {}
    case Pair(key, plain, _, _, rest) => {KeyName(key, plain)} + KeyNames(rest)
  }

  function AnchorsOf(n: Node): set<nat> {
    match n
    case Scalar(_, _, anchor) => {anchor} - {0}
    case Mapping(anchor, pairs) => ({anchor} - {0}) + PairAnchors(pairs)
    case Sequence(anchor, items) => ({anchor} - {0}) + ItemAnchors(items)
    case Alias(_) => {}
  }

  function PairAnchors(ps: Pairs): set<nat> {
    match ps
    case NoPairs => {}
    case Pair(_, _, _, value, rest) => AnchorsOf(value) + PairAnchors(rest)
  }

  function ItemAnchors(xs: Items): set<nat> {
    match xs
    case NoItems => {}
    case Item(head, tail) => AnchorsOf(head) + ItemAnchors(tail)
  }

  /**
   Keys are non-empty, dot-free and, as Psych reads them, distinct within their mapping; an alias names an anchor
   completed before it, or one not marked on any value so far, never a container it stands in; no anchor is marked
   twice (the parser numbers them).
   */
  predicate Sound(n: Node, env: Env, used: set<nat>) {
    match n
    case Scalar(_, _, anchor) => anchor !in used - {0}
    case Mapping(anchor, pairs) => anchor !in used - {0} && SoundPairs(pairs, env, used + ({anchor} - {0}))
    case Sequence(anchor, items) => anchor !in used - {0} && SoundItems(items, env, used + ({anchor} - {0}))
    case Alias(target) => target in env || target !in used
  }

  predicate SoundPairs(ps: Pairs, env: Env, used: set<nat>) {
    match ps
    case NoPairs => true
    case Pair(key, plain, _, value, rest) =>
      && DotFree(KeyName(key, plain)) && KeyName(key, plain) !in KeyNames(rest)
      && Sound(value, env, used) && SoundPairs(rest, EnvAfter(value, env), used + AnchorsOf(value))
  }

  predicate SoundItems(xs: Items, env: Env, used: set<nat>) {
    match xs
    case NoItems => true
    case Item(head, tail) => Sound(head, env, used) && SoundItems(tail, EnvAfter(head, env), used + AnchorsOf(head))
  }

  /**
   The plain leaves that Rails would read as a boolean or null, and the aliases that name no value read so far (an
   anchor on a key marks none), in the order they stand.
   */
  function Problems(n: Node, path: string, env: Env): seq<Problem> {
    match n
    case Scalar(text, plain, _) => if plain && (IsNull(text) || PsychBoolean(text).Some?) then [NotText(path, text)] else []
    case Mapping(_, pairs) => PairProblems(pairs, path, env)
    case Sequence(_, items) => ItemProblems(items, path, 0, env)
    case Alias(target) => if target in env then [] else [BadAlias]
  }

  function PairProblems(ps: Pairs, path: string, env: Env): seq<Problem> {
    match ps
    case NoPairs => []
    case Pair(key, plain, _, value, rest) =>
      Problems(value, Join(path, KeyName(key, plain)), env) + PairProblems(rest, path, EnvAfter(value, env))
  }

  function ItemProblems(xs: Items, path: string, i: nat, env: Env): seq<Problem> {
    match xs
    case NoItems => []
    case Item(head, tail) =>
      Problems(head, Join(path, Decimal(i)), env) + ItemProblems(tail, path, i + 1, EnvAfter(head, env))
  }

  // ---- paths ---------------------------------------------------------------------------------------

  predicate Comparable(p: string, q: string) {
    Under(p, q) || Under(q, p)
  }

  lemma UnderTransitive(p: string, q: string, k: string)
    requires Under(p, q) && Under(q, k)
    ensures Under(p, k)
  {
    if q != p && k != q {
      assert k[..|q| + 1] == q + "." && q[..|p| + 1] == p + ".";
      assert k[..|p| + 1] == p + ".";
    }
  }

  /** Two paths above one key are above one another. */
  lemma CommonKey(p: string, q: string, k: string)
    requires Under(p, k) && Under(q, k)
    ensures Comparable(p, q)
  {
    if |p| <= |q| {
      CommonKeyOrdered(p, q, k);
    } else {
      CommonKeyOrdered(q, p, k);
    }
  }

  lemma CommonKeyOrdered(p: string, q: string, k: string)
    requires Under(p, k) && Under(q, k) && |p| <= |q|
    ensures Under(p, q)
  {
    assert q <= k && p <= k && k[..|q|] == q && k[..|p|] == p;
    assert q[..|p|] == p;
    if |p| < |q| {
      assert k[..|p| + 1] == p + "." && q[..|p| + 1] == k[..|p| + 1];
    }
  }

  /** Different segments lead to paths of which neither is above the other. */
  lemma SiblingsApart(path: string, a: string, b: string)
    requires DotFree(a) && DotFree(b) && a != b
    ensures !Comparable(Join(path, a), Join(path, b))
  {
    NotUnderSibling(path, a, b);
    NotUnderSibling(path, b, a);
  }

  lemma NotUnderSibling(path: string, a: string, b: string)
    requires DotFree(a) && DotFree(b) && a != b
    ensures !Under(Join(path, a), Join(path, b))
  {
    var p, q := Join(path, a), Join(path, b);
    var n := |p| - |a|;
    assert p[n..] == a && q[n..] == b && |q| == n + |b|;
    if p + "." <= q {
      DotWithin(p, q, n);
    }
  }

  lemma DotWithin(p: string, q: string, n: nat)
    requires p + "." <= q && n <= |p|
    ensures |p| < |q| && q[n..][|p| - n] == '.'
  {
    assert q[|p|] == (p + ".")[|p|];
  }

  lemma PrefixBelow(p: string, step: string, below: string)
    requires p + step <= p + below
    ensures step <= below
  {
    assert (p + below)[|p|..|p| + |step|] == step && (p + below)[|p|..] == below;
  }

  /** Every leaf of a node lies under the node's path. */
  lemma WalkUnder(n: Node, path: string, k: string)
    requires path != "" && k in Walk(n, path)
    ensures Under(path, k)
    decreases n
  {
    match n
    case Mapping(_, pairs) => WalkPairsUnder(pairs, path, k);
    case Sequence(_, items) => WalkItemsUnder(items, path, 0, k);
    case _ =>
  }

  lemma WalkPairsUnder(ps: Pairs, path: string, k: string)
    requires path != "" && k in WalkPairs(ps, path)
    ensures path + "." <= k
    decreases ps
  {
    var Pair(key, plain, _, value, rest) := ps;
    var p := Join(path, KeyName(key, plain));
    if k in WalkPairs(rest, path) {
      WalkPairsUnder(rest, path, k);
    } else {
      WalkUnder(value, p, k);
      assert path + "." <= p <= k;
    }
  }

  lemma WalkItemsUnder(xs: Items, path: string, i: nat, k: string)
    requires path != "" && k in WalkItems(xs, path, i)
    ensures path + "." <= k
    decreases xs
  {
    var p := Join(path, Decimal(i));
    if k in WalkItems(xs.tail, path, i + 1) {
      WalkItemsUnder(xs.tail, path, i + 1, k);
    } else {
      WalkUnder(xs.head, p, k);
      assert path + "." <= p <= k;
    }
  }

  /** The same tree under another path has the same leaves at the same places below it. */
  lemma {:induction false} Reroot(n: Node, p: string, q: string, below: string)
    requires p != "" && q != ""
    ensures p + below in Walk(n, p) <==> q + below in Walk(n, q)
    ensures p + below in Walk(n, p) ==> Walk(n, p)[p + below] == Walk(n, q)[q + below]
    decreases n
  {
    match n
    case Mapping(_, pairs) => RerootPairs(pairs, p, q, below);
    case Sequence(_, items) => RerootItems(items, p, q, 0, below);
    case _ =>
      assert p + below == p <==> |below| == 0;
      assert q + below == q <==> |below| == 0;
  }

  lemma {:induction false} RerootChild(n: Node, p: string, q: string, segment: string, below: string)
    requires p != "" && q != ""
    requires forall deeper :: "." + segment + deeper == below ==>
               var a, b := Join(p, segment), Join(q, segment);
               && (a + deeper in Walk(n, a) <==> b + deeper in Walk(n, b))
               && (a + deeper in Walk(n, a) ==> Walk(n, a)[a + deeper] == Walk(n, b)[b + deeper])
    ensures p + below in Walk(n, Join(p, segment)) <==> q + below in Walk(n, Join(q, segment))
    ensures p + below in Walk(n, Join(p, segment)) ==>
              Walk(n, Join(p, segment))[p + below] == Walk(n, Join(q, segment))[q + below]
  {
    var a, b, step := Join(p, segment), Join(q, segment), "." + segment;
    if step <= below {
      var deeper := below[|step|..];
      assert below == step + deeper;
      assert p + below == a + deeper && q + below == b + deeper;
    } else {
      if p + below in Walk(n, a) {
        WalkUnder(n, a, p + below);
        PrefixBelow(p, step, below);
      }
      if q + below in Walk(n, b) {
        WalkUnder(n, b, q + below);
        PrefixBelow(q, step, below);
      }
    }
  }

  lemma {:induction false} RerootPairs(ps: Pairs, p: string, q: string, below: string)
    requires p != "" && q != ""
    ensures p + below in WalkPairs(ps, p) <==> q + below in WalkPairs(ps, q)
    ensures p + below in WalkPairs(ps, p) ==> WalkPairs(ps, p)[p + below] == WalkPairs(ps, q)[q + below]
    decreases ps
  {
    if ps.Pair? {
      var segment := KeyName(ps.key, ps.plain);
      forall deeper | "." + segment + deeper == below
        ensures var a, b := Join(p, segment), Join(q, segment);
                && (a + deeper in Walk(ps.value, a) <==> b + deeper in Walk(ps.value, b))
                && (a + deeper in Walk(ps.value, a) ==> Walk(ps.value, a)[a + deeper] == Walk(ps.value, b)[b + deeper])
      {
        Reroot(ps.value, Join(p, segment), Join(q, segment), deeper);
      }
      RerootChild(ps.value, p, q, segment, below);
      RerootPairs(ps.rest, p, q, below);
    }
  }

  lemma {:induction false} RerootItems(xs: Items, p: string, q: string, i: nat, below: string)
    requires p != "" && q != ""
    ensures p + below in WalkItems(xs, p, i) <==> q + below in WalkItems(xs, q, i)
    ensures p + below in WalkItems(xs, p, i) ==> WalkItems(xs, p, i)[p + below] == WalkItems(xs, q, i)[q + below]
    decreases xs
  {
    if xs.Item? {
      var segment := Decimal(i);
      forall deeper | "." + segment + deeper == below
        ensures var a, b := Join(p, segment), Join(q, segment);
                && (a + deeper in Walk(xs.head, a) <==> b + deeper in Walk(xs.head, b))
                && (a + deeper in Walk(xs.head, a) ==> Walk(xs.head, a)[a + deeper] == Walk(xs.head, b)[b + deeper])
      {
        Reroot(xs.head, Join(p, segment), Join(q, segment), deeper);
      }
      RerootChild(xs.head, p, q, segment, below);
      RerootItems(xs.tail, p, q, i + 1, below);
    }
  }

  // ---- what the machine holds while it runs --------------------------------------------------------

  /** The leaves at and below `path` are exactly the tree's. */
  ghost predicate Holds(flat: map<string, string>, path: string, n: Node) {
    forall k :: Under(path, k) ==> (k in flat <==> k in Walk(n, path)) && (k in flat ==> flat[k] == Walk(n, path)[k])
  }

  /** Every completed anchor names the path of its tree's leaves. */
  ghost predicate AnchorsHold(flat: map<string, string>, anchors: map<nat, string>, env: Env) {
    forall a :: a in env ==> a in anchors && anchors[a] != "" && Holds(flat, anchors[a], env[a])
  }

  /** Nothing is stored or anchored at, above or below the path, open anchors apart. */
  ghost predicate Clear(flat: map<string, string>, anchors: map<nat, string>, env: Env, path: string) {
    && (forall k :: k in flat ==> !Under(path, k))
    && (forall a :: a in env && a in anchors ==> !Comparable(path, anchors[a]))
  }

  /** Leaves added under a path that no anchored path is comparable with leave the anchored trees as they were. */
  lemma AnchorsStayHeld(flat: map<string, string>, anchors: map<nat, string>, env: Env, path: string,
                        more: map<string, string>)
    requires AnchorsHold(flat, anchors, env) && Clear(flat, anchors, env, path)
    requires forall k :: k in more ==> Under(path, k)
    ensures AnchorsHold(flat + more, anchors, env)
  {
    forall a | a in env
      ensures Holds(flat + more, anchors[a], env[a])
    {
      assert Holds(flat, anchors[a], env[a]);
      forall k | Under(anchors[a], k)
        ensures k !in more
      {
        if k in more {
          CommonKey(path, anchors[a], k);
        }
      }
    }
  }

  /** A tree whose leaves have just been added is held at its path. */
  lemma JustHeld(flat: map<string, string>, anchors: map<nat, string>, env: Env, path: string, n: Node)
    requires Clear(flat, anchors, env, path)
    ensures Holds(flat + Walk(n, path), path, n)
  {
  }

  lemma CopiedIsWalked(flat: map<string, string>, from: string, to: string, n: Node, j: string)
    requires from != "" && to != "" && Holds(flat, from, n) && j in Copied(flat, from, to)
    ensures j in Walk(n, to) && Copied(flat, from, to)[j] == Walk(n, to)[j]
  {
    hide Walk;
    var k :| k in flat && Under(from, k) && j == to + k[|from|..];
    var below := k[|from|..];
    assert k == from + below && j[|to|..] == below;
    Reroot(n, from, to, below);
  }

  lemma WalkedIsCopied(flat: map<string, string>, from: string, to: string, n: Node, j: string)
    requires from != "" && to != "" && Holds(flat, from, n) && j in Walk(n, to)
    ensures j in Copied(flat, from, to)
  {
    hide Walk;
    WalkUnder(n, to, j);
    var below := j[|to|..];
    assert j == to + below;
    Reroot(n, from, to, below);
    WalkUnder(n, from, from + below);
    assert (from + below)[|from|..] == below;
  }

  /** The leaves copied for an alias are the walk of the tree its anchor marks. */
  lemma CopyIsWalk(flat: map<string, string>, from: string, to: string, n: Node)
    requires from != "" && to != "" && Holds(flat, from, n)
    ensures Copied(flat, from, to) == Walk(n, to)
  {
    hide Walk, Copied, Holds;
    forall j | j in Copied(flat, from, to)
      ensures j in Walk(n, to) && Copied(flat, from, to)[j] == Walk(n, to)[j]
    {
      CopiedIsWalked(flat, from, to, n, j);
    }
    forall j | j in Walk(n, to)
      ensures j in Copied(flat, from, to)
    {
      WalkedIsCopied(flat, from, to, n, j);
    }
  }

  // ---- the run of a node ---------------------------------------------------------------------------

  lemma {:induction false} RunConcat(s: State, a: seq<Event>, b: seq<Event>)
    ensures RunEvents(s, a + b) == RunEvents(RunEvents(s, a), b)
    decreases |a|
  {
    if a == [] {
      assert a + b == b;
    } else {
      assert (a + b)[1..] == a[1..] + b;
      RunConcat(Step(s, a[0]), a[1..], b);
    }
  }

  lemma RunOne(s: State, e: Event)
    ensures RunEvents(s, [e]) == Step(s, e)
  {
    assert [e][1..] == [];
  }

  ghost predicate Good(flat: map<string, string>, anchors: map<nat, string>, env: Env, used: set<nat>) {
    anchors.Keys == used && env.Keys <= used && AnchorsHold(flat, anchors, env)
  }

  /** What a run keeps of the anchors, and where it puts its own. */
  ghost predicate Extends(was: map<nat, string>, now: map<nat, string>, env: Env, env': Env, used: set<nat>,
                          used': set<nat>, path: string) {
    && now.Keys == used' && used <= used' && env'.Keys <= used' && used <= was.Keys
    && (forall a :: a in used ==> now[a] == was[a])
    && (forall a :: a in env ==> a in env' && env'[a] == env[a])
    && (path != "" ==> forall a :: a in env' && a !in env ==> Under(path, now[a]))
  }

  /** A clear path leaves the paths below it clear. */
  lemma ClearBelow(flat: map<string, string>, anchors: map<nat, string>, env: Env, path: string, segment: string)
    requires Clear(flat, anchors, env, path) && path != ""
    ensures Clear(flat, anchors, env, Join(path, segment))
  {
    var p := Join(path, segment);
    assert Under(path, p);
    forall k | k in flat && Under(p, k)
      ensures false
    {
      UnderTransitive(path, p, k);
    }
    forall a | a in env && a in anchors && Comparable(p, anchors[a])
      ensures false
    {
      if Under(p, anchors[a]) {
        UnderTransitive(path, p, anchors[a]);
      } else {
        CommonKey(path, anchors[a], p);
      }
    }
  }

  /** A path that was clear stays clear when leaves and anchors arrive under a path it is not comparable with. */
  lemma ClearSibling(s: State, t: State, env: Env, env': Env, used: set<nat>, used': set<nat>, done: string,
                     next: string, more: map<string, string>)
    requires Clear(s.flat, s.anchors, env, next) && !Comparable(done, next) && done != ""
    requires t.flat == s.flat + more && forall k :: k in more ==> Under(done, k)
    requires Extends(s.anchors, t.anchors, env, env', used, used', done) && env.Keys <= used
    ensures Clear(t.flat, t.anchors, env', next)
  {
    forall k | k in more && Under(next, k)
      ensures false
    {
      CommonKey(done, next, k);
    }
    forall a | a in env' && a in t.anchors && Comparable(next, t.anchors[a])
      ensures false
    {
      if a !in env {
        if Under(next, t.anchors[a]) {
          CommonKey(done, next, t.anchors[a]);
        } else {
          UnderTransitive(done, t.anchors[a], next);
        }
      }
    }
  }

  /** The run of a node in value position: its leaves and problems are the walk's, and the frame below is as it was left. */
  lemma {:induction false} RunNode(n: Node, s: State, env: Env, used: set<nat>, path: string, stack: seq<Frame>)
    requires Sound(n, env, used) && Good(s.flat, s.anchors, env, used)
    requires forall scalar :: Place(s.stack, scalar) == Placed(stack, Some(path))
    requires if path == "" then env == map[] && s.flat == map[] else Clear(s.flat, s.anchors, env, path)
    ensures var t := RunEvents(s, Events(n));
            var r, env' := Resolve(n, env), EnvAfter(n, env);
            && t.stack == stack && t.flat == s.flat + Walk(r, path) && t.problems == s.problems + Problems(n, path, env)
            && Extends(s.anchors, t.anchors, env, env', used, used + AnchorsOf(n), path)
            && (path != "" ==> AnchorsHold(t.flat, t.anchors, env'))
    decreases n
  {
    hide Good, AnchorsHold, Clear, Extends, RunEvents, Under, Join, KeyName;
    match n
    case Scalar(text, plain, anchor) =>
      RunScalar(n, s, env, used, path, stack);
    case Alias(target) =>
      RunAlias(n, s, env, used, path, stack);
      assert used + AnchorsOf(n) == used;
    case Mapping(anchor, pairs) =>
      var s1 := Step(s, MappingStart(anchor));
      Opened(anchor, s, s1, env, used, path);
      RunPairs(pairs, s1, env, used + ({anchor} - {0}), path, stack);
      Enclosed(s, MappingStart(anchor), PairEvents(pairs), MappingEnd);
      Closed(n, s, s1, RunEvents(s1, PairEvents(pairs)), env, EnvAfterPairs(pairs, env), used,
             used + ({anchor} - {0}), PairAnchors(pairs), path, anchor);
      assert used + AnchorsOf(n) == used + ({anchor} - {0}) + PairAnchors(pairs);
    case Sequence(anchor, items) =>
      var s1 := Step(s, SequenceStart(anchor));
      Opened(anchor, s, s1, env, used, path);
      RunItems(items, s1, env, used + ({anchor} - {0}), path, 0, stack);
      Enclosed(s, SequenceStart(anchor), ItemEvents(items), SequenceEnd);
      Closed(n, s, s1, RunEvents(s1, ItemEvents(items)), env, EnvAfterItems(items, env), used,
             used + ({anchor} - {0}), ItemAnchors(items), path, anchor);
      assert used + AnchorsOf(n) == used + ({anchor} - {0}) + ItemAnchors(items);
  }

  lemma Enclosed(s: State, first: Event, inner: seq<Event>, last: Event)
    ensures RunEvents(s, [first] + inner + [last]) == Step(RunEvents(Step(s, first), inner), last)
  {
    RunConcat(s, [first] + inner, [last]);
    RunConcat(s, [first], inner);
    RunOne(s, first);
    RunOne(RunEvents(Step(s, first), inner), last);
  }

  /** A container just marked leaves room below its path. */
  lemma Opened(anchor: nat, s: State, s1: State, env: Env, used: set<nat>, path: string)
    requires Good(s.flat, s.anchors, env, used) && anchor !in used - {0}
    requires s1.flat == s.flat && s1.anchors == Anchored(s.anchors, anchor, path)
    requires if path == "" then env == map[] && s.flat == map[] else Clear(s.flat, s.anchors, env, path)
    ensures Good(s1.flat, s1.anchors, env, used + ({anchor} - {0}))
    ensures forall segment :: Clear(s1.flat, s1.anchors, env, Join(path, segment))
  {
    forall segment
      ensures Clear(s1.flat, s1.anchors, env, Join(path, segment))
    {
      if path != "" {
        assert Clear(s1.flat, s1.anchors, env, path);
        ClearBelow(s1.flat, s1.anchors, env, path, segment);
      }
    }
  }

  /** A container just closed is held at its path, under its anchor if it has one. */
  lemma Closed(n: Node, s: State, s1: State, s2: State, env: Env, inner: Env, used: set<nat>, marked: set<nat>,
               within: set<nat>,
               path: string, anchor: nat)
    requires n.Mapping? || n.Sequence?
    requires Good(s.flat, s.anchors, env, used) && anchor !in used - {0} && marked == used + ({anchor} - {0})
    requires s1.anchors == Anchored(s.anchors, anchor, path)
    requires Extends(s1.anchors, s2.anchors, env, inner, marked, marked + within, path)
    requires AnchorsHold(s2.flat, s2.anchors, inner)
    requires s2.flat == s.flat + Walk(Resolve(n, env), path)
    requires path != "" ==> Clear(s.flat, s.anchors, env, path)
    ensures var env' := Mark(inner, anchor, Resolve(n, env));
            && Extends(s.anchors, s2.anchors, env, env', used, marked + within, path)
            && (path != "" ==> AnchorsHold(s2.flat, s2.anchors, env'))
  {
    var r := Resolve(n, env);
    if anchor != 0 {
      assert anchor in marked && s2.anchors[anchor] == path;
    }
    if path != "" {
      JustHeld(s.flat, s.anchors, env, path, r);
    }
  }

  lemma {:induction false} RunPairs(ps: Pairs, s: State, env: Env, used: set<nat>, path: string, stack: seq<Frame>)
    requires SoundPairs(ps, env, used) && Good(s.flat, s.anchors, env, used)
    requires s.stack == stack + [MapFrame(path, None)]
    requires forall key :: key in KeyNames(ps) ==> Clear(s.flat, s.anchors, env, Join(path, key))
    ensures var t := RunEvents(s, PairEvents(ps));
            && t.stack == s.stack && t.flat == s.flat + WalkPairs(ResolvePairs(ps, env), path)
            && t.problems == s.problems + PairProblems(ps, path, env)
            && Extends(s.anchors, t.anchors, env, EnvAfterPairs(ps, env), used, used + PairAnchors(ps), path)
            && AnchorsHold(t.flat, t.anchors, EnvAfterPairs(ps, env))
    decreases ps
  {
    hide AnchorsHold, Clear, Extends, RunEvents, Under, Walk, Resolve, Events, EnvAfter, AnchorsOf, Problems;
    match ps
    case NoPairs =>
      NothingRan(s, env, used, path);
    case Pair(key, plain, keyAnchor, value, rest) =>
      var name := KeyName(key, plain);
      var p := Join(path, name);
      var s1 := Step(s, ScalarEvent(key, plain, keyAnchor));
      assert s1 == s.(stack := stack + [MapFrame(path, Some(name))]);
      assert forall scalar :: Place(s1.stack, scalar) == Placed(stack + [MapFrame(path, None)], Some(p));
      RunNode(value, s1, env, used, p, stack + [MapFrame(path, None)]);
      var s2, env2 := RunEvents(s1, Events(value)), EnvAfter(value, env);
      PairsAfter(ps, s1, s2, env, env2, used, path);
      GoodAfter(s1.anchors, s2, env, env2, used, used + AnchorsOf(value), p);
      RunPairs(rest, s2, env2, used + AnchorsOf(value), path, stack);
      PairRun(s, ps);
      Chain(s, s2, RunEvents(s2, PairEvents(rest)), env, env2, EnvAfterPairs(rest, env2), used, used + AnchorsOf(value),
            used + AnchorsOf(value) + PairAnchors(rest), path, p);
      assert used + AnchorsOf(value) + PairAnchors(rest) == used + PairAnchors(ps);
      Associate(s, Walk(Resolve(value, env), p), WalkPairs(ResolvePairs(rest, env2), path),
                Problems(value, p, env), PairProblems(rest, path, env2));
  }

  lemma NothingRan(s: State, env: Env, used: set<nat>, path: string)
    requires Good(s.flat, s.anchors, env, used)
    ensures RunEvents(s, []) == s && s.flat + map[] == s.flat && s.problems + [] == s.problems
    ensures Extends(s.anchors, s.anchors, env, env, used, used + {}, path) && AnchorsHold(s.flat, s.anchors, env)
  {
  }

  /** A run leaves the anchors good for the next. */
  lemma GoodAfter(was: map<nat, string>, t: State, env: Env, env': Env, used: set<nat>, used': set<nat>, path: string)
    requires Extends(was, t.anchors, env, env', used, used', path) && AnchorsHold(t.flat, t.anchors, env')
    ensures Good(t.flat, t.anchors, env', used')
  {
  }

  lemma Associate(s: State, a: map<string, string>, b: map<string, string>, p: seq<Problem>, q: seq<Problem>)
    ensures (s.flat + a) + b == s.flat + (a + b)
    ensures (s.problems + p) + q == s.problems + (p + q)
  {
  }

  lemma PairRun(s: State, ps: Pairs)
    requires ps.Pair?
    ensures RunEvents(s, PairEvents(ps))
         == RunEvents(RunEvents(Step(s, ScalarEvent(ps.key, ps.plain, ps.keyAnchor)), Events(ps.value)), PairEvents(ps.rest))
  {
    var first := ScalarEvent(ps.key, ps.plain, ps.keyAnchor);
    RunConcat(s, [first] + Events(ps.value), PairEvents(ps.rest));
    RunConcat(s, [first], Events(ps.value));
    RunOne(s, first);
  }

  /** After one pair there is still room for the others. */
  lemma PairsAfter(ps: Pairs, s: State, t: State, env: Env, env': Env, used: set<nat>, path: string)
    requires ps.Pair? && SoundPairs(ps, env, used) && env.Keys <= used
    requires forall key :: key in KeyNames(ps) ==> Clear(s.flat, s.anchors, env, Join(path, key))
    requires var p := Join(path, KeyName(ps.key, ps.plain));
             && t.flat == s.flat + Walk(Resolve(ps.value, env), p)
             && Extends(s.anchors, t.anchors, env, env', used, used + AnchorsOf(ps.value), p)
    ensures forall key :: key in KeyNames(ps.rest) ==> Clear(t.flat, t.anchors, env', Join(path, key))
  {
    var name := KeyName(ps.key, ps.plain);
    var p, more := Join(path, name), Walk(Resolve(ps.value, env), Join(path, name));
    forall key | key in KeyNames(ps.rest)
      ensures Clear(t.flat, t.anchors, env', Join(path, key))
    {
      KeysDotFree(ps.rest, EnvAfter(ps.value, env), used + AnchorsOf(ps.value), key);
      SiblingsApart(path, name, key);
      forall k | k in more
        ensures Under(p, k)
      {
        WalkUnder(Resolve(ps.value, env), p, k);
      }
      ClearSibling(s, t, env, env', used, used + AnchorsOf(ps.value), p, Join(path, key), more);
    }
  }

  lemma {:induction false} KeysDotFree(ps: Pairs, env: Env, used: set<nat>, key: string)
    requires SoundPairs(ps, env, used) && key in KeyNames(ps)
    ensures DotFree(key)
    decreases ps
  {
    if key != KeyName(ps.key, ps.plain) {
      KeysDotFree(ps.rest, EnvAfter(ps.value, env), used + AnchorsOf(ps.value), key);
    }
  }

  /** Two runs one after the other, the first below `path`. */
  lemma Chain(s: State, t: State, u: State, env: Env, env': Env, env'': Env, a: set<nat>, b: set<nat>, c: set<nat>,
              path: string, p: string)
    requires Extends(s.anchors, t.anchors, env, env', a, b, p)
    requires Extends(t.anchors, u.anchors, env', env'', b, c, path) && env'.Keys <= b
    requires p != "" && (path != "" ==> path + "." <= p)
    ensures Extends(s.anchors, u.anchors, env, env'', a, c, path)
  {
    if path != "" {
      forall x | x in env'' && x !in env
        ensures Under(path, u.anchors[x])
      {
        if x in env' {
          UnderTransitive(path, p, t.anchors[x]);
        }
      }
    }
  }

  lemma {:induction false} RunItems(xs: Items, s: State, env: Env, used: set<nat>, path: string, i: nat,
                                    stack: seq<Frame>)
    requires SoundItems(xs, env, used) && Good(s.flat, s.anchors, env, used) && s.stack == stack + [SeqFrame(path, i)]
    requires forall j :: i <= j ==> Clear(s.flat, s.anchors, env, Join(path, Decimal(j)))
    ensures var t := RunEvents(s, ItemEvents(xs));
            && |t.stack| == |s.stack| && t.stack[..|stack|] == stack
            && t.flat == s.flat + WalkItems(ResolveItems(xs, env), path, i)
            && t.problems == s.problems + ItemProblems(xs, path, i, env)
            && Extends(s.anchors, t.anchors, env, EnvAfterItems(xs, env), used, used + ItemAnchors(xs), path)
            && AnchorsHold(t.flat, t.anchors, EnvAfterItems(xs, env))
    decreases xs
  {
    hide AnchorsHold, Clear, Extends, RunEvents, Under, Walk, Resolve, Events, EnvAfter, AnchorsOf, Problems, Decimal;
    match xs
    case NoItems =>
      NothingRan(s, env, used, path);
    case Item(head, tail) =>
      var p := Join(path, Decimal(i));
      assert forall scalar :: Place(s.stack, scalar) == Placed(stack + [SeqFrame(path, i + 1)], Some(p));
      RunNode(head, s, env, used, p, stack + [SeqFrame(path, i + 1)]);
      var s2, env2 := RunEvents(s, Events(head)), EnvAfter(head, env);
      ItemsAfter(xs, s, s2, env, env2, used, path, i);
      GoodAfter(s.anchors, s2, env, env2, used, used + AnchorsOf(head), p);
      RunItems(tail, s2, env2, used + AnchorsOf(head), path, i + 1, stack);
      RunConcat(s, Events(head), ItemEvents(tail));
      Chain(s, s2, RunEvents(s2, ItemEvents(tail)), env, env2, EnvAfterItems(tail, env2), used, used + AnchorsOf(head),
            used + AnchorsOf(head) + ItemAnchors(tail), path, p);
      assert used + AnchorsOf(head) + ItemAnchors(tail) == used + ItemAnchors(xs);
      Associate(s, Walk(Resolve(head, env), p), WalkItems(ResolveItems(tail, env2), path, i + 1),
                Problems(head, p, env), ItemProblems(tail, path, i + 1, env2));
  }

  lemma ItemsAfter(xs: Items, s: State, t: State, env: Env, env': Env, used: set<nat>, path: string, i: nat)
    requires xs.Item? && env.Keys <= used
    requires forall j :: i <= j ==> Clear(s.flat, s.anchors, env, Join(path, Decimal(j)))
    requires var p := Join(path, Decimal(i));
             && t.flat == s.flat + Walk(Resolve(xs.head, env), p)
             && Extends(s.anchors, t.anchors, env, env', used, used + AnchorsOf(xs.head), p)
    ensures forall j :: i < j ==> Clear(t.flat, t.anchors, env', Join(path, Decimal(j)))
  {
    var p, more := Join(path, Decimal(i)), Walk(Resolve(xs.head, env), Join(path, Decimal(i)));
    forall j: nat | i < j
      ensures Clear(t.flat, t.anchors, env', Join(path, Decimal(j)))
    {
      DecimalsDiffer(i, j);
      SiblingsApart(path, Decimal(i), Decimal(j));
      forall k | k in more
        ensures Under(p, k)
      {
        WalkUnder(Resolve(xs.head, env), p, k);
      }
      ClearSibling(s, t, env, env', used, used + AnchorsOf(xs.head), p, Join(path, Decimal(j)), more);
    }
  }

  lemma RunScalar(n: Node, s: State, env: Env, used: set<nat>, path: string, stack: seq<Frame>)
    requires n.Scalar? && Sound(n, env, used) && Good(s.flat, s.anchors, env, used)
    requires forall scalar :: Place(s.stack, scalar) == Placed(stack, Some(path))
    requires if path == "" then env == map[] && s.flat == map[] else Clear(s.flat, s.anchors, env, path)
    ensures var t := RunEvents(s, Events(n));
            && t.stack == stack && t.flat == s.flat + Walk(n, path) && t.problems == s.problems + Problems(n, path, env)
            && Extends(s.anchors, t.anchors, env, EnvAfter(n, env), used, used + AnchorsOf(n), path)
            && (path != "" ==> AnchorsHold(t.flat, t.anchors, EnvAfter(n, env)))
  {
    hide Clear, Holds, PsychBoolean, IsNull;
    RunOne(s, ScalarEvent(n.text, n.plain, n.anchor));
    var t := Step(s, ScalarEvent(n.text, n.plain, n.anchor));
    assert Walk(n, path) == map[path := n.text] && t.flat == s.flat + Walk(n, path);
    ScalarMarked(n, s, t, env, used, path);
  }

  lemma ScalarMarked(n: Node, s: State, t: State, env: Env, used: set<nat>, path: string)
    requires n.Scalar? && Sound(n, env, used) && Good(s.flat, s.anchors, env, used)
    requires t.flat == s.flat + Walk(n, path) && t.anchors == Anchored(s.anchors, n.anchor, path)
    requires path != "" ==> Clear(s.flat, s.anchors, env, path)
    ensures Extends(s.anchors, t.anchors, env, EnvAfter(n, env), used, used + AnchorsOf(n), path)
    ensures path != "" ==> AnchorsHold(t.flat, t.anchors, EnvAfter(n, env))
  {
    hide Holds, Clear;
    if path != "" {
      AnchorsStayHeld(s.flat, s.anchors, env, path, Walk(n, path));
      JustHeld(s.flat, s.anchors, env, path, n);
    }
  }

  lemma RunAlias(n: Node, s: State, env: Env, used: set<nat>, path: string, stack: seq<Frame>)
    requires n.Alias? && Sound(n, env, used) && Good(s.flat, s.anchors, env, used)
    requires forall scalar :: Place(s.stack, scalar) == Placed(stack, Some(path))
    requires if path == "" then env == map[] && s.flat == map[] else Clear(s.flat, s.anchors, env, path)
    ensures var t := RunEvents(s, Events(n));
            && t.stack == stack && t.flat == s.flat + Walk(Resolve(n, env), path)
            && t.problems == s.problems + Problems(n, path, env)
            && Extends(s.anchors, t.anchors, env, env, used, used, path)
            && AnchorsHold(t.flat, t.anchors, env)
  {
    hide Under, Holds, Copied;
    RunOne(s, AliasEvent(n.target));
    if n.target in env {
      KnownAlias(n, s, env, used, path);
    } else {
      assert s.flat + map[] == s.flat;
    }
  }

  lemma KnownAlias(n: Node, s: State, env: Env, used: set<nat>, path: string)
    requires n.Alias? && n.target in env && Good(s.flat, s.anchors, env, used)
    requires if path == "" then env == map[] && s.flat == map[] else Clear(s.flat, s.anchors, env, path)
    ensures n.target in s.anchors && Copied(s.flat, s.anchors[n.target], path) == Walk(env[n.target], path)
    ensures AnchorsHold(s.flat + Walk(env[n.target], path), s.anchors, env)
  {
    hide Walk, Under, Holds, Copied;
    CopyIsWalk(s.flat, s.anchors[n.target], path, env[n.target]);
    forall k | k in Walk(env[n.target], path)
      ensures Under(path, k)
    {
      WalkUnder(env[n.target], path, k);
    }
    AnchorsStayHeld(s.flat, s.anchors, env, path, Walk(env[n.target], path));
  }

  // ---- a whole file --------------------------------------------------------------------------------

  const FRESH: State := State([], map[], map[], [])

  /**
   Reading a file's tree, between the stream and document events around it, leaves an empty stack, exactly
   the leaves of the recursive walk with aliases substituted, and a problem for each plain leaf that Rails
   would read as a boolean or null and each alias to nothing read so far, and no other.
   */
  lemma FlatteningIsTheWalk(n: Node)
    requires Sound(n, map[], {})
    ensures var t := RunEvents(FRESH, [OtherEvent, OtherEvent] + Events(n) + [OtherEvent, OtherEvent]);
            && t.stack == [] && t.flat == Walk(Resolve(n, map[]), "") && t.problems == Problems(n, "", map[])
  {
    var before, after := [OtherEvent, OtherEvent], [OtherEvent, OtherEvent];
    RunConcat(FRESH, before + Events(n), after);
    RunConcat(FRESH, before, Events(n));
    OthersChangeNothing(FRESH);
    RunNode(n, FRESH, map[], {}, "", []);
    OthersChangeNothing(RunEvents(FRESH, Events(n)));
    assert map[] + Walk(Resolve(n, map[]), "") == Walk(Resolve(n, map[]), "");
  }

  lemma OthersChangeNothing(s: State)
    ensures RunEvents(s, [OtherEvent, OtherEvent]) == s
  {
    assert [OtherEvent, OtherEvent] == [OtherEvent] + [OtherEvent];
    RunConcat(s, [OtherEvent], [OtherEvent]);
    RunOne(s, OtherEvent);
  }

  /** Some plain leaf is a boolean or null, or some alias names no value read before it. */
  predicate Unreadable(n: Node, env: Env) {
    match n
    case Scalar(text, plain, _) => plain && (IsNull(text) || PsychBoolean(text).Some?)
    case Mapping(_, pairs) => PairsUnreadable(pairs, env)
    case Sequence(_, items) => ItemsUnreadable(items, env)
    case Alias(target) => target !in env
  }

  predicate PairsUnreadable(ps: Pairs, env: Env) {
    ps.Pair? && (Unreadable(ps.value, env) || PairsUnreadable(ps.rest, EnvAfter(ps.value, env)))
  }

  predicate ItemsUnreadable(xs: Items, env: Env) {
    xs.Item? && (Unreadable(xs.head, env) || ItemsUnreadable(xs.tail, EnvAfter(xs.head, env)))
  }

  lemma {:induction false} ProblemExactlyWhenUnreadable(n: Node, path: string, env: Env)
    ensures Problems(n, path, env) != [] <==> Unreadable(n, env)
    decreases n
  {
    match n
    case Mapping(_, pairs) => PairProblemsExactly(pairs, path, env);
    case Sequence(_, items) => ItemProblemsExactly(items, path, 0, env);
    case _ =>
  }

  lemma {:induction false} PairProblemsExactly(ps: Pairs, path: string, env: Env)
    ensures PairProblems(ps, path, env) != [] <==> PairsUnreadable(ps, env)
    decreases ps
  {
    if ps.Pair? {
      ProblemExactlyWhenUnreadable(ps.value, Join(path, KeyName(ps.key, ps.plain)), env);
      PairProblemsExactly(ps.rest, path, EnvAfter(ps.value, env));
    }
  }

  lemma {:induction false} ItemProblemsExactly(xs: Items, path: string, i: nat, env: Env)
    ensures ItemProblems(xs, path, i, env) != [] <==> ItemsUnreadable(xs, env)
    decreases xs
  {
    if xs.Item? {
      ProblemExactlyWhenUnreadable(xs.head, Join(path, Decimal(i)), env);
      ItemProblemsExactly(xs.tail, path, i + 1, EnvAfter(xs.head, env));
    }
  }
}

/** The keyword scan of a migration: comments and quoted text are blanked, the rest is split into words. */
module StatementScan {

  /** A piece of SQL: a character of code, a comment, or quoted text. Only the last piece may be left open. */
  datatype Span =
    | Code(c: char)
    | Line(body: string, closed: bool)
    | Block(body: string, closed: bool)
    | Quoted(open: char, body: string, closed: bool)

  predicate IsQuote(c: char) {
    c == '\'' || c == '"' || c == '`' || c == '['
  }

  function Closer(open: char): char {
    if open == '[' then ']' else open
  }

  predicate StartsWith(s: string, c: char) {
    s != [] && s[0] == c
  }

  function Text(span: Span): (s: string)
    ensures s != []
  {
    match span
    case Code(c) => [c]
    case Line(body, closed) => "--" + body + if closed then "\n" else ""
    case Block(body, closed) => "/*" + body + if closed then "*/" else ""
    case Quoted(open, body, closed) => [open] + body + if closed then [Closer(open)] else []
  }

  function Blank(span: Span): string {
    match span
    case Code(c) => [c]
    case Line(_, _) => " "
    case Block(_, _) => " "
    case Quoted(_, _, _) => " x "
  }

  predicate HoldsStarSlash(s: string) {
    exists i :: 0 <= i < |s| - 1 && s[i] == '*' && s[i + 1] == '/'
  }

  /** What the span may hold: nothing that closes it. */
  predicate WellFormed(span: Span) {
    match span
    case Code(c) => !IsQuote(c)
    case Line(body, _) => '\n' !in body
    case Block(body, _) => !HoldsStarSlash(body)
    case Quoted(open, body, _) => IsQuote(open) && Closer(open) !in body
  }

  /** How it may stand before the text that follows. */
  predicate Fits(span: Span, rest: string) {
    && WellFormed(span)
    && match span
       case Code(c) => !(c == '-' && StartsWith(rest, '-')) && !(c == '/' && StartsWith(rest, '*'))
       case Line(_, closed) => closed || rest == []
       case Block(_, closed) => closed || rest == []
       case Quoted(_, _, closed) => closed || rest == []
  }

  function TextOf(spans: seq<Span>): string {
    if spans == [] then [] else Text(spans[0]) + TextOf(spans[1..])
  }

  function BlankOf(spans: seq<Span>): string {
    if spans == [] then [] else Blank(spans[0]) + BlankOf(spans[1..])
  }

  /** A division of some text into code, comments and quoted text. */
  predicate IsReading(spans: seq<Span>) {
    spans == [] || (Fits(spans[0], TextOf(spans[1..])) && IsReading(spans[1..]))
  }

  // ---- the one reading -----------------------------------------------------------------------------

  /** How far to the first c, or to the end. */
  function Until(s: string, c: char): (n: nat)
    ensures n <= |s| && c !in s[..n] && (n < |s| ==> s[n] == c)
  {
    if s == [] || s[0] == c then 0
    else
      var n := 1 + Until(s[1..], c);
      assert s[..n] == [s[0]] + s[1..][..n - 1];
      n
  }

  /** How far to the first star and slash, or to the end. */
  function UntilStarSlash(s: string): (n: nat)
    ensures n <= |s| && !HoldsStarSlash(s[..n])
    ensures n < |s| ==> n + 1 < |s| && s[n] == '*' && s[n + 1] == '/'
  {
    if s == [] || (s[0] == '*' && StartsWith(s[1..], '/')) then 0
    else
      var n := 1 + UntilStarSlash(s[1..]);
      NoStarSlashBefore(s, n);
      n
  }

  lemma NoStarSlashBefore(s: string, n: nat)
    requires 1 <= n <= |s| && !HoldsStarSlash(s[1..][..n - 1]) && !(s[0] == '*' && StartsWith(s[1..], '/'))
    ensures !HoldsStarSlash(s[..n])
  {
    forall i | 0 <= i < n - 1
      ensures !(s[i] == '*' && s[i + 1] == '/')
    {
      if i > 0 {
        assert s[1..][..n - 1][i - 1] == s[i] && s[1..][..n - 1][i] == s[i + 1];
      }
    }
  }

  function Head(sql: string): Span
    requires sql != []
  {
    var c, rest := sql[0], sql[1..];
    if c == '-' && StartsWith(rest, '-') then
      var n := Until(rest[1..], '\n');
      Line(rest[1..][..n], n < |rest[1..]|)
    else if c == '/' && StartsWith(rest, '*') then
      var n := UntilStarSlash(rest[1..]);
      Block(rest[1..][..n], n < |rest[1..]|)
    else if IsQuote(c) then
      var n := Until(rest, Closer(c));
      Quoted(c, rest[..n], n < |rest|)
    else Code(c)
  }

  lemma HeadIsPrefix(sql: string)
    requires sql != []
    ensures Text(Head(sql)) <= sql && Fits(Head(sql), sql[|Text(Head(sql))|..])
  {
  }

  function Read(sql: string): seq<Span> {
    if sql == [] then []
    else
      HeadIsPrefix(sql);
      [Head(sql)] + Read(sql[|Text(Head(sql))|..])
  }

  /** Every text has a reading. */
  lemma {:induction false} ReadIsReading(sql: string)
    ensures IsReading(Read(sql)) && TextOf(Read(sql)) == sql
  {
    hide Head, Fits, Text;
    if sql != [] {
      HeadIsPrefix(sql);
      var rest := sql[|Text(Head(sql))|..];
      ReadIsReading(rest);
      assert Read(sql)[1..] == Read(rest);
    }
  }

  lemma {:induction false} UntilFinds(body: string, c: char, rest: string)
    requires c !in body && (rest == [] || rest[0] == c)
    ensures Until(body + rest, c) == |body|
  {
    if body == [] {
      assert body + rest == rest;
    } else {
      UntilFinds(body[1..], c, rest);
      assert (body + rest)[1..] == body[1..] + rest;
    }
  }

  lemma {:induction false} UntilStarSlashFinds(body: string, rest: string)
    requires !HoldsStarSlash(body) && (rest == [] || (StartsWith(rest, '*') && StartsWith(rest[1..], '/')))
    ensures UntilStarSlash(body + rest) == |body|
  {
    if body == [] {
      assert body + rest == rest;
    } else {
      assert (body + rest)[1..] == body[1..] + rest;
      assert !HoldsStarSlash(body[1..]) by {
        assert forall i :: 0 <= i < |body[1..]| ==> body[1..][i] == body[i + 1];
      }
      UntilStarSlashFinds(body[1..], rest);
    }
  }

  lemma LineIsDecided(body: string, closed: bool, rest: string)
    requires Fits(Line(body, closed), rest)
    ensures Head(Text(Line(body, closed)) + rest) == Line(body, closed)
  {
    var tail := (if closed then "\n" else "") + rest;
    var sql := Text(Line(body, closed)) + rest;
    assert sql == "--" + (body + tail);
    assert StartsWith(sql[1..], '-') && sql[1..][1..] == body + tail;
    assert closed <==> tail != [];
    UntilFinds(body, '\n', tail);
    assert (body + tail)[..|body|] == body;
  }

  lemma BlockIsDecided(body: string, closed: bool, rest: string)
    requires Fits(Block(body, closed), rest)
    ensures Head(Text(Block(body, closed)) + rest) == Block(body, closed)
  {
    var tail := (if closed then "*/" else "") + rest;
    var sql := Text(Block(body, closed)) + rest;
    assert sql == "/*" + (body + tail);
    assert StartsWith(sql[1..], '*') && sql[1..][1..] == body + tail;
    assert closed <==> tail != [];
    UntilStarSlashFinds(body, tail);
    assert (body + tail)[..|body|] == body;
  }

  lemma QuotedIsDecided(open: char, body: string, closed: bool, rest: string)
    requires Fits(Quoted(open, body, closed), rest)
    ensures Head(Text(Quoted(open, body, closed)) + rest) == Quoted(open, body, closed)
  {
    var tail := (if closed then [Closer(open)] else []) + rest;
    var sql := Text(Quoted(open, body, closed)) + rest;
    assert sql == [open] + (body + tail);
    assert sql[1..] == body + tail;
    assert closed <==> tail != [];
    UntilFinds(body, Closer(open), tail);
    assert (body + tail)[..|body|] == body;
  }

  /** What stands first decides itself. */
  lemma HeadIsDecided(span: Span, rest: string)
    requires Fits(span, rest)
    ensures Head(Text(span) + rest) == span
  {
    match span
    case Code(c) => assert (Text(span) + rest)[1..] == rest;
    case Line(body, closed) => LineIsDecided(body, closed, rest);
    case Block(body, closed) => BlockIsDecided(body, closed, rest);
    case Quoted(open, body, closed) => QuotedIsDecided(open, body, closed, rest);
  }

  /** No text has two readings. */
  lemma {:induction false} OneReading(spans: seq<Span>)
    requires IsReading(spans)
    ensures Read(TextOf(spans)) == spans
  {
    if spans != [] {
      var rest := TextOf(spans[1..]);
      HeadIsDecided(spans[0], rest);
      OneReading(spans[1..]);
      assert TextOf(spans)[|Text(spans[0])|..] == rest;
    }
  }

  // ---- the scanner ---------------------------------------------------------------------------------

  /** Takes characters through the first c. */
  method SkipPast(sql: string, start: nat, c: char) returns (next: nat)
    requires start <= |sql|
    ensures next == start + PastFirst(sql[start..], c)
  {
    next := start;
    while next < |sql| && sql[next] != c
      invariant start <= next <= |sql| && c !in sql[start..next]
    {
      next := next + 1;
    }
    assert sql[start..] == sql[start..next] + sql[next..];
    UntilFinds(sql[start..next], c, sql[next..]);
    if next < |sql| {
      next := next + 1;
    }
  }

  function PastFirst(s: string, c: char): nat {
    var n := Until(s, c);
    if n < |s| then n + 1 else n
  }

  /** Takes characters through the first star and slash, remembering only the last one. */
  method SkipBlock(sql: string, start: nat) returns (next: nat)
    requires start <= |sql|
    ensures next == start + PastStarSlash(sql[start..])
  {
    var last := ' ';
    next := start;
    while next < |sql| && !(last == '*' && sql[next] == '/')
      invariant start <= next <= |sql| && !HoldsStarSlash(sql[start..next])
      invariant last == if next == start then ' ' else sql[next - 1]
    {
      LongerHoldsNone(sql, start, next);
      last := sql[next];
      next := next + 1;
    }
    if next < |sql| {
      assert sql[start..] == sql[start..next - 1] + sql[next - 1..];
      ShorterHoldsNone(sql, start, next);
      UntilStarSlashFinds(sql[start..next - 1], sql[next - 1..]);
      next := next + 1;
    } else {
      assert sql[start..] == sql[start..next] + [];
      UntilStarSlashFinds(sql[start..next], []);
    }
  }

  function PastStarSlash(s: string): nat {
    var n := UntilStarSlash(s);
    if n < |s| then n + 2 else n
  }

  lemma LongerHoldsNone(sql: string, start: nat, next: nat)
    requires start <= next < |sql| && !HoldsStarSlash(sql[start..next])
    requires next > start ==> !(sql[next - 1] == '*' && sql[next] == '/')
    ensures !HoldsStarSlash(sql[start..next + 1])
  {
    var longer := sql[start..next + 1];
    forall i | 0 <= i < |longer| - 1
      ensures !(longer[i] == '*' && longer[i + 1] == '/')
    {
      if i < next - start - 1 {
        assert sql[start..next][i] == longer[i] && sql[start..next][i + 1] == longer[i + 1];
      }
    }
  }

  lemma ShorterHoldsNone(sql: string, start: nat, next: nat)
    requires start < next <= |sql| && !HoldsStarSlash(sql[start..next])
    ensures !HoldsStarSlash(sql[start..next - 1])
  {
    var shorter := sql[start..next - 1];
    forall i | 0 <= i < |shorter| - 1
      ensures !(shorter[i] == '*' && shorter[i + 1] == '/')
    {
      assert sql[start..next][i] == shorter[i] && sql[start..next][i + 1] == shorter[i + 1];
    }
  }

  /** The scan: the text with every comment and every quoted span blanked. */
  method Scan(sql: string) returns (code: string)
    ensures code == BlankOf(Read(sql))
  {
    hide Head, Read, BlankOf;
    code := [];
    var i := 0;
    assert sql[0..] == sql;
    while i < |sql|
      invariant i <= |sql| && code + BlankOf(Read(sql[i..])) == BlankOf(Read(sql))
    {
      ghost var start := i;
      HeadTaken(sql, i);
      var c := sql[i];
      i := i + 1;
      var blank: string;
      if c == '-' && i < |sql| && sql[i] == '-' {
        i := SkipPast(sql, i, '\n');
        blank := " ";
      } else if c == '/' && i < |sql| && sql[i] == '*' {
        i := SkipBlock(sql, i + 1);
        blank := " ";
      } else if IsQuote(c) {
        i := SkipPast(sql, i, Closer(c));
        blank := " x ";
      } else {
        blank := [c];
      }
      code := code + blank;
    }
    assert sql[i..] == [];
    NothingRead();
  }

  lemma NothingRead()
    ensures BlankOf(Read([])) == []
  {
  }

  /** How much the scan takes for the span that stands first. */
  function Taken(s: string): nat
    requires s != []
  {
    if s[0] == '-' && StartsWith(s[1..], '-') then 1 + PastFirst(s[1..], '\n')
    else if s[0] == '/' && StartsWith(s[1..], '*') then 2 + PastStarSlash(s[2..])
    else if IsQuote(s[0]) then 1 + PastFirst(s[1..], Closer(s[0]))
    else 1
  }

  function Pushed(s: string): string
    requires s != []
  {
    if (s[0] == '-' && StartsWith(s[1..], '-')) || (s[0] == '/' && StartsWith(s[1..], '*')) then " "
    else if IsQuote(s[0]) then " x "
    else [s[0]]
  }

  lemma HeadIsTaken(s: string)
    requires s != []
    ensures |Text(Head(s))| == Taken(s) <= |s| && Blank(Head(s)) == Pushed(s)
  {
    HeadIsPrefix(s);
    if s[0] == '-' && StartsWith(s[1..], '-') {
      assert s[1..] == ['-'] + s[1..][1..];
    } else if s[0] == '/' && StartsWith(s[1..], '*') {
      assert s[1..][1..] == s[2..];
    }
  }

  lemma HeadTaken(sql: string, i: nat)
    requires i < |sql|
    ensures i + Taken(sql[i..]) <= |sql|
    ensures BlankOf(Read(sql[i..])) == Pushed(sql[i..]) + BlankOf(Read(sql[i + Taken(sql[i..])..]))
    ensures sql[i..][0] == sql[i] && sql[i..][1..] == sql[i + 1..]
  {
    var s := sql[i..];
    HeadIsPrefix(s);
    HeadIsTaken(s);
    assert s[|Text(Head(s))|..] == sql[i + Taken(s)..];
    assert Read(s)[1..] == Read(sql[i + Taken(s)..]);
  }

  // ---- edits inside comments and quoted text -------------------------------------------------------

  /** The span with other text inside. */
  function WithBody(span: Span, body: string): Span {
    match span
    case Code(c) => span
    case Line(_, closed) => Line(body, closed)
    case Block(_, closed) => Block(body, closed)
    case Quoted(open, _, closed) => Quoted(open, body, closed)
  }

  /** Such an edit reads as the same spans around the new text, and blanks to the same code. */
  lemma {:induction false} EditReads(spans: seq<Span>, i: nat, body: string)
    requires IsReading(spans) && i < |spans| && WellFormed(WithBody(spans[i], body))
    ensures var edited := spans[i := WithBody(spans[i], body)];
            && IsReading(edited) && BlankOf(edited) == BlankOf(spans)
            && (TextOf(edited) == [] <==> TextOf(spans) == [])
            && forall c :: StartsWith(TextOf(edited), c) <==> StartsWith(TextOf(spans), c)
  {
    var edited := spans[i := WithBody(spans[i], body)];
    if i == 0 {
      assert edited[1..] == spans[1..];
    } else {
      EditReads(spans[1..], i - 1, body);
      assert edited[1..] == spans[1..][i - 1 := WithBody(spans[i], body)];
    }
  }

  /** A change inside a comment or quoted text that closes nothing leaves the scan as it was. */
  lemma EditChangesNothing(spans: seq<Span>, i: nat, body: string)
    requires IsReading(spans) && i < |spans| && WellFormed(WithBody(spans[i], body))
    ensures BlankOf(Read(TextOf(spans[i := WithBody(spans[i], body)]))) == BlankOf(Read(TextOf(spans)))
  {
    EditReads(spans, i, body);
    OneReading(spans);
    OneReading(spans[i := WithBody(spans[i], body)]);
  }
}

/** What the scan blanks, told in characters: one rule for each way a text can begin. */
module ScanInCharacters {
  import opened StatementScan

  lemma HeadThenRest(text: string, rest: string)
    requires text != [] && text + rest != [] && Text(Head(text + rest)) == text
    ensures BlankOf(Read(text + rest)) == Blank(Head(text + rest)) + BlankOf(Read(rest))
  {
    hide Head, Blank, Text;
    var s := text + rest;
    assert s[|text|..] == rest;
    assert Read(s) == [Head(s)] + Read(rest);
    assert ([Head(s)] + Read(rest))[1..] == Read(rest);
  }

  /** Nothing is blanked to nothing. */
  lemma NothingStays()
    ensures BlankOf(Read([])) == []
  {
  }

  /** A character that opens nothing stays as it is. */
  lemma CodeStays(c: char, rest: string)
    requires c !in {'\'', '"', '`', '['}
    requires !(c == '-' && rest != [] && rest[0] == '-') && !(c == '/' && rest != [] && rest[0] == '*')
    ensures BlankOf(Read([c] + rest)) == [c] + BlankOf(Read(rest))
  {
    assert ([c] + rest)[1..] == rest;
    HeadThenRest([c], rest);
  }

  /** The last piece of a text, left open. */
  lemma OnlyHead(text: string)
    requires text != [] && Text(Head(text)) == text
    ensures BlankOf(Read(text)) == Blank(Head(text))
  {
    hide Head, Blank, Text;
    assert text + [] == text && Blank(Head(text)) + [] == Blank(Head(text));
    HeadThenRest(text, []);
  }

  /** A comment to the end of its line is a blank, the newline with it. */
  lemma LineIsBlank(body: string, rest: string)
    requires '\n' !in body
    ensures BlankOf(Read("--" + body + "\n" + rest)) == " " + BlankOf(Read(rest))
  {
    var text := "--" + body + "\n";
    assert (text + rest)[1..][1..] == body + ("\n" + rest);
    UntilFinds(body, '\n', "\n" + rest);
    assert (body + ("\n" + rest))[..|body|] == body;
    assert Head(text + rest) == Line(body, true);
    HeadThenRest(text, rest);
  }

  lemma LastLineIsBlank(body: string)
    requires '\n' !in body
    ensures BlankOf(Read("--" + body)) == " "
  {
    assert ("--" + body)[1..][1..] == body && body + [] == body;
    UntilFinds(body, '\n', []);
    assert body[..|body|] == body;
    assert Head("--" + body) == Line(body, false) && "--" + body + "" == "--" + body;
    OnlyHead("--" + body);
  }

  /** Text in quotes or brackets is a word that is no keyword. */
  lemma QuotedIsBlank(open: char, close: char, body: string, rest: string)
    requires (open, close) in {('\'', '\''), ('"', '"'), ('`', '`'), ('[', ']')} && close !in body
    ensures BlankOf(Read([open] + body + [close] + rest)) == " x " + BlankOf(Read(rest))
  {
    var text := [open] + body + [close];
    assert (text + rest)[1..] == body + ([close] + rest);
    UntilFinds(body, close, [close] + rest);
    assert (body + ([close] + rest))[..|body|] == body;
    assert Head(text + rest) == Quoted(open, body, true);
    HeadThenRest(text, rest);
  }

  lemma LastQuotedIsBlank(open: char, close: char, body: string)
    requires (open, close) in {('\'', '\''), ('"', '"'), ('`', '`'), ('[', ']')} && close !in body
    ensures BlankOf(Read([open] + body)) == " x "
  {
    assert ([open] + body)[1..] == body && body + [] == body;
    UntilFinds(body, close, []);
    assert body[..|body|] == body;
    assert Head([open] + body) == Quoted(open, body, false) && [open] + body + [] == [open] + body;
    OnlyHead([open] + body);
  }

  /** A block comment is a blank, to its first star and slash. */
  lemma BlockIsBlank(body: string, rest: string)
    requires forall i :: 0 <= i < |body| - 1 ==> !(body[i] == '*' && body[i + 1] == '/')
    ensures BlankOf(Read("/*" + body + "*/" + rest)) == " " + BlankOf(Read(rest))
  {
    var text := "/*" + body + "*/";
    assert (text + rest)[1..][1..] == body + ("*/" + rest);
    assert ("*/" + rest)[1..] == "/" + rest && !HoldsStarSlash(body);
    UntilStarSlashFinds(body, "*/" + rest);
    assert (body + ("*/" + rest))[..|body|] == body;
    assert Head(text + rest) == Block(body, true);
    HeadThenRest(text, rest);
  }

  lemma OpenBlockHead(sql: string, body: string)
    requires |sql| == |body| + 2 && sql[0] == '/' && sql[1] == '*' && sql[2..] == body && UntilStarSlash(body) == |body|
    ensures Head(sql) == Block(body, false)
  {
    hide UntilStarSlash;
    assert sql[1..][1..] == body && body[..|body|] == body;
  }

  lemma LastBlockIsBlank(body: string)
    requires forall i :: 0 <= i < |body| - 1 ==> !(body[i] == '*' && body[i + 1] == '/')
    ensures BlankOf(Read("/*" + body)) == " "
  {
    hide UntilStarSlash, Head, Read, BlankOf;
    var text := "/*" + body;
    assert body + [] == body && !HoldsStarSlash(body);
    UntilStarSlashFinds(body, []);
    OpenBlockHead(text, body);
    OnlyHead(text);
  }
}

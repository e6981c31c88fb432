/** The schema migrations in a directory: which files are taken, in which order, and what refuses them all. */
module MigrationRegistry {
  import opened Prelude
  import opened StatementScan

  // ---- words ---------------------------------------------------------------------------------------

  predicate IsLetter(c: char) {
    'a' <= c <= 'z' || 'A' <= c <= 'Z'
  }

  function Upper(s: string): (r: string)
    ensures |r| == |s|
  {
    seq(|s|, i requires 0 <= i < |s| => if 'a' <= s[i] <= 'z' then s[i] - 'a' + 'A' else s[i])
  }

  /** How many letters stand first. */
  function Letters(s: string): (n: nat)
    ensures n <= |s| && (forall i :: 0 <= i < n ==> IsLetter(s[i])) && (n < |s| ==> !IsLetter(s[n]))
  {
    if s == [] || !IsLetter(s[0]) then 0 else 1 + Letters(s[1..])
  }

  /** The runs of letters, upper-cased. */
  function Words(s: string): seq<string> {
    if s == [] then []
    else if !IsLetter(s[0]) then Words(s[1..])
    else [Upper(s[..Letters(s)])] + Words(s[Letters(s)..])
  }

  function Split(s: string, c: char): (parts: seq<string>)
    ensures parts != []
  {
    var n := Until(s, c);
    if n == |s| then [s] else [s[..n]] + Split(s[n + 1..], c)
  }

  function WordsOfEach(parts: seq<string>): (r: seq<seq<string>>)
    ensures |r| == |parts|
  {
    if parts == [] then [] else [Words(parts[0])] + WordsOfEach(parts[1..])
  }

  /** Each statement's words. */
  function Statements(sql: string): seq<seq<string>> {
    WordsOfEach(Split(BlankOf(Read(sql)), ';'))
  }

  const CONTROL: set<string> := {"BEGIN", "COMMIT", "ROLLBACK", "SAVEPOINT", "RELEASE"}

  predicate Controls(words: seq<string>) {
    words != [] && words[0] in CONTROL
  }

  predicate AltersTable(words: seq<string>) {
    |words| >= 2 && (words[0] == "ALTER" || words[0] == "DROP") && words[1] == "TABLE"
  }

  function FindStatement(statements: seq<seq<string>>, wanted: seq<string> -> bool): (found: Option<seq<string>>)
    ensures match found
            case None => forall words :: words in statements ==> !wanted(words)
            case Some(words) => words in statements && wanted(words)
  {
    if statements == [] then None
    else if wanted(statements[0]) then Some(statements[0])
    else FindStatement(statements[1..], wanted)
  }

  /** Statements the migrator cannot run in its own transaction, or may not run at all. */
  predicate Forbidden(sql: string) {
    FindStatement(Statements(sql), Controls).Some? || FindStatement(Statements(sql), AltersTable).Some?
  }

  // ---- what the scan sees --------------------------------------------------------------------------

  /** The same words, whatever is written inside a comment or quoted text without closing it. */
  lemma EditKeepsWords(spans: seq<Span>, i: nat, body: string)
    requires IsReading(spans) && i < |spans| && WellFormed(WithBody(spans[i], body))
    ensures var edited := TextOf(spans[i := WithBody(spans[i], body)]);
            Statements(edited) == Statements(TextOf(spans)) && (Forbidden(edited) <==> Forbidden(TextOf(spans)))
  {
    EditChangesNothing(spans, i, body);
  }

  lemma SplitOff(part: string, rest: string, c: char)
    requires c !in part
    ensures Split(part + [c] + rest, c) == [part] + Split(rest, c)
    ensures Split(part, c) == [part]
  {
    var s := part + [c] + rest;
    assert s == part + ([c] + rest);
    UntilFinds(part, c, [c] + rest);
    assert s[..|part|] == part && s[|part| + 1..] == rest;
    UntilFinds(part, c, []);
    assert part + [] == part;
  }

  /** The parts with the separator between each two. */
  function Joined(parts: seq<string>, c: char): string {
    if parts == [] then [] else if |parts| == 1 then parts[0] else parts[0] + [c] + Joined(parts[1..], c)
  }

  /** Splitting is the one way to read a text as parts without the separator, joined by it. */
  lemma {:induction false} SplitOfJoined(parts: seq<string>, c: char)
    requires parts != [] && forall part :: part in parts ==> c !in part
    ensures Split(Joined(parts, c), c) == parts
  {
    SplitOff(parts[0], Joined(parts[1..], c), c);
    if |parts| > 1 {
      SplitOfJoined(parts[1..], c);
      assert parts == [parts[0]] + parts[1..];
    } else {
      assert parts == [parts[0]];
    }
  }

  lemma JoinedNext(part: string, parts: seq<string>, c: char)
    requires parts != []
    ensures Joined([part] + parts, c) == part + [c] + Joined(parts, c)
  {
    assert ([part] + parts)[1..] == parts;
  }

  lemma {:induction false} JoinedOfSplit(s: string, c: char)
    ensures Joined(Split(s, c), c) == s
    decreases |s|
  {
    var n := Until(s, c);
    if n == |s| {
      assert s[..n] == s;
    } else {
      hide Until, Joined;
      JoinedOfSplit(s[n + 1..], c);
      JoinedNext(s[..n], Split(s[n + 1..], c), c);
      assert s == s[..n] + [c] + s[n + 1..];
    }
  }

  lemma {:induction false} PartsHoldNone(s: string, c: char)
    ensures forall part :: part in Split(s, c) ==> c !in part
    decreases |s|
  {
    var n := Until(s, c);
    if n == |s| {
      assert s[..n] == s;
    } else {
      PartsHoldNone(s[n + 1..], c);
    }
  }

  lemma {:induction false} EachHasItsWords(parts: seq<string>, part: string)
    requires part in parts
    ensures Words(part) in WordsOfEach(parts)
  {
    assert WordsOfEach(parts)[0] == Words(parts[0]);
    if part != parts[0] {
      EachHasItsWords(parts[1..], part);
      assert WordsOfEach(parts)[1..] == WordsOfEach(parts[1..]);
    }
  }

  predicate Lettered(word: string) {
    word != [] && forall i :: 0 <= i < |word| ==> 'A' <= word[i] <= 'Z' || 'a' <= word[i] <= 'z'
  }

  predicate NoLetters(blank: string) {
    forall i :: 0 <= i < |blank| ==> !('A' <= blank[i] <= 'Z') && !('a' <= blank[i] <= 'z')
  }

  /** The word spelled in capitals. */
  predicate InCapitals(word: string, capitals: string) {
    && |capitals| == |word|
    && forall i :: 0 <= i < |word| ==>
         if 'a' <= word[i] <= 'z' then capitals[i] as int == word[i] as int - 32 else capitals[i] == word[i]
  }

  lemma {:induction false} LettersOf(word: string, rest: string)
    requires Lettered(word) && (rest == [] || NoLetters(rest[..1]))
    ensures Letters(word + rest) == |word|
  {
    assert (word + rest)[1..] == word[1..] + rest;
    if |word| == 1 {
      assert word[1..] + rest == rest;
      assert rest != [] ==> rest[..1][0] == rest[0];
    } else {
      LettersOf(word[1..], rest);
    }
  }

  lemma FirstIsAWord(word: string, rest: string)
    requires Lettered(word) && (rest == [] || NoLetters(rest[..1]))
    ensures Words(word + rest) == [Upper(word)] + Words(rest) && InCapitals(word, Upper(word))
  {
    var s := word + rest;
    LettersOf(word, rest);
    assert s[..|word|] == word && s[|word|..] == rest && IsLetter(s[0]);
  }

  /** Words are the runs of letters, in capitals, in the order they stand. */
  lemma {:induction false} WordsAreRuns(blank: string, word: string, rest: string)
    requires NoLetters(blank) && Lettered(word) && (rest == [] || NoLetters(rest[..1]))
    ensures var words := Words(blank + word + rest);
            words != [] && InCapitals(word, words[0]) && words[1..] == Words(rest)
  {
    var s := blank + word + rest;
    if blank == [] {
      FirstIsAWord(word, rest);
      assert s == word + rest;
      hide *;
    } else {
      WordsAreRuns(blank[1..], word, rest);
      hide Letters, InCapitals, Lettered, Upper;
      assert s[1..] == blank[1..] + word + rest && !IsLetter(s[0]);
    }
  }

  lemma {:induction false} NoLettersNoWords(blank: string)
    requires NoLetters(blank)
    ensures Words(blank) == []
  {
    if blank != [] {
      NoLettersNoWords(blank[1..]);
    }
  }

  lemma CapitalsOnce(word: string, a: string, b: string)
    requires InCapitals(word, a) && InCapitals(word, b)
    ensures a == b
  {
  }

  /** A keyword that begins a statement is seen, in any letter case: the first statement, the last, or any between. */
  lemma ControlIsSeen(sql: string, statement: string, blank: string, word: string, rest: string, keyword: string)
    requires statement in Split(BlankOf(Read(sql)), ';') && statement == blank + word + rest
    requires NoLetters(blank) && Lettered(word) && (rest == [] || NoLetters(rest[..1]))
    requires InCapitals(word, keyword) && keyword in {"BEGIN", "COMMIT", "ROLLBACK", "SAVEPOINT", "RELEASE"}
    ensures Forbidden(sql)
  {
    WordsAreRuns(blank, word, rest);
    CapitalsOnce(word, keyword, Words(statement)[0]);
    assert ForbiddenStatement(statement);
    ForbiddenExactlyWhen(sql);
  }

  /** So is a statement that alters or drops a table. */
  lemma TableChangeIsSeen(sql: string, statement: string, blank: string, verb: string, gap: string, noun: string,
                          rest: string, keyword: string)
    requires statement in Split(BlankOf(Read(sql)), ';') && statement == blank + verb + (gap + noun + rest)
    requires NoLetters(blank) && NoLetters(gap) && gap != [] && (rest == [] || NoLetters(rest[..1]))
    requires Lettered(verb) && Lettered(noun) && InCapitals(noun, "TABLE")
    requires InCapitals(verb, keyword) && keyword in {"ALTER", "DROP"}
    ensures Forbidden(sql)
  {
    assert (gap + noun + rest)[..1] == gap[..1];
    WordsAreRuns(blank, verb, gap + noun + rest);
    WordsAreRuns(gap, noun, rest);
    var words := Words(statement);
    CapitalsOnce(verb, keyword, words[0]);
    CapitalsOnce(noun, "TABLE", words[1..][0]);
    assert ForbiddenStatement(statement);
    ForbiddenExactlyWhen(sql);
  }

  lemma {:induction false} WordsOfAPart(parts: seq<string>, words: seq<string>)
    requires words in WordsOfEach(parts)
    ensures exists part :: part in parts && Words(part) == words
  {
    if words == Words(parts[0]) {
      assert parts[0] in parts;
    } else {
      assert WordsOfEach(parts)[1..] == WordsOfEach(parts[1..]);
      WordsOfAPart(parts[1..], words);
      var part :| part in parts[1..] && Words(part) == words;
      assert part in parts;
    }
  }

  /** It begins with a transaction keyword, or alters or drops a table. */
  predicate ForbiddenWords(words: seq<string>) {
    || (|words| >= 1 && words[0] in {"BEGIN", "COMMIT", "ROLLBACK", "SAVEPOINT", "RELEASE"})
    || (|words| >= 2 && words[0] in {"ALTER", "DROP"} && words[1] == "TABLE")
  }

  predicate ForbiddenStatement(statement: string) {
    ForbiddenWords(Words(statement))
  }

  lemma WordsDecide(words: seq<string>)
    ensures Controls(words) || AltersTable(words) <==> ForbiddenWords(words)
  {
  }

  /** A migration is refused exactly when some text between two semicolons, or an end and one, is a forbidden statement. */
  lemma ForbiddenExactlyWhen(sql: string)
    ensures Forbidden(sql) <==> exists part :: part in Split(BlankOf(Read(sql)), ';') && ForbiddenStatement(part)
  {
    hide Read, BlankOf, Split;
    var parts := Split(BlankOf(Read(sql)), ';');
    forall words
      ensures Controls(words) || AltersTable(words) <==> ForbiddenWords(words)
    {
      WordsDecide(words);
    }
    hide Controls, AltersTable, ForbiddenWords, Words;
    if Forbidden(sql) {
      var words :| words in WordsOfEach(parts) && (Controls(words) || AltersTable(words));
      WordsOfAPart(parts, words);
    }
    if part :| part in parts && ForbiddenStatement(part) {
      EachHasItsWords(parts, part);
    }
  }

  // ---- loading a directory -------------------------------------------------------------------------

  datatype File = File(name: string, sql: string)

  datatype Migration = Migration(version: string, file: File)

  datatype Loaded = Loaded(migrations: seq<Migration>) | Refused

  predicate IsVersion(s: string) {
    |s| == 14 && forall i :: 0 <= i < |s| ==> '0' <= s[i] <= '9'
  }

  /** The version a file name gives, when it is one of a migration's. */
  function VersionOf(name: string): (version: Option<string>)
    ensures version.Some? ==> IsVersion(version.value)
  {
    var suffix := ".sql";
    if |name| < |suffix| || name[|name| - |suffix|..] != suffix then None
    else
      var stem := name[..|name| - |suffix|];
      var n := Until(stem, '_');
      if n < |stem| && IsVersion(stem[..n]) && n + 1 < |stem| then Some(stem[..n]) else None
  }

  /** A migration is named by fourteen digits, an underscore and a name. */
  predicate NamedAs(name: string, version: string, title: string) {
    && name == version + "_" + title + ".sql" && title != ""
    && |version| == 14 && forall i :: 0 <= i < 14 ==> '0' <= version[i] <= '9'
  }

  lemma VersionFound(name: string, version: string, title: string)
    requires NamedAs(name, version, title)
    ensures VersionOf(name) == Some(version)
  {
    var stem := version + "_" + title;
    assert name == stem + ".sql";
    assert name[|name| - 4..] == ".sql" && name[..|name| - 4] == stem;
    assert '_' !in version;
    UntilFinds(version, '_', "_" + title);
    assert stem == version + ("_" + title) && stem[..14] == version;
  }

  lemma VersionGiven(name: string) returns (title: string)
    requires VersionOf(name).Some?
    ensures NamedAs(name, VersionOf(name).value, title)
  {
    var stem := name[..|name| - 4];
    var n := Until(stem, '_');
    title := stem[n + 1..];
    assert name == stem + ".sql";
    assert stem == stem[..n] + "_" + stem[n + 1..];
  }

  predicate Hidden(file: File) {
    StartsWith(file.name, '.')
  }

  predicate Acceptable(file: File, railsVersions: set<string>) {
    VersionOf(file.name).Some? && VersionOf(file.name).value !in railsVersions && !Forbidden(file.sql)
  }

  /** Lexicographic order. */
  predicate Less(a: string, b: string) {
    b != [] && (a == [] || a[0] < b[0] || (a[0] == b[0] && Less(a[1..], b[1..])))
  }

  ghost predicate Ascending(ms: seq<Migration>) {
    forall i, j :: 0 <= i < j < |ms| ==> !Less(ms[j].version, ms[i].version)
  }

  ghost predicate StrictlyAscending(ms: seq<Migration>) {
    forall i, j :: 0 <= i < j < |ms| ==> Less(ms[i].version, ms[j].version)
  }

  function Insert(m: Migration, ms: seq<Migration>): (r: seq<Migration>)
    ensures multiset(r) == multiset(ms) + multiset{m}
  {
    if ms == [] || !Less(ms[0].version, m.version) then [m] + ms
    else
      assert ms == [ms[0]] + ms[1..];
      [ms[0]] + Insert(m, ms[1..])
  }

  function Sort(ms: seq<Migration>): (r: seq<Migration>)
    ensures multiset(r) == multiset(ms)
  {
    if ms == [] then []
    else
      assert ms == [ms[0]] + ms[1..];
      Insert(ms[0], Sort(ms[1..]))
  }

  lemma {:induction false} LessIsAsymmetric(a: string, b: string)
    ensures !(Less(a, b) && Less(b, a))
    ensures a != b ==> Less(a, b) || Less(b, a)
  {
    if a != [] && b != [] && a[0] == b[0] {
      LessIsAsymmetric(a[1..], b[1..]);
      assert a == [a[0]] + a[1..] && b == [b[0]] + b[1..];
    }
  }

  lemma {:induction false} LessIsTransitive(a: string, b: string, c: string)
    requires !Less(b, a) && !Less(c, b)
    ensures !Less(c, a)
    ensures a != b ==> Less(a, b) && (b == c || Less(b, c)) && Less(a, c)
  {
    LessIsAsymmetric(a, b);
    LessIsAsymmetric(b, c);
    LessIsAsymmetric(a, c);
    if a != [] && b != [] && c != [] && a[0] == b[0] == c[0] {
      LessIsTransitive(a[1..], b[1..], c[1..]);
      assert a == [a[0]] + a[1..] && b == [b[0]] + b[1..] && c == [c[0]] + c[1..];
    }
  }

  lemma {:induction false} InsertAscends(m: Migration, ms: seq<Migration>)
    requires Ascending(ms)
    ensures Ascending(Insert(m, ms))
  {
    if ms == [] {
    } else if !Less(ms[0].version, m.version) {
      LessIsAsymmetric(ms[0].version, ms[0].version);
      forall j | 0 <= j < |ms|
        ensures !Less(ms[j].version, m.version)
      {
        LessIsTransitive(m.version, ms[0].version, ms[j].version);
      }
    } else {
      InsertAscends(m, ms[1..]);
      var rest := Insert(m, ms[1..]);
      LessIsAsymmetric(ms[0].version, m.version);
      forall j | 0 <= j < |rest|
        ensures !Less(rest[j].version, ms[0].version)
      {
        assert rest[j] in multiset(ms[1..]) + multiset{m};
      }
    }
  }

  lemma {:induction false} SortAscends(ms: seq<Migration>)
    ensures Ascending(Sort(ms))
  {
    if ms != [] {
      SortAscends(ms[1..]);
      InsertAscends(ms[0], Sort(ms[1..]));
    }
  }

  /** In order, equal versions stand side by side. */
  lemma SideBySide(ms: seq<Migration>)
    requires Ascending(ms)
    ensures StrictlyAscending(ms) <==> forall i :: 0 <= i < |ms| - 1 ==> ms[i].version != ms[i + 1].version
  {
    if forall i :: 0 <= i < |ms| - 1 ==> ms[i].version != ms[i + 1].version {
      forall i, j | 0 <= i < j < |ms|
        ensures Less(ms[i].version, ms[j].version)
      {
        LessIsAsymmetric(ms[j].version, ms[j].version);
        LessIsTransitive(ms[i].version, ms[i + 1].version, ms[j].version);
      }
    } else {
      var i :| 0 <= i < |ms| - 1 && ms[i].version == ms[i + 1].version;
      LessIsAsymmetric(ms[i].version, ms[i + 1].version);
    }
  }

  predicate Repeats(ms: seq<Migration>) {
    exists i :: 0 <= i < |ms| - 1 && ms[i].version == ms[i + 1].version
  }

  /** The migrations of the files that are not hidden, in the order found. */
  function Named(files: seq<File>): (ms: seq<Migration>) {
    if files == [] then []
    else
      var n := |files| - 1;
      var version := VersionOf(files[n].name);
      Named(files[..n]) + if Hidden(files[n]) || version.None? then [] else [Migration(version.value, files[n])]
  }

  /** Every file that is not hidden may be loaded. */
  predicate AllAcceptable(files: seq<File>, railsVersions: set<string>) {
    forall i :: 0 <= i < |files| && !Hidden(files[i]) ==> Acceptable(files[i], railsVersions)
  }

  /** All of a directory's migrations in order of version, or nothing when any file is not acceptable or two share a version. */
  method Load(files: seq<File>, railsVersions: set<string>) returns (r: Loaded)
    ensures r.Loaded? <==> AllAcceptable(files, railsVersions) && !Repeats(Sort(Named(files)))
    ensures r.Loaded? ==> r.migrations == Sort(Named(files)) && StrictlyAscending(r.migrations)
  {
    hide VersionOf, Forbidden, Hidden, Sort, Repeats, Ascending, StrictlyAscending;
    var found := [];
    for i := 0 to |files|
      invariant forall j :: 0 <= j < i && !Hidden(files[j]) ==> Acceptable(files[j], railsVersions)
      invariant found == Named(files[..i])
    {
      var file := files[i];
      assert files[..i + 1][..i] == files[..i];
      if Hidden(file) {
        continue;
      }
      var version := VersionOf(file.name);
      if version.None? || version.value in railsVersions || Forbidden(file.sql) {
        return Refused;
      }
      found := found + [Migration(version.value, file)];
    }
    assert files[..|files|] == files;
    found := Sort(found);
    if Repeats(found) {
      return Refused;
    }
    SortedIsStrict(Named(files));
    return Loaded(found);
  }

  lemma SortedIsStrict(ms: seq<Migration>)
    requires !Repeats(Sort(ms))
    ensures StrictlyAscending(Sort(ms))
  {
    SortAscends(ms);
    SideBySide(Sort(ms));
  }

  lemma {:induction false} NamedAreFiles(files: seq<File>, file: File)
    ensures forall m :: m in Named(files) ==>
              m.file in files && !Hidden(m.file) && VersionOf(m.file.name) == Some(m.version)
    ensures file in files && !Hidden(file) && VersionOf(file.name).Some? ==>
              Migration(VersionOf(file.name).value, file) in Named(files)
  {
    if files != [] {
      var n := |files| - 1;
      NamedAreFiles(files[..n], file);
      assert files == files[..n] + [files[n]];
    }
  }

  lemma SortKeeps(ms: seq<Migration>, m: Migration)
    ensures m in Sort(ms) <==> m in ms
  {
    assert m in multiset(Sort(ms)) <==> m in multiset(ms);
  }

  /**
   What a directory that loads gives: versions strictly ascending, none of them a Rails migration's, one for each
   file that is not hidden, and nothing in them that the migrator may not run.
   */
  lemma LoadedIsInOrder(files: seq<File>, railsVersions: set<string>)
    requires AllAcceptable(files, railsVersions) && !Repeats(Sort(Named(files)))
    ensures var ms := Sort(Named(files));
            && StrictlyAscending(ms)
            && (forall m :: m in ms ==>
                 IsVersion(m.version) && m.version !in railsVersions && !Forbidden(m.file.sql) && m.file in files)
            && (forall file :: file in files && !Hidden(file) ==> exists m :: m in ms && m.file == file)
  {
    var named := Named(files);
    SortedIsStrict(named);
    hide Sort, Named, Forbidden, Ascending, StrictlyAscending, VersionOf, IsVersion, Repeats, Hidden, Less;
    forall m | m in Sort(named)
      ensures IsVersion(m.version) && m.version !in railsVersions && !Forbidden(m.file.sql) && m.file in files
    {
      SortKeeps(named, m);
      NamedAreFiles(files, m.file);
      var i :| 0 <= i < |files| && files[i] == m.file;
      assert Acceptable(files[i], railsVersions);
    }
    forall file | file in files && !Hidden(file)
      ensures exists m :: m in Sort(named) && m.file == file
    {
      var i :| 0 <= i < |files| && files[i] == file;
      assert Acceptable(files[i], railsVersions);
      var m := Migration(VersionOf(file.name).value, file);
      NamedAreFiles(files, file);
      SortKeeps(named, m);
      assert m in Sort(named) && m.file == file;
    }
  }

  /** Two files of one version are always refused, wherever they stand. */
  lemma SharedVersionIsRefused(files: seq<File>, one: File, other: File)
    requires one in files && other in files && one != other && !Hidden(one) && !Hidden(other)
    requires VersionOf(one.name).Some? && VersionOf(one.name) == VersionOf(other.name)
    ensures Repeats(Sort(Named(files)))
  {
    hide Sort, Named, Less, VersionOf, IsVersion, Hidden, Ascending;
    var version := VersionOf(one.name).value;
    var ms := Sort(Named(files));
    SortAscends(Named(files));
    SideBySide(ms);
    NamedAreFiles(files, one);
    NamedAreFiles(files, other);
    SortKeeps(Named(files), Migration(version, one));
    SortKeeps(Named(files), Migration(version, other));
    LessIsAsymmetric(version, version);
    var i :| 0 <= i < |ms| && ms[i] == Migration(version, one);
    var j :| 0 <= j < |ms| && ms[j] == Migration(version, other);
    assert !Less(ms[Min(i, j)].version, ms[Max(i, j)].version);
  }

  // ---- exactly when a directory loads --------------------------------------------------------------

  function WithVersion(ms: seq<Migration>, version: string): nat {
    if ms == [] then 0 else (if ms[0].version == version then 1 else 0) + WithVersion(ms[1..], version)
  }

  lemma {:induction false} InsertedOnce(m: Migration, ms: seq<Migration>, version: string)
    ensures WithVersion(Insert(m, ms), version) == WithVersion(ms, version) + if m.version == version then 1 else 0
  {
    hide Less;
    if ms != [] && Less(ms[0].version, m.version) {
      InsertedOnce(m, ms[1..], version);
    }
  }

  lemma {:induction false} SortKeepsVersions(ms: seq<Migration>, version: string)
    ensures WithVersion(Sort(ms), version) == WithVersion(ms, version)
  {
    if ms != [] {
      SortKeepsVersions(ms[1..], version);
      InsertedOnce(ms[0], Sort(ms[1..]), version);
    }
  }

  lemma {:induction false} WithVersionJoin(a: seq<Migration>, b: seq<Migration>, version: string)
    ensures WithVersion(a + b, version) == WithVersion(a, version) + WithVersion(b, version)
  {
    if a == [] {
      assert a + b == b;
    } else {
      WithVersionJoin(a[1..], b, version);
      assert (a + b)[1..] == a[1..] + b;
    }
  }

  lemma {:induction false} TwoStand(ms: seq<Migration>, i: nat, j: nat)
    requires i < j < |ms| && ms[i].version == ms[j].version
    ensures WithVersion(ms, ms[i].version) >= 2
  {
    if i == 0 {
      OneStands(ms[1..], j - 1);
    } else {
      TwoStand(ms[1..], i - 1, j - 1);
    }
  }

  lemma {:induction false} OneStands(ms: seq<Migration>, j: nat)
    requires j < |ms|
    ensures WithVersion(ms, ms[j].version) >= 1
  {
    if j > 0 {
      OneStands(ms[1..], j - 1);
    }
  }

  lemma {:induction false} NoneStands(ms: seq<Migration>, version: string)
    requires forall j :: 0 <= j < |ms| ==> ms[j].version != version
    ensures WithVersion(ms, version) == 0
  {
    if ms != [] {
      NoneStands(ms[1..], version);
    }
  }

  /** In strict order every version stands once. */
  lemma {:induction false} StrictIsOnce(ms: seq<Migration>, version: string)
    requires StrictlyAscending(ms)
    ensures WithVersion(ms, version) <= 1
  {
    if ms != [] {
      StrictIsOnce(ms[1..], version);
      LessIsAsymmetric(ms[0].version, ms[0].version);
      if ms[0].version == version {
        NoneStands(ms[1..], version);
      }
    }
  }

  predicate Visible(file: File) {
    !(|file.name| >= 1 && file.name[0] == '.')
  }

  /** A visible file of this version. */
  predicate HasVersion(file: File, version: string) {
    Visible(file) && VersionOf(file.name) == Some(version)
  }

  function FilesOf(files: seq<File>, version: string): set<nat> {
    set i: nat | i < |files| && HasVersion(files[i], version)
  }

  lemma {:induction false} NamedPerFile(files: seq<File>, version: string)
    ensures WithVersion(Named(files), version) == |FilesOf(files, version)|
  {
    hide VersionOf;
    if files == [] {
      assert FilesOf(files, version) == {};
    } else {
      var n := |files| - 1;
      NamedPerFile(files[..n], version);
      var last := if Hidden(files[n]) || VersionOf(files[n].name).None? then []
                  else [Migration(VersionOf(files[n].name).value, files[n])];
      WithVersionJoin(Named(files[..n]), last, version);
      OneMoreFile(files, version);
    }
  }

  lemma OneMoreFile(files: seq<File>, version: string)
    requires files != []
    ensures var n := |files| - 1;
            |FilesOf(files, version)| == |FilesOf(files[..n], version)| + if HasVersion(files[n], version) then 1 else 0
  {
    hide HasVersion;
    var n := |files| - 1;
    assert forall i :: 0 <= i < n ==> files[..n][i] == files[i];
    assert FilesOf(files, version) == FilesOf(files[..n], version) + if HasVersion(files[n], version) then {n} else {};
  }

  /** No version twice among the visible files. */
  ghost predicate VersionsApart(files: seq<File>) {
    forall i: nat, j: nat, version :: i < j < |files| && HasVersion(files[i], version) ==> !HasVersion(files[j], version)
  }

  lemma RepeatsExactlyWhen(files: seq<File>)
    ensures !Repeats(Sort(Named(files))) <==> VersionsApart(files)
  {
    hide Sort, Named, Less, HasVersion;
    var ms := Sort(Named(files));
    if !Repeats(ms) {
      SortedIsStrict(Named(files));
      forall i: nat, j: nat, version | i < j < |files| && HasVersion(files[i], version)
        ensures !HasVersion(files[j], version)
      {
        StrictIsOnce(ms, version);
        SortKeepsVersions(Named(files), version);
        NamedPerFile(files, version);
        assert i in FilesOf(files, version) && (HasVersion(files[j], version) ==> j in FilesOf(files, version));
        OneOnly(FilesOf(files, version), i);
      }
    } else {
      var k :| 0 <= k < |ms| - 1 && ms[k].version == ms[k + 1].version;
      TwoStand(ms, k, k + 1);
      SortKeepsVersions(Named(files), ms[k].version);
      NamedPerFile(files, ms[k].version);
      TwoApart(files, ms[k].version);
    }
  }

  lemma OneOnly(s: set<nat>, i: nat)
    requires |s| <= 1 && i in s
    ensures forall j :: j in s ==> j == i
  {
    assert |s - {i}| == 0;
    assert forall j :: j in s && j != i ==> j in s - {i};
  }

  lemma TwoApart(files: seq<File>, version: string)
    requires |FilesOf(files, version)| >= 2
    ensures !VersionsApart(files)
  {
    hide HasVersion;
    var s := FilesOf(files, version);
    var i :| i in s;
    assert |s - {i}| >= 1;
    var j :| j in s - {i};
    var a, b := if i < j then i else j, if i < j then j else i;
    assert HasVersion(files[a], version) && HasVersion(files[b], version);
  }

  /** A file that may be loaded: named as a migration, of a version that is not Rails's, with nothing forbidden in it. */
  ghost predicate Loadable(file: File, railsVersions: set<string>) {
    && !Forbidden(file.sql)
    && exists version, title :: NamedAs(file.name, version, title) && version !in railsVersions
  }

  /** A directory loads exactly when every visible file may be loaded and no two of them share a version. */
  lemma LoadsExactlyWhen(files: seq<File>, railsVersions: set<string>)
    ensures AllAcceptable(files, railsVersions) && !Repeats(Sort(Named(files)))
       <==> (forall i :: 0 <= i < |files| && Visible(files[i]) ==> Loadable(files[i], railsVersions)) && VersionsApart(files)
  {
    hide Forbidden, VersionOf, Sort, Named, Repeats, VersionsApart, NamedAs;
    RepeatsExactlyWhen(files);
    forall i | 0 <= i < |files|
      ensures Acceptable(files[i], railsVersions) <==> Loadable(files[i], railsVersions)
      ensures Hidden(files[i]) <==> !Visible(files[i])
    {
      AcceptableIsLoadable(files[i], railsVersions);
    }
  }

  lemma AcceptableIsLoadable(file: File, railsVersions: set<string>)
    ensures Acceptable(file, railsVersions) <==> Loadable(file, railsVersions)
  {
    hide Forbidden, VersionOf, NamedAs;
    if Acceptable(file, railsVersions) {
      var title := VersionGiven(file.name);
    }
    if Loadable(file, railsVersions) {
      var version, title :| NamedAs(file.name, version, title) && version !in railsVersions;
      VersionFound(file.name, version, title);
    }
  }
}

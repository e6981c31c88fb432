/** What reading small files gives, told in characters. */
module FlattenInFields {
  import opened Prelude
  import opened Flatten
  import opened FlattenTree

  /** The word in lower case, however it is cased here; ASCII letters only. */
  predicate Spells(text: string, word: string) {
    && |text| == |word|
    && forall i :: 0 <= i < |text| ==>
         text[i] == word[i] || ('A' <= text[i] <= 'Z' && text[i] as int + 32 == word[i] as int)
  }

  predicate SpellsTrue(text: string) {
    Spells(text, "yes") || Spells(text, "true") || Spells(text, "on")
  }

  predicate SpellsFalse(text: string) {
    Spells(text, "no") || Spells(text, "false") || Spells(text, "off")
  }

  lemma SpellsIsLowerCase(text: string, word: string)
    requires forall i :: 0 <= i < |word| ==> 'a' <= word[i] <= 'z'
    ensures Spells(text, word) <==> LowerCase(text) == word
  {
    if Spells(text, word) {
      assert forall i :: 0 <= i < |text| ==> LowerCase(text)[i] == word[i];
    }
    if LowerCase(text) == word {
      assert forall i :: 0 <= i < |text| ==> Lower(text[i]) == word[i];
    }
  }

  /** Which texts a plain scalar reads as a boolean: six words, in any case. */
  lemma BooleansAreSixWords(text: string)
    ensures PsychBoolean(text)
         == if SpellsTrue(text) then Some("true") else if SpellsFalse(text) then Some("false") else None
  {
    hide Spells, LowerCase;
    SpellsIsLowerCase(text, "yes");
    SpellsIsLowerCase(text, "true");
    SpellsIsLowerCase(text, "on");
    SpellsIsLowerCase(text, "no");
    SpellsIsLowerCase(text, "false");
    SpellsIsLowerCase(text, "off");
  }

  /** The name a key is read as: a plain boolean is its value, anything else itself. */
  function NameRead(key: string, plain: bool): string {
    if plain && SpellsTrue(key) then "true" else if plain && SpellsFalse(key) then "false" else key
  }

  /** A text Rails does not read as text. */
  predicate NotRead(text: string, plain: bool) {
    && plain
    && (SpellsTrue(text) || SpellsFalse(text)
        || text == "" || text == "~" || text == "null" || text == "Null" || text == "NULL")
  }

  function OnePair(key: string, keyPlain: bool, text: string, plain: bool): seq<Event> {
    [MappingStart(0), ScalarEvent(key, keyPlain, 0), ScalarEvent(text, plain, 0), MappingEnd]
  }

  lemma RunNext(s: State, e: Event, rest: seq<Event>)
    ensures RunEvents(s, [e] + rest) == RunEvents(Step(s, e), rest)
  {
    assert ([e] + rest)[1..] == rest;
  }

  lemma KeyIsRead(key: string, plain: bool)
    ensures Step(State([MapFrame("", None)], map[], map[], []), ScalarEvent(key, plain, 0))
         == State([MapFrame("", Some(NameRead(key, plain)))], map[], map[], [])
  {
    hide PsychBoolean, SpellsTrue, SpellsFalse;
    BooleansAreSixWords(key);
  }

  lemma TextIsRead(name: string, text: string, plain: bool)
    ensures Step(State([MapFrame("", Some(name))], map[], map[], []), ScalarEvent(text, plain, 0))
         == State([MapFrame("", None)], map[name := text], map[], if NotRead(text, plain) then [NotText(name, text)] else [])
  {
    hide PsychBoolean, SpellsTrue, SpellsFalse;
    BooleansAreSixWords(text);
  }

  /** A file of one key and its text. */
  lemma OnePairFile(key: string, keyPlain: bool, text: string, plain: bool)
    ensures var t, name := RunEvents(FRESH, OnePair(key, keyPlain, text, plain)), NameRead(key, keyPlain);
            && t.stack == [] && t.flat == map[name := text] && t.anchors == map[]
            && t.problems == if NotRead(text, plain) then [NotText(name, text)] else []
  {
    var k, v := ScalarEvent(key, keyPlain, 0), ScalarEvent(text, plain, 0);
    var s1 := State([MapFrame("", None)], map[], map[], []);
    assert Step(FRESH, MappingStart(0)) == s1;
    KeyIsRead(key, keyPlain);
    TextIsRead(NameRead(key, keyPlain), text, plain);
    var s3 := Step(Step(s1, k), v);
    assert Step(s3, MappingEnd).stack == [];
    hide RunEvents, Step, NotRead, NameRead;
    assert OnePair(key, keyPlain, text, plain) == [MappingStart(0)] + ([k] + ([v] + [MappingEnd]));
    RunNext(FRESH, MappingStart(0), [k] + ([v] + [MappingEnd]));
    RunNext(s1, k, [v] + [MappingEnd]);
    RunNext(Step(s1, k), v, [MappingEnd]);
    RunOne(s3, MappingEnd);
    EndKeeps(s3);
  }

  lemma EndKeeps(s: State)
    ensures var t := Step(s, MappingEnd); t.flat == s.flat && t.anchors == s.anchors && t.problems == s.problems
  {
  }

  /** A mapping's leaf stands under its key and a dot. */
  lemma LeafUnderAKey(key: string, inner: string, a: string)
    requires key != ""
    ensures Walk(Mapping(0, Pair(key, false, 0, Mapping(0, Pair(inner, false, 0, Scalar(a, false, 0), NoPairs)), NoPairs)), "")
         == map[key + "." + inner := a]
  {
    var leaf := Pair(inner, false, 0, Scalar(a, false, 0), NoPairs);
    assert WalkPairs(leaf, key) == map[key + "." + inner := a] + map[];
    var whole := Pair(key, false, 0, Mapping(0, leaf), NoPairs);
    assert WalkPairs(whole, "") == Walk(Mapping(0, leaf), key) + map[];
  }

  /** A sequence's leaves stand under its key, a dot and their number, from 0. */
  lemma LeavesByNumber(key: string, a: string, b: string)
    requires key != ""
    ensures Walk(Mapping(0, Pair(key, false, 0, Sequence(0, Item(Scalar(a, false, 0), Item(Scalar(b, false, 0), NoItems))),
                                 NoPairs)), "")
         == map[key + "." + "0" := a, key + "." + "1" := b]
  {
    assert Decimal(0) == "0" && Decimal(1) == "1";
    assert (key + "." + "0")[|key| + 1] == '0' && (key + "." + "1")[|key| + 1] == '1';
    var second := Item(Scalar(b, false, 0), NoItems);
    var items := Item(Scalar(a, false, 0), second);
    assert WalkItems(second, key, 1) == map[key + "." + "1" := b] + map[];
    assert WalkItems(items, key, 0) == map[key + "." + "0" := a] + WalkItems(second, key, 1);
    var whole := Pair(key, false, 0, Sequence(0, items), NoPairs);
    assert WalkPairs(whole, "") == Walk(Sequence(0, items), key) + map[];
  }

  /** A container where a key should stand is reported, and what it holds is read as if at the top. */
  lemma ContainerKeyIsReported(s: State, below: seq<Frame>, path: string, anchor: nat)
    requires s.stack == below + [MapFrame(path, None)]
    ensures Step(s, MappingStart(anchor))
         == State(s.stack + [MapFrame("", None)], s.flat, if anchor == 0 then s.anchors else s.anchors[anchor := ""],
                  s.problems + [ContainerAsKey])
    ensures Step(s, SequenceStart(anchor))
         == State(s.stack + [SeqFrame("", 0)], s.flat, if anchor == 0 then s.anchors else s.anchors[anchor := ""],
                  s.problems + [ContainerAsKey])
  {
  }

  /** So is an alias there, and nothing is copied. */
  lemma AliasKeyIsReported(s: State, below: seq<Frame>, path: string, anchor: nat)
    requires s.stack == below + [MapFrame(path, None)]
    ensures Step(s, AliasEvent(anchor)) == s.(problems := s.problems + [BadAlias])
  {
  }

  /** What a decimal numeral stands for. */
  function Value(digits: string): nat
    requires forall i :: 0 <= i < |digits| ==> '0' <= digits[i] <= '9'
  {
    if digits == "" then 0 else 10 * Value(digits[..|digits| - 1]) + (digits[|digits| - 1] as int - '0' as int)
  }

  /** A number is written as the digits that stand for it, with no zero in front. */
  lemma {:induction false} NumeralsRead(n: nat)
    ensures Value(Decimal(n)) == n && (n > 0 ==> Decimal(n)[0] != '0')
  {
    if n < 10 {
      assert Decimal(n)[..0] == "";
    } else {
      NumeralsRead(n / 10);
      assert Decimal(n)[..|Decimal(n)| - 1] == Decimal(n / 10);
    }
  }
}

/** The event machine that flattens one YAML file of translations into full keys and texts. */
module Flatten {
  import opened Prelude

  // ---- names and paths -----------------------------------------------------------------------------

  function Lower(c: char): char {
    if 'A' <= c <= 'Z' then (c as int + 32) as char else c
  }

  function LowerCase(s: string): (t: string)
    ensures |t| == |s|
  {
    seq(|s|, i requires 0 <= i < |s| => Lower(s[i]))
  }

  /** An unquoted YAML 1.1 boolean, as the text its value renders as. */
  function PsychBoolean(text: string): Option<string> {
    if LowerCase(text) in {"yes", "true", "on"} then Some("true")
    else if LowerCase(text) in {"no", "false", "off"} then Some("false")
    else None
  }

  predicate IsNull(text: string) {
    text in {"", "~", "null", "Null", "NULL"}
  }

  function KeyName(text: string, plain: bool): string {
    if plain && PsychBoolean(text).Some? then PsychBoolean(text).value else text
  }

  function Join(path: string, segment: string): string {
    if path == "" then segment else path + "." + segment
  }

  /** `key` is the path itself or lies below it. */
  predicate Under(path: string, key: string) {
    key == path || path + "." <= key
  }

  // ---- the machine ---------------------------------------------------------------------------------

  datatype Event =
    | MappingStart(anchor: nat)
    | SequenceStart(anchor: nat)
    | MappingEnd
    | SequenceEnd
    | ScalarEvent(text: string, plain: bool, anchor: nat)
    | AliasEvent(anchor: nat)
    | OtherEvent

  datatype Frame = MapFrame(path: string, key: Option<string>) | SeqFrame(path: string, next: nat)

  datatype Problem = ContainerAsKey | BadAlias | NotText(path: string, text: string)

  datatype Text = Text(text: string, plain: bool)

  datatype State = State(stack: seq<Frame>, flat: map<string, string>, anchors: map<nat, string>, problems: seq<Problem>)

  datatype Placed = Placed(stack: seq<Frame>, path: Option<string>)

  /** Where the next value goes: below a sequence by its number, below a mapping by the key last read, if any was. */
  function Place(stack: seq<Frame>, scalar: Option<Text>): Placed {
    if stack == [] then Placed(stack, Some(""))
    else
      var n := |stack| - 1;
      match stack[n]
      case SeqFrame(path, next) => Placed(stack[n := SeqFrame(path, next + 1)], Some(Join(path, Decimal(next))))
      case MapFrame(path, Some(k)) => Placed(stack[n := MapFrame(path, None)], Some(Join(path, k)))
      case MapFrame(path, None) =>
        match scalar
        case None => Placed(stack, None)
        case Some(t) => Placed(stack[n := MapFrame(path, Some(KeyName(t.text, t.plain)))], None)
  }

  /** The leaves at and below `from`, under `to`. */
  function Copied(flat: map<string, string>, from: string, to: string): map<string, string> {
    var rests := set k | k in flat && Under(from, k) :: k[|from|..];
    assert forall k :: k in flat && Under(from, k) ==> k == from + k[|from|..];
    var below := set rest | rest in rests :: to + rest;
    assert forall rest :: rest in rests ==> (to + rest)[|to|..] == rest;
    map j | j in below :: flat[from + j[|to|..]]
  }

  function Anchored(anchors: map<nat, string>, anchor: nat, path: string): map<nat, string> {
    if anchor != 0 then anchors[anchor := path] else anchors
  }

  function Step(s: State, event: Event): State {
    match event
    case MappingStart(anchor) =>
      var at := Place(s.stack, None);
      var path := if at.path.Some? then at.path.value else "";
      State(at.stack + [MapFrame(path, None)], s.flat, Anchored(s.anchors, anchor, path),
            if at.path.Some? then s.problems else s.problems + [ContainerAsKey])
    case SequenceStart(anchor) =>
      var at := Place(s.stack, None);
      var path := if at.path.Some? then at.path.value else "";
      State(at.stack + [SeqFrame(path, 0)], s.flat, Anchored(s.anchors, anchor, path),
            if at.path.Some? then s.problems else s.problems + [ContainerAsKey])
    case MappingEnd => if s.stack == [] then s else s.(stack := s.stack[..|s.stack| - 1])
    case SequenceEnd => if s.stack == [] then s else s.(stack := s.stack[..|s.stack| - 1])
    case ScalarEvent(text, plain, anchor) =>
      var at := Place(s.stack, Some(Text(text, plain)));
      if at.path.None? then s.(stack := at.stack)
      else
        var path := at.path.value;
        State(at.stack, s.flat[path := text], Anchored(s.anchors, anchor, path),
              if plain && (IsNull(text) || PsychBoolean(text).Some?) then s.problems + [NotText(path, text)] else s.problems)
    case AliasEvent(anchor) =>
      var at := Place(s.stack, None);
      if at.path.Some? && anchor in s.anchors then
        s.(stack := at.stack, flat := s.flat + Copied(s.flat, s.anchors[anchor], at.path.value))
      else s.(stack := at.stack, problems := s.problems + [BadAlias])
    case OtherEvent => s
  }

  function RunEvents(s: State, events: seq<Event>): State
    decreases |events|
  {
    if events == [] then s else RunEvents(Step(s, events[0]), events[1..])
  }

  /** The receiver itself, updated by every event. */
  class Flattener {
    var stack: seq<Frame>
    var flat: map<string, string>
    var anchors: map<nat, string>
    var problems: seq<Problem>

    constructor ()
      ensures Now() == State([], map[], map[], [])
    {
      stack, flat, anchors, problems := [], map[], map[], [];
    }

    function Now(): State
      reads this
    {
      State(stack, flat, anchors, problems)
    }

    method ValuePath(scalar: Option<Text>) returns (path: Option<string>)
      modifies this`stack
      ensures Placed(stack, path) == Place(old(stack), scalar)
    {
      if stack == [] {
        return Some("");
      }
      var n := |stack| - 1;
      match stack[n] {
        case SeqFrame(p, next) =>
          stack := stack[n := SeqFrame(p, next + 1)];
          path := Some(Join(p, Decimal(next)));
        case MapFrame(p, key) =>
          if key.Some? {
            stack := stack[n := MapFrame(p, None)];
            path := Some(Join(p, key.value));
          } else {
            path := None;
            if scalar.Some? {
              var boolean := if scalar.value.plain then PsychBoolean(scalar.value.text) else None;
              stack := stack[n := MapFrame(p, Some(if boolean.Some? then boolean.value else scalar.value.text))];
            }
          }
      }
    }

    /** The path of a container, which is anchored where it starts. */
    method StartContainer(anchor: nat) returns (path: string)
      modifies this
      ensures var at := Place(old(stack), None);
              && path == (if at.path.Some? then at.path.value else "")
              && Now() == State(at.stack, old(flat), Anchored(old(anchors), anchor, path),
                                if at.path.Some? then old(problems) else old(problems) + [ContainerAsKey])
    {
      var at := ValuePath(None);
      path := "";
      if at.None? {
        problems := problems + [ContainerAsKey];
      } else {
        path := at.value;
      }
      if anchor != 0 {
        anchors := anchors[anchor := path];
      }
    }

    method OnEvent(event: Event)
      modifies this
      ensures Now() == Step(old(Now()), event)
    {
      match event {
        case MappingStart(anchor) =>
          var path := StartContainer(anchor);
          stack := stack + [MapFrame(path, None)];
        case SequenceStart(anchor) =>
          var path := StartContainer(anchor);
          stack := stack + [SeqFrame(path, 0)];
        case MappingEnd | SequenceEnd =>
          if stack != [] {
            stack := stack[..|stack| - 1];
          }
        case ScalarEvent(text, plain, anchor) =>
          var at := ValuePath(Some(Text(text, plain)));
          if at.None? {
            return;
          }
          if anchor != 0 {
            anchors := anchors[anchor := at.value];
          }
          if plain && (IsNull(text) || PsychBoolean(text).Some?) {
            problems := problems + [NotText(at.value, text)];
          }
          flat := flat[at.value := text];
        case AliasEvent(anchor) =>
          var to := ValuePath(None);
          if to.None? || anchor !in anchors {
            problems := problems + [BadAlias];
            return;
          }
          flat := flat + Copied(flat, anchors[anchor], to.value);
        case OtherEvent =>
      }
    }

    method Load(events: seq<Event>)
      modifies this
      ensures Now() == RunEvents(old(Now()), events)
    {
      for i := 0 to |events|
        invariant RunEvents(Now(), events[i..]) == RunEvents(old(Now()), events)
      {
        OnEvent(events[i]);
        assert events[i..][1..] == events[i + 1..];
      }
    }
  }
}

/** The `console.log` replacement that each path of `executeCode` installs
    while the program runs (src/App.tsx:165-180, 289-304, 349-366): every
    call becomes one line of the output panel. */
module Console {
  import opened Text

  /** An argument of `console.log`, as the replacement tells them apart:
      an array, any other object, or a primitive. The text of a primitive
      (`String(arg)`), of each array element and of an object
      (`JSON.stringify(arg, null, 2)`) is the engine's and is given. */
  datatype Value = Primitive(text: string) | Array(elements: seq<string>) | Object(json: string)

  /** One argument: an array on one line between brackets, an object as
      its JSON text, a primitive as its string. */
  function Format(v: Value): string {
    match v
    case Primitive(t) => t
    case Array(es) => "[" + Join(es, ", ") + "]"
    case Object(j) => j
  }

  /** `args.map(...)`. */
  function Formats(args: seq<Value>): seq<string> {
    seq(|args|, i requires 0 <= i < |args| => Format(args[i]))
  }

  /** The line one call logs: its arguments formatted and joined by spaces. */
  function Message(args: seq<Value>): string {
    Join(Formats(args), " ")
  }

  /** The output panel's text for the lines logged so far. */
  function Lines(logs: seq<string>): string {
    Join(logs, "\n")
  }

  /** An array is shown as its elements, comma-separated, between brackets:
      the brackets can be taken off again. */
  lemma ArrayBrackets(es: seq<string>)
    ensures var r := Format(Array(es));
            && |r| >= 2 && r[0] == '[' && r[|r| - 1] == ']'
            && r[1..|r| - 1] == Join(es, ", ")
  {
  }

  /** A call with one primitive argument logs exactly its string. */
  lemma SinglePrimitive(t: string)
    ensures Message([Primitive(t)]) == t
  {
  }

  /** A call with several arguments logs the first, a space, and the line
      the remaining ones would log on their own. */
  lemma MessageCons(v: Value, rest: seq<Value>)
    requires rest != []
    ensures Message([v] + rest) == Format(v) + " " + Message(rest)
  {
    assert Formats([v] + rest) == [Format(v)] + Formats(rest);
    JoinFirst(Format(v), Formats(rest), " ");
  }

  /** Splitting a text at each `c`, as `split` does. */
  function Split(s: string, c: char): (r: seq<string>)
    ensures r != []
    decreases |s|
  {
    if s == [] then [""]
    else
      var rest := Split(s[1..], c);
      if s[0] == c then [""] + rest else [[s[0]] + rest[0]] + rest[1..]
  }

  /** The output panel can be split back into the lines logged, as long as
      something was logged and no line holds a line break of its own (an
      object's JSON, indented over several lines, does). */
  lemma {:induction false} SplitLines(logs: seq<string>)
    requires logs != []
    requires forall i :: 0 <= i < |logs| ==> '\n' !in logs[i]
    ensures Split(Lines(logs), '\n') == logs
    decreases |logs|
  {
    if |logs| == 1 {
      SplitPlain(logs[0], [], '\n');
      assert logs[0] + [] == logs[0] && Lines(logs) == logs[0];
    } else {
      var init := logs[..|logs| - 1];
      var last := logs[|logs| - 1];
      assert init + [last] == logs;
      SplitLines(init);
      SplitAfter(Lines(init), last, '\n');
      assert Lines(logs) == Lines(init) + "\n" + last;
    }
  }

  /** A text without `c` in front of a split leaves the first piece longer. */
  lemma {:induction false} SplitPlain(x: string, rest: string, c: char)
    requires c !in x
    ensures Split(x + rest, c) == [x + Split(rest, c)[0]] + Split(rest, c)[1..]
    decreases |x|
  {
    if x != [] {
      assert (x + rest)[1..] == x[1..] + rest;
      SplitPlain(x[1..], rest, c);
      assert [x[0]] + (x[1..] + Split(rest, c)[0]) == x + Split(rest, c)[0];
    } else {
      var r := Split(rest, c);
      assert x + rest == rest && x + r[0] == r[0];
      assert r == [r[0]] + r[1..];
    }
  }

  /** Splitting `s + c + last` adds `last` after the pieces of `s`. */
  lemma {:induction false} SplitAfter(s: string, last: string, c: char)
    requires c !in last
    ensures Split(s + [c] + last, c) == Split(s, c) + [last]
    decreases |s|
  {
    if s == [] {
      assert s + [c] + last == [c] + last;
      assert ([c] + last)[1..] == last;
      SplitPlain(last, [], c);
      assert last + [] == last;
    } else {
      var t := s + [c] + last;
      assert t[1..] == s[1..] + [c] + last;
      SplitAfter(s[1..], last, c);
    }
  }

  /** The log buffer of one run: `logs.push(message)` per call. */
  class LogBuffer {
    var lines: seq<string>

    constructor()
      ensures lines == []
    {
      lines := [];
    }

    /** One call of the replacement adds exactly one line, even a call with
        no arguments (an empty line). */
    method Log(args: seq<Value>)
      modifies this
      ensures lines == old(lines) + [Message(args)]
    {
      lines := lines + [Message(args)];
    }

    /** `logs.join('\n')`. */
    function Text(): string
      reads this
    {
      Lines(lines)
    }
  }
}

/** The assistant sidebar (src/components/AICodeAssistant.tsx): its width
    and the width it reports to the page, the conversation, the canned
    replies it falls back to when the generation server cannot be reached,
    and the extraction of the code block a reply offers to the editor. */
module Sidebar {
  import opened Text

  // ---------------------------------------------------------------
  // Width (src/components/AICodeAssistant.tsx:16, 40-48, 72-89, 237-241)
  // ---------------------------------------------------------------

  const InitialWidth := 300
  const MinWidth := 250
  const WidthCap := 600
  /** What the page is told while the sidebar is collapsed. */
  const CollapsedWidth := 50

  /** The widest the sidebar may be in a window `innerWidth` pixels wide:
      half the window, rounded down, and never more than 600. */
  function MaxWidth(innerWidth: nat): (m: nat)
    ensures m <= WidthCap && 2 * m <= innerWidth
    ensures m == WidthCap || 2 * m + 1 >= innerWidth
  {
    if innerWidth / 2 < WidthCap then innerWidth / 2 else WidthCap
  }

  /** The width a drag to `clientX` asks for: the distance from the
      pointer to the right edge of the window, raised to 250 and then
      lowered to the widest allowed, in that order. */
  function Clamp(innerWidth: nat, clientX: int): (w: int)
    ensures w <= MaxWidth(innerWidth)
    ensures MinWidth <= MaxWidth(innerWidth) ==> MinWidth <= w
    ensures MaxWidth(innerWidth) < MinWidth ==> w == MaxWidth(innerWidth)
    ensures MinWidth <= innerWidth - clientX <= MaxWidth(innerWidth) ==> w == innerWidth - clientX
    ensures innerWidth - clientX < MinWidth <= MaxWidth(innerWidth) ==> w == MinWidth
    ensures MaxWidth(innerWidth) < innerWidth - clientX ==> w == MaxWidth(innerWidth)
  {
    var asked := innerWidth - clientX;
    var raised := if MinWidth > asked then MinWidth else asked;
    if raised < MaxWidth(innerWidth) then raised else MaxWidth(innerWidth)
  }

  /** The width after the window is resized to `innerWidth`: lowered to
      the widest allowed when it is wider, and otherwise left alone. */
  function Resized(width: int, innerWidth: nat): (w: int)
    ensures w <= width && w <= MaxWidth(innerWidth)
    ensures w == width <==> width <= MaxWidth(innerWidth)
  {
    if width > MaxWidth(innerWidth) then MaxWidth(innerWidth) else width
  }

  /** The width the page is told about: the sidebar's own width while it is
      expanded, 50 while it is collapsed. */
  function ReportedWidth(expanded: bool, width: int): (r: int)
    ensures expanded ==> r == width
    ensures !expanded ==> r == CollapsedWidth
  {
    if expanded then width else CollapsedWidth
  }

  // ---------------------------------------------------------------
  // The drag handle (src/components/AICodeAssistant.tsx:31-69)
  // ---------------------------------------------------------------

  /** The drag state as the handlers see it: the `isDragging` flag, the
      `mousemove` listener registered on the document, if any, together
      with the `isDragging` value its render closed over, and the width. */
  datatype Drag = Drag(dragging: bool, listener: Option<bool>, width: int)

  /** `handleMouseDown` as written: the listeners registered are those of
      the current render. When the flag changes from false to true the
      component renders again and the cleanup of the effect keyed on the
      flag removes exactly those listeners. */
  function PressAsWritten(d: Drag): (e: Drag)
    ensures e.dragging && e.width == d.width
    ensures e.listener.Some? <==> d.dragging
  {
    if d.dragging then d.(listener := Some(true)) else Drag(true, None, d.width)
  }

  /** `handleMouseMove` as written: only a registered listener runs, and it
      tests the flag of the render it was created in. */
  function MoveAsWritten(d: Drag, innerWidth: nat, clientX: int): (e: Drag)
    ensures e.dragging == d.dragging && e.listener == d.listener
    ensures e.width == (if d.listener == Some(true) then Clamp(innerWidth, clientX) else d.width)
  {
    match d.listener
    case Some(seen) => if seen then d.(width := Clamp(innerWidth, clientX)) else d
    case None => d
  }

  /** `handleMouseUp` as written: it runs only while registered, and then
      clears the flag and removes both listeners. */
  function ReleaseAsWritten(d: Drag): (e: Drag)
    ensures e.width == d.width && e.listener.None?
    ensures e.dragging == (d.dragging && d.listener.None?)
  {
    if d.listener.Some? then Drag(false, None, d.width) else d
  }

  /** As written, the first drag from rest leaves the width where it was,
      and leaves the flag set because its `mouseup` listener is gone. */
  lemma FirstDragIgnored(w: int, innerWidth: nat, clientX: int)
    ensures MoveAsWritten(PressAsWritten(Drag(false, None, w)), innerWidth, clientX).width == w
    ensures ReleaseAsWritten(MoveAsWritten(PressAsWritten(Drag(false, None, w)), innerWidth, clientX)) == Drag(true, None, w)
  {
  }

  /** As written, the drag after that one does follow the pointer, and its
      release puts the flag back to rest, so drags alternate between
      ignored and followed. */
  lemma SecondDragFollows(w: int, innerWidth: nat, clientX: int)
    ensures var d := ReleaseAsWritten(MoveAsWritten(PressAsWritten(Drag(false, None, w)), innerWidth, clientX));
            var e := MoveAsWritten(PressAsWritten(d), innerWidth, clientX);
            e.width == Clamp(innerWidth, clientX) && ReleaseAsWritten(e) == Drag(false, None, e.width)
  {
  }

  /** The intended handlers: a press sets the flag, a move while the flag
      is set resizes, a release clears the flag. */
  function Press(d: Drag): (e: Drag)
    ensures e.dragging && e.width == d.width
  {
    d.(dragging := true)
  }

  function Move(d: Drag, innerWidth: nat, clientX: int): (e: Drag)
    ensures e.dragging == d.dragging
    ensures e.width == (if d.dragging then Clamp(innerWidth, clientX) else d.width)
  {
    if d.dragging then d.(width := Clamp(innerWidth, clientX)) else d
  }

  function Release(d: Drag): (e: Drag)
    ensures !e.dragging && e.width == d.width
  {
    d.(dragging := false)
  }

  /** Every drag follows the pointer and ends at rest. */
  lemma EveryDragFollows(d: Drag, innerWidth: nat, clientX: int)
    ensures Move(Press(d), innerWidth, clientX).width == Clamp(innerWidth, clientX)
    ensures !Release(Move(Press(d), innerWidth, clientX)).dragging
  {
  }

  // ---------------------------------------------------------------
  // Replies (src/components/AICodeAssistant.tsx:92-137)
  // ---------------------------------------------------------------

  /** What the generation server gave back: nothing (the request failed),
      a status other than ok, or a JSON body whose `response` field is
      `response`, the empty string standing for an absent or empty field. */
  datatype ServerReply = Unreachable | NotOk | Answered(response: string)

  const Apology := "Sorry, I could not generate a response at this time."

  /** The canned reply topics, tried in this order. */
  datatype Topic = Greeting | FunctionHelp | JokeHelp | ClassHelp | General

  /** The topic of a message: the first rule whose keywords the lower-cased
      message mentions. */
  function Classify(message: string): (t: Topic)
    ensures Mentions(t, ToLower(message))
    ensures forall u :: Rank(u) < Rank(t) ==> !Mentions(u, ToLower(message))
  {
    var m := ToLower(message);
    if Contains(m, "hello") || Contains(m, "hi") then Greeting
    else if Contains(m, "help") && Contains(m, "function") then FunctionHelp
    else if Contains(m, "tell") && Contains(m, "joke") then JokeHelp
    else if Contains(m, "class") || Contains(m, "interface") then ClassHelp
    else General
  }

  /** A reply that explains, shows one TypeScript block, and explains on. */
  function Example(intro: string, code: string, outro: string): (r: string)
    ensures Contains(r, code)
    ensures '`' !in intro && '`' !in outro && FenceFree(code) ==> AcceptedCode(r) == Some(code)
  {
    ExampleContains(intro, code, outro);
    ExampleAccepted(intro, code, outro);
    Render([Prose(intro), Fenced(TypeScriptFence, code), Prose(outro)])
  }

  const GreetCode :=
    "const greet = (name: string): string => {\n"
    + "  return `Hello, ${name}!`;\n"
    + "};\n"
    + "\n"
    + "const userName: string = \"Alice\";\n"
    + "console.log(greet(userName));"
  const JokeCode :=
    "const tellJoke = (): string => {\n"
    + "  return \"Why do programmers prefer dark mode? Because light attracts bugs!\";\n"
    + "};\n"
    + "\n"
    + "console.log(tellJoke());"
  const ClassCode :=
    "interface Vehicle {\n"
    + "  make: string;\n"
    + "  model: string;\n"
    + "  year: number;\n"
    + "  start(): void;\n"
    + "}\n"
    + "\n"
    + "class Car implements Vehicle {\n"
    + "  make: string;\n"
    + "  model: string;\n"
    + "  year: number;\n"
    + "  private _isRunning: boolean = false;\n"
    + "  \n"
    + "  constructor(make: string, model: string, year: number) {\n"
    + "    this.make = make;\n"
    + "    this.model = model;\n"
    + "    this.year = year;\n"
    + "  }\n"
    + "  \n"
    + "  start(): void {\n"
    + "    this._isRunning = true;\n"
    + "    console.log(`The ${this.make} ${this.model} is now running.`);\n"
    + "  }\n"
    + "  \n"
    + "  stop(): void {\n"
    + "    this._isRunning = false;\n"
    + "    console.log(`The ${this.make} ${this.model} has stopped.`);\n"
    + "  }\n"
    + "}\n"
    + "\n"
    + "const myCar = new Car(\"Toyota\", \"Corolla\", 2020);\n"
    + "myCar.start();\n"
    + "myCar.stop();"

  /** The example program each topic's reply offers, if any. */
  function ExampleCode(t: Topic): Option<string> {
    match t
    case FunctionHelp => Some(GreetCode)
    case JokeHelp => Some(JokeCode)
    case ClassHelp => Some(ClassCode)
    case _ => None
  }

  const GreetingReply := "Hello! How can I help you with your TypeScript code today?"
  const FunctionIntro := "I can help with TypeScript functions! Here's a simple example:\n\n"
  const FunctionOutro := "\n\nThis function takes a string parameter and returns a greeting message."
  const JokeIntro :=
    "Here's a programming joke:\n\n"
    + "Why do programmers prefer dark mode?\n\n"
    + "Because light attracts bugs!\n\n"
    + "Want me to make a simple function about this?\n\n"
  const ClassIntro := "Here's an example of a TypeScript class and interface:\n\n"
  const GeneralReply :=
    "I can help you with TypeScript code! Try asking for examples of functions, classes, "
    + "interfaces, or other TypeScript concepts. Or I can explain how specific features work."

  /** The canned reply of each topic, as the component writes it; a topic
      with an example program spells it out. */
  function CannedReply(t: Topic): (r: string)
    ensures ExampleCode(t).Some? ==> Contains(r, ExampleCode(t).value)
  {
    match t
    case Greeting => GreetingReply
    case FunctionHelp => Example(FunctionIntro, GreetCode, FunctionOutro)
    case JokeHelp => Example(JokeIntro, JokeCode, "")
    case ClassHelp => Example(ClassIntro, ClassCode, "")
    case General => GeneralReply
  }

  /** `generateResponse`: the server's answer when it gave a non-empty one,
      an apology when it answered with nothing, and the canned reply for the
      message otherwise. */
  function Reply(message: string, server: ServerReply): (r: string)
    ensures server.Answered? && server.response != "" ==> r == server.response
    ensures server.Answered? && server.response == "" ==> r == Apology
    ensures !server.Answered? ==> r == CannedReply(Classify(message))
  {
    match server
    case Answered(response) => if response != "" then response else Apology
    case _ => CannedReply(Classify(message))
  }

  /** The keywords of each rule, looked for in the lower-cased message; the
      last rule has none and always applies. */
  predicate Mentions(t: Topic, m: string) {
    match t
    case Greeting => Contains(m, "hello") || Contains(m, "hi")
    case FunctionHelp => Contains(m, "help") && Contains(m, "function")
    case JokeHelp => Contains(m, "tell") && Contains(m, "joke")
    case ClassHelp => Contains(m, "class") || Contains(m, "interface")
    case General => true
  }

  function Rank(t: Topic): nat {
    match t
    case Greeting => 0
    case FunctionHelp => 1
    case JokeHelp => 2
    case ClassHelp => 3
    case General => 4
  }

  /** The rules are tried in order and the first that applies wins. */
  lemma FirstRuleWins(message: string, t: Topic)
    ensures Classify(message) == t <==>
            Mentions(t, ToLower(message)) && forall u :: Rank(u) < Rank(t) ==> !Mentions(u, ToLower(message))
  {
    var m := ToLower(message);
    assert Mentions(Greeting, m) ==> Rank(Greeting) == 0;
    assert Mentions(FunctionHelp, m) ==> Rank(FunctionHelp) == 1;
    assert Mentions(JokeHelp, m) ==> Rank(JokeHelp) == 2;
    assert Mentions(ClassHelp, m) ==> Rank(ClassHelp) == 3;
  }

  /** The canned reply does not depend on letter case. */
  lemma ClassifyIgnoresCase(message: string)
    ensures Classify(ToLower(message)) == Classify(message)
  {
    ToLowerIdempotent(message);
  }

  lemma ToLowerAppend(a: string, b: string)
    ensures ToLower(a + b) == ToLower(a) + ToLower(b)
  {
    assert forall i :: 0 <= i < |a + b| ==> ToLower(a + b)[i] == (ToLower(a) + ToLower(b))[i];
  }

  /** A message with the letters "hi" anywhere in it, in either case and
      inside any word, is answered with the greeting, whatever else it asks
      for. */
  lemma HiGreets(pre: string, hi: string, post: string)
    requires ToLower(hi) == "hi"
    ensures Classify(pre + hi + post) == Greeting
  {
    var m := ToLower(pre + hi + post);
    ToLowerAppend(pre + hi, post);
    ToLowerAppend(pre, hi);
    assert m == ToLower(pre) + ("hi" + ToLower(post));
    assert m[|pre|..] == "hi" + ToLower(post);
    StartsWithPrefix("hi", ToLower(post));
    ContainsAt(m, "hi", |pre|);
  }

  /** So a question about a function that contains "which" gets the
      greeting rather than the function example. */
  lemma WhichFunctionGreets()
    ensures Classify("which function") == Greeting
  {
    assert ToLower("hi") == "hi";
    HiGreets("w", "hi", "ch function");
    assert "w" + "hi" + "ch function" == "which function";
  }

  // ---------------------------------------------------------------
  // Code blocks (src/components/AICodeAssistant.tsx:164-174)
  // ---------------------------------------------------------------

  const TypeScriptFence := "```typescript\n"
  const TsFence := "```ts\n"
  const BareFence := "```\n"
  const CloseFence := "\n```"

  predicate IsFence(f: string) {
    f == TypeScriptFence || f == TsFence || f == BareFence
  }

  /** The length of the opening fence `s` starts with, 0 when it starts
      with none. The three fences differ by the character after the
      backticks, so at most one of them applies. */
  function OpeningFence(s: string): (n: nat)
    ensures n == 0 || (n <= |s| && IsFence(s[..n]))
  {
    StartsWithSlice(s, TypeScriptFence);
    StartsWithSlice(s, TsFence);
    StartsWithSlice(s, BareFence);
    if StartsWith(s, TypeScriptFence) then |TypeScriptFence|
    else if StartsWith(s, TsFence) then |TsFence|
    else if StartsWith(s, BareFence) then |BareFence|
    else 0
  }

  /** The code captured by each match of the global expression
      `/```(?:typescript|ts)?\n([\s\S]*?)\n```/g`, in order: from the first
      position where an opening fence is followed, somewhere later, by a
      closing one, the text up to the nearest closing fence; the search
      resumes after that closing fence. */
  function Blocks(s: string): (bs: seq<string>)
    ensures bs != [] ==> Contains(s, CloseFence)
    decreases |s|
  {
    if s == [] then []
    else
      var n := OpeningFence(s);
      var close := if n > 0 then IndexOf(s[n..], CloseFence, 0) else None;
      if close.Some? then
        ClosedWithin(s, n, close.value);
        [s[n..][..close.value]] + Blocks(s[n..][close.value + |CloseFence|..])
      else Blocks(s[1..])
  }

  /** A closing fence found after the opening one is a closing fence of
      the whole text. */
  lemma ClosedWithin(s: string, n: nat, c: nat)
    requires n <= |s| && c <= |s| - n && StartsWith(s[n..][c..], CloseFence)
    ensures Contains(s, CloseFence)
  {
    assert s[n..][c..] == s[n + c..];
    ContainsAt(s, CloseFence, n + c);
  }

  /** `handleCodeAccept`: the code of the last block of a reply, which is
      handed to the editor; none when the reply has no block. */
  function AcceptedCode(content: string): (r: Option<string>)
    ensures r.None? <==> Blocks(content) == []
    ensures r.Some? ==> r.value in Blocks(content) && Contains(content, CloseFence)
  {
    var bs := Blocks(content);
    if bs == [] then None else Some(bs[|bs| - 1])
  }

  /** A reply as the server is asked to write it: prose without backticks
      and fenced blocks whose code has no line starting with a backtick. */
  datatype Segment = Prose(text: string) | Fenced(fence: string, code: string)

  predicate FenceFree(code: string) {
    forall j :: 0 <= j < |code| - 1 && code[j] == '\n' ==> code[j + 1] != '`'
  }

  predicate WellFormed(seg: Segment) {
    match seg
    case Prose(text) => '`' !in text
    case Fenced(fence, code) => IsFence(fence) && FenceFree(code)
  }

  function SegmentText(seg: Segment): string {
    match seg
    case Prose(text) => text
    case Fenced(fence, code) => fence + code + CloseFence
  }

  function Render(segs: seq<Segment>): string
    decreases |segs|
  {
    if segs == [] then "" else SegmentText(segs[0]) + Render(segs[1..])
  }

  function Codes(segs: seq<Segment>): seq<string>
    decreases |segs|
  {
    if segs == [] then []
    else if segs[0].Fenced? then [segs[0].code] + Codes(segs[1..])
    else Codes(segs[1..])
  }

  /** Prose is skipped: no match starts inside text without backticks. */
  lemma {:induction false} ProseSkipped(p: string, rest: string)
    requires '`' !in p
    ensures Blocks(p + rest) == Blocks(rest)
  {
    if p != [] {
      var s := p + rest;
      assert s[0] == p[0] && p[0] in p;
      assert OpeningFence(s) == 0;
      assert Blocks(s) == Blocks(s[1..]);
      assert s[1..] == p[1..] + rest;
      ProseSkipped(p[1..], rest);
    } else {
      assert p + rest == rest;
    }
  }

  /** No closing fence starts inside fence-free code. */
  lemma NotClosedWithin(code: string, rest: string, j: nat)
    requires FenceFree(code) && j < |code|
    ensures !StartsWith((code + CloseFence + rest)[j..], CloseFence)
  {
    var t := code + CloseFence + rest;
    StartsWithSlice(t[j..], CloseFence);
    assert t[j] == code[j];
    assert t[j + 1] == if j + 1 < |code| then code[j + 1] else '\n';
  }

  /** After fence-free code, the nearest closing fence is the one that
      follows it. */
  lemma ClosedAfter(code: string, rest: string)
    requires FenceFree(code)
    ensures IndexOf(code + CloseFence + rest, CloseFence, 0) == Some(|code|)
  {
    var t := code + CloseFence + rest;
    assert t[|code|..] == CloseFence + rest;
    StartsWithPrefix(CloseFence, rest);
    forall j | 0 <= j < |code|
      ensures !StartsWith(t[j..], CloseFence)
    {
      NotClosedWithin(code, rest, j);
    }
  }

  /** An opening fence is recognised as itself. */
  lemma OpeningOf(fence: string, t: string)
    requires IsFence(fence)
    ensures OpeningFence(fence + t) == |fence|
  {
    var s := fence + t;
    StartsWithPrefix(fence, t);
    if fence == TsFence {
      StartsWithSlice(s, TypeScriptFence);
      assert s[4] == 's';
    } else if fence == BareFence {
      StartsWithSlice(s, TypeScriptFence);
      StartsWithSlice(s, TsFence);
      assert s[3] == '\n';
    }
  }

  /** A fenced block is captured whole, and the search resumes after it. */
  lemma FenceTaken(fence: string, code: string, rest: string)
    requires IsFence(fence) && FenceFree(code)
    ensures Blocks(fence + code + CloseFence + rest) == [code] + Blocks(rest)
  {
    var s := fence + code + CloseFence + rest;
    var t := code + CloseFence + rest;
    assert s == fence + t;
    OpeningOf(fence, t);
    assert s[|fence|..] == t;
    ClosedAfter(code, rest);
    assert t[..|code|] == code;
    assert t[|code| + |CloseFence|..] == rest;
  }

  /** Extraction inverts rendering: the blocks of a well-formed reply are
      the code of its fenced segments, in order. */
  lemma {:induction false} BlocksOfRender(segs: seq<Segment>)
    requires forall i :: 0 <= i < |segs| ==> WellFormed(segs[i])
    ensures Blocks(Render(segs)) == Codes(segs)
    decreases |segs|
  {
    if segs != [] {
      BlocksOfRender(segs[1..]);
      match segs[0]
      case Prose(p) =>
        ProseSkipped(p, Render(segs[1..]));
      case Fenced(f, c) =>
        FenceTaken(f, c, Render(segs[1..]));
    }
  }

  /** So the code handed to the editor is the last fenced segment's. */
  lemma AcceptedOfRender(segs: seq<Segment>)
    requires forall i :: 0 <= i < |segs| ==> WellFormed(segs[i])
    ensures var cs := Codes(segs);
            AcceptedCode(Render(segs)) == if cs == [] then None else Some(cs[|cs| - 1])
  {
    BlocksOfRender(segs);
  }


  /** A reply of prose alone offers no code. */
  lemma ProseOnly(p: string)
    requires '`' !in p
    ensures AcceptedCode(p) == None
  {
    ProseSkipped(p, "");
    assert p + "" == p;
  }

  /** An example reply whose prose has no backtick and whose program has no
      line starting with one offers that program. */
  lemma ExampleAccepted(intro: string, code: string, outro: string)
    ensures var segs := [Prose(intro), Fenced(TypeScriptFence, code), Prose(outro)];
            '`' !in intro && '`' !in outro && FenceFree(code) ==> AcceptedCode(Render(segs)) == Some(code)
  {
    var segs := [Prose(intro), Fenced(TypeScriptFence, code), Prose(outro)];
    if '`' !in intro && '`' !in outro && FenceFree(code) {
      assert WellFormed(segs[0]) && WellFormed(segs[1]) && WellFormed(segs[2]);
      AcceptedOfRender(segs);
      ExampleCodes(intro, code, outro);
    }
  }

  lemma ExampleCodes(intro: string, code: string, outro: string)
    ensures Codes([Prose(intro), Fenced(TypeScriptFence, code), Prose(outro)]) == [code]
  {
    var segs := [Prose(intro), Fenced(TypeScriptFence, code), Prose(outro)];
    assert segs[1..][1..] == [Prose(outro)] && [Prose(outro)][1..] == [];
    assert Codes([Prose(outro)]) == [];
    assert Codes(segs[1..]) == [code];
  }

  /** An example reply spells its program out. */
  lemma ExampleContains(intro: string, code: string, outro: string)
    ensures Contains(Render([Prose(intro), Fenced(TypeScriptFence, code), Prose(outro)]), code)
  {
    var segs := [Prose(intro), Fenced(TypeScriptFence, code), Prose(outro)];
    assert segs[1..][1..] == [Prose(outro)] && [Prose(outro)][1..] == [];
    assert Render([Prose(outro)]) == outro + "";
    assert Render(segs[1..]) == TypeScriptFence + code + CloseFence + (outro + "");
    var rest := CloseFence + (outro + "");
    var r := intro + (TypeScriptFence + (code + rest));
    assert Render(segs) == r;
    assert r[|intro| + |TypeScriptFence|..] == code + rest;
    StartsWithPrefix(code, rest);
    ContainsAt(r, code, |intro| + |TypeScriptFence|);
  }

  // ---------------------------------------------------------------
  // The conversation (src/components/AICodeAssistant.tsx:18-25, 139-162)
  // ---------------------------------------------------------------

  datatype Role = User | Ai
  datatype Message = Message(role: Role, content: string)

  const Welcome := Message(Ai, "I can help you generate TypeScript code. Ask me anything!")

  /** `!input.trim()`. */
  predicate Blank(input: string) {
    Trim(input) == ""
  }

  /** The shape every conversation keeps: the welcome, then user messages
      that are not blank, each answered by the assistant. */
  predicate Conversation(ms: seq<Message>) {
    && |ms| % 2 == 1
    && ms[0] == Welcome
    && forall i :: 1 <= i < |ms| ==>
         if i % 2 == 1 then ms[i].role == User && !Blank(ms[i].content) else ms[i].role == Ai
  }

  /** One exchange keeps that shape. */
  lemma ExchangeKeeps(ms: seq<Message>, input: string, reply: string)
    requires Conversation(ms) && !Blank(input)
    ensures Conversation(ms + [Message(User, input), Message(Ai, reply)])
  {
    var ns := ms + [Message(User, input), Message(Ai, reply)];
    assert ns[|ms|] == Message(User, input) && ns[|ms| + 1] == Message(Ai, reply);
    assert forall i :: 1 <= i < |ms| ==> ns[i] == ms[i];
  }

  /** The sidebar's state as one value. */
  datatype View = View(expanded: bool, width: int, dragging: bool, reported: int,
                       messages: seq<Message>, input: string)

  /** The sidebar component: whether it is expanded, its width, whether
      its handle is being dragged, the width last reported to the page,
      the conversation and the text being typed. */
  class Assistant {
    var expanded: bool
    var width: int
    var dragging: bool
    var reported: int
    var messages: seq<Message>
    var input: string

    function State(): View
      reads this
    {
      View(expanded, width, dragging, reported, messages, input)
    }

    /** The page has been told the width it shows, and the conversation
      has its shape. */
    predicate Valid()
      reads this
    {
      reported == ReportedWidth(expanded, width) && Conversation(messages)
    }

    /** Expanded, 300 wide, the welcome message shown, and that width
        reported by the first run of the reporting effect. */
    constructor()
      ensures Valid()
      ensures State() == View(true, InitialWidth, false, InitialWidth, [Welcome], "")
    {
      expanded := true;
      width := InitialWidth;
      dragging := false;
      reported := InitialWidth;
      messages := [Welcome];
      input := "";
    }

    /** `handleMouseDown`, as intended: a drag starts. */
    method MouseDown()
      modifies this
      ensures State() == old(State()).(dragging := Press(Drag(old(dragging), None, old(width))).dragging)
    {
      dragging := true;
    }

    /** `handleMouseMove`, as intended: during a drag the width follows the
        pointer within its bounds and the page is told. */
    method MouseMove(innerWidth: nat, clientX: int)
      requires Valid()
      modifies this
      ensures Valid()
      ensures var w := Move(Drag(old(dragging), None, old(width)), innerWidth, clientX).width;
              State() == old(State()).(width := w, reported := ReportedWidth(old(expanded), w))
    {
      if dragging {
        width := Clamp(innerWidth, clientX);
        reported := ReportedWidth(expanded, width);
      }
    }

    /** `handleMouseUp`, as intended: the drag ends. */
    method MouseUp()
      modifies this
      ensures State() == old(State()).(dragging := Release(Drag(old(dragging), None, old(width))).dragging)
    {
      dragging := false;
    }

    /** The window-resize effect: a width over the new bound is lowered to
        it and reported; otherwise nothing changes. */
    method Resize(innerWidth: nat)
      requires Valid()
      modifies this
      ensures Valid()
      ensures var w := Resized(old(width), innerWidth);
              State() == old(State()).(width := w, reported := ReportedWidth(old(expanded), w))
    {
      var maxWidth := MaxWidth(innerWidth);
      if width > maxWidth {
        width := maxWidth;
        reported := ReportedWidth(expanded, width);
      }
    }

    /** The toggle button: the sidebar expands or collapses and the page is
        told the width it now shows. */
    method Toggle()
      requires Valid()
      modifies this
      ensures Valid()
      ensures State() == old(State()).(expanded := !old(expanded), reported := ReportedWidth(!old(expanded), old(width)))
    {
      expanded := !expanded;
      reported := if expanded then width else CollapsedWidth;
    }

    /** The text area's `onChange`. */
    method Type(text: string)
      modifies this
      ensures State() == old(State()).(input := text)
    {
      input := text;
    }

    /** `handleMessageSubmit` with the server's answer `server`: a blank
        input changes nothing; otherwise the input is appended as the
        user's message and cleared, and the reply to it is appended. */
    method Submit(server: ServerReply)
      requires Valid()
      modifies this
      ensures Valid()
      ensures Blank(old(input)) ==> State() == old(State())
      ensures !Blank(old(input)) ==>
                State() == old(State()).(messages := old(messages) + [Message(User, old(input)), Message(Ai, Reply(old(input), server))],
                                        input := "")
    {
      if Blank(input) {
        return;
      }
      var response := Reply(input, server);
      Exchange(response);
    }

    /** One exchange: the input and the reply to it join the conversation,
        and the input is cleared. */
    method Exchange(response: string)
      requires Valid() && !Blank(input)
      modifies this
      ensures Valid()
      ensures State() == old(State()).(messages := old(messages) + [Message(User, old(input)), Message(Ai, response)], input := "")
    {
      ExchangeKeeps(messages, input, response);
      messages := messages + [Message(User, input), Message(Ai, response)];
      input := "";
    }
  }
}

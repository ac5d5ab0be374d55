/** The playground component's run state (src/App.tsx:97-495) as an object:
    the two panels, the busy flag, the two globals of the wrapped program,
    the polls and program rests waiting on the timer queue, the tick count
    and the joke requests in flight. Each method changes the fields exactly
    as the function of the same name in `Runner` says. */
module Playground {
  import opened Text
  import opened Console
  import opened Fetch
  import opened Patterns
  import opened Stripping
  import opened ClassPath
  import Runner

  class Playground {
    var output: string
    var error: string
    var executing: bool
    var complete: bool
    var errorSlot: string
    var polls: seq<Runner.Poll>
    var pending: seq<Runner.Pending>
    var clock: nat
    var jokeRequests: nat

    /** The fields as one value. */
    function Snapshot(): Runner.State
      reads this
    {
      Runner.State(Runner.Panel(output, error), executing, Runner.Window(complete, errorSlot),
                   polls, pending, clock, jokeRequests)
    }

    constructor()
      ensures Snapshot() == Runner.Initial
    {
      output := "";
      error := "";
      executing := false;
      complete := false;
      errorSlot := "";
      polls := [];
      pending := [];
      clock := 0;
      jokeRequests := 0;
    }

    /** `executeSimplePattern`: a recognised sample program sets the output
        and reports that it was handled; anything else is left alone. */
    method ExecuteSimplePattern(code: string) returns (handled: bool)
      modifies this
      ensures handled <==> Recognize(code) != Patterns.NoMatch
      ensures handled ==> Snapshot() == Runner.RunShortcut(old(Snapshot()), Recognize(code))
      ensures !handled ==> Snapshot() == old(Snapshot())
    {
      var s := Recognize(code);
      match s
      case NoMatch =>
        handled := false;
      case JokeFetch =>
        output := FetchingText;
        jokeRequests := jokeRequests + 1;
        handled := true;
      case _ =>
        output := ShortcutOutput(s, JokeFailed("")).0;
        handled := true;
    }

    /** The capturing `console.log` over the calls of one run: each call
        pushes one line, and the output panel follows the lines when `live`. */
    method Capture(calls: seq<seq<Value>>, live: bool) returns (buffer: LogBuffer)
      modifies this
      ensures fresh(buffer)
      ensures buffer.lines == Runner.Messages(calls)
      ensures output == (if live && calls != [] then Lines(Runner.Messages(calls)) else old(output))
      ensures Snapshot() == old(Snapshot()).(panel := Runner.Panel(output, old(error)))
    {
      buffer := new LogBuffer();
      var i := 0;
      while i < |calls|
        invariant 0 <= i <= |calls|
        invariant buffer.lines == Runner.Messages(calls[..i])
        invariant output == (if live && i > 0 then Lines(Runner.Messages(calls[..i])) else old(output))
        invariant Snapshot() == old(Snapshot()).(panel := Runner.Panel(output, old(error)))
      {
        buffer.Log(calls[i]);
        MessagesSnoc(calls, i);
        if live {
          output := buffer.Text();
        }
        i := i + 1;
      }
      assert calls[..i] == calls;
    }

    /** `new Function(code)()` on a direct path: the lines logged, or the
        message of what it threw. */
    method RunDirect(ev: Runner.Evaluation)
      modifies this
      ensures Snapshot() == Runner.RunDirect(old(Snapshot()), ev)
    {
      match ev
      case SyntaxError(m) =>
        error := m;
      case Ran(run) =>
        var buffer := Capture(run.calls, false);
        if run.thrown.Some? {
          error := Runner.Caught(run.thrown.value);
        } else {
          output := buffer.Text();
        }
    }

    /** The wrapped program's synchronous part: its lines, then the
        wrapper's `catch` if it threw; a poll starts in either case. */
    method RunWrapped(code: string, run: Runner.Run)
      modifies this
      ensures Snapshot() == Runner.Wrapped(old(Snapshot()), code, run)
    {
      var live := Runner.Live(code);
      var buffer := Capture(run.calls, live);
      if run.thrown.Some? {
        var t := run.thrown.value;
        if !t.Nullish? {
          buffer.Log([Primitive("Error:"), Primitive(Runner.MessageText(t))]);
          if live {
            output := buffer.Text();
          }
          errorSlot := Runner.SlotText(t);
          complete := true;
        } else {
          assert buffer.lines == Runner.Messages(run.calls) + [];
        }
      } else {
        pending := pending + Runner.Settles(clock, run.rest);
        assert buffer.lines == Runner.Messages(run.calls) + [];
      }
      polls := polls + [Runner.Poll(0, buffer.lines)];
    }

    /** `executeCode`: the panels are cleared, then the first path that
        applies runs. */
    method Execute(code: string, engine: Runner.Engine)
      modifies this
      ensures Snapshot() == Runner.Execute(old(Snapshot()), code, engine)
    {
      executing := true;
      output := "";
      error := "";
      ghost var busy := Snapshot();
      var handled := ExecuteSimplePattern(code);
      if !handled {
        RunCode(code, engine);
      }
      assert Snapshot() == if Runner.PathOf(code) == Runner.Shortcut then Runner.RunShortcut(busy, Recognize(code))
                           else Runner.RunCode(busy, code, engine);
      executing := false;
    }

    /** The paths of `executeCode` after the sample programs. */
    method RunCode(code: string, engine: Runner.Engine)
      requires Recognize(code) == Patterns.NoMatch
      modifies this
      ensures Snapshot() == Runner.RunCode(old(Snapshot()), code, engine)
    {
      if StartsWith(Trim(code), "console.log(") && ':' !in code {
        RunDirect(engine(Runner.Direct, code, Network));
      } else if ClassCandidate(code) {
        var js := TransformClass(code);
        RunDirect(engine(Runner.Direct, js, Network));
      } else {
        RunGeneric(code, engine);
      }
    }

    /** The generic path: the types stripped, then the greet harness or the
        wrapped program. */
    method RunGeneric(code: string, engine: Runner.Engine)
      modifies this
      ensures Snapshot() == Runner.RunGeneric(old(Snapshot()), code, engine)
    {
      var js := StripGeneric(code);
      if GreetHarness(js) {
        output := Greeting(HarnessName(js));
      } else {
        RunProgram(code, js, engine);
      }
    }

    /** The wrapped program `js` run, its completion flag cleared first. */
    method RunProgram(code: string, js: string, engine: Runner.Engine)
      modifies this
      ensures Snapshot() == Runner.RunProgram(old(Snapshot()), code, js, engine)
    {
      complete := false;
      var ev := engine(Runner.Async, js, FetcherFor(js));
      match ev
      case SyntaxError(m) =>
        error := m;
      case Ran(run) =>
        RunWrapped(code, run);
    }

    /** One tick of the timer queue: the program rests that are due, in the
        order they were scheduled, then every poll in the order it was
        started. */
    method Tick()
      modifies this
      ensures Snapshot() == Runner.Tick(old(Snapshot()))
    {
      var now := clock + 1;
      var all := pending;
      var kept: seq<Runner.Pending> := [];
      var i := 0;
      while i < |all|
        invariant 0 <= i <= |all|
        invariant Runner.SettleFrom(all, [], now, old(Runner.Window(complete, errorSlot)))
               == Runner.SettleFrom(all[i..], kept, now, Runner.Window(complete, errorSlot))
        invariant output == old(output) && error == old(error) && polls == old(polls)
        invariant clock == old(clock) && executing == old(executing) && jokeRequests == old(jokeRequests)
      {
        assert all[i..][1..] == all[i + 1..];
        var p := all[i];
        if p.at <= now {
          complete := true;
          if p.slot.Some? {
            errorSlot := p.slot.value;
          }
        } else {
          kept := kept + [p];
        }
        i := i + 1;
      }
      pending := kept;
      CheckPolls();
      clock := now;
    }

    /** Every pending `checkCompletion` fires once. */
    method CheckPolls()
      modifies this
      ensures var c := Runner.CheckFrom(old(polls), [], old(Runner.Window(complete, errorSlot)), old(Runner.Panel(output, error)));
              Snapshot() == old(Snapshot()).(polls := c.polls, window := c.window, panel := c.panel)
    {
      var all := polls;
      var waiting: seq<Runner.Poll> := [];
      var i := 0;
      while i < |all|
        invariant 0 <= i <= |all|
        invariant Runner.CheckFrom(all, [], old(Runner.Window(complete, errorSlot)), old(Runner.Panel(output, error)))
               == Runner.CheckFrom(all[i..], waiting, Runner.Window(complete, errorSlot), Runner.Panel(output, error))
        invariant polls == old(polls) && pending == old(pending)
        invariant clock == old(clock) && executing == old(executing) && jokeRequests == old(jokeRequests)
      {
        assert all[i..][1..] == all[i + 1..];
        var p := all[i];
        ghost var c := Runner.Check(p, Runner.Window(complete, errorSlot), Runner.Panel(output, error));
        if complete || p.waitTime >= Runner.MaxWaitTime {
          assert waiting + c.polls == waiting;
          if errorSlot != "" {
            error := errorSlot;
            errorSlot := "";
          } else {
            output := Runner.Shown(p.logs);
          }
          complete := false;
        } else {
          waiting := waiting + [Runner.Poll(p.waitTime + Runner.CheckInterval, p.logs)];
        }
        i := i + 1;
      }
      polls := waiting;
    }

    /** `clearOutput`. */
    method ClearOutput()
      modifies this
      ensures Snapshot() == Runner.Clear(old(Snapshot()))
    {
      output := "";
      error := "";
    }

    /** The joke request of the third sample program settles. */
    method JokeArrives(reply: JokeReply)
      modifies this
      ensures Snapshot() == Runner.JokeArrives(old(Snapshot()), reply)
    {
      if jokeRequests > 0 {
        jokeRequests := jokeRequests - 1;
        match reply
        case JokeOk(_, _) =>
          output := ShortcutOutput(JokeFetch, reply).0;
        case JokeFailed(_) =>
          error := ShortcutOutput(JokeFetch, reply).1;
      }
    }
  }

  /** The lines of one more call. */
  lemma MessagesSnoc(calls: seq<seq<Value>>, i: nat)
    requires i < |calls|
    ensures Runner.Messages(calls[..i + 1]) == Runner.Messages(calls[..i]) + [Message(calls[i])]
  {
  }
}

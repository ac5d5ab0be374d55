/** What a press of Run does (`executeCode`, src/App.tsx:147-489), what each
    100 ms poll of `checkCompletion` does (src/App.tsx:443-474), and what
    `clearOutput` does (src/App.tsx:492-495), as functions from one state of
    the playground to the next. Running JavaScript is the engine's: it is
    a parameter. Time moves in ticks of one poll interval. */
module Runner {
  import opened Text
  import opened Console
  import opened Fetch
  import opened Patterns
  import opened Stripping
  import opened ClassPath
  import opened ParamList
  import opened Ctor

  // ---------------------------------------------------------------------
  // The engine.

  /** A thrown value, by what the `catch` blocks read of it: an `Error` and
      its message; another object whose `message` is a string; any other
      value but `null` and `undefined`, whose `message` is `undefined`; and
      `null` or `undefined`, whose `message` cannot be read at all. */
  datatype Thrown = ErrorValue(message: string) | MessageBearing(message: string) | OtherValue | Nullish

  /** How the part of a wrapped program after its first `await` ends,
      counted in ticks from the end of its synchronous part. */
  datatype Finish = Hangs | Completes(after: nat) | Rejects(after: nat, thrown: Thrown)

  /** One run of a program: the `console.log` calls of its synchronous
      part, the exception that part ends with, and how the rest ends. */
  datatype Run = Run(calls: seq<seq<Value>>, thrown: Option<Thrown>, rest: Finish)

  /** `new Function(js)()`: the text does not compile, or it runs. */
  datatype Evaluation = SyntaxError(message: string) | Ran(run: Run)

  /** Where a text runs: on its own, as `new Function(code)()` does on the
      direct paths (src/App.tsx:184, 307), or as the body of the async
      function of the wrapper (src/App.tsx:425-446), where `await` is
      allowed and a `return` leaves the wrapper. */
  datatype Context = Direct | Async

  /** The JavaScript engine: what running a text in a context does, given
      the `fetch` it sees. */
  type Engine = (Context, string, Fetcher) -> Evaluation

  // ---------------------------------------------------------------------
  // The state.

  /** The output and error panels. */
  datatype Panel = Panel(output: string, error: string)

  /** The two globals of the wrapped program: `__CODE_EXECUTION_COMPLETE__`
      and `__CODE_EXECUTION_ERROR__`, by their truth in JavaScript: a deleted
      or `undefined` message is the empty one. */
  datatype Window = Window(complete: bool, errorSlot: string)

  /** A pending `checkCompletion`: the time it has waited and the lines its
      run logged. */
  datatype Poll = Poll(waitTime: nat, logs: seq<string>)

  /** The rest of a wrapped program, due at tick `at`: it completes
      (`slot == None`) or stores the message of what it threw. */
  datatype Pending = Pending(at: nat, slot: Option<string>)

  datatype State = State(
    panel: Panel,
    executing: bool,
    window: Window,
    polls: seq<Poll>,
    pending: seq<Pending>,
    clock: nat,
    jokeRequests: nat)

  const Initial := State(Panel("", ""), false, Window(false, ""), [], [], 0, 0)

  const CheckInterval: nat := 100
  const MaxWaitTime: nat := 3000
  /** The wrapper's own wait after the program (src/App.tsx:432), in ticks. */
  const SettleTicks: nat := 3
  const NoOutput := "No output (execution completed)"

  // ---------------------------------------------------------------------
  // Which path a program takes.

  datatype Path = Shortcut | PlainLog | ClassSyntax | Generic

  /** src/App.tsx:154, 160, 198-202, in that order: a recognised sample
      program short-cuts; a lone `console.log` without colons runs as it is;
      a class with a modified constructor parameter or with `extends`,
      `static` or `private` takes the class path; the rest is stripped. */
  function PathOf(code: string): (p: Path)
    ensures (p == Shortcut) <==> Recognize(code) != NoMatch
    ensures p == PlainLog ==> ':' !in code && StartsWith(Trim(code), "console.log(")
    ensures p == ClassSyntax ==>
              && Contains(code, "class")
              && (ModifiedCtorFrom(code, 0) || Contains(code, "extends")
                  || Contains(code, "static") || Contains(code, "private"))
    ensures p == Generic ==> !ClassCandidate(code)
  {
    ClassCandidateIff(code);
    if Recognize(code) != NoMatch then Shortcut
    else if StartsWith(Trim(code), "console.log(") && ':' !in code then PlainLog
    else if ClassCandidate(code) then ClassSyntax
    else Generic
  }

  /** The lines the synchronous part of a run logs. */
  function Messages(calls: seq<seq<Value>>): seq<string> {
    seq(|calls|, i requires 0 <= i < |calls| => Message(calls[i]))
  }

  /** The panel error for an exception caught by `executeCode` itself: only
      an `Error` shows its message, where the wrapper would show the message
      of any object that has one. */
  function Caught(t: Thrown): (m: string)
    ensures t.ErrorValue? ==> m == SlotText(t) && m == MessageText(t)
    ensures t.MessageBearing? ==> m == "Unknown error"
    ensures m != "Unknown error" ==> t.ErrorValue?
  {
    match t
    case ErrorValue(m) => m
    case _ => "Unknown error"
  }

  /** `error.message` in the wrapper's `catch`, as `String` prints it: the
      stored message, or `undefined` for a value without one. */
  function MessageText(t: Thrown): (m: string)
    requires !t.Nullish?
    ensures m == SlotText(t) || (t.OtherValue? && m == "undefined")
    ensures t.OtherValue? ==> m == "undefined"
  {
    if t.ErrorValue? || t.MessageBearing? then t.message else "undefined"
  }

  /** `error.message` stored in `__CODE_EXECUTION_ERROR__`, where an
      `undefined` message is no message. */
  function SlotText(t: Thrown): (m: string)
    requires !t.Nullish?
    ensures m != "" ==> (t.ErrorValue? || t.MessageBearing?) && m == t.message
    ensures t.OtherValue? ==> m == ""
  {
    if t.ErrorValue? || t.MessageBearing? then t.message else ""
  }

  /** The wrapper's `console.log('Error:', error.message)`. */
  function ErrorLine(t: Thrown): string
    requires !t.Nullish?
  {
    Message([Primitive("Error:"), Primitive(MessageText(t))])
  }

  /** The output panel follows the logs as they come for code that
      mentions both `joke` and `fetch` (src/App.tsx:369-371). */
  predicate Live(code: string) {
    Contains(code, "joke") && Contains(code, "fetch")
  }

  // ---------------------------------------------------------------------
  // executeCode.

  /** Run pressed with `code` in the editor. */
  function Execute(st: State, code: string, engine: Engine): (r: State)
    ensures !r.executing
    ensures r.clock == st.clock
    ensures r.polls == st.polls || (|r.polls| == |st.polls| + 1 && r.polls[..|st.polls|] == st.polls && r.polls[|st.polls|].waitTime == 0)
  {
    var busy := Busy(st);
    var done := if PathOf(code) == Shortcut then RunShortcut(busy, Recognize(code)) else RunCode(busy, code, engine);
    done.(executing := false)
  }

  /** A program that is not one of the samples: the plain, class or
      generic path. */
  function RunCode(st: State, code: string, engine: Engine): (r: State)
    requires PathOf(code) != Shortcut
    ensures r.executing == st.executing && r.clock == st.clock
    ensures r.polls == st.polls || (|r.polls| == |st.polls| + 1 && r.polls[..|st.polls|] == st.polls && r.polls[|st.polls|].waitTime == 0)
  {
    match PathOf(code)
    case PlainLog => RunDirect(st, engine(Direct, code, Network))
    case ClassSyntax => RunDirect(st, engine(Direct, TransformAsWritten(code), Network))
    case Generic => RunGeneric(st, code, engine)
  }

  /** The state `executeCode` starts from: panels cleared, busy. */
  function Busy(st: State): State {
    st.(panel := Panel("", ""), executing := true)
  }

  /** A recognised sample program: its output at once; the joke fetch shows
      a loading line and sends its request. */
  function RunShortcut(st: State, s: Shortcut): (r: State)
    ensures r.executing == st.executing && r.clock == st.clock && r.polls == st.polls
  {
    match s
    case JokeFetch => st.(panel := st.panel.(output := FetchingText), jokeRequests := st.jokeRequests + 1)
    case _ => st.(panel := st.panel.(output := ShortcutOutput(s, JokeFailed("")).0))
  }

  /** `new Function(js)()` with the logs captured: the logs, or the error. */
  function RunDirect(st: State, ev: Evaluation): (r: State)
    ensures r.executing == st.executing && r.clock == st.clock && r.polls == st.polls
  {
    match ev
    case SyntaxError(m) => st.(panel := st.panel.(error := m))
    case Ran(run) =>
      if run.thrown.Some? then st.(panel := st.panel.(error := Caught(run.thrown.value)))
      else st.(panel := st.panel.(output := Lines(Messages(run.calls))))
  }

  /** When the rest of a run is due, counted from tick `now`. */
  function Settles(now: nat, rest: Finish): seq<Pending> {
    match rest
    case Hangs => []
    case Completes(d) => [Pending(now + d + SettleTicks, None)]
    case Rejects(d, t) => if t.Nullish? then [] else [Pending(now + d, Some(SlotText(t)))]
  }

  /** The generic path: strip the types, then either the greet harness or
      the wrapped program and a poll for its completion. */
  function RunGeneric(st: State, code: string, engine: Engine): (r: State)
    ensures r.executing == st.executing && r.clock == st.clock
    ensures r.polls == st.polls || (|r.polls| == |st.polls| + 1 && r.polls[..|st.polls|] == st.polls && r.polls[|st.polls|].waitTime == 0)
  {
    var js := StripGeneric(code);
    if GreetHarness(js) then st.(panel := st.panel.(output := Greeting(HarnessName(js))))
    else RunProgram(st, code, js, engine)
  }

  /** The program `js`, stripped from `code`, wrapped and run, with the
      completion flag cleared first. */
  function RunProgram(st: State, code: string, js: string, engine: Engine): (r: State)
    ensures r.executing == st.executing && r.clock == st.clock
    ensures r.polls == st.polls || (|r.polls| == |st.polls| + 1 && r.polls[..|st.polls|] == st.polls && r.polls[|st.polls|].waitTime == 0)
  {
    var st := st.(window := st.window.(complete := false));
    match engine(Async, js, FetcherFor(js))
    case SyntaxError(m) => st.(panel := st.panel.(error := m))
    case Ran(run) => Wrapped(st, code, run)
  }

  /** The wrapped program ran its synchronous part. */
  function Wrapped(st: State, code: string, run: Run): (r: State)
    ensures r.executing == st.executing && r.clock == st.clock
    ensures |r.polls| == |st.polls| + 1 && r.polls[..|st.polls|] == st.polls && r.polls[|st.polls|].waitTime == 0
  {
    var caught := run.thrown.Some? && !run.thrown.value.Nullish?;
    var logs := Messages(run.calls) + (if caught then [ErrorLine(run.thrown.value)] else []);
    var output := if Live(code) && logs != [] then Lines(logs) else st.panel.output;
    var polls := st.polls + [Poll(0, logs)];
    match run.thrown
    case Some(t) =>
      if t.Nullish? then st.(panel := st.panel.(output := output), polls := polls)
      else st.(panel := st.panel.(output := output), window := Window(true, SlotText(t)), polls := polls)
    case None => st.(panel := st.panel.(output := output), pending := st.pending + Settles(st.clock, run.rest), polls := polls)
  }

  // ---------------------------------------------------------------------
  // One tick: the rests that are due, then every pending poll.

  datatype Settled = Settled(pending: seq<Pending>, window: Window)

  /** The rest of a run ending: the completion flag is set, and a rejection
      stores its message. */
  function Apply(p: Pending, w: Window): Window {
    Window(true, if p.slot.Some? then p.slot.value else w.errorSlot)
  }

  /** The rests due by `now` end, in order; the others stay pending. */
  function SettleFrom(ps: seq<Pending>, kept: seq<Pending>, now: nat, w: Window): (r: Settled)
    decreases |ps|
  {
    if ps == [] then Settled(kept, w)
    else if ps[0].at <= now then SettleFrom(ps[1..], kept, now, Apply(ps[0], w))
    else SettleFrom(ps[1..], kept + [ps[0]], now, w)
  }

  datatype Checked = Checked(polls: seq<Poll>, window: Window, panel: Panel)

  /** One `checkCompletion`: once the run is complete or the time is up, the
      stored error, or else the logs, go to the panel and the flag is
      cleared; otherwise it waits one more interval. */
  function Check(p: Poll, w: Window, panel: Panel): (r: Checked)
    ensures r.polls == [] <==> w.complete || p.waitTime >= MaxWaitTime
  {
    if w.complete || p.waitTime >= MaxWaitTime then
      if w.errorSlot != "" then Checked([], Window(false, ""), panel.(error := w.errorSlot))
      else Checked([], w.(complete := false), panel.(output := Shown(p.logs)))
    else Checked([Poll(p.waitTime + CheckInterval, p.logs)], w, panel)
  }

  /** What a poll shows when its run has no error: the logs, or a line
      saying there were none. */
  function Shown(logs: seq<string>): string {
    if logs != [] then Lines(logs) else NoOutput
  }

  /** The pending polls fire in the order they were started. */
  function CheckFrom(polls: seq<Poll>, kept: seq<Poll>, w: Window, panel: Panel): Checked
    decreases |polls|
  {
    if polls == [] then Checked(kept, w, panel)
    else
      var c := Check(polls[0], w, panel);
      CheckFrom(polls[1..], kept + c.polls, c.window, c.panel)
  }

  function Tick(st: State): (r: State)
    ensures r.clock == st.clock + 1
  {
    var now := st.clock + 1;
    var s := SettleFrom(st.pending, [], now, st.window);
    var c := CheckFrom(st.polls, [], s.window, st.panel);
    st.(panel := c.panel, window := c.window, polls := c.polls, pending := s.pending, clock := now)
  }

  function Ticks(st: State, n: nat): State
    decreases n
  {
    if n == 0 then st else Ticks(Tick(st), n - 1)
  }

  /** clearOutput: both panels emptied, nothing else touched. */
  function Clear(st: State): (r: State)
    ensures r.panel.output == "" && r.panel.error == ""
    ensures r.executing == st.executing && r.window == st.window && r.polls == st.polls
    ensures r.pending == st.pending && r.clock == st.clock && r.jokeRequests == st.jokeRequests
  {
    st.(panel := Panel("", ""))
  }

  /** The joke request of the third sample program settles: with a request
      outstanding, the joke replaces the output, or the failure fills the
      error panel; with none, nothing happens. Runs and polls are untouched. */
  function JokeArrives(st: State, reply: JokeReply): (r: State)
    ensures st.jokeRequests == 0 ==> r == st
    ensures st.jokeRequests > 0 ==> r.jokeRequests == st.jokeRequests - 1
    ensures st.jokeRequests > 0 && reply.JokeOk? ==>
              r.panel == Panel(reply.setup + " - " + reply.punchline, st.panel.error)
    ensures st.jokeRequests > 0 && reply.JokeFailed? ==>
              r.panel == Panel(st.panel.output, "Error fetching joke: " + reply.message)
    ensures r.executing == st.executing && r.window == st.window && r.polls == st.polls
    ensures r.pending == st.pending && r.clock == st.clock
  {
    if st.jokeRequests == 0 then st
    else
      var st := st.(jokeRequests := st.jokeRequests - 1);
      match reply
      case JokeOk(setup, punchline) => st.(panel := st.panel.(output := ShortcutOutput(JokeFetch, reply).0))
      case JokeFailed(_) => st.(panel := st.panel.(error := ShortcutOutput(JokeFetch, reply).1))
  }

  // ---------------------------------------------------------------------
  // Polling ends.

  /** A poll's waiting time is a whole number of intervals, at most the
      maximum. */
  predicate Waiting(p: Poll) {
    p.waitTime <= MaxWaitTime && p.waitTime % CheckInterval == 0
  }

  predicate AllWaiting(polls: seq<Poll>, k: nat) {
    forall i :: 0 <= i < |polls| ==> Waiting(polls[i]) && polls[i].waitTime >= k
  }

  predicate Valid(st: State) {
    AllWaiting(st.polls, 0)
  }

  /** Each check either ends a poll or makes it wait one interval more,
      never beyond the maximum. */
  lemma {:induction false} CheckFromRaises(polls: seq<Poll>, kept: seq<Poll>, w: Window, panel: Panel, k: nat)
    requires AllWaiting(polls, k) && AllWaiting(kept, k + CheckInterval)
    ensures AllWaiting(CheckFrom(polls, kept, w, panel).polls, k + CheckInterval)
    decreases |polls|
  {
    if polls != [] {
      var c := Check(polls[0], w, panel);
      assert AllWaiting(polls[1..], k) by {
        forall i | 0 <= i < |polls| - 1 ensures Waiting(polls[1..][i]) && polls[1..][i].waitTime >= k {
          assert polls[1..][i] == polls[i + 1];
        }
      }
      assert AllWaiting(kept + c.polls, k + CheckInterval);
      CheckFromRaises(polls[1..], kept + c.polls, c.window, c.panel, k);
    }
  }

  /** One tick raises the waiting time of every poll still pending. */
  lemma TickRaises(st: State, k: nat)
    requires AllWaiting(st.polls, k)
    ensures AllWaiting(Tick(st).polls, k + CheckInterval)
  {
    var s := SettleFrom(st.pending, [], st.clock + 1, st.window);
    CheckFromRaises(st.polls, [], s.window, st.panel, k);
  }

  lemma {:induction false} TicksRaise(st: State, n: nat, k: nat)
    requires AllWaiting(st.polls, k)
    ensures AllWaiting(Ticks(st, n).polls, k + n * CheckInterval)
    decreases n
  {
    if n > 0 {
      TickRaises(st, k);
      TicksRaise(Tick(st), n - 1, k + CheckInterval);
    }
  }

  /** Every poll has ended 31 ticks (3.1 seconds) after it was last
      joined by another: a run that never completes is given up at the
      3000 ms mark. */
  lemma PollsDrain(st: State)
    requires Valid(st)
    ensures Ticks(st, 31).polls == []
  {
    TicksRaise(st, 31, 0);
    NoneBeyond(Ticks(st, 31).polls, 31 * CheckInterval);
  }

  /** No poll waits longer than the maximum. */
  lemma NoneBeyond(polls: seq<Poll>, k: nat)
    requires AllWaiting(polls, k) && k > MaxWaitTime
    ensures polls == []
  {
    if |polls| > 0 {
      FirstWaiting(polls, k);
      assert false;
    }
  }

  lemma FirstWaiting(polls: seq<Poll>, k: nat)
    requires AllWaiting(polls, k) && |polls| > 0
    ensures k <= MaxWaitTime
  {
    assert Waiting(polls[0]);
  }

  /** Running code starts at most one poll, from zero. */
  lemma ExecuteValid(st: State, code: string, engine: Engine)
    requires Valid(st)
    ensures Valid(Execute(st, code, engine))
  {
    StartedValid(st.polls, Execute(st, code, engine).polls);
  }

  lemma TickValid(st: State)
    requires Valid(st)
    ensures Valid(Tick(st))
  {
    TickRaises(st, 0);
  }

  /** A poll started from zero joins valid ones. */
  lemma StartedValid(before: seq<Poll>, after: seq<Poll>)
    requires AllWaiting(before, 0)
    requires after == before || (|after| == |before| + 1 && after[..|before|] == before && after[|before|].waitTime == 0)
    ensures AllWaiting(after, 0)
  {
    if after != before {
      forall i | 0 <= i < |after| ensures Waiting(after[i]) {
        if i < |before| {
          assert after[i] == after[..|before|][i];
        }
      }
    }
  }

  // ---------------------------------------------------------------------
  // How a wrapped program ends up on the panels.

  /** Nothing is due by `now`: every rest stays pending, in order. */
  lemma {:induction false} SettleNone(ps: seq<Pending>, kept: seq<Pending>, now: nat, w: Window)
    requires forall i :: 0 <= i < |ps| ==> ps[i].at > now
    ensures SettleFrom(ps, kept, now, w) == Settled(kept + ps, w)
    decreases |ps|
  {
    if ps != [] {
      assert ps[0].at > now;
      SettleNone(ps[1..], kept + [ps[0]], now, w);
      assert kept + [ps[0]] + ps[1..] == kept + ps;
    }
  }

  /** While its run has not completed and the time is not up, the one poll
      just waits and the panels keep what they show. */
  lemma {:induction false} QuietTicks(st: State, n: nat)
    requires |st.polls| == 1 && !st.window.complete
    requires st.polls[0].waitTime + n * CheckInterval <= MaxWaitTime
    requires forall i :: 0 <= i < |st.pending| ==> st.pending[i].at > st.clock + n
    ensures Ticks(st, n) == st.(polls := [Poll(st.polls[0].waitTime + n * CheckInterval, st.polls[0].logs)], clock := st.clock + n)
    decreases n
  {
    if n > 0 {
      SettleNone(st.pending, [], st.clock + 1, st.window);
      assert [] + st.pending == st.pending;
      var p := st.polls[0];
      assert CheckFrom(st.polls, [], st.window, st.panel) == Checked([Poll(p.waitTime + CheckInterval, p.logs)], st.window, st.panel) by {
        assert st.polls[1..] == [];
      }
      var t := Tick(st);
      assert t == st.(polls := [Poll(p.waitTime + CheckInterval, p.logs)], clock := st.clock + 1);
      QuietTicks(t, n - 1);
    }
  }

  /** Run on code that takes the generic path. */
  lemma ExecuteGeneric(st: State, code: string, engine: Engine)
    requires PathOf(code) == Generic
    ensures Execute(st, code, engine) == RunGeneric(Busy(st), code, engine).(executing := false)
  {
  }

  /** Run on a wrapped program: its synchronous part has run, from the
      cleared panels. */
  lemma StartedWrapped(st: State, code: string, engine: Engine, run: Run)
    requires PathOf(code) == Generic && !GreetHarness(StripGeneric(code))
    requires engine(Async, StripGeneric(code), FetcherFor(StripGeneric(code))) == Ran(run)
    ensures Execute(st, code, engine)
         == Wrapped(Busy(st).(window := st.window.(complete := false)), code, run).(executing := false)
  {
    ExecuteGeneric(st, code, engine);
  }

  /** The state right after Run on a wrapped program whose synchronous part
      ends normally, from a state with no polls and nothing pending. */
  lemma StartedRun(st: State, code: string, engine: Engine, calls: seq<seq<Value>>, rest: Finish)
    requires st.polls == [] && st.pending == []
    requires PathOf(code) == Generic && !GreetHarness(StripGeneric(code))
    requires engine(Async, StripGeneric(code), FetcherFor(StripGeneric(code))) == Ran(Run(calls, None, rest))
    ensures var r := Execute(st, code, engine);
            && r.polls == [Poll(0, Messages(calls))]
            && r.pending == Settles(st.clock, rest)
            && r.window == st.window.(complete := false)
            && r.panel == Panel(if Live(code) && calls != [] then Lines(Messages(calls)) else "", "")
            && r.clock == st.clock
  {
    var w := Busy(st).(window := st.window.(complete := false));
    StartedWrapped(st, code, engine, Run(calls, None, rest));
    WrappedNormal(w, code, calls, rest);
  }

  /** The synchronous part of a wrapped program ending normally. */
  lemma WrappedNormal(st: State, code: string, calls: seq<seq<Value>>, rest: Finish)
    ensures var r := Wrapped(st, code, Run(calls, None, rest));
            && r.polls == st.polls + [Poll(0, Messages(calls))]
            && r.pending == st.pending + Settles(st.clock, rest)
            && r.window == st.window
            && r.panel == st.panel.(output := if Live(code) && calls != [] then Lines(Messages(calls)) else st.panel.output)
            && r.clock == st.clock
  {
    assert Messages(calls) + [] == Messages(calls);
  }

  /** `n + m` ticks are `m` ticks after `n`. */
  lemma {:induction false} TicksSplit(st: State, n: nat, m: nat)
    ensures Ticks(st, n + m) == Ticks(Ticks(st, n), m)
    decreases n
  {
    if n > 0 {
      TicksSplit(Tick(st), n - 1, m);
    }
  }

  /** The one poll of a run whose rest ends at tick `clock + k`: it waits
      until then, and at that tick it reports the stored error if there is
      one and the logs otherwise. */
  lemma {:induction false} PollEnds(s: State, logs: seq<string>, d: nat)
    requires s.polls == [Poll(0, logs)] && s.pending == Settles(s.clock, Completes(d))
    requires !s.window.complete && d + SettleTicks <= 31
    ensures Ticks(s, d + SettleTicks - 1).polls != []
    ensures var r := Ticks(s, d + SettleTicks);
            && r.polls == [] && r.pending == [] && r.window == Window(false, "")
            && r.panel == (if s.window.errorSlot != "" then s.panel.(error := s.window.errorSlot)
                           else s.panel.(output := Shown(logs)))
  {
    var k := d + SettleTicks;
    QuietTicks(s, k - 1);
    TicksSplit(s, k - 1, 1);
    var s2 := Ticks(s, k - 1);
    assert Ticks(s2, 1) == Tick(s2);
    assert SettleFrom(s2.pending, [], s2.clock + 1, s2.window) == Settled([], s.window.(complete := true));
    LastCheck(s2.polls, s.window.(complete := true), s2.panel);
  }

  /** The check of a lone poll whose run is over. */
  lemma LastCheck(polls: seq<Poll>, w: Window, panel: Panel)
    requires |polls| == 1 && (w.complete || polls[0].waitTime >= MaxWaitTime)
    ensures CheckFrom(polls, [], w, panel)
         == if w.errorSlot != "" then Checked([], Window(false, ""), panel.(error := w.errorSlot))
            else Checked([], w.(complete := false), panel.(output := Shown(polls[0].logs)))
  {
    var c := Check(polls[0], w, panel);
    assert c.polls == [] && polls[1..] == [];
    assert [] + c.polls == [];
  }

  /** The one poll of a run that never ends: given up at the 31st check. */
  lemma {:induction false} PollGivesUp(s: State, logs: seq<string>)
    requires s.polls == [Poll(0, logs)] && s.pending == []
    requires !s.window.complete && s.window.errorSlot == ""
    ensures Ticks(s, 30).polls != []
    ensures var r := Ticks(s, 31); r.polls == [] && r.pending == [] && r.panel == s.panel.(output := Shown(logs))
  {
    QuietTicks(s, 30);
    TicksSplit(s, 30, 1);
    var s2 := Ticks(s, 30);
    assert Ticks(s2, 1) == Tick(s2);
    LastCheck(s2.polls, s2.window, s2.panel);
  }

  /** A run that completes `d` ticks after its synchronous part (its own
      awaits) is shown `d + 3` ticks later, after the wrapper's 300 ms, and
      not a tick earlier: its logs, or the no-output line. */
  lemma Completed(st: State, code: string, engine: Engine, calls: seq<seq<Value>>, d: nat)
    requires st.polls == [] && st.pending == [] && st.window.errorSlot == ""
    requires PathOf(code) == Generic && !GreetHarness(StripGeneric(code))
    requires engine(Async, StripGeneric(code), FetcherFor(StripGeneric(code))) == Ran(Run(calls, None, Completes(d)))
    requires d + SettleTicks <= 31
    ensures Ticks(Execute(st, code, engine), d + SettleTicks - 1).polls != []
    ensures var r := Ticks(Execute(st, code, engine), d + SettleTicks);
            && r.polls == [] && r.panel == Panel(Shown(Messages(calls)), "")
  {
    StartedRun(st, code, engine, calls, Completes(d));
    PollEnds(Execute(st, code, engine), Messages(calls), d);
  }

  /** A run that never completes is given up at the 3000 ms mark, at the
      31st check: what it logged is shown all the same. */
  lemma GivenUp(st: State, code: string, engine: Engine, calls: seq<seq<Value>>)
    requires st.polls == [] && st.pending == [] && st.window.errorSlot == ""
    requires PathOf(code) == Generic && !GreetHarness(StripGeneric(code))
    requires engine(Async, StripGeneric(code), FetcherFor(StripGeneric(code))) == Ran(Run(calls, None, Hangs))
    ensures Ticks(Execute(st, code, engine), 30).polls != []
    ensures var r := Ticks(Execute(st, code, engine), 31);
            && r.polls == [] && r.panel == Panel(Shown(Messages(calls)), "")
  {
    StartedRun(st, code, engine, calls, Hangs);
    PollGivesUp(Execute(st, code, engine), Messages(calls));
  }

  /** A program that throws before its first `await` a value with a
      message (an `Error`, or any object with a string `message`): the first
      poll shows the message as the error, and the lines it logged first
      never reach the output panel, unless the panel was following them live. */
  lemma SyncErrorShown(st: State, code: string, engine: Engine, calls: seq<seq<Value>>, t: Thrown, rest: Finish)
    requires st.polls == [] && st.pending == []
    requires PathOf(code) == Generic && !GreetHarness(StripGeneric(code))
    requires engine(Async, StripGeneric(code), FetcherFor(StripGeneric(code))) == Ran(Run(calls, Some(t), rest))
    requires (t.ErrorValue? || t.MessageBearing?) && t.message != ""
    ensures var r := Tick(Execute(st, code, engine));
            && r.panel.error == t.message && r.polls == [] && r.window == Window(false, "")
            && r.panel.output == (if Live(code) then Lines(Messages(calls) + [ErrorLine(t)]) else "")
  {
    var w := Busy(st).(window := st.window.(complete := false));
    StartedWrapped(st, code, engine, Run(calls, Some(t), rest));
    WrappedCaught(w, code, calls, t, rest);
    ThrownPoll(Execute(st, code, engine), t.message);
  }

  /** The wrapper's `catch` after a synchronous throw of a value that is
      not `null` or `undefined`: the error line, the stored message, the
      completion flag. */
  lemma WrappedCaught(st: State, code: string, calls: seq<seq<Value>>, t: Thrown, rest: Finish)
    requires !t.Nullish?
    ensures var r := Wrapped(st, code, Run(calls, Some(t), rest));
            var logs := Messages(calls) + [ErrorLine(t)];
            && r.polls == st.polls + [Poll(0, logs)]
            && r.pending == st.pending
            && r.window == Window(true, SlotText(t))
            && r.panel == st.panel.(output := if Live(code) then Lines(logs) else st.panel.output)
  {
  }

  /** A program that throws `null` or `undefined` before its first `await`:
      the wrapper's `catch` fails on `error.message`, so it logs nothing and
      never sets the completion flag; the poll gives up at the 31st check
      and shows the lines logged before the throw as output. */
  lemma NullishGivesUp(st: State, code: string, engine: Engine, calls: seq<seq<Value>>, rest: Finish)
    requires st.polls == [] && st.pending == [] && st.window.errorSlot == ""
    requires PathOf(code) == Generic && !GreetHarness(StripGeneric(code))
    requires engine(Async, StripGeneric(code), FetcherFor(StripGeneric(code))) == Ran(Run(calls, Some(Nullish), rest))
    ensures Ticks(Execute(st, code, engine), 30).polls != []
    ensures var r := Ticks(Execute(st, code, engine), 31);
            && r.polls == [] && r.panel == Panel(Shown(Messages(calls)), "")
  {
    var w := Busy(st).(window := st.window.(complete := false));
    StartedWrapped(st, code, engine, Run(calls, Some(Nullish), rest));
    assert Messages(calls) + [] == Messages(calls);
    PollGivesUp(Execute(st, code, engine), Messages(calls));
  }

  /** The first check after a synchronous throw with a message. */
  lemma ThrownPoll(s: State, m: string)
    requires |s.polls| == 1 && s.pending == [] && s.window == Window(true, m) && m != ""
    ensures var r := Tick(s);
            && r.polls == [] && r.window == Window(false, "") && r.panel == s.panel.(error := m)
  {
    LastCheck(s.polls, s.window, s.panel);
  }

  /** An error message left behind by an earlier run, whose rejection
      arrived after its poll had given up, is reported as the error of the
      next run, even when that run completes normally. */
  lemma StaleError(st: State, code: string, engine: Engine, calls: seq<seq<Value>>, m: string)
    requires st.polls == [] && st.pending == [] && st.window.errorSlot == m && m != ""
    requires PathOf(code) == Generic && !GreetHarness(StripGeneric(code))
    requires engine(Async, StripGeneric(code), FetcherFor(StripGeneric(code))) == Ran(Run(calls, None, Completes(0)))
    ensures var r := Ticks(Execute(st, code, engine), SettleTicks);
            && r.polls == [] && r.panel.error == m && r.window == Window(false, "")
  {
    StartedRun(st, code, engine, calls, Completes(0));
    PollEnds(Execute(st, code, engine), Messages(calls), 0);
  }

  // ---------------------------------------------------------------------
  // The paths that show their result at once.

  /** A recognised sample program shows its output without running
      anything: the engine plays no part, and no poll is started. */
  lemma ShortcutShown(st: State, code: string, e1: Engine, e2: Engine, reply: JokeReply)
    requires Recognize(code) != NoMatch && Recognize(code) != JokeFetch
    ensures Execute(st, code, e1) == Execute(st, code, e2)
    ensures var r := Execute(st, code, e1);
            && r.panel == Panel(ShortcutOutput(Recognize(code), reply).0, "")
            && r.polls == st.polls && r.pending == st.pending && r.window == st.window
  {
  }

  /** The joke-fetching sample shows a loading line, and its request, once
      it settles, leaves the panels as the shortcut table says. */
  lemma JokeFetchShown(st: State, code: string, engine: Engine, reply: JokeReply)
    requires Recognize(code) == JokeFetch
    ensures Execute(st, code, engine).panel == Panel(FetchingText, "")
    ensures var r := JokeArrives(Execute(st, code, engine), reply);
            && (r.panel.output, r.panel.error) == ShortcutOutput(JokeFetch, reply)
            && r.jokeRequests == st.jokeRequests
  {
  }

  /** A plain `console.log` program: every line it logs, and nothing it
      does later, as the engine runs it with the real `fetch`. */
  lemma PlainOutput(st: State, code: string, engine: Engine, calls: seq<seq<Value>>, rest: Finish)
    requires PathOf(code) == PlainLog
    requires engine(Direct, code, Network) == Ran(Run(calls, None, rest))
    ensures var r := Execute(st, code, engine);
            && r.panel == Panel(Lines(Messages(calls)), "")
            && r.polls == st.polls && r.pending == st.pending && r.window == st.window
  {
  }

  /** On the direct paths an exception goes to the error panel, with any
      lines logged before it lost. */
  lemma DirectThrows(st: State, code: string, engine: Engine, calls: seq<seq<Value>>, t: Thrown, rest: Finish)
    requires PathOf(code) == PlainLog
    requires engine(Direct, code, Network) == Ran(Run(calls, Some(t), rest))
    ensures Execute(st, code, engine).panel == Panel("", Caught(t))
  {
  }

  /** A class whose constructor declares untyped parameter properties runs
      as the class with bare parameters and one assignment per `readonly`
      parameter: the `public`, `private` and `protected` ones are dropped
      before the rewrite sees them. */
  lemma ClassConstructorRuns(st: State, pre: string, ps: seq<Param>, body: string, post: string, engine: Engine)
    requires PathOf(Declared(pre, ps, body, post)) == ClassSyntax
    requires AllValid(ps) && Untyped(ps) && ps != [] && '}' !in body && FirstKeyword(pre)
    requires 'p' !in pre && 'p' !in body && 'p' !in post
    requires Untouched(ClassHead[..7], Declared(pre, ps, body, post))
    requires Untouched(ClassTail, Assigned(pre, MemberKeptAll(ps), body, post))
    ensures Execute(st, Declared(pre, ps, body, post), engine)
         == RunDirect(Busy(st), engine(Direct, Assigned(pre, MemberKeptAll(ps), body, post), Network)).(executing := false)
  {
    ExecuteClass(st, Declared(pre, ps, body, post), engine);
    TransformAsWrittenRendered(pre, ps, body, post);
  }

  /** Run on code that takes the class path. */
  lemma ExecuteClass(st: State, code: string, engine: Engine)
    requires PathOf(code) == ClassSyntax
    ensures Execute(st, code, engine) == RunDirect(Busy(st), engine(Direct, TransformAsWritten(code), Network)).(executing := false)
  {
  }

  /** The greet harness prints the greeting of the name it finds and runs
      nothing of the program. */
  lemma HarnessGreets(st: State, code: string, e1: Engine, e2: Engine)
    requires PathOf(code) == Generic && GreetHarness(StripGeneric(code))
    ensures Execute(st, code, e1) == Execute(st, code, e2)
    ensures var r := Execute(st, code, e1);
            && r.panel == Panel(Greeting(HarnessName(StripGeneric(code))), "")
            && r.polls == st.polls && r.pending == st.pending && r.window == st.window
  {
    ExecuteGeneric(st, code, e1);
    ExecuteGeneric(st, code, e2);
  }

  /** Wrapped code that does not compile shows the compiler's message and
      starts no poll, but it has cleared the completion flag. */
  lemma SyntaxErrorShown(st: State, code: string, engine: Engine, m: string)
    requires PathOf(code) == Generic && !GreetHarness(StripGeneric(code))
    requires engine(Async, StripGeneric(code), FetcherFor(StripGeneric(code))) == SyntaxError(m)
    ensures var r := Execute(st, code, engine);
            && r.panel == Panel("", m) && r.polls == st.polls && !r.window.complete
  {
    ExecuteGeneric(st, code, engine);
  }

  // ---------------------------------------------------------------------
  // clearOutput.

  /** Clearing the panels does not stop a poll: the report of a run that
      has completed still arrives at the next tick. */
  lemma ClearedThenReported(st: State, logs: seq<string>, w: nat)
    requires st.polls == [Poll(w, logs)] && st.pending == [] && st.window == Window(true, "")
    ensures Clear(st).polls == st.polls
    ensures Tick(Clear(st)).panel == Panel(Shown(logs), "") && Tick(Clear(st)).polls == []
  {
    LastCheck(st.polls, st.window, Panel("", ""));
  }
}

/** The shortcuts of the run pipeline that answer without running the program:
    the three recognised sample programs of `executeSimplePattern`
    (src/App.tsx:97-145) and the `greet` shortcut taken after type stripping
    (src/App.tsx:397-422). Both extract a name between quotes with a lazy
    `(.+?)`; the regular expressions are modelled by `FindCapture`. */
module Patterns {
  import opened Text

  // ---------------------------------------------------------------------
  // Regular expressions of the shape `items["'](.+?)["']close`.

  /** One item of the text before the opening quote. */
  datatype Item =
    | Lit(w: string)  // the characters of `w`
    | Gap              // \s*
    | Gap1             // \s+

  /** Where `items` end when matched from index `i`. Each gap is followed by
      a word that does not start with a space, or by the quote, so taking the
      gaps greedily loses no match. */
  function MatchItems(items: seq<Item>, s: string, i: nat): (r: Option<nat>)
    requires i <= |s|
    ensures r.Some? ==> i <= r.value <= |s|
    decreases |items|
  {
    if items == [] then Some(i)
    else match items[0]
      case Lit(w) => if StartsWith(s[i..], w) then MatchItems(items[1..], s, i + |w|) else None
      case Gap => MatchItems(items[1..], s, Skip(Space, s, i))
      case Gap1 =>
        var j := Skip(Space, s, i);
        if j == i then None else MatchItems(items[1..], s, j)
  }

  predicate SingleLine(t: string) {
    forall x :: 0 <= x < |t| ==> !IsLineTerminator(t[x])
  }

  /** `(.+?)["']close` once the capture holds `s[a..k]`: the first quote
      followed by `close`, with no line break before it. */
  function CaptureEnd(s: string, a: nat, k: nat, close: string): (r: Option<nat>)
    requires a < k <= |s| && SingleLine(s[a..k])
    ensures r.Some? ==> k <= r.value < |s| && IsQuote(s[r.value]) && StartsWith(s[r.value + 1..], close)
    ensures r.Some? ==> SingleLine(s[a..r.value])
    decreases |s| - k
  {
    if k == |s| then None
    else if IsQuote(s[k]) && StartsWith(s[k + 1..], close) then Some(k)
    else if IsLineTerminator(s[k]) then None
    else
      assert s[a..k + 1] == s[a..k] + [s[k]];
      CaptureEnd(s, a, k + 1, close)
  }

  /** The capture of a match starting at index `i`, if one starts there. */
  function CaptureAt(items: seq<Item>, close: string, s: string, i: nat): (r: Option<string>)
    requires i <= |s|
    ensures r.Some? ==> r.value != [] && SingleLine(r.value)
  {
    match MatchItems(items, s, i)
    case None => None
    case Some(j) =>
      if j + 1 >= |s| || !IsQuote(s[j]) || IsLineTerminator(s[j + 1]) then None
      else
        assert SingleLine(s[j + 1..j + 2]);
        match CaptureEnd(s, j + 1, j + 2, close)
        case None => None
        case Some(k) => Some(s[j + 1..k])
  }

  /** `s.match(re)` for a non-global `re`: the capture of the leftmost match
      at or after `from`. */
  function FindCapture(items: seq<Item>, close: string, s: string, from: nat): (r: Option<string>)
    requires from <= |s|
    ensures r.Some? ==> r.value != [] && SingleLine(r.value)
    decreases |s| - from
  {
    match CaptureAt(items, close, s, from)
    case Some(name) => Some(name)
    case None => if from == |s| then None else FindCapture(items, close, s, from + 1)
  }

  /** No match starts before `i`: the leftmost match is the one at `i`. */
  lemma {:induction false} FindFrom(items: seq<Item>, close: string, s: string, from: nat, i: nat)
    requires from <= i <= |s|
    requires forall x :: from <= x < i ==> CaptureAt(items, close, s, x).None?
    ensures FindCapture(items, close, s, from) == (if CaptureAt(items, close, s, i).Some? then CaptureAt(items, close, s, i) else FindCapture(items, close, s, i))
    decreases i - from
  {
    if from < i {
      FindFrom(items, close, s, from + 1, i);
    }
  }

  /** A capture that starts right after a quote at `j`, holds `name` and is
      closed by a quote and `close`. */
  lemma CaptureOf(s: string, j: nat, name: string, q: char, close: string, after: string)
    requires j < |s| && IsQuote(s[j]) && s[j + 1..] == name + ([q] + after) && StartsWith(after, close)
    requires name != [] && SingleLine(name) && IsQuote(q)
    requires forall x :: 0 <= x < |name| ==> !IsQuote(name[x])
    ensures j + 1 < |s| && !IsLineTerminator(s[j + 1])
    ensures CaptureEnd(s, j + 1, j + 2, close) == Some(j + 1 + |name|)
    ensures s[j + 1..j + 1 + |name|] == name
  {
    assert s[j + 1] == s[j + 1..][0] == name[0];
    SliceOfPrefix(s, j + 1, name, [q] + after);
    CaptureEndOf(s, j + 1, j + 2, name, q, close, after);
  }

  lemma {:induction false} CaptureEndOf(s: string, a: nat, k: nat, name: string, q: char, close: string, after: string)
    requires a < k <= a + |name| && a + |name| < |s|
    requires s[a..a + |name|] == name && s[a + |name|..] == [q] + after && StartsWith(after, close)
    requires SingleLine(name) && IsQuote(q) && forall x :: 0 <= x < |name| ==> !IsQuote(name[x])
    ensures SingleLine(s[a..k])
    ensures CaptureEnd(s, a, k, close) == Some(a + |name|)
    decreases a + |name| - k
  {
    assert s[a..k] == name[..k - a];
    var e := a + |name|;
    if k == e {
      assert s[k] == q;
      assert s[k + 1..] == after;
    } else {
      assert s[k] == name[k - a];
      CaptureEndOf(s, a, k + 1, name, q, close, after);
    }
  }

  // ---------------------------------------------------------------------
  // The three recognised sample programs (src/App.tsx:97-145).

  /** `const\s+userName\s*:\s*string\s*=\s*` */
  const TypedUserName: seq<Item> :=
    [Lit("const"), Gap1, Lit("userName"), Gap, Lit(":"), Gap, Lit("string"), Gap, Lit("="), Gap]

  predicate GreetProgram(code: string) {
    && Contains(code, "const greet = (name: string): string")
    && Contains(code, "return `Hello, ${name}!`")
    && Contains(code, "userName")
  }

  predicate JokeProgram(code: string) {
    Contains(code, "const tellJoke = (): string") && Contains(code, "Why do programmers prefer dark mode?")
  }

  predicate JokeFetchProgram(code: string) {
    && Contains(code, "fetchRandomJoke")
    && Contains(code, "fetch")
    && Contains(code, "joke.setup")
    && Contains(code, "joke.punchline")
  }

  /** Which sample program the code is, if any. */
  datatype Shortcut = Greet(name: string) | Joke | JokeFetch | NoMatch

  const DefaultName := "Alice"
  const JokeText := "Why do programmers prefer dark mode? Because light attracts bugs!"
  const FetchingText := "Fetching a joke..."

  /** The name the greeting uses: the declared `userName`, or `Alice`. */
  function NameOr(found: Option<string>): string {
    match found
    case Some(n) => n
    case None => DefaultName
  }

  /** `executeSimplePattern`: the first of the three tests that holds wins. */
  function Recognize(code: string): (r: Shortcut)
    ensures r.Greet? ==> r.name == DefaultName || (r.name != [] && SingleLine(r.name))
  {
    if GreetProgram(code) then Greet(NameOr(FindCapture(TypedUserName, "", code, 0)))
    else if JokeProgram(code) then Joke
    else if JokeFetchProgram(code) then JokeFetch
    else NoMatch
  }

  /** The tests are tried in order, greet, tellJoke, joke fetch, and only a
      program that passes none of them goes on to be run. */
  lemma RecognizeOrder(code: string)
    ensures Recognize(code).Greet? <==> GreetProgram(code)
    ensures Recognize(code) == Joke <==> !GreetProgram(code) && JokeProgram(code)
    ensures Recognize(code) == JokeFetch <==> !GreetProgram(code) && !JokeProgram(code) && JokeFetchProgram(code)
    ensures Recognize(code) == NoMatch <==> !GreetProgram(code) && !JokeProgram(code) && !JokeFetchProgram(code)
  {
  }

  /** The outcome of the joke request the third shortcut makes. */
  datatype JokeReply = JokeOk(setup: string, punchline: string) | JokeFailed(message: string)

  /** What the output panel shows for each shortcut: `(output, error)`,
      the joke fetch once its request has settled. */
  function ShortcutOutput(r: Shortcut, reply: JokeReply): (shown: (string, string))
    ensures shown.1 != "" <==> r == JokeFetch && reply.JokeFailed?
  {
    match r
    case Greet(n) => (Greeting(n), "")
    case Joke => (JokeText, "")
    case JokeFetch =>
      (match reply
       case JokeOk(setup, punchline) => (setup + " - " + punchline, "")
       case JokeFailed(m) => (FetchingText, "Error fetching joke: " + m))
    case NoMatch => ("", "")
  }

  /** A greet program declaring `userName` once, before any other mention of
      `userName`, greets that name. */
  lemma GreetDeclared(pre: string, name: string, post: string)
    requires !Contains(pre, "userName") && name != [] && SingleLine(name)
    requires forall x :: 0 <= x < |name| ==> !IsQuote(name[x])
    requires GreetProgram(pre + ("const userName: string = \"" + (name + ("\"" + post))))
    ensures Recognize(pre + ("const userName: string = \"" + (name + ("\"" + post)))) == Greet(name)
  {
    var s := pre + ("const userName: string = \"" + (name + ("\"" + post)));
    TypedDeclarationCaptures(pre, name, post, s);
  }

  lemma TypedDeclarationCaptures(pre: string, name: string, post: string, s: string)
    requires !Contains(pre, "userName") && name != [] && SingleLine(name)
    requires forall x :: 0 <= x < |name| ==> !IsQuote(name[x])
    requires s == pre + ("const userName: string = \"" + (name + ("\"" + post)))
    ensures FindCapture(TypedUserName, "", s, 0) == Some(name)
  {
    var i := |pre|;
    var z := name + ("\"" + post);
    DeclarationText(z);
    var d := "const" + (" " + ("userName" + (":" + (" " + ("string" + (" " + ("=" + (" " + ("\"" + z)))))))));
    assert s == pre + d;
    assert s[i..] == d && s[..i] == pre;
    DeclarationLetters(s[i]);
    forall x | 0 <= x < i ensures CaptureAt(TypedUserName, "", s, x).None? {
      NoMatchInPrefix(TypedUserName, "", "const", "userName", pre, s, x);
    }
    TypedDeclarationAt(s, i, name, post);
    FindFrom(TypedUserName, "", s, 0, i);
  }

  /** The declaration as the items of its pattern see it. */
  lemma DeclarationText(z: string)
    ensures "const userName: string = \"" + z
         == "const" + (" " + ("userName" + (":" + (" " + ("string" + (" " + ("=" + (" " + ("\"" + z)))))))))
  {
  }

  /** `c` starts `const` only, and `userName` does not hold it. */
  lemma DeclarationLetters(c: char)
    requires c == "const"[0]
    ensures !IsSpace(c)
    ensures forall d :: 0 < d < |"const"| ==> "const"[d] != c
    ensures forall d :: 0 <= d < |"userName"| ==> "userName"[d] != c
  {
  }

  /** The typed declaration pattern, matched where the declaration is written. */
  lemma TypedDeclarationAt(s: string, i: nat, name: string, post: string)
    requires i <= |s| && s[i..] == "const" + (" " + ("userName" + (":" + (" " + ("string" + (" " + ("=" + (" " + ("\"" + (name + ("\"" + post)))))))))))
    requires name != [] && SingleLine(name) && forall x :: 0 <= x < |name| ==> !IsQuote(name[x])
    ensures CaptureAt(TypedUserName, "", s, i) == Some(name)
  {
    var j := DeclarationItems(s, i, "\"" + (name + ("\"" + post)));
    QuotedCapture(TypedUserName, "", s, i, j, name, post);
  }

  /** Where the items end, a quoted name followed by `close` is captured. */
  lemma QuotedCapture(items: seq<Item>, close: string, s: string, i: nat, j: nat, name: string, after: string)
    requires i <= j <= |s| && MatchItems(items, s, i) == Some(j)
    requires s[j..] == "\"" + (name + ("\"" + after)) && StartsWith(after, close)
    requires name != [] && SingleLine(name) && forall x :: 0 <= x < |name| ==> !IsQuote(name[x])
    ensures CaptureAt(items, close, s, i) == Some(name)
  {
    SliceOfPrefix(s, j, "\"", name + ("\"" + after));
    assert s[j] == s[j..][0] == '"';
    CaptureOf(s, j, name, '"', close, after);
    CaptureAtOf(items, close, s, i, j, j + 1 + |name|);
  }

  lemma CaptureAtOf(items: seq<Item>, close: string, s: string, i: nat, j: nat, k: nat)
    requires i <= j && j + 1 < |s| && MatchItems(items, s, i) == Some(j)
    requires IsQuote(s[j]) && !IsLineTerminator(s[j + 1])
    requires CaptureEnd(s, j + 1, j + 2, close) == Some(k)
    ensures CaptureAt(items, close, s, i) == Some(s[j + 1..k])
  {
  }

  /** The items of the typed declaration cover `const userName: string = `. */
  lemma DeclarationItems(s: string, i: nat, z: string) returns (j: nat)
    requires i <= |s| && s[i..] == "const" + (" " + ("userName" + (":" + (" " + ("string" + (" " + ("=" + (" " + z))))))))
    requires z != [] && !IsSpace(z[0])
    ensures j <= |s| && s[j..] == z
    ensures MatchItems(TypedUserName, s, i) == Some(j)
  {
    j := SpacedItems("const", "userName", ":", "string", "=", s, i, z);
  }

  /** `a\s+b\s*c\s*d\s*e\s*` over `a b: d = ` spaced as the declaration is. */
  lemma SpacedItems(a: string, b: string, c: string, d: string, e: string, s: string, i: nat, z: string) returns (j: nat)
    requires b != [] && !IsSpace(b[0]) && c != [] && !IsSpace(c[0]) && d != [] && !IsSpace(d[0])
    requires e != [] && !IsSpace(e[0]) && z != [] && !IsSpace(z[0])
    requires i <= |s| && s[i..] == a + (" " + (b + (c + (" " + (d + (" " + (e + (" " + z))))))))
    ensures j <= |s| && s[j..] == z
    ensures MatchItems([Lit(a), Gap1, Lit(b), Gap, Lit(c), Gap, Lit(d), Gap, Lit(e), Gap], s, i) == Some(j)
  {
    var t4: seq<Item> := [Lit(e), Gap];
    var t3 := [Lit(d), Gap] + t4;
    var t2 := [Lit(c), Gap] + t3;
    var t1 := [Lit(b), Gap] + t2;
    assert [Lit(a), Gap1, Lit(b), Gap, Lit(c), Gap, Lit(d), Gap, Lit(e), Gap] == [Lit(a), Gap1] + t1;
    var k := LitSpace(s, i, a, Gap1, b + (c + (" " + (d + (" " + (e + (" " + z)))))), t1);
    k := LitTight(s, k, b, c + (" " + (d + (" " + (e + (" " + z))))), t2);
    k := LitSpace(s, k, c, Gap, d + (" " + (e + (" " + z))), t3);
    k := LitSpace(s, k, d, Gap, e + (" " + z), t4);
    assert t4 == [Lit(e), Gap] + [];
    k := LitSpace(s, k, e, Gap, z, []);
    j := k;
  }

  /** A word, then a gap over one space. */
  lemma LitSpace(s: string, i: nat, w: string, g: Item, rest: string, tail: seq<Item>) returns (k: nat)
    requires i <= |s| && s[i..] == w + (" " + rest) && rest != [] && !IsSpace(rest[0])
    requires g == Gap || g == Gap1
    ensures k == i + |w| + 1 && k <= |s| && s[k..] == rest
    ensures MatchItems([Lit(w), g] + tail, s, i) == MatchItems(tail, s, k)
  {
    var items := [Lit(w), g] + tail;
    var m := LitPeel(s, i, w, " " + rest, items);
    assert items[1..] == [g] + tail;
    k := GapPeel(s, m, rest, [g] + tail);
    assert ([g] + tail)[1..] == tail;
  }

  /** A word, then a `\s*` gap over nothing. */
  lemma LitTight(s: string, i: nat, w: string, rest: string, tail: seq<Item>) returns (k: nat)
    requires i <= |s| && s[i..] == w + rest && rest != [] && !IsSpace(rest[0])
    ensures k == i + |w| && k <= |s| && s[k..] == rest
    ensures MatchItems([Lit(w), Gap] + tail, s, i) == MatchItems(tail, s, k)
  {
    var items := [Lit(w), Gap] + tail;
    k := LitPeel(s, i, w, rest, items);
    assert items[1..] == [Gap] + tail;
    GapNone(s, k, rest, [Gap] + tail);
    assert ([Gap] + tail)[1..] == tail;
  }

  /** A word of the pattern consumes its own letters. */
  lemma LitPeel(s: string, i: nat, w: string, rest: string, items: seq<Item>) returns (k: nat)
    requires i <= |s| && s[i..] == w + rest && items != [] && items[0] == Lit(w)
    ensures k == i + |w| && k <= |s| && s[k..] == rest
    ensures MatchItems(items, s, i) == MatchItems(items[1..], s, k)
  {
    SliceOfPrefix(s, i, w, rest);
    StartsWithPrefix(w, rest);
    k := i + |w|;
  }

  /** A gap consumes one space before a character that is not a space. */
  lemma GapPeel(s: string, i: nat, rest: string, items: seq<Item>) returns (k: nat)
    requires i <= |s| && s[i..] == " " + rest && rest != [] && !IsSpace(rest[0])
    requires items != [] && (items[0] == Gap || items[0] == Gap1)
    ensures k == i + 1 && k <= |s| && s[k..] == rest
    ensures MatchItems(items, s, i) == MatchItems(items[1..], s, k)
  {
    SkipFrom(Space, s, i, " ", rest);
    SliceOfPrefix(s, i, " ", rest);
    k := i + 1;
  }

  /** A `\s*` gap before a character that is not a space consumes nothing. */
  lemma GapNone(s: string, i: nat, rest: string, items: seq<Item>)
    requires i <= |s| && s[i..] == rest && rest != [] && !IsSpace(rest[0])
    requires items != [] && items[0] == Gap
    ensures MatchItems(items, s, i) == MatchItems(items[1..], s, i)
  {
    SkipFrom(Space, s, i, "", rest);
  }

  /** A pattern that opens with `w1 \s+ w2`, when `w2` is nowhere in `pre`
      and the text after `pre` starts with the first letter of `w1` and no
      other letter of either word: no match starts inside `pre`, since its
      `w2` would have to lie inside `pre`. */
  lemma NoMatchInPrefix(items: seq<Item>, close: string, w1: string, w2: string, pre: string, s: string, x: nat)
    requires |items| >= 3 && items[0] == Lit(w1) && items[1] == Gap1 && items[2] == Lit(w2)
    requires |pre| < |s| && s[..|pre|] == pre && x < |pre| && !Contains(pre, w2) && !IsSpace(s[|pre|])
    requires forall d :: 0 < d < |w1| ==> w1[d] != s[|pre|]
    requires forall d :: 0 <= d < |w2| ==> w2[d] != s[|pre|]
    ensures CaptureAt(items, close, s, x).None?
  {
    if !StartsWith(s[x..], w1) {
      LitFails(s, x, w1, items);
    } else {
      NotAcross(pre, s, x, w1);
      StartsWithSlice(s[x..], w1);
      assert s[x..][..|w1|] == s[x..x + |w1|];
      LitStep(s, x, w1, items);
      GapThenAbsent(items[1..], w2, pre, s, x + |w1|);
    }
  }

  /** `\s+w2` from inside `pre` cannot reach a `w2`. */
  lemma GapThenAbsent(items: seq<Item>, w2: string, pre: string, s: string, y: nat)
    requires |items| >= 2 && items[0] == Gap1 && items[1] == Lit(w2)
    requires y <= |pre| < |s| && s[..|pre|] == pre && !Contains(pre, w2) && !IsSpace(s[|pre|])
    requires forall d :: 0 <= d < |w2| ==> w2[d] != s[|pre|]
    ensures MatchItems(items, s, y).None?
  {
    var j := Skip(Space, s, y);
    SkipBefore(Space, s, y, |pre|);
    if j == y {
      Gap1Fails(s, y, items);
    } else {
      Gap1Step(s, y, items);
      if !StartsWith(s[j..], w2) {
        LitFails(s, j, w2, items[1..]);
      } else if j == |pre| {
        assert false;
      } else {
        NotAcross(pre, s, j, w2);
        InPrefix(pre, s, j, w2);
        assert false;
      }
    }
  }

  lemma LitStep(s: string, i: nat, w: string, items: seq<Item>)
    requires i + |w| <= |s| && s[i..i + |w|] == w && items != [] && items[0] == Lit(w)
    ensures MatchItems(items, s, i) == MatchItems(items[1..], s, i + |w|)
  {
    StartsWithSlice(s[i..], w);
    assert s[i..][..|w|] == s[i..i + |w|];
  }

  lemma LitFails(s: string, i: nat, w: string, items: seq<Item>)
    requires i <= |s| && items != [] && items[0] == Lit(w) && !StartsWith(s[i..], w)
    ensures MatchItems(items, s, i).None?
  {
  }

  lemma Gap1Fails(s: string, i: nat, items: seq<Item>)
    requires i <= |s| && items != [] && items[0] == Gap1 && Skip(Space, s, i) == i
    ensures MatchItems(items, s, i).None?
  {
  }

  lemma Gap1Step(s: string, i: nat, items: seq<Item>)
    requires i <= |s| && items != [] && items[0] == Gap1 && Skip(Space, s, i) > i
    ensures MatchItems(items, s, i) == MatchItems(items[1..], s, Skip(Space, s, i))
  {
  }

  /** A run of class `k` stops at the first character outside `k`. */
  lemma SkipBefore(k: CharClass, s: string, i: nat, p: nat)
    requires i <= p < |s| && !InClass(s[p], k)
    ensures Skip(k, s, i) <= p
  {
    RunSpec(k, s[i..]);
    assert s[i..][p - i] == s[p];
  }

  /** A word that starts inside `pre` and whose later letters all differ
      from the character after `pre` ends inside `pre`. */
  lemma NotAcross(pre: string, s: string, x: nat, w: string)
    requires |pre| < |s| && s[..|pre|] == pre && x < |pre| && StartsWith(s[x..], w)
    requires forall d :: 0 < d < |w| ==> w[d] != s[|pre|]
    ensures x + |w| <= |pre|
  {
    StartsWithSlice(s[x..], w);
  }

  lemma InPrefix(pre: string, s: string, x: nat, w: string)
    requires |pre| <= |s| && s[..|pre|] == pre && x + |w| <= |pre| && StartsWith(s[x..], w)
    ensures Contains(pre, w)
  {
    StartsWithSlice(s[x..], w);
    assert pre[x..][..|w|] == s[x..][..|w|];
    StartsWithSlice(pre[x..], w);
    ContainsAt(pre, w, x);
  }

  /** A pattern holding a word the text lacks matches nowhere. */
  lemma {:induction false} MatchHasWords(items: seq<Item>, s: string, i: nat, w: string)
    requires i <= |s| && Lit(w) in items && MatchItems(items, s, i).Some?
    ensures Contains(s, w)
    decreases |items|
  {
    match items[0]
    case Lit(v) =>
      if v == w {
        ContainsAt(s, w, i);
      } else {
        assert Lit(w) in items[1..];
        MatchHasWords(items[1..], s, i + |v|, w);
      }
    case Gap =>
      assert Lit(w) in items[1..];
      MatchHasWords(items[1..], s, Skip(Space, s, i), w);
    case Gap1 =>
      assert Lit(w) in items[1..];
      MatchHasWords(items[1..], s, Skip(Space, s, i), w);
  }

  lemma {:induction false} NoCapture(items: seq<Item>, close: string, s: string, from: nat, w: string)
    requires from <= |s| && Lit(w) in items && !Contains(s, w)
    ensures FindCapture(items, close, s, from).None?
    decreases |s| - from
  {
    if MatchItems(items, s, from).Some? {
      MatchHasWords(items, s, from, w);
    }
    if from < |s| {
      NoCapture(items, close, s, from + 1, w);
    }
  }

  // ---------------------------------------------------------------------
  // The greet shortcut of the run harness (src/App.tsx:397-422).

  /** `greet\(` */
  const DirectCall: seq<Item> := [Lit("greet(")]
  /** `const\s+userName\s*=\s*` */
  const UntypedUserName: seq<Item> := [Lit("const"), Gap1, Lit("userName"), Gap, Lit("="), Gap]

  /** The stripped program declares `greet` and returns the greeting
      template (src/App.tsx:397); such a program mentions `greet`. */
  predicate GreetHarness(js: string): (b: bool)
    ensures b ==> Contains(js, "greet")
  {
    if Contains(js, "const greet") then
      ContainsInner(js, "const greet", 6, 11);
      assert "const greet"[6..11] == "greet";
      Contains(js, "return `Hello, ${name}!`")
    else false
  }

  /** The name greeted: a literal argument of `greet(...)` first, then the
      declared `userName`, then `Alice`. */
  function HarnessName(js: string): (n: string)
    ensures n == DefaultName || (n != [] && SingleLine(n))
  {
    match FindCapture(DirectCall, ")", js, 0)
    case Some(arg) => arg
    case None => NameOr(FindCapture(UntypedUserName, "", js, 0))
  }

  function Greeting(name: string): string {
    "Hello, " + name + "!"
  }

  /** A literal `greet("X")` call outranks the `userName` declaration. */
  lemma DirectCallFirst(pre: string, arg: string, post: string)
    requires !Contains(pre, "greet(") && arg != [] && SingleLine(arg)
    requires forall x :: 0 <= x < |arg| ==> !IsQuote(arg[x])
    ensures HarnessName(pre + ("greet(\"" + (arg + ("\")" + post)))) == arg
  {
    var s := pre + ("greet(\"" + (arg + ("\")" + post)));
    var i := |pre|;
    CallText(arg + ("\")" + post));
    assert s[i..] == "greet(" + ("\"" + (arg + ("\")" + post))) && s[..i] == pre;
    CallLetters(s[i]);
    forall x | 0 <= x < i ensures CaptureAt(DirectCall, ")", s, x).None? {
      NoCallBefore(pre, s, x);
    }
    DirectCallAt(s, i, arg, post);
    FindFrom(DirectCall, ")", s, 0, i);
  }

  lemma CallText(z: string)
    ensures "greet(\"" + z == "greet(" + ("\"" + z)
  {
  }

  lemma CallLetters(c: char)
    requires c == "greet("[0]
    ensures forall d :: 0 < d < |"greet("| ==> "greet("[d] != c
  {
  }

  lemma DirectCallAt(s: string, i: nat, arg: string, post: string)
    requires i <= |s| && s[i..] == "greet(" + ("\"" + (arg + ("\")" + post)))
    requires arg != [] && SingleLine(arg) && forall x :: 0 <= x < |arg| ==> !IsQuote(arg[x])
    ensures CaptureAt(DirectCall, ")", s, i) == Some(arg)
  {
    var j := LitPeel(s, i, "greet(", "\"" + (arg + ("\")" + post)), DirectCall);
    assert DirectCall[1..] == [];
    assert "\")" + post == "\"" + (")" + post);
    StartsWithPrefix(")", post);
    QuotedCapture(DirectCall, ")", s, i, j, arg, ")" + post);
  }

  /** Without `greet(` in `pre`, no call pattern starts inside `pre`. */
  lemma NoCallBefore(pre: string, s: string, x: nat)
    requires !Contains(pre, "greet(") && |pre| < |s| && s[..|pre|] == pre && x < |pre|
    requires forall d :: 0 < d < |"greet("| ==> "greet("[d] != s[|pre|]
    ensures CaptureAt(DirectCall, ")", s, x).None?
  {
    if StartsWith(s[x..], "greet(") {
      NotAcross(pre, s, x, "greet(");
      InPrefix(pre, s, x, "greet(");
      assert false;
    }
    LitFails(s, x, "greet(", DirectCall);
  }

  /** With neither a `greet(` call nor a `userName`, the harness greets `Alice`. */
  lemma HarnessDefault(js: string)
    requires !Contains(js, "greet(") && !Contains(js, "userName")
    ensures HarnessName(js) == DefaultName
  {
    assert Lit("greet(") in DirectCall;
    assert Lit("userName") in UntypedUserName;
    NoCapture(DirectCall, ")", js, 0, "greet(");
    NoCapture(UntypedUserName, "", js, 0, "userName");
  }
}

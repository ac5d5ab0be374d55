/** The constructor rewrite of the class path (src/App.tsx:232-275): the
    parameter list of the first `constructor(...)` is cleaned of modifiers
    and types, and one `this.name = name;` per parameter that carries an
    access modifier is appended to the constructor body. */
module Ctor {
  import opened Text
  import opened Substitution
  import opened ParamList

  const Keyword := "constructor"

  /** The first `c` at or after `from`. */
  function NextChar(s: string, c: char, from: nat): (r: Option<nat>)
    requires from <= |s|
    ensures r.Some? ==> from <= r.value < |s| && s[r.value] == c
    decreases |s| - from
  {
    if from == |s| then None
    else if s[from] == c then Some(from)
    else NextChar(s, c, from + 1)
  }

  /** `constructor` is written at `i`. */
  predicate KeywordAt(s: string, i: nat) {
    i + |Keyword| <= |s| && s[i..i + |Keyword|] == Keyword
  }

  /** `pre` followed by `constructor` mentions `constructor` only at the end. */
  predicate FirstKeyword(pre: string) {
    forall x :: 0 <= x < |pre| ==> !KeywordAt(pre + Keyword, x)
  }

  /** `constructor\s*\(` at `i`: the index just after the parenthesis. */
  function OpenAt(s: string, i: nat): (r: Option<nat>)
    requires i <= |s|
    ensures r.Some? ==> KeywordAt(s, i) && i + |Keyword| < r.value <= |s| && s[r.value - 1] == '('
  {
    if KeywordAt(s, i) then
      var j := Skip(Space, s, i + |Keyword|);
      if At(s, j, '(') then Some(j + 1) else None
    else None
  }

  // ---------------------------------------------------------------------
  // `/constructor\s*\(([\s\S]*?)\)/`: the parameter list.

  /** A match of the parameter pattern: it starts at `start`, captures
      `s[from..close]` and ends with the `)` at `close`. */
  datatype Span = Span(start: nat, from: nat, close: nat)

  function ParamsAt(s: string, i: nat): (r: Option<Span>)
    requires i <= |s|
    ensures r.Some? ==> r.value.start == i < r.value.from <= r.value.close < |s|
    ensures r.Some? ==> s[r.value.close] == ')'
  {
    match OpenAt(s, i)
    case None => None
    case Some(a) =>
      match NextChar(s, ')', a)
      case None => None
      case Some(e) => Some(Span(i, a, e))
  }

  /** `exec`: the leftmost match at or after `i`. */
  function FindParams(s: string, i: nat): (r: Option<Span>)
    requires i <= |s|
    ensures r.Some? ==> i <= r.value.start < r.value.from <= r.value.close < |s|
    ensures r.Some? ==> ParamsAt(s, r.value.start) == r
    decreases |s| - i
  {
    match ParamsAt(s, i)
    case Some(m) => Some(m)
    case None => if i == |s| then None else FindParams(s, i + 1)
  }

  // ---------------------------------------------------------------------
  // `/constructor\s*\([\s\S]*?\)\s*{([\s\S]*?)}/`: the body.

  /** Where a body match ends up: the body is `s[open..close]` and `s[close]`
      is the closing brace. */
  datatype Block = Block(start: nat, open: nat, close: nat)

  /** The lazy parameter part stops at the first `)` from `p` on that a
      spaced `{` and, later, a `}` follow. */
  function BodyFrom(s: string, p: nat): (r: Option<(nat, nat)>)
    requires p <= |s|
    ensures r.Some? ==> p < r.value.0 <= r.value.1 < |s| && s[r.value.1] == '}'
    decreases |s| - p
  {
    match NextChar(s, ')', p)
    case None => None
    case Some(q) =>
      var b := Skip(Space, s, q + 1);
      if At(s, b, '{') then
        match NextChar(s, '}', b + 1)
        case Some(c) => Some((b + 1, c))
        case None => BodyFrom(s, q + 1)
      else BodyFrom(s, q + 1)
  }

  function BodyAt(s: string, i: nat): (r: Option<Block>)
    requires i <= |s|
    ensures r.Some? ==> r.value.start == i < r.value.open <= r.value.close < |s|
  {
    match OpenAt(s, i)
    case None => None
    case Some(a) =>
      match BodyFrom(s, a)
      case None => None
      case Some(oc) => Some(Block(i, oc.0, oc.1))
  }

  function FindBody(s: string, i: nat): (r: Option<Block>)
    requires i <= |s|
    ensures r.Some? ==> i <= r.value.start < r.value.open <= r.value.close < |s|
    decreases |s| - i
  {
    match BodyAt(s, i)
    case Some(b) => Some(b)
    case None => if i == |s| then None else FindBody(s, i + 1)
  }

  // ---------------------------------------------------------------------
  // `/constructor\s*\([\s\S]*?\)\s*{}/`: the empty body.

  /** The end of the first `)\s*{}` from `p` on. */
  function EmptyFrom(s: string, p: nat): (r: Option<nat>)
    requires p <= |s|
    ensures r.Some? ==> p < r.value <= |s|
    decreases |s| - p
  {
    match NextChar(s, ')', p)
    case None => None
    case Some(q) =>
      var b := Skip(Space, s, q + 1);
      if At(s, b, '{') && At(s, b + 1, '}') then Some(b + 2) else EmptyFrom(s, q + 1)
  }

  function EmptyAt(s: string, i: nat): (r: Option<(nat, nat)>)
    requires i <= |s|
    ensures r.Some? ==> r.value.0 == i < r.value.1 <= |s|
  {
    match OpenAt(s, i)
    case None => None
    case Some(a) =>
      match EmptyFrom(s, a)
      case None => None
      case Some(e) => Some((i, e))
  }

  function FindEmpty(s: string, i: nat): (r: Option<(nat, nat)>)
    requires i <= |s|
    ensures r.Some? ==> i <= r.value.0 < r.value.1 <= |s|
    decreases |s| - i
  {
    match EmptyAt(s, i)
    case Some(e) => Some(e)
    case None => if i == |s| then None else FindEmpty(s, i + 1)
  }

  /** An empty body `{}` is a body: wherever the empty-body pattern would
      match, the body pattern already does, so the `{}` fallback of
      src/App.tsx:266-271 never changes anything. */
  lemma {:induction false} EmptyFromBody(s: string, p: nat)
    requires p <= |s| && EmptyFrom(s, p).Some?
    ensures BodyFrom(s, p).Some?
    decreases |s| - p
  {
    var q := NextChar(s, ')', p).value;
    var b := Skip(Space, s, q + 1);
    if At(s, b, '{') && At(s, b + 1, '}') {
      EmptyHere(s, p, q, b);
    } else {
      EmptyFromBody(s, q + 1);
      EmptyLater(s, p, q);
    }
  }

  lemma EmptyHere(s: string, p: nat, q: nat, b: nat)
    requires p <= q < |s| && NextChar(s, ')', p) == Some(q) && b == Skip(Space, s, q + 1)
    requires At(s, b, '{') && At(s, b + 1, '}')
    ensures BodyFrom(s, p).Some?
  {
    assert NextChar(s, '}', b + 1) == Some(b + 1);
  }

  lemma EmptyLater(s: string, p: nat, q: nat)
    requires p <= q < |s| && NextChar(s, ')', p) == Some(q) && BodyFrom(s, q + 1).Some?
    ensures BodyFrom(s, p).Some?
  {
  }

  lemma {:induction false} EmptyIsBody(s: string, i: nat)
    requires i <= |s| && FindEmpty(s, i).Some?
    ensures FindBody(s, i).Some?
    decreases |s| - i
  {
    if EmptyAt(s, i).Some? {
      EmptyFromBody(s, OpenAt(s, i).value);
    } else if BodyAt(s, i).None? {
      EmptyIsBody(s, i + 1);
    }
  }

  // ---------------------------------------------------------------------
  // The rewrite.

  /** The parameter list replaced by its cleaned form (src/App.tsx:245). */
  function Rewritten(js: string, m: Span, clean: string): string
    requires m.start <= m.close < |js|
  {
    js[..m.start] + (Keyword + ("(" + (clean + ")"))) + js[m.close + 1..]
  }

  /** The assignments appended to the body of the first constructor that
      has one (src/App.tsx:259-273). */
  function Inserted(js: string, clean: string, props: seq<string>): string {
    if props == [] then js
    else match FindBody(js, 0)
      case Some(b) =>
        js[..b.start] + (Keyword + ("(" + (clean + (") {" + (js[b.open..b.close] + (Join(props, "\n") + "}"))))))
        + js[b.close + 1..]
      case None =>
        match FindEmpty(js, 0)
        case Some(e) => js[..e.0] + (Keyword + ("(" + (clean + (") {" + (Join(props, "\n") + "}"))))) + js[e.1..]
        case None => js
  }

  /** The whole constructor rewrite; nothing happens unless a
      `constructor(...)` with a non-empty parameter list is found. */
  function Synthesize(js: string): (r: string)
    ensures !Contains(js, Keyword) ==> r == js
  {
    NoKeywordNoParams(js, 0);
    match FindParams(js, 0)
    case None => js
    case Some(m) =>
      var params := js[m.from..m.close];
      if params == [] then js
      else
        var clean := CleanParams(params);
        Inserted(Rewritten(js, m, clean), clean, Assignments(PropertyNames(params)))
  }

  /** Without the word `constructor` there is no parameter list to find. */
  lemma {:induction false} NoKeywordNoParams(s: string, i: nat)
    requires i <= |s|
    ensures Contains(s, Keyword) || FindParams(s, i).None?
    decreases |s| - i
  {
    if KeywordAt(s, i) {
      StartsWithSlice(s[i..], Keyword);
      assert s[i..][..|Keyword|] == s[i..i + |Keyword|];
      ContainsAt(s, Keyword, i);
    } else if i < |s| {
      NoKeywordNoParams(s, i + 1);
    }
  }

  /** The rewrite as the source performs it, with the `exec` loop
      collecting the assignments. */
  method SynthesizeProperties(js: string) returns (r: string)
    ensures r == Synthesize(js)
  {
    var m := FindParams(js, 0);
    if m.None? {
      return js;
    }
    var params := js[m.value.from..m.value.close];
    if params == [] {
      return js;
    }
    var clean := CleanParams(params);
    var rewritten := Rewritten(js, m.value, clean);
    var props := CollectAssignments(params);
    r := Inserted(rewritten, clean, props);
  }

  // ---------------------------------------------------------------------
  // The body up to the brace that closes the constructor.

  /** The `}` at or after `from` that closes a block entered `depth` braces
      before `from`. */
  function MatchingClose(s: string, from: nat, depth: nat): (r: Option<nat>)
    requires from <= |s|
    ensures r.Some? ==> from <= r.value < |s| && s[r.value] == '}'
    decreases |s| - from
  {
    if from == |s| then None
    else if s[from] == '{' then MatchingClose(s, from + 1, depth + 1)
    else if s[from] == '}' then (if depth == 0 then Some(from) else MatchingClose(s, from + 1, depth - 1))
    else MatchingClose(s, from + 1, depth)
  }

  /** The nesting depth after reading `x` from depth `d`; `None` once a `}`
      closes more blocks than are open. */
  function DepthAfter(x: string, d: nat): Option<nat>
    decreases |x|
  {
    if x == [] then Some(d)
    else if x[0] == '{' then DepthAfter(x[1..], d + 1)
    else if x[0] == '}' then (if d == 0 then None else DepthAfter(x[1..], d - 1))
    else DepthAfter(x[1..], d)
  }

  /** Every `{` of `x` is closed within `x`, and no `}` of `x` closes more. */
  predicate Balanced(x: string) {
    DepthAfter(x, 0) == Some(0)
  }

  /** The constructor rewrite as src/App.tsx:258-273 evidently means it: the
      assignments go before the brace that closes the constructor body, found
      by counting braces, rather than before the first `}` after the
      parameter list. The parameter list is cleaned as before. */
  function SynthesizeBalanced(js: string): (r: string)
    ensures !Contains(js, Keyword) ==> r == js
  {
    NoKeywordNoParams(js, 0);
    match FindParams(js, 0)
    case None => js
    case Some(m) =>
      var params := js[m.from..m.close];
      if params == [] then js
      else
        var clean := CleanParams(params);
        InsertedBalanced(js, m, clean, Assignments(PropertyNames(params)))
  }

  /** The parameter list replaced by `clean` and, when there are assignments
      and a body follows the list, the assignments appended to that body. */
  function InsertedBalanced(js: string, m: Span, clean: string, props: seq<string>): string
    requires m.start <= m.close < |js|
  {
    var b := Skip(Space, js, m.close + 1);
    if props != [] && At(js, b, '{') then
      match MatchingClose(js, b + 1, 0)
      case Some(c) =>
        js[..m.start] + (Keyword + ("(" + (clean + (")" + (js[m.close + 1..c] + (Join(props, "\n") + "}")))))) + js[c + 1..]
      case None => Rewritten(js, m, clean)
    else Rewritten(js, m, clean)
  }

  /** A balanced body followed by `}`: that brace is the matching one. */
  lemma {:induction false} MatchingCloseOf(s: string, i: nat, d: nat, x: string, rest: string)
    requires i <= |s| && s[i..] == x + ("}" + rest) && DepthAfter(x, d) == Some(0)
    ensures MatchingClose(s, i, d) == Some(i + |x|)
    decreases |x|
  {
    assert s[i] == s[i..][0];
    if x != [] {
      assert s[i + 1..] == s[i..][1..] == x[1..] + ("}" + rest);
      if x[0] == '{' {
        MatchingCloseOf(s, i + 1, d + 1, x[1..], rest);
      } else if x[0] == '}' {
        MatchingCloseOf(s, i + 1, d - 1, x[1..], rest);
      } else {
        MatchingCloseOf(s, i + 1, d, x[1..], rest);
      }
    }
  }

  /** Text without braces leaves the depth as it is. */
  lemma {:induction false} FlatDepth(x: string, d: nat)
    requires '{' !in x && '}' !in x
    ensures DepthAfter(x, d) == Some(d)
    decreases |x|
  {
    if x != [] {
      assert x[0] in x;
      assert forall c :: c in x[1..] ==> c in x;
      FlatDepth(x[1..], d);
    }
  }

  /** The depth after `a + b` is the depth after `b`, read from the depth after `a`. */
  lemma {:induction false} DepthConcat(a: string, b: string, d: nat)
    ensures DepthAfter(a + b, d) == match DepthAfter(a, d) case None => None case Some(e) => DepthAfter(b, e)
    decreases |a|
  {
    if a == [] {
      assert a + b == b;
    } else {
      assert (a + b)[0] == a[0];
      assert (a + b)[1..] == a[1..] + b;
      if a[0] == '{' {
        DepthConcat(a[1..], b, d + 1);
      } else if a[0] == '}' {
        if d > 0 {
          DepthConcat(a[1..], b, d - 1);
        }
      } else {
        DepthConcat(a[1..], b, d);
      }
    }
  }

  // ---------------------------------------------------------------------
  // The rewrite of a constructor written out parameter by parameter.

  /** A constructor `constructor(<params>) {<body>}`, where this is the first
      `constructor` of the code and the body holds no `}`: its parameters
      become their bare names, and its body gains one assignment per
      parameter that carries an access modifier, in source order; without
      such a parameter the body is left as it is. */
  lemma SynthesizeRendered(pre: string, ps: seq<Param>, body: string, post: string)
    requires AllValid(ps) && ps != [] && '}' !in body
    requires FirstKeyword(pre)
    ensures var s := pre + (Keyword + ("(" + (RenderList(ps) + (") {" + (body + ("}" + post))))));
            var clean := Join(Names(ps), ", ");
            && (ModifiedNames(ps) == [] ==>
                  Synthesize(s) == pre + (Keyword + ("(" + (clean + (") {" + (body + ("}" + post)))))))
            && (ModifiedNames(ps) != [] ==>
                  Synthesize(s) == pre + (Keyword + ("(" + (clean + (") {" + (body + (Join(Assignments(ModifiedNames(ps)), "\n") + "}"))))))
                                   + post)
  {
    var clean := Join(Names(ps), ", ");
    var s1 := pre + (Keyword + ("(" + (clean + (") {" + (body + ("}" + post))))));
    SynthesizeStep(pre, ps, body, post);
    if ModifiedNames(ps) != [] {
      NamesNoParen(ps);
      InsertedFound(pre, clean, body, post, s1, Assignments(ModifiedNames(ps)));
    }
  }

  /** The parameter list is found and cleaned; what is left is inserting
      the assignments. */
  lemma SynthesizeStep(pre: string, ps: seq<Param>, body: string, post: string)
    requires AllValid(ps) && ps != [] && '}' !in body
    requires FirstKeyword(pre)
    ensures var clean := Join(Names(ps), ", ");
            Synthesize(pre + (Keyword + ("(" + (RenderList(ps) + (") {" + (body + ("}" + post)))))))
            == Inserted(pre + (Keyword + ("(" + (clean + (") {" + (body + ("}" + post)))))), clean, Assignments(ModifiedNames(ps)))
  {
    var s := pre + (Keyword + ("(" + (RenderList(ps) + (") {" + (body + ("}" + post))))));
    var params := RenderList(ps);
    var clean := Join(Names(ps), ", ");
    var tail := " {" + (body + ("}" + post));
    assert ") {" + (body + ("}" + post)) == ")" + tail;
    RenderNoParen(ps);
    var m := ParamsFound(pre, params, tail, s);
    CleanParamsRendered(ps);
    PropertyNamesRendered(ps);
    RewrittenOf(s, m, pre, params, clean, tail);
  }

  /** `constructor` at `|pre|` is the first one when `pre + constructor`
      holds no earlier one. */
  lemma KeywordNotBefore(pre: string, s: string, x: nat)
    requires FirstKeyword(pre)
    requires |pre| + |Keyword| <= |s| && s[..|pre| + |Keyword|] == pre + Keyword && x < |pre|
    ensures !KeywordAt(s, x)
  {
    var t := pre + Keyword;
    assert !KeywordAt(t, x);
    assert s[x..x + |Keyword|] == t[x..x + |Keyword|];
  }

  lemma Split3(a: string, b: string, c: string)
    ensures (a + (b + c))[|a|..] == b + c
    ensures (a + (b + c))[..|a| + |b|] == a + b
  {
    assert (a + (b + c))[..|a| + |b|] == (a + b + c)[..|a| + |b|];
  }

  /** Where the text continues with `constructor(`. */
  lemma OpenOf(s: string, i: nat, rest: string)
    requires i <= |s| && s[i..] == Keyword + ("(" + rest)
    ensures OpenAt(s, i) == Some(i + |Keyword| + 1) && i + |Keyword| + 1 <= |s| && s[i + |Keyword| + 1..] == rest
  {
    SliceOfPrefix(s, i, Keyword, "(" + rest);
    var k := i + |Keyword|;
    SliceOfPrefix(s, k, "(", rest);
    assert s[k] == s[k..][0] == '(';
    SkipFrom(Space, s, k, "", "(" + rest);
  }

  /** The first `c` of a text that continues with `x`, then `c`. */
  lemma NextCharOf(s: string, c: char, i: nat, x: string, rest: string)
    requires i <= |s| && s[i..] == x + ([c] + rest) && c !in x
    ensures NextChar(s, c, i) == Some(i + |x|) && s[i..i + |x|] == x && s[i + |x| + 1..] == rest
  {
    SliceOfPrefix(s, i, x, [c] + rest);
    SliceOfPrefix(s, i + |x|, [c], rest);
    NextCharSkips(s, c, i, x, rest);
  }

  lemma {:induction false} NextCharSkips(s: string, c: char, i: nat, x: string, rest: string)
    requires i <= |s| && s[i..] == x + ([c] + rest) && c !in x
    ensures NextChar(s, c, i) == Some(i + |x|)
    decreases |x|
  {
    assert s[i] == s[i..][0];
    if x != [] {
      assert s[i + 1..] == s[i..][1..] == x[1..] + ([c] + rest);
      NextCharSkips(s, c, i + 1, x[1..], rest);
    }
  }

  lemma {:induction false} FindParamsFrom(s: string, from: nat, i: nat)
    requires from <= i <= |s| && ParamsAt(s, i).Some?
    requires forall x :: from <= x < i ==> ParamsAt(s, x).None?
    ensures FindParams(s, from) == ParamsAt(s, i)
    decreases i - from
  {
    if from < i {
      FindParamsStep(s, from);
      FindParamsFrom(s, from + 1, i);
    }
  }

  lemma FindParamsStep(s: string, x: nat)
    requires x < |s| && ParamsAt(s, x).None?
    ensures FindParams(s, x) == FindParams(s, x + 1)
  {
  }

  lemma {:induction false} FindBodyFrom(s: string, from: nat, i: nat)
    requires from <= i <= |s| && BodyAt(s, i).Some?
    requires forall x :: from <= x < i ==> BodyAt(s, x).None?
    ensures FindBody(s, from) == BodyAt(s, i)
    decreases i - from
  {
    if from < i {
      FindBodyStep(s, from);
      FindBodyFrom(s, from + 1, i);
    }
  }

  lemma FindBodyStep(s: string, x: nat)
    requires x < |s| && BodyAt(s, x).None?
    ensures FindBody(s, x) == FindBody(s, x + 1)
  {
  }

  /** The parameter pattern finds the list written after the first `constructor(`. */
  lemma ParamsFound(pre: string, params: string, tail: string, s: string) returns (m: Span)
    requires FirstKeyword(pre) && ')' !in params
    requires s == pre + (Keyword + ("(" + (params + (")" + tail))))
    ensures FindParams(s, 0) == Some(m) && m.start == |pre| && m.start <= m.close < |s|
    ensures s[m.from..m.close] == params && s[..m.start] == pre && s[m.close + 1..] == tail
  {
    var i := |pre|;
    Split3(pre, Keyword, "(" + (params + (")" + tail)));
    m := ParamsAtOf(s, i, params, tail);
    ParamsLeftmost(pre, s);
  }

  lemma ParamsAtOf(s: string, i: nat, params: string, tail: string) returns (m: Span)
    requires i <= |s| && s[i..] == Keyword + ("(" + (params + (")" + tail))) && ')' !in params
    ensures ParamsAt(s, i) == Some(m) && m.start == i && m.close < |s|
    ensures s[m.from..m.close] == params && s[m.close + 1..] == tail
  {
    OpenOf(s, i, params + (")" + tail));
    var a := i + |Keyword| + 1;
    assert ")" + tail == [')'] + tail;
    NextCharOf(s, ')', a, params, tail);
    m := Span(i, a, a + |params|);
    ParamsAtFrom(s, i, a, a + |params|);
  }

  lemma ParamsAtFrom(s: string, i: nat, a: nat, e: nat)
    requires i <= |s| && a <= |s| && OpenAt(s, i) == Some(a) && NextChar(s, ')', a) == Some(e)
    ensures ParamsAt(s, i) == Some(Span(i, a, e))
  {
  }

  lemma ParamsLeftmost(pre: string, s: string)
    requires FirstKeyword(pre) && |pre| + |Keyword| <= |s| && s[..|pre| + |Keyword|] == pre + Keyword
    requires ParamsAt(s, |pre|).Some?
    ensures FindParams(s, 0) == ParamsAt(s, |pre|)
  {
    forall x | 0 <= x < |pre| ensures ParamsAt(s, x).None? {
      KeywordNotBefore(pre, s, x);
    }
    FindParamsFrom(s, 0, |pre|);
  }

  lemma RewrittenOf(s: string, m: Span, pre: string, params: string, clean: string, tail: string)
    requires m.start <= m.close < |s| && s[..m.start] == pre && s[m.close + 1..] == tail
    ensures Rewritten(s, m, clean) == pre + (Keyword + ("(" + (clean + (")" + tail))))
  {
  }

  /** With at least one assignment, the body found is the one written after
      the cleaned parameter list. */
  lemma InsertedFound(pre: string, clean: string, body: string, post: string, s1: string, props: seq<string>)
    requires FirstKeyword(pre) && ')' !in clean && '}' !in body && props != []
    requires s1 == pre + (Keyword + ("(" + (clean + (") {" + (body + ("}" + post))))))
    ensures Inserted(s1, clean, props)
         == pre + (Keyword + ("(" + (clean + (") {" + (body + (Join(props, "\n") + "}")))))) + post
  {
    var b := BodyFound(pre, clean, body, post, s1);
  }

  lemma BodyFound(pre: string, clean: string, body: string, post: string, s1: string) returns (b: Block)
    requires FirstKeyword(pre) && ')' !in clean && '}' !in body
    requires s1 == pre + (Keyword + ("(" + (clean + (") {" + (body + ("}" + post))))))
    ensures FindBody(s1, 0) == Some(b) && b.start == |pre| && b.open <= b.close < |s1|
    ensures s1[..b.start] == pre && s1[b.open..b.close] == body && s1[b.close + 1..] == post
  {
    var i := |pre|;
    Split3(pre, Keyword, "(" + (clean + (") {" + (body + ("}" + post)))));
    var o := BodyAtOf(s1, i, clean, body, post);
    b := Block(i, o, o + |body|);
    BodyLeftmost(pre, s1);
  }

  lemma BodyAtOf(s: string, i: nat, clean: string, body: string, post: string) returns (o: nat)
    requires i <= |s| && s[i..] == Keyword + ("(" + (clean + (") {" + (body + ("}" + post)))))
    requires ')' !in clean && '}' !in body
    ensures BodyAt(s, i) == Some(Block(i, o, o + |body|)) && o + |body| < |s|
    ensures s[o..o + |body|] == body && s[o + |body| + 1..] == post
  {
    var a := i + |Keyword| + 1;
    var rest := clean + (") {" + (body + ("}" + post)));
    OpenOf(s, i, rest);
    o := BraceAfter(s, a, clean, body, post);
    BodyAtFrom(s, i, a, o, o + |body|);
  }

  lemma BodyAtFrom(s: string, i: nat, a: nat, o: nat, c: nat)
    requires i <= |s| && a <= |s| && OpenAt(s, i) == Some(a) && BodyFrom(s, a) == Some((o, c))
    ensures BodyAt(s, i) == Some(Block(i, o, c))
  {
  }

  lemma BodyLeftmost(pre: string, s: string)
    requires FirstKeyword(pre) && |pre| + |Keyword| <= |s| && s[..|pre| + |Keyword|] == pre + Keyword
    requires BodyAt(s, |pre|).Some?
    ensures FindBody(s, 0) == BodyAt(s, |pre|)
  {
    forall x | 0 <= x < |pre| ensures BodyAt(s, x).None? {
      KeywordNotBefore(pre, s, x);
    }
    FindBodyFrom(s, 0, |pre|);
  }

  /** The lazy parameter part stops at the `)` before ` {`. */
  lemma BraceAfter(s: string, a: nat, clean: string, body: string, post: string) returns (o: nat)
    requires a <= |s| && s[a..] == clean + (") {" + (body + ("}" + post))) && ')' !in clean && '}' !in body
    ensures BodyFrom(s, a) == Some((o, o + |body|)) && o + |body| < |s|
    ensures s[o..o + |body|] == body && s[o + |body| + 1..] == post
  {
    BraceText(body + ("}" + post));
    var q := ParenThenBrace(s, a, clean, body + ("}" + post));
    o := q + 3;
    NextCharOf(s, '}', o, body, post);
    BodyFromOf(s, a, q, o, o + |body|);
  }

  lemma BraceText(x: string)
    ensures ") {" + x == [')'] + (" " + ("{" + x))
  {
  }

  /** `clean`, its `)`, one space and a `{`. */
  lemma ParenThenBrace(s: string, a: nat, clean: string, rest: string) returns (q: nat)
    requires a <= |s| && s[a..] == clean + ([')'] + (" " + ("{" + rest))) && ')' !in clean
    ensures q == a + |clean| && q + 3 <= |s| && NextChar(s, ')', a) == Some(q)
    ensures Skip(Space, s, q + 1) == q + 2 && At(s, q + 2, '{') && s[q + 3..] == rest
  {
    NextCharOf(s, ')', a, clean, " " + ("{" + rest));
    q := a + |clean|;
    SkipFrom(Space, s, q + 1, " ", "{" + rest);
    SliceOfPrefix(s, q + 1, " ", "{" + rest);
    SliceOfPrefix(s, q + 2, "{", rest);
    assert s[q + 2] == s[q + 2..][0] == '{';
  }

  lemma BodyFromOf(s: string, a: nat, q: nat, o: nat, c: nat)
    requires a <= q && o == q + 3 && o <= c < |s| && NextChar(s, ')', a) == Some(q)
    requires Skip(Space, s, q + 1) == q + 2 && At(s, q + 2, '{') && NextChar(s, '}', o) == Some(c)
    ensures BodyFrom(s, a) == Some((o, c))
  {
  }

  /** A rendered parameter list holds no `)`. */
  lemma {:induction false} RenderNoParen(ps: seq<Param>)
    requires AllValid(ps)
    ensures ')' !in RenderList(ps)
    decreases |ps|
  {
    if ps != [] {
      RenderOneNoParen(ps[0]);
      if |ps| > 1 {
        RenderNoParen(ps[1..]);
      }
    }
  }

  lemma RenderOneNoParen(p: Param)
    requires Valid(p)
    ensures ')' !in Render(p)
  {
    if p.modifier.Some? {
      assert forall w :: w in AccessModifiers ==> ')' !in w;
    }
    if p.typ.Some? {
      assert forall i :: 0 <= i < |p.typ.value| ==> p.typ.value[i] != ')';
    }
    assert forall i :: 0 <= i < |p.name| ==> p.name[i] != ')';
  }

  /** Nor does the list of bare names. */
  lemma NamesNoParen(ps: seq<Param>)
    requires AllValid(ps)
    ensures ')' !in Join(Names(ps), ", ")
  {
    forall k | 0 <= k < |Names(ps)| ensures ')' !in Names(ps)[k] {
      assert ValidName(ps[k].name);
    }
    JoinNoChar(Names(ps), ", ", ')');
  }

  lemma {:induction false} JoinNoChar(parts: seq<string>, sep: string, c: char)
    requires c !in sep && forall k :: 0 <= k < |parts| ==> c !in parts[k]
    ensures c !in Join(parts, sep)
    decreases |parts|
  {
    if |parts| > 1 {
      JoinNoChar(parts[..|parts| - 1], sep, c);
    }
  }

  // ---------------------------------------------------------------------
  // A constructor body with a nested block.

  /** As written, the lazy body `{([\s\S]*?)}` ends at the first `}`: when
      the constructor body holds a block, the assignments are inserted into
      that block, before its own closing brace, and the rest of the
      constructor body follows them. */
  lemma NestedBodyCut(pre: string, ps: seq<Param>, outer: string, inner: string, after: string, post: string)
    requires AllValid(ps) && ps != [] && FirstKeyword(pre) && ModifiedNames(ps) != []
    requires '}' !in outer && '}' !in inner
    ensures var upToBlock := outer + ("{" + inner);
            var s := pre + (Keyword + ("(" + (RenderList(ps) + (") {" + (upToBlock + ("}" + (after + ("}" + post))))))));
            Synthesize(s)
            == pre + (Keyword + ("(" + (Join(Names(ps), ", ") + (") {" + (upToBlock + (Join(Assignments(ModifiedNames(ps)), "\n") + "}"))))))
               + (after + ("}" + post))
  {
    var upToBlock := outer + ("{" + inner);
    assert forall c :: c in upToBlock ==> c in outer || c == '{' || c in inner;
    SynthesizeRendered(pre, ps, upToBlock, after + ("}" + post));
  }

  /** A constructor `constructor(<params>) {<body>}` whose body is balanced,
      the first `constructor` of the code: its parameters become their bare
      names and, when some carry an access modifier, their assignments go at
      the end of the whole body, before the brace that closes it. */
  lemma SynthesizeBalancedRendered(pre: string, ps: seq<Param>, body: string, post: string)
    requires AllValid(ps) && ps != [] && Balanced(body)
    requires FirstKeyword(pre)
    ensures var s := pre + (Keyword + ("(" + (RenderList(ps) + (") {" + (body + ("}" + post))))));
            var clean := Join(Names(ps), ", ");
            && (ModifiedNames(ps) == [] ==>
                  SynthesizeBalanced(s) == pre + (Keyword + ("(" + (clean + (") {" + (body + ("}" + post)))))))
            && (ModifiedNames(ps) != [] ==>
                  SynthesizeBalanced(s) == pre + (Keyword + ("(" + (clean + (") {" + (body + (Join(Assignments(ModifiedNames(ps)), "\n") + "}"))))))
                                           + post)
  {
    var s := pre + (Keyword + ("(" + (RenderList(ps) + (") {" + (body + ("}" + post))))));
    var clean := Join(Names(ps), ", ");
    var props := Assignments(ModifiedNames(ps));
    var m := BalancedStepRendered(pre, ps, body, post);
    if props != [] {
      var c := BalancedClose(s, m.close + 1, body, post);
      BalancedFound(s, m, clean, props, c);
      BalancedJoin(pre, clean, s[m.close + 1..c], body, Join(props, "\n"), post);
    }
  }

  lemma BalancedJoin(pre: string, clean: string, x: string, body: string, j: string, post: string)
    requires x == " {" + body
    ensures pre + (Keyword + ("(" + (clean + (")" + (x + (j + "}")))))) + post
         == pre + (Keyword + ("(" + (clean + (") {" + (body + (j + "}")))))) + post
  {
    assert ")" + (x + (j + "}")) == ") {" + (body + (j + "}"));
  }

  /** The intended rewrite finds and cleans the rendered list as written. */
  lemma BalancedStepRendered(pre: string, ps: seq<Param>, body: string, post: string) returns (m: Span)
    requires AllValid(ps) && ps != [] && FirstKeyword(pre)
    ensures var s := pre + (Keyword + ("(" + (RenderList(ps) + (") {" + (body + ("}" + post))))));
            && m.start <= m.close < |s| && s[..m.start] == pre && s[m.close + 1..] == " {" + (body + ("}" + post))
            && SynthesizeBalanced(s) == InsertedBalanced(s, m, Join(Names(ps), ", "), Assignments(ModifiedNames(ps)))
            && (ModifiedNames(ps) == [] ==>
                  SynthesizeBalanced(s) == pre + (Keyword + ("(" + (Join(Names(ps), ", ") + (") {" + (body + ("}" + post)))))))
  {
    var s := pre + (Keyword + ("(" + (RenderList(ps) + (") {" + (body + ("}" + post))))));
    var params := RenderList(ps);
    var clean := Join(Names(ps), ", ");
    var tail := " {" + (body + ("}" + post));
    assert ") {" + (body + ("}" + post)) == ")" + tail;
    RenderNoParen(ps);
    m := ParamsFound(pre, params, tail, s);
    CleanParamsRendered(ps);
    PropertyNamesRendered(ps);
    RewrittenOf(s, m, pre, params, clean, tail);
    BalancedStep(s, m);
  }

  /** The intended rewrite where the body's closing brace is found. */
  lemma BalancedFound(s: string, m: Span, clean: string, props: seq<string>, c: nat)
    requires m.start <= m.close < |s| && props != []
    requires Skip(Space, s, m.close + 1) == m.close + 2 && At(s, m.close + 2, '{')
    requires MatchingClose(s, m.close + 3, 0) == Some(c)
    ensures m.close + 1 <= c < |s|
    ensures InsertedBalanced(s, m, clean, props)
         == s[..m.start] + (Keyword + ("(" + (clean + (")" + (s[m.close + 1..c] + (Join(props, "\n") + "}")))))) + s[c + 1..]
  {
  }

  /** The list is found and cleaned; what is left is inserting the assignments. */
  lemma BalancedStep(s: string, m: Span)
    requires FindParams(s, 0) == Some(m) && s[m.from..m.close] != []
    ensures SynthesizeBalanced(s)
         == InsertedBalanced(s, m, CleanParams(s[m.from..m.close]), Assignments(PropertyNames(s[m.from..m.close])))
  {
  }

  /** After the parameter list: a space, `{`, a balanced body and its `}`. */
  lemma BalancedClose(s: string, a: nat, body: string, post: string) returns (c: nat)
    requires a <= |s| && s[a..] == " {" + (body + ("}" + post)) && Balanced(body)
    ensures Skip(Space, s, a) == a + 1 && At(s, a + 1, '{')
    ensures MatchingClose(s, a + 2, 0) == Some(c) && c < |s|
    ensures s[a..c] == " {" + body && s[c + 1..] == post
  {
    SpaceBrace(s, a, body + ("}" + post));
    MatchingCloseOf(s, a + 2, 0, body, post);
    c := a + 2 + |body|;
    BodyThenBrace(s, a, body, post);
  }

  /** One space and a `{`. */
  lemma SpaceBrace(s: string, a: nat, x: string)
    requires a <= |s| && s[a..] == " {" + x
    ensures Skip(Space, s, a) == a + 1 && At(s, a + 1, '{') && a + 2 <= |s| && s[a + 2..] == x
  {
    assert " {" + x == " " + ("{" + x);
    SliceOfPrefix(s, a, " ", "{" + x);
    SkipFrom(Space, s, a, " ", "{" + x);
    SliceOfPrefix(s, a + 1, "{", x);
    assert s[a + 1] == s[a + 1..][0];
  }

  /** The text up to the body's `}` and the text after it. */
  lemma BodyThenBrace(s: string, a: nat, body: string, post: string)
    requires a <= |s| && s[a..] == " {" + (body + ("}" + post))
    ensures a + 2 + |body| < |s| && s[a..a + 2 + |body|] == " {" + body && s[a + 3 + |body|..] == post
  {
    assert " {" + (body + ("}" + post)) == (" {" + body) + ("}" + post);
    SliceOfPrefix(s, a, " {" + body, "}" + post);
    SliceOfPrefix(s, a + 2 + |body|, "}", post);
  }

  /** Where the constructor body holds no brace at all, the intended rewrite
      and the rewrite as written agree. */
  lemma FlatBodyAgrees(pre: string, ps: seq<Param>, body: string, post: string)
    requires AllValid(ps) && ps != [] && FirstKeyword(pre)
    requires '{' !in body && '}' !in body
    ensures var s := pre + (Keyword + ("(" + (RenderList(ps) + (") {" + (body + ("}" + post))))));
            SynthesizeBalanced(s) == Synthesize(s)
  {
    FlatDepth(body, 0);
    SynthesizeRendered(pre, ps, body, post);
    SynthesizeBalancedRendered(pre, ps, body, post);
  }

  /** With a nested block, the intended rewrite puts the assignments after
      the rest of the constructor body, not inside the block. */
  lemma NestedBodyKept(pre: string, ps: seq<Param>, outer: string, inner: string, after: string, post: string)
    requires AllValid(ps) && ps != [] && FirstKeyword(pre) && ModifiedNames(ps) != []
    requires '{' !in outer && '}' !in outer && '{' !in inner && '}' !in inner && '{' !in after && '}' !in after
    ensures var body := outer + ("{" + (inner + ("}" + after)));
            var s := pre + (Keyword + ("(" + (RenderList(ps) + (") {" + (body + ("}" + post))))));
            SynthesizeBalanced(s)
            == pre + (Keyword + ("(" + (Join(Names(ps), ", ") + (") {" + (body + (Join(Assignments(ModifiedNames(ps)), "\n") + "}")))))) + post
  {
    var body := outer + ("{" + (inner + ("}" + after)));
    FlatDepth(outer, 0);
    FlatDepth(inner, 1);
    FlatDepth(after, 0);
    DepthConcat(inner, "}" + after, 1);
    DepthConcat("}", after, 1);
    assert DepthAfter("}", 1) == Some(0);
    DepthConcat("{", inner + ("}" + after), 0);
    assert DepthAfter("{", 0) == Some(1);
    DepthConcat(outer, "{" + (inner + ("}" + after)), 0);
    SynthesizeBalancedRendered(pre, ps, body, post);
  }
}

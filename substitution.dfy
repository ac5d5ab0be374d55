/** The regular-expression substitutions of the run pipeline, one matcher per
    pattern, and the left-to-right scan that `String.prototype.replace` with a
    global pattern performs.

    Every pattern here is deterministic once its greedy runs are taken as long
    as possible: what follows each run can never start inside that run, so the
    backtracking of a regular-expression engine never finds another way to
    match. The two exceptions are written out: the lazy bodies `[\s\S]*?X`
    stop at the first `X`, and `T+\[\]` ends at the last `[]` inside the run. */
module Substitution {
  import opened Text

  /** One global `.replace(pattern, replacement)` of src/App.tsx.
      `T` abbreviates the class `[\w\[\]<>|&]` and `MOD` the alternation
      `public|private|protected|readonly`. */
  datatype Rule =
    | ParamAnnotation     // (\w+)\s*:\s*T+\s*(?=[,)])                      -> $1
    | ArrayVarAnnotation  // (const|let|var)\s+(\w+)\s*:\s*T+\[\]\s*=       -> $1 $2 =
    | VarAnnotation       // (\bconst|\blet|\bvar)\s+(\w+)\s*:\s*T+\s*=    -> $1 $2 =
    | ArrowReturn         // \)\s*:\s*T+\s*=>                              -> ) =>
    | FunctionReturn      // \)\s*:\s*T+\s*\{                              -> ) {
    | TypeAlias           // type\s+[\w<>]+\s*=[\s\S]*?;                   -> (nothing)
    | Interface           // interface\s+[\w<>]+\s*\{[\s\S]*?\}            -> (nothing)
    | Generic             // <[\w\s,]+>                                    -> (nothing)
    | CtorModifier        // (constructor\s*\()(?:MOD)\s+(\w+)(?:\s*:\s*T+)? -> $1$2
    | Assertion           // \s+as\s+T+                                    -> (nothing)
    | Extends             // class\s+(\w+)\s+extends\s+(\w+)(?:<[\w\s,]+>)? -> class $1 extends $2
    | MethodSignature     // (\w+)\s*\(\s*([^)]*)\s*\)\s*:\s*T+            -> $1($2)
    | Annotation          // \w+\s*:\s*T+                                  -> the name before ':'
    | ArrayAnnotation     // (\w+)\s*:\s*T+\[\]                            -> $1
    | MemberModifier      // (private|public|protected)\s+(static\s+)?(\w+) -> $2$3
    | TypeRemnant         // :\s*T+                                        -> (nothing)
    | ModifiedParam       // (?:MOD)\s+(\w+)(?:\s*:\s*T+)?                 -> $1

  /** A match at the start of the remaining text: how many characters it
      covers and the text that replaces them (for `ModifiedParam`, also the
      captured parameter name). */
  datatype Hit = Hit(len: nat, text: string)

  const Declarators: seq<string> := ["const", "let", "var"]
  const AccessModifiers: seq<string> := ["public", "private", "protected", "readonly"]
  const MemberModifiers: seq<string> := ["private", "public", "protected"]

  /** Length of the first of `words` that `s` starts with, or 0: an alternation
      of words none of which is a prefix of another. */
  function KeywordLen(s: string, words: seq<string>): (n: nat)
    ensures n <= |s|
  {
    if words == [] then 0
    else if words[0] != [] && StartsWith(s, words[0]) then |words[0]|
    else KeywordLen(s, words[1..])
  }

  /** A keyword found at the start of the text is one of the words. */
  lemma {:induction false} KeywordLenIn(s: string, words: seq<string>)
    ensures KeywordLen(s, words) > 0 ==> s[..KeywordLen(s, words)] in words
  {
    if words != [] {
      if words[0] != [] && StartsWith(s, words[0]) {
        StartsWithSlice(s, words[0]);
      } else {
        KeywordLenIn(s, words[1..]);
      }
    }
  }

  /** `\s*:\s*T+` from index `i`: the start and the end of the type run. */
  function AnnotationSpan(s: string, i: nat): (r: Option<(nat, nat)>)
    requires i <= |s|
    ensures r.Some? ==> i < r.value.0 < r.value.1 <= |s|
  {
    var c := Skip(Space, s, i);
    if !At(s, c, ':') then None
    else
      var j := Skip(Space, s, c + 1);
      var e := Skip(TypeName, s, j);
      if e == j then None else Some((j, e))
  }

  function AnnotationEnd(s: string, i: nat): (r: Option<nat>)
    requires i <= |s|
    ensures r.Some? ==> i < r.value <= |s|
  {
    match AnnotationSpan(s, i)
    case None => None
    case Some((_, e)) => Some(e)
  }

  /** `: T` followed by the end of the text or a comma: the annotation spans it. */
  lemma TypedEnd(s: string, i: nat, t: string, rest: string)
    requires i <= |s| && s[i..] == ":" + (" " + (t + rest))
    requires t != [] && forall x :: 0 <= x < |t| ==> InClass(t[x], TypeName)
    requires rest == [] || rest[0] == ','
    ensures AnnotationEnd(s, i) == Some(i + 2 + |t|)
  {
    assert Skip(Space, s, i) == i by {
      assert s[i..][0] == ':';
    }
    assert At(s, i, ':') by {
      assert s[i] == s[i..][0];
    }
    assert Skip(Space, s, i + 1) == i + 2 by {
      assert s[i + 1..] == s[i..][1..] == " " + (t + rest);
      assert (t + rest)[0] == t[0];
      SkipFrom(Space, s, i + 1, " ", t + rest);
    }
    assert Skip(TypeName, s, i + 2) == i + 2 + |t| by {
      assert s[i + 2..] == s[i..][2..] == t + rest;
      SkipFrom(TypeName, s, i + 2, t, rest);
    }
  }

  /** No annotation starts at the end of the text or at a comma. */
  lemma UntypedEnd(s: string, i: nat)
    requires i <= |s| && (i == |s| || s[i] == ',')
    ensures AnnotationEnd(s, i) == None
  {
    assert Skip(Space, s, i) == i by {
      assert i < |s| ==> s[i..][0] == s[i];
    }
  }

  /** `(?:\s*:\s*T+)?` from index `i`: where the optional annotation ends. */
  function OptionalAnnotationEnd(s: string, i: nat): (e: nat)
    requires i <= |s|
    ensures i <= e <= |s|
  {
    match AnnotationEnd(s, i)
    case Some(e) => e
    case None => i
  }

  /** The largest `q` with `lo <= q` and `q + 2 <= hi` where `[]` starts. */
  function LastBrackets(s: string, lo: nat, hi: nat): (r: Option<nat>)
    requires hi <= |s|
    ensures r.Some? ==> lo <= r.value && r.value + 2 <= hi && s[r.value] == '[' && s[r.value + 1] == ']'
    decreases hi
  {
    if hi < lo + 2 then None
    else if s[hi - 2] == '[' && s[hi - 1] == ']' then Some(hi - 2)
    else LastBrackets(s, lo, hi - 1)
  }

  /** `\s+as\s+` somewhere in the text: the trigger of the type-assertion rule. */
  predicate SpacedAs(s: string)
    decreases |s|
  {
    (|s| >= 4 && IsSpace(s[0]) && s[1] == 'a' && s[2] == 's' && IsSpace(s[3]))
    || (|s| > 0 && SpacedAs(s[1..]))
  }

  lemma {:induction false} SpacedAsAt(s: string, k: nat)
    requires k + 4 <= |s| && IsSpace(s[k]) && s[k + 1] == 'a' && s[k + 2] == 's' && IsSpace(s[k + 3])
    ensures SpacedAs(s)
  {
    if k > 0 {
      assert s[1..][k - 1..] == s[k..];
      SpacedAsAt(s[1..], k - 1);
    }
  }

  lemma {:induction false} SpacedAsSuffix(s: string, k: nat)
    requires k <= |s| && SpacedAs(s[k..])
    ensures SpacedAs(s)
    decreases |s| - k
  {
    if k > 0 {
      var t := s[k..];
      if |t| >= 4 && IsSpace(t[0]) && t[1] == 'a' && t[2] == 's' && IsSpace(t[3]) {
        SpacedAsAt(s, k);
      } else {
        assert s[k + 1..] == t[1..];
        SpacedAsSuffix(s, k + 1);
      }
    }
  }

  /** The text a rule needs before it can change anything: a rule whose
      trigger is absent leaves the text as it is (`ReplaceUntriggered`). */
  predicate Triggered(rule: Rule, s: string) {
    match rule
    case Generic => '<' in s
    case TypeAlias => Contains(s, "type")
    case Interface => Contains(s, "interface")
    case CtorModifier => Contains(s, "constructor")
    case Assertion => SpacedAs(s)
    case Extends => Contains(s, "extends")
    case MemberModifier => Contains(s, "private") || Contains(s, "public") || Contains(s, "protected")
    case ModifiedParam =>
      Contains(s, "public") || Contains(s, "private") || Contains(s, "protected") || Contains(s, "readonly")
    case _ => ':' in s
  }

  lemma TriggeredSuffix(rule: Rule, s: string, k: nat)
    requires k <= |s| && Triggered(rule, s[k..])
    ensures Triggered(rule, s)
  {
    match rule
    case Assertion => SpacedAsSuffix(s, k);
    case TypeAlias => ContainsSuffix(s, k, "type");
    case Interface => ContainsSuffix(s, k, "interface");
    case CtorModifier => ContainsSuffix(s, k, "constructor");
    case Extends => ContainsSuffix(s, k, "extends");
    case MemberModifier =>
      if Contains(s[k..], "private") { ContainsSuffix(s, k, "private"); }
      else if Contains(s[k..], "public") { ContainsSuffix(s, k, "public"); }
      else { ContainsSuffix(s, k, "protected"); }
    case ModifiedParam =>
      if Contains(s[k..], "public") { ContainsSuffix(s, k, "public"); }
      else if Contains(s[k..], "private") { ContainsSuffix(s, k, "private"); }
      else if Contains(s[k..], "protected") { ContainsSuffix(s, k, "protected"); }
      else { ContainsSuffix(s, k, "readonly"); }
    case _ =>
  }

  // ---------------------------------------------------------------------
  // One matcher per pattern. Each is tried at the start of the remaining
  // text `s`; `prev` is the character before it in the original text, which
  // only the word boundary `\b` of `VarAnnotation` looks at.

  function MatchParamAnnotation(s: string): (r: Option<Hit>)
    ensures r.Some? ==> 0 < r.value.len <= |s|
  {
    var w := Run(Word, s);
    if w == 0 then None
    else match AnnotationEnd(s, w)
      case None => None
      case Some(e) =>
        var k := Skip(Space, s, e);
        if At(s, k, ',') || At(s, k, ')') then Some(Hit(k, s[..w])) else None
  }

  function MatchArrayVarAnnotation(s: string): (r: Option<Hit>)
    ensures r.Some? ==> 0 < r.value.len <= |s|
  {
    var d := KeywordLen(s, Declarators);
    var a := Skip(Space, s, d);
    var n := Skip(Word, s, a);
    if d == 0 || a == d || n == a then None
    else match AnnotationSpan(s, n)
      case None => None
      case Some((j, e)) =>
        if e - j < 3 || s[e - 2] != '[' || s[e - 1] != ']' then None
        else
          var f := Skip(Space, s, e);
          if At(s, f, '=') then Some(Hit(f + 1, s[..d] + " " + s[a..n] + " =")) else None
  }

  function MatchVarAnnotation(prev: Option<char>, s: string): (r: Option<Hit>)
    ensures r.Some? ==> 0 < r.value.len <= |s|
  {
    var d := KeywordLen(s, Declarators);
    var a := Skip(Space, s, d);
    var n := Skip(Word, s, a);
    if (prev.Some? && IsWordChar(prev.value)) || d == 0 || a == d || n == a then None
    else match AnnotationEnd(s, n)
      case None => None
      case Some(e) =>
        var f := Skip(Space, s, e);
        if At(s, f, '=') then Some(Hit(f + 1, s[..d] + " " + s[a..n] + " =")) else None
  }

  /** `\)\s*:\s*T+\s*` followed by `close`. */
  function MatchReturnType(s: string, close: string, replacement: string): (r: Option<Hit>)
    requires close != []
    ensures r.Some? ==> 0 < r.value.len <= |s|
  {
    if !At(s, 0, ')') then None
    else match AnnotationEnd(s, 1)
      case None => None
      case Some(e) =>
        var f := Skip(Space, s, e);
        if StartsWith(s[f..], close) then Some(Hit(f + |close|, replacement)) else None
  }

  /** `keyword\s+[\w<>]+\s*open[\s\S]*?close` removed. */
  function MatchDeclaration(s: string, keyword: string, open: char, close: char): (r: Option<Hit>)
    ensures r.Some? ==> 0 < r.value.len <= |s|
  {
    if !StartsWith(s, keyword) then None
    else
      var a := Skip(Space, s, |keyword|);
      var n := Skip(DeclName, s, a);
      var f := Skip(Space, s, n);
      if a == |keyword| || n == a || !At(s, f, open) then None
      else match IndexOf(s, [close], f + 1)
        case None => None
        case Some(k) => Some(Hit(k + 1, ""))
  }

  function MatchGeneric(s: string): (r: Option<Hit>)
    ensures r.Some? ==> 1 < r.value.len <= |s|
  {
    if !At(s, 0, '<') then None
    else
      var e := Skip(GenericArg, s, 1);
      if e > 1 && At(s, e, '>') then Some(Hit(e + 1, "")) else None
  }

  function MatchCtorModifier(s: string): (r: Option<Hit>)
    ensures r.Some? ==> 0 < r.value.len <= |s|
  {
    if !StartsWith(s, "constructor") then None
    else
      var p := Skip(Space, s, 11);
      if !At(s, p, '(') then None
      else
        var m := KeywordLen(s[p + 1..], AccessModifiers);
        var a := Skip(Space, s, p + 1 + m);
        var n := Skip(Word, s, a);
        if m == 0 || a == p + 1 + m || n == a then None
        else
          Some(Hit(OptionalAnnotationEnd(s, n), s[..p + 1] + s[a..n]))
  }

  function MatchAssertion(s: string): (r: Option<Hit>)
    ensures r.Some? ==> 0 < r.value.len <= |s|
  {
    var a := Run(Space, s);
    if a == 0 || !StartsWith(s[a..], "as") then None
    else
      var b := Skip(Space, s, a + 2);
      var e := Skip(TypeName, s, b);
      if b == a + 2 || e == b then None
      else Some(Hit(e, ""))
  }

  /** `class\s+(\w+)\s+extends\s+(\w+)`: the declared class, the class it
      extends, and where the match ends. */
  function ExtendsHead(s: string): (r: Option<(string, string, nat)>)
    ensures r.Some? ==> 0 < r.value.2 <= |s|
  {
    if !StartsWith(s, "class") then None
    else
      var a := Skip(Space, s, 5);
      var n1 := Skip(Word, s, a);
      var b := Skip(Space, s, n1);
      if a == 5 || n1 == a || b == n1 || !StartsWith(s[b..], "extends") then None
      else
        var c := Skip(Space, s, b + 7);
        var n2 := Skip(Word, s, c);
        if c == b + 7 || n2 == c then None
        else Some((s[a..n1], s[c..n2], n2))
  }

  function MatchExtends(s: string): (r: Option<Hit>)
    ensures r.Some? ==> 0 < r.value.len <= |s|
  {
    match ExtendsHead(s)
    case None => None
    case Some((derived, base, n2)) =>
      var g := Skip(GenericArg, s, if n2 < |s| then n2 + 1 else n2);
      var end := if At(s, n2, '<') && g > n2 + 1 && At(s, g, '>') then g + 1 else n2;
      Some(Hit(end, "class " + derived + " extends " + base))
  }

  function MatchMethodSignature(s: string): (r: Option<Hit>)
    ensures r.Some? ==> 0 < r.value.len <= |s|
  {
    var w := Run(Word, s);
    var p := Skip(Space, s, w);
    if w == 0 || !At(s, p, '(') then None
    else
      var a := Skip(Space, s, p + 1);
      match IndexOf(s, ")", a)
      case None => None
      case Some(q) =>
        match AnnotationEnd(s, q + 1)
        case None => None
        case Some(e) => Some(Hit(e, s[..w] + "(" + s[a..q] + ")"))
  }

  function MatchAnnotation(s: string): (r: Option<Hit>)
    ensures r.Some? ==> 0 < r.value.len <= |s|
  {
    var w := Run(Word, s);
    if w == 0 then None
    else match AnnotationEnd(s, w)
      case None => None
      case Some(e) => Some(Hit(e, s[..w]))
  }

  function MatchArrayAnnotation(s: string): (r: Option<Hit>)
    ensures r.Some? ==> 0 < r.value.len <= |s|
  {
    var w := Run(Word, s);
    if w == 0 then None
    else match AnnotationSpan(s, w)
      case None => None
      case Some((j, e)) =>
        match LastBrackets(s, j + 1, e)
        case None => None
        case Some(q) => Some(Hit(q + 2, s[..w]))
  }

  function MatchMemberModifier(s: string): (r: Option<Hit>)
    ensures r.Some? ==> 0 < r.value.len <= |s|
  {
    var m := KeywordLen(s, MemberModifiers);
    var a := Skip(Space, s, m);
    if m == 0 || a == m then None
    else
      var st := if StartsWith(s[a..], "static") then Skip(Space, s, a + 6) else a;
      var sn := Skip(Word, s, st);
      if st > a + 6 && sn > st then Some(Hit(sn, s[a..sn]))
      else
        var n := Skip(Word, s, a);
        if n == a then None else Some(Hit(n, s[a..n]))
  }

  function MatchTypeRemnant(s: string): (r: Option<Hit>)
    ensures r.Some? ==> 0 < r.value.len <= |s|
  {
    if !At(s, 0, ':') then None
    else match AnnotationEnd(s, 0)
      case None => None
      case Some(e) => Some(Hit(e, ""))
  }

  /** The constructor-parameter pattern, its modifier one of `words`. */
  function MatchModifiedParam(words: seq<string>, s: string): (r: Option<Hit>)
    ensures r.Some? ==> 0 < r.value.len <= |s|
  {
    var m := KeywordLen(s, words);
    var a := Skip(Space, s, m);
    var n := Skip(Word, s, a);
    if m == 0 || a == m || n == a then None
    else
      Some(Hit(OptionalAnnotationEnd(s, n), s[a..n]))
  }

  /** The modifier pattern from the ends of its three runs. */
  lemma ModifiedParamFrom(words: seq<string>, s: string, m: nat, a: nat, n: nat, name: string)
    requires 0 < m < a < n <= |s| && s[a..n] == name
    requires KeywordLen(s, words) == m && Skip(Space, s, m) == a && Skip(Word, s, a) == n
    ensures MatchModifiedParam(words, s) == Some(Hit(OptionalAnnotationEnd(s, n), name))
  {
  }

  /** The annotation pattern from the end of the name it starts with. */
  lemma AnnotationFrom(s: string, w: nat)
    requires 0 < w <= |s| && Run(Word, s) == w
    ensures MatchAnnotation(s) == match AnnotationEnd(s, w) case None => None case Some(e) => Some(Hit(e, s[..w]))
  {
  }

  // ---------------------------------------------------------------------
  // The global scan.

  /** A matcher: given the character before the current position and the
      rest of the text, the match starting there, if any. A match is never empty. */
  type Matcher = m: (Option<char>, string) -> Option<Hit>
    | forall prev, s :: m(prev, s).Some? ==> 0 < m(prev, s).value.len <= |s|
    witness (prev: Option<char>, s: string) => None

  /** The matcher of the constructor-parameter pattern over a list of modifier words. */
  function ModifiedParamMatcher(words: seq<string>): Matcher {
    (prev: Option<char>, s: string) => MatchModifiedParam(words, s)
  }

  /** The matcher of the class-member modifier pattern. */
  function MemberModifierMatcher(): Matcher {
    (prev: Option<char>, s: string) => MatchMemberModifier(s)
  }

  /** The matcher of each pattern. */
  function MatcherOf(rule: Rule): Matcher {
    match rule
    case ParamAnnotation => (prev: Option<char>, s: string) => MatchParamAnnotation(s)
    case ArrayVarAnnotation => (prev: Option<char>, s: string) => MatchArrayVarAnnotation(s)
    case VarAnnotation => (prev: Option<char>, s: string) => MatchVarAnnotation(prev, s)
    case ArrowReturn => (prev: Option<char>, s: string) => MatchReturnType(s, "=>", ") =>")
    case FunctionReturn => (prev: Option<char>, s: string) => MatchReturnType(s, "{", ") {")
    case TypeAlias => (prev: Option<char>, s: string) => MatchDeclaration(s, "type", '=', ';')
    case Interface => (prev: Option<char>, s: string) => MatchDeclaration(s, "interface", '{', '}')
    case Generic => (prev: Option<char>, s: string) => MatchGeneric(s)
    case CtorModifier => (prev: Option<char>, s: string) => MatchCtorModifier(s)
    case Assertion => (prev: Option<char>, s: string) => MatchAssertion(s)
    case Extends => (prev: Option<char>, s: string) => MatchExtends(s)
    case MethodSignature => (prev: Option<char>, s: string) => MatchMethodSignature(s)
    case Annotation => (prev: Option<char>, s: string) => MatchAnnotation(s)
    case ArrayAnnotation => (prev: Option<char>, s: string) => MatchArrayAnnotation(s)
    case MemberModifier => MemberModifierMatcher()
    case TypeRemnant => (prev: Option<char>, s: string) => MatchTypeRemnant(s)
    case ModifiedParam => ModifiedParamMatcher(AccessModifiers)
  }

  /** A match needs the rule's trigger in the text. */
  lemma MatchTriggered(rule: Rule, prev: Option<char>, s: string)
    ensures MatcherOf(rule)(prev, s).Some? ==> Triggered(rule, s)
  {
    match rule
    case ParamAnnotation => SpanColon(s, Run(Word, s));
    case ArrayVarAnnotation => DeclaredColon(s);
    case VarAnnotation => DeclaredColon(s);
    case ArrowReturn => SpanColon(s, 1);
    case FunctionReturn => SpanColon(s, 1);
    case TypeAlias => StartsContains(s, "type");
    case Interface => StartsContains(s, "interface");
    case Generic => GenericTriggered(s);
    case CtorModifier => StartsContains(s, "constructor");
    case Assertion => AssertionTriggered(s);
    case Extends => ExtendsTriggered(s);
    case MethodSignature => MethodSignatureTriggered(s);
    case Annotation => SpanColon(s, Run(Word, s));
    case ArrayAnnotation => SpanColon(s, Run(Word, s));
    case MemberModifier => KeywordContains(s, MemberModifiers);
    case TypeRemnant => SpanColon(s, 0);
    case ModifiedParam => KeywordContains(s, AccessModifiers);
  }

  lemma GenericTriggered(s: string)
    ensures MatchGeneric(s).Some? ==> '<' in s
  {
    if At(s, 0, '<') {
      assert s[0] == '<';
    }
  }

  lemma AssertionTriggered(s: string)
    ensures MatchAssertion(s).Some? ==> SpacedAs(s)
  {
    var a := Run(Space, s);
    if 0 < a && StartsWith(s[a..], "as") {
      var b := Skip(Space, s, a + 2);
      if b > a + 2 {
        RunSpec(Space, s);
        RunSpec(Space, s[a + 2..]);
        assert s[a..][0] == s[a] && s[a..][1] == s[a + 1] && s[a + 2..][0] == s[a + 2];
        SpacedAsAt(s, a - 1);
      }
    }
  }

  lemma ExtendsTriggered(s: string)
    ensures MatchExtends(s).Some? ==> Contains(s, "extends")
  {
    if ExtendsHead(s).Some? {
      var b := Skip(Space, s, Skip(Word, s, Skip(Space, s, 5)));
      ContainsAt(s, "extends", b);
    }
  }

  lemma MethodSignatureTriggered(s: string)
    ensures MatchMethodSignature(s).Some? ==> ':' in s
  {
    var p := Skip(Space, s, Run(Word, s));
    if At(s, p, '(') {
      var q := IndexOf(s, ")", Skip(Space, s, p + 1));
      if q.Some? {
        SpanColon(s, q.value + 1);
      }
    }
  }

  /** An annotation span holds a colon. */
  lemma SpanColon(s: string, i: nat)
    ensures i <= |s| && AnnotationSpan(s, i).Some? ==> ':' in s
  {
    if i <= |s| {
      var c := Skip(Space, s, i);
      if At(s, c, ':') {
        assert s[c] == ':';
      }
    }
  }

  lemma DeclaredColon(s: string)
    ensures Skip(Word, s, Skip(Space, s, KeywordLen(s, Declarators))) <= |s|
    ensures AnnotationSpan(s, Skip(Word, s, Skip(Space, s, KeywordLen(s, Declarators)))).Some? ==> ':' in s
  {
    SpanColon(s, Skip(Word, s, Skip(Space, s, KeywordLen(s, Declarators))));
  }

  lemma StartsContains(s: string, t: string)
    ensures StartsWith(s, t) ==> Contains(s, t)
  {
  }

  /** A text that starts with one of the words contains that word. */
  lemma KeywordContains(s: string, words: seq<string>)
    ensures KeywordLen(s, words) > 0 ==> exists i :: 0 <= i < |words| && Contains(s, words[i])
  {
    var n := KeywordLen(s, words);
    KeywordLenIn(s, words);
    if n > 0 {
      var i :| 0 <= i < |words| && words[i] == s[..n];
      StartsWithSlice(s, words[i]);
    }
  }

  /** The matchers of the two patterns that rewrite constructor parameters. */
  lemma ModifiedParamApply(words: seq<string>, prev: Option<char>, s: string)
    ensures ModifiedParamMatcher(words)(prev, s) == MatchModifiedParam(words, s)
  {
  }

  lemma AnnotationMatcher(prev: Option<char>, s: string)
    ensures MatcherOf(Annotation)(prev, s) == MatchAnnotation(s)
  {
  }

  /** What the scan does at one position: keep the character, or replace a match. */
  datatype Piece = Kept(c: char) | Replaced(hit: Hit)

  /** `s.replace(pattern, ...)` with a global pattern: try a match at each
      position from left to right; after a match continue where it ended. */
  function Scan(m: Matcher, s: string, prev: Option<char>): seq<Piece>
    decreases |s|
  {
    if s == [] then []
    else match m(prev, s)
      case Some(h) => [Replaced(h)] + Scan(m, s[h.len..], Some(s[h.len - 1]))
      case None => [Kept(s[0])] + Scan(m, s[1..], Some(s[0]))
  }

  /** The text a scan produces. */
  function Output(ps: seq<Piece>): string {
    if ps == [] then ""
    else (match ps[0] case Kept(c) => [c] case Replaced(h) => h.text) + Output(ps[1..])
  }

  /** The replacement texts of the matches, in order (for `ModifiedParam`:
      the captured names, as repeated `exec` calls return them). */
  function Captures(ps: seq<Piece>): seq<string> {
    if ps == [] then []
    else (match ps[0] case Kept(_) => [] case Replaced(h) => [h.text]) + Captures(ps[1..])
  }

  function KeptAll(s: string): seq<Piece> {
    seq(|s|, i requires 0 <= i < |s| => Kept(s[i]))
  }

  function ReplaceAll(rule: Rule, s: string): string {
    Output(Scan(MatcherOf(rule), s, None))
  }

  lemma {:induction false} OutputAppend(a: seq<Piece>, b: seq<Piece>)
    ensures Output(a + b) == Output(a) + Output(b)
  {
    if a == [] {
      assert a + b == b;
    } else {
      assert (a + b)[0] == a[0] && (a + b)[1..] == a[1..] + b;
      OutputAppend(a[1..], b);
    }
  }

  lemma {:induction false} CapturesAppend(a: seq<Piece>, b: seq<Piece>)
    ensures Captures(a + b) == Captures(a) + Captures(b)
  {
    if a == [] {
      assert a + b == b;
    } else {
      assert (a + b)[0] == a[0] && (a + b)[1..] == a[1..] + b;
      CapturesAppend(a[1..], b);
    }
  }

  lemma {:induction false} KeptAllText(s: string)
    ensures Output(KeptAll(s)) == s && Captures(KeptAll(s)) == []
  {
    if s != [] {
      assert KeptAll(s)[1..] == KeptAll(s[1..]);
      KeptAllText(s[1..]);
    }
  }

  /** The character before index `k` of `s`, as the scan passes it on. */
  function PrevAt(prev: Option<char>, s: string, k: nat): Option<char>
    requires k <= |s|
  {
    if k == 0 then prev else Some(s[k - 1])
  }

  /** No match starts at any of the first `n` positions of `s`. */
  predicate NoMatchBefore(m: Matcher, s: string, n: nat, prev: Option<char>)
    requires n <= |s|
    decreases n
  {
    n == 0 || (m(prev, s).None? && NoMatchBefore(m, s[1..], n - 1, Some(s[0])))
  }

  lemma {:induction false} NoMatchFrom(m: Matcher, s: string, n: nat, prev: Option<char>)
    requires n <= |s|
    requires forall k :: 0 <= k < n ==> m(PrevAt(prev, s, k), s[k..]).None?
    ensures NoMatchBefore(m, s, n, prev)
    decreases n
  {
    if n > 0 {
      assert s[0..] == s;
      forall k | 0 <= k < n - 1
        ensures m(PrevAt(Some(s[0]), s[1..], k), s[1..][k..]).None?
      {
        assert s[1..][k..] == s[k + 1..];
        assert PrevAt(Some(s[0]), s[1..], k) == PrevAt(prev, s, k + 1);
      }
      NoMatchFrom(m, s[1..], n - 1, Some(s[0]));
    }
  }

  /** No match starts at any of the first `n` positions: the scan copies
      those characters and goes on from position `n`. */
  lemma {:induction false} ScanSkips(m: Matcher, s: string, n: nat, prev: Option<char>)
    requires n <= |s| && NoMatchBefore(m, s, n, prev)
    ensures Scan(m, s, prev) == KeptAll(s[..n]) + Scan(m, s[n..], PrevAt(prev, s, n))
    decreases n
  {
    if n > 0 {
      var t := s[1..];
      ScanSkips(m, t, n - 1, Some(s[0]));
      assert t[n - 1..] == s[n..];
      assert PrevAt(Some(s[0]), t, n - 1) == PrevAt(prev, s, n);
      assert KeptAll(s[..n]) == [Kept(s[0])] + KeptAll(t[..n - 1]);
    } else {
      assert s[..0] == [] && s[0..] == s;
    }
  }

  /** Where no match starts, the scan keeps the character. */
  lemma ScanKeep(m: Matcher, s: string, prev: Option<char>)
    requires s != [] && m(prev, s).None?
    ensures Scan(m, s, prev) == [Kept(s[0])] + Scan(m, s[1..], Some(s[0]))
  {
  }

  /** A match at the start: the scan emits it and goes on after it. */
  lemma ScanHit(m: Matcher, s: string, prev: Option<char>, h: Hit)
    requires s != [] && m(prev, s) == Some(h)
    ensures 0 < h.len <= |s|
    ensures Scan(m, s, prev) == [Replaced(h)] + Scan(m, s[h.len..], Some(s[h.len - 1]))
  {
  }

  /** One step of the scan from position `k` where a match starts. */
  lemma ScanAdvanceHit(m: Matcher, s: string, k: nat, done: seq<Piece>, h: Hit)
    requires k < |s| && Scan(m, s, None) == done + Scan(m, s[k..], PrevAt(None, s, k))
    requires m(PrevAt(None, s, k), s[k..]) == Some(h)
    ensures k + h.len <= |s|
    ensures Scan(m, s, None) == (done + [Replaced(h)]) + Scan(m, s[k + h.len..], PrevAt(None, s, k + h.len))
  {
    var rest := s[k..];
    ScanHit(m, rest, PrevAt(None, s, k), h);
    var tail := Scan(m, rest[h.len..], Some(rest[h.len - 1]));
    assert tail == Scan(m, s[k + h.len..], PrevAt(None, s, k + h.len)) by {
      assert rest[h.len..] == s[k + h.len..];
      assert rest[h.len - 1] == s[k + h.len - 1];
    }
    assert done + ([Replaced(h)] + tail) == (done + [Replaced(h)]) + tail;
  }

  /** One step of the scan from position `k` where no match starts. */
  lemma ScanAdvanceKeep(m: Matcher, s: string, k: nat, done: seq<Piece>)
    requires k < |s| && Scan(m, s, None) == done + Scan(m, s[k..], PrevAt(None, s, k))
    requires m(PrevAt(None, s, k), s[k..]).None?
    ensures Scan(m, s, None) == (done + [Kept(s[k])]) + Scan(m, s[k + 1..], PrevAt(None, s, k + 1))
  {
    var rest := s[k..];
    ScanKeep(m, rest, PrevAt(None, s, k));
    assert rest[1..] == s[k + 1..] && rest[0] == s[k];
    var tail := Scan(m, rest[1..], Some(rest[0]));
    assert done + ([Kept(rest[0])] + tail) == (done + [Kept(rest[0])]) + tail;
  }

  /** A rule whose trigger does not occur keeps every character. */
  lemma {:induction false} ScanUntriggered(rule: Rule, s: string, prev: Option<char>)
    requires !Triggered(rule, s)
    ensures Scan(MatcherOf(rule), s, prev) == KeptAll(s)
    decreases |s|
  {
    if s != [] {
      MatchTriggered(rule, prev, s);
      if !Triggered(rule, s[1..]) {
        ScanUntriggered(rule, s[1..], Some(s[0]));
        assert KeptAll(s) == [Kept(s[0])] + KeptAll(s[1..]);
      } else {
        TriggeredSuffix(rule, s, 1);
      }
    }
  }

  /** Each substitution is the identity on text that lacks its trigger. */
  lemma ReplaceUntriggered(rule: Rule, s: string)
    requires !Triggered(rule, s)
    ensures ReplaceAll(rule, s) == s
  {
    ScanUntriggered(rule, s, None);
    KeptAllText(s);
  }
}

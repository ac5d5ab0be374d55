/** Constructor parameter lists of the class path (src/App.tsx:232-257):
    parameters written `MOD name: Type`, how the two substitutions of the
    cleaning step rewrite a list of them, and the `exec` loop that collects
    one `this.name = name;` per parameter carrying an access modifier. */
module ParamList {
  import opened Text
  import opened Substitution

  /** One parameter as written: `[MOD ]name[: Type]`, where `MOD` is one of
      the access modifiers `public`, `private`, `protected` and `readonly`
      that make a constructor parameter a property. */
  datatype Param = Param(modifier: Option<string>, name: string, typ: Option<string>)

  /** A name is a `\w+` word and a type a run of `[\w\[\]<>|&]`. */
  predicate Valid(p: Param) {
    ValidIn(AccessModifiers, p)
  }

  /** Valid, with the modifier drawn from `words`. */
  predicate ValidIn(words: seq<string>, p: Param) {
    && (p.modifier.Some? ==> p.modifier.value in words)
    && ValidName(p.name)
    && ValidType(p.typ)
  }

  predicate ValidName(name: string) {
    name != [] && forall i :: 0 <= i < |name| ==> IsWordChar(name[i])
  }

  predicate ValidType(typ: Option<string>) {
    typ.Some? ==> typ.value != [] && forall i :: 0 <= i < |typ.value| ==> InClass(typ.value[i], TypeName)
  }

  predicate AllValid(ps: seq<Param>) {
    AllValidIn(AccessModifiers, ps)
  }

  predicate AllValidIn(words: seq<string>, ps: seq<Param>) {
    forall i :: 0 <= i < |ps| ==> ValidIn(words, ps[i])
  }

  /** A valid parameter without modifier. */
  predicate Plain(q: Param) {
    q.modifier.None? && ValidName(q.name) && ValidType(q.typ)
  }

  predicate AllPlain(qs: seq<Param>) {
    forall i :: 0 <= i < |qs| ==> Plain(qs[i])
  }

  function Prefix(p: Param): string {
    match p.modifier
    case None => ""
    case Some(m) => m + " "
  }

  function Suffix(p: Param): string {
    match p.typ
    case None => ""
    case Some(t) => ": " + t
  }

  function Render(p: Param): string {
    Prefix(p) + p.name + Suffix(p)
  }

  /** The parameters separated by `, `. */
  function RenderList(ps: seq<Param>): string {
    if |ps| == 0 then ""
    else if |ps| == 1 then Render(ps[0])
    else Render(ps[0]) + ", " + RenderList(ps[1..])
  }

  function Names(ps: seq<Param>): seq<string> {
    seq(|ps|, i requires 0 <= i < |ps| => ps[i].name)
  }

  /** The names of the parameters that carry an access modifier, in order. */
  function ModifiedNames(ps: seq<Param>): seq<string> {
    if ps == [] then []
    else (if ps[0].modifier.Some? then [ps[0].name] else []) + ModifiedNames(ps[1..])
  }

  /** What the first cleaning substitution leaves of a parameter: a modified
      parameter loses its modifier and its type, any other is untouched. */
  function Stripped(p: Param): Param {
    if p.modifier.Some? then Param(None, p.name, None) else p
  }

  function StrippedAll(ps: seq<Param>): seq<Param> {
    seq(|ps|, i requires 0 <= i < |ps| => Stripped(ps[i]))
  }

  // ---------------------------------------------------------------------
  // The cleaning step and the exec loop.

  /** `params.replace(MOD-param, '$1').replace(annotation, '$1')` (src/App.tsx:240-242). */
  function CleanParams(params: string): string {
    ReplaceAll(Annotation, ReplaceAll(ModifiedParam, params))
  }

  /** The names `paramRegex.exec` captures, one per match, in order. */
  function PropertyNames(params: string): seq<string> {
    Captures(Scan(MatcherOf(ModifiedParam), params, None))
  }

  function Assignment(name: string): string {
    "this." + name + " = " + name + ";"
  }

  function Assignments(names: seq<string>): seq<string> {
    seq(|names|, i requires 0 <= i < |names| => Assignment(names[i]))
  }

  /** What the exec loop has done once it has reached position `k`: the
      pieces scanned so far, and one assignment per match among them. */
  ghost predicate ExecInvariant(re: Matcher, params: string, k: nat, done: seq<Piece>, props: seq<string>) {
    && k <= |params|
    && Scan(re, params, None) == done + Scan(re, params[k..], PrevAt(None, params, k))
    && props == Assignments(Captures(done))
  }

  lemma ExecStart(re: Matcher, params: string)
    ensures ExecInvariant(re, params, 0, [], [])
  {
    assert params[0..] == params;
  }

  lemma ExecHit(re: Matcher, params: string, k: nat, done: seq<Piece>, props: seq<string>, h: Hit)
    requires ExecInvariant(re, params, k, done, props) && k < |params|
    requires re(PrevAt(None, params, k), params[k..]) == Some(h)
    ensures ExecInvariant(re, params, k + h.len, done + [Replaced(h)], props + [Assignment(h.text)])
  {
    ScanAdvanceHit(re, params, k, done, h);
    CapturesAppend(done, [Replaced(h)]);
    AssignmentsAppend(Captures(done), h.text);
  }

  lemma ExecKeep(re: Matcher, params: string, k: nat, done: seq<Piece>, props: seq<string>)
    requires ExecInvariant(re, params, k, done, props) && k < |params|
    requires re(PrevAt(None, params, k), params[k..]).None?
    ensures ExecInvariant(re, params, k + 1, done + [Kept(params[k])], props)
  {
    ScanAdvanceKeep(re, params, k, done);
    CapturesAppend(done, [Kept(params[k])]);
  }

  lemma ExecDone(re: Matcher, params: string, done: seq<Piece>, props: seq<string>)
    requires ExecInvariant(re, params, |params|, done, props)
    ensures props == Assignments(Captures(Scan(re, params, None)))
  {
    assert params[|params|..] == [];
    assert done + [] == done;
  }

  /** The `while ((paramMatch = paramRegex.exec(params)) !== null)` loop
      (src/App.tsx:248-255) for a global pattern `re`: each pass tries the
      pattern at the next position; a match pushes the assignment of its
      capture and resumes after the match. */
  method AssignEachMatch(re: Matcher, params: string) returns (props: seq<string>)
    ensures props == Assignments(Captures(Scan(re, params, None)))
  {
    props := [];
    var k := 0;
    ghost var done: seq<Piece> := [];
    ExecStart(re, params);
    while k < |params|
      invariant ExecInvariant(re, params, k, done, props)
      decreases |params| - k
    {
      var found := re(PrevAt(None, params, k), params[k..]);
      match found {
        case Some(h) =>
          ExecHit(re, params, k, done, props, h);
          done := done + [Replaced(h)];
          props := props + [Assignment(h.text)];
          k := k + h.len;
        case None =>
          ExecKeep(re, params, k, done, props);
          done := done + [Kept(params[k])];
          k := k + 1;
      }
    }
    ExecDone(re, params, done, props);
  }

  /** The loop with `paramRegex`: one assignment per modified parameter found. */
  method CollectAssignments(params: string) returns (props: seq<string>)
    ensures props == Assignments(PropertyNames(params))
  {
    props := AssignEachMatch(MatcherOf(ModifiedParam), params);
  }

  lemma AssignmentsAppend(names: seq<string>, x: string)
    ensures Assignments(names + [x]) == Assignments(names) + [Assignment(x)]
  {
  }

  // ---------------------------------------------------------------------
  // Lists of modifier words, and how the pattern selects one.

  /** A word of lower-case letters. */
  predicate Lowercase(w: string) {
    w != [] && forall k :: 0 <= k < |w| ==> 'a' <= w[k] <= 'z'
  }

  /** What the pattern needs of its alternatives: lower-case words, no word
      ending another one, and no word beginning a later one (so the first
      alternative that matches is the whole word). */
  predicate ModifierWords(words: seq<string>) {
    && (forall i :: 0 <= i < |words| ==> Lowercase(words[i]))
    && (forall i, k :: 0 <= i < |words| && 0 < k < |words[i]| ==> words[i][k..] !in words)
    && (forall i, j :: 0 <= i < j < |words| ==> !StartsWith(words[j], words[i]))
  }

  /** A list of alternatives with those properties. */
  type Words = words: seq<string> | ModifierWords(words) witness ["a"]

  /** A text that differs from `t` at index `j` does not start with `t`. */
  lemma Mismatch(s: string, t: string, j: nat)
    requires j < |t| && j < |s| && s[j] != t[j]
    ensures !StartsWith(s, t)
  {
    StartsWithSlice(s, t);
    assert |t| > |s| || s[..|t|][j] != t[j];
  }

  /** The four access modifiers are such a list. */
  lemma AccessModifierWords()
    ensures ModifierWords(AccessModifiers)
  {
    AccessModifiersLowercase();
    AccessModifiersNoSuffix();
    AccessModifiersNoPrefix();
  }

  lemma AccessModifiersLowercase()
    ensures forall i :: 0 <= i < |AccessModifiers| ==> Lowercase(AccessModifiers[i])
  {
  }

  lemma AccessModifiersNoSuffix()
    ensures forall i, k :: 0 <= i < |AccessModifiers| && 0 < k < |AccessModifiers[i]| ==>
      AccessModifiers[i][k..] !in AccessModifiers
  {
    forall i, k | 0 <= i < |AccessModifiers| && 0 < k < |AccessModifiers[i]|
      ensures AccessModifiers[i][k..] !in AccessModifiers
    {
      var w := AccessModifiers[i];
      assert w[k..][0] == w[k];
      if w == "protected" && k == 1 {
        assert w[k..][1] == 'o';
      }
    }
  }

  lemma AccessModifiersNoPrefix()
    ensures forall i, j :: 0 <= i < j < |AccessModifiers| ==> !StartsWith(AccessModifiers[j], AccessModifiers[i])
  {
    Mismatch("private", "public", 1);
    Mismatch("protected", "public", 1);
    Mismatch("protected", "private", 2);
    Mismatch("readonly", "public", 0);
    Mismatch("readonly", "private", 0);
    Mismatch("readonly", "protected", 0);
  }

  /** `KeywordLen` selects the first word the text starts with. */
  lemma {:induction false} KeywordLenSelects(words: seq<string>, j: nat, s: string)
    requires j < |words| && words[j] != [] && StartsWith(s, words[j])
    requires forall i :: 0 <= i < j ==> !StartsWith(s, words[i])
    ensures KeywordLen(s, words) == |words[j]|
    decreases j
  {
    if j > 0 {
      assert !StartsWith(s, words[0]);
      assert forall i :: 0 <= i < j - 1 ==> words[1..][i] == words[i + 1];
      KeywordLenSelects(words[1..], j - 1, s);
    }
  }

  /** A lower-case word that does not begin `w` does not begin `w`
      followed by a space either. */
  lemma EarlierWord(u: string, w: string, x: string)
    requires Lowercase(u) && !StartsWith(w, u)
    ensures !StartsWith(w + (" " + x), u)
  {
    var s := w + (" " + x);
    StartsWithSlice(s, u);
    StartsWithSlice(w, u);
    if |u| <= |w| {
      assert s[..|u|] == w[..|u|];
    } else {
      assert s[|w|] == ' ';
      assert |u| > |s| || s[..|u|][|w|] != u[|w|];
    }
  }

  /** A text that starts with a modifier word and a space selects that word. */
  lemma KeywordLenAt(words: Words, w: string, x: string)
    requires w in words
    ensures KeywordLen(w + (" " + x), words) == |w|
  {
    var s := w + (" " + x);
    var j :| 0 <= j < |words| && words[j] == w;
    forall i | 0 <= i < j ensures !StartsWith(s, words[i]) {
      EarlierWord(words[i], w, x);
    }
    StartsWithPrefix(w, " " + x);
    KeywordLenSelects(words, j, s);
  }

  /** No lower-case word starts a text whose first character is not a letter. */
  lemma {:induction false} KeywordLenZero(words: seq<string>, s: string)
    requires forall i :: 0 <= i < |words| ==> Lowercase(words[i])
    requires s != [] && !('a' <= s[0] <= 'z')
    ensures KeywordLen(s, words) == 0
  {
    if words != [] {
      assert Lowercase(words[0]);
      Mismatch(s, words[0], 0);
      assert forall i :: 0 <= i < |words| - 1 ==> words[1..][i] == words[i + 1];
      KeywordLenZero(words[1..], s);
    }
  }

  /** A modifier word is lower-case. */
  lemma KeywordLower(words: Words, w: string)
    requires w in words
    ensures forall i :: 0 <= i < |w| ==> 'a' <= w[i] <= 'z'
  {
    var j :| 0 <= j < |words| && words[j] == w;
    assert Lowercase(words[j]);
  }

  /** No modifier word ends another one. */
  lemma NoKeywordSuffix(words: Words, w: string, k: nat)
    requires w in words && 0 < k < |w|
    ensures w[k..] !in words
  {
    var j :| 0 <= j < |words| && words[j] == w;
  }

  // ---------------------------------------------------------------------
  // The characters of a rendered parameter.

  /** The only spaces in a rendered parameter follow its modifier or its colon. */
  lemma RenderSpaces(words: Words, p: Param, j: nat)
    requires ValidIn(words, p) && j < |Render(p)|
    ensures IsSpace(Render(p)[j]) ==>
      (p.modifier.Some? && j == |p.modifier.value|) || (0 < j && Render(p)[j - 1] == ':')
  {
    var r := Render(p);
    var a := |Prefix(p)|;
    var n := a + |p.name|;
    if j < a {
      KeywordLower(words, p.modifier.value);
      assert j < |p.modifier.value| ==> r[j] == p.modifier.value[j];
    } else if j < n {
      assert r[j] == p.name[j - a];
    } else if j > n + 1 {
      assert r[j] == p.typ.value[j - n - 2];
    } else if j == n + 1 {
      assert r[j - 1] == ':';
    }
  }

  /** A separator after a parameter: the end of the list or a comma. */
  predicate Sep(rest: string) {
    rest == [] || rest[0] == ','
  }

  // ---------------------------------------------------------------------
  // The first substitution and the exec loop on a rendered list.

  /** After a name, `\s*:\s*T+` spans the rendered type annotation, if any. */
  lemma SuffixEnd(p: Param, s: string, i: nat, rest: string)
    requires ValidType(p.typ) && Sep(rest)
    requires i <= |s| && s[i..] == Suffix(p) + rest
    ensures AnnotationEnd(s, i).Some? <==> p.typ.Some?
    ensures OptionalAnnotationEnd(s, i) == i + |Suffix(p)|
  {
    match p.typ {
      case None =>
        assert i < |s| ==> s[i] == s[i..][0] == rest[0];
        UntypedEnd(s, i);
      case Some(t) =>
        assert s[i..] == ":" + (" " + (t + rest));
        TypedEnd(s, i, t, rest);
        assert |Suffix(p)| == 2 + |t|;
    }
  }

  /** A rendered modified parameter, nested to the right. */
  lemma ModifiedShape(p: Param, rest: string)
    requires p.modifier.Some?
    ensures Render(p) + rest == p.modifier.value + (" " + (p.name + (Suffix(p) + rest)))
  {
  }

  /** What follows a name is empty or starts with a colon or a comma. */
  lemma SuffixStart(p: Param, rest: string)
    requires Sep(rest)
    ensures Suffix(p) + rest == [] || (Suffix(p) + rest)[0] == ':' || (Suffix(p) + rest)[0] == ','
  {
  }

  /** The single space after the modifier word. */
  lemma SpaceAfterModifier(s: string, m: nat, y: string)
    requires m <= |s| && s[m..] == " " + y && (y == [] || !IsSpace(y[0]))
    ensures m + 1 <= |s| && Skip(Space, s, m) == m + 1 && s[m + 1..] == y
  {
    assert s[m + 1..] == s[m..][1..];
    SkipFrom(Space, s, m, " ", y);
  }

  /** The name after the space: a word run, captured whole. */
  lemma NameRun(s: string, a: nat, name: string, z: string)
    requires a <= |s| && s[a..] == name + z && ValidName(name) && (z == [] || z[0] == ':' || z[0] == ',')
    ensures a + |name| <= |s| && Skip(Word, s, a) == a + |name| && s[a..a + |name|] == name
  {
    SkipFrom(Word, s, a, name, z);
    SliceOfPrefix(s, a, name, z);
  }

  /** The pattern over a modifier word, a space, a name and what follows
      the name: it selects the word, skips the space and captures the name. */
  lemma ModifiedMatch(words: Words, s: string, w: string, name: string, z: string, e: nat)
    requires w in words && ValidName(name) && s == w + (" " + (name + z))
    requires z == [] || z[0] == ':' || z[0] == ','
    requires OptionalAnnotationEnd(s, |w| + 1 + |name|) == e
    ensures MatchModifiedParam(words, s) == Some(Hit(e, name))
  {
    var m := |w|;
    KeywordLenAt(words, w, name + z);
    KeywordLower(words, w);
    SpaceAfterModifier(s, m, name + z);
    NameRun(s, m + 1, name, z);
    ModifiedParamFrom(words, s, m, m + 1, m + 1 + |name|, name);
  }

  /** What follows a modified parameter's name is its suffix and the rest. */
  lemma AfterModifiedName(p: Param, rest: string, s: string, i: nat)
    requires p.modifier.Some? && s == Render(p) + rest && i == |p.modifier.value| + 1 + |p.name|
    ensures i <= |s| && s[i..] == Suffix(p) + rest && i + |Suffix(p)| == |Render(p)|
  {
    ModifiedShape(p, rest);
    SliceOfPrefix(s, |p.modifier.value| + 1, p.name, Suffix(p) + rest);
  }

  /** Where the optional annotation after a modified parameter's name ends. */
  lemma ModifiedEnd(p: Param, rest: string)
    requires ValidType(p.typ) && p.modifier.Some? && Sep(rest)
    ensures OptionalAnnotationEnd(Render(p) + rest, |p.modifier.value| + 1 + |p.name|) == |Render(p)|
  {
    var s := Render(p) + rest;
    var i := |p.modifier.value| + 1 + |p.name|;
    AfterModifiedName(p, rest, s, i);
    SuffixEnd(p, s, i, rest);
  }

  /** A modified parameter matches as a whole and captures its name. */
  lemma ModifiedAt(words: Words, p: Param, rest: string)
    requires ValidIn(words, p) && p.modifier.Some? && Sep(rest)
    ensures MatchModifiedParam(words, Render(p) + rest) == Some(Hit(|Render(p)|, p.name))
  {
    var w, name, z := p.modifier.value, p.name, Suffix(p) + rest;
    assert w in words && ValidName(name) && ValidType(p.typ);
    ModifiedShape(p, rest);
    SuffixStart(p, rest);
    ModifiedEnd(p, rest);
    ModifiedMatch(words, Render(p) + rest, w, name, z, |Render(p)|);
  }

  /** A modifier word found after the start of a rendered parameter is not
      the parameter's own modifier, so it does not end where that one does. */
  lemma NotOwnModifier(words: Words, p: Param, rest: string, k: nat, m: nat)
    requires ValidIn(words, p) && (0 < k || p.modifier.None?) && 0 < m && k + m <= |Render(p)|
    requires (Render(p) + rest)[k..][..m] in words
    ensures p.modifier.None? || k + m != |p.modifier.value|
  {
    if p.modifier.Some? {
      var s := Render(p) + rest;
      var w := p.modifier.value;
      if k < |w| {
        NoKeywordSuffix(words, w, k);
        ModifiedShape(p, rest);
        assert s[..|w|] == w;
        assert s[k..][..|w| - k] == s[..|w|][k..];
      }
    }
  }

  /** A modifier word holds no comma, so it stops before any comma. */
  lemma KeywordBeforeComma(words: Words, t: string, m: nat, i: nat)
    requires m <= |t| && t[..m] in words && i < |t| && t[i] == ','
    ensures m <= i
  {
    KeywordLower(words, t[..m]);
    assert forall x :: 0 <= x < m ==> t[..m][x] == t[x];
  }

  /** Inside a rendered parameter, after its start, the pattern never matches:
      a modifier word must be followed by a space, and the only space after a
      letter is the one after the parameter's own modifier. */
  lemma NoModifiedInside(words: Words, p: Param, rest: string, k: nat)
    requires ValidIn(words, p) && Sep(rest) && k < |Render(p)|
    requires k > 0 || p.modifier.None?
    ensures MatchModifiedParam(words, (Render(p) + rest)[k..]).None?
  {
    var s := Render(p) + rest;
    var t := s[k..];
    var m := KeywordLen(t, words);
    KeywordLenIn(t, words);
    if 0 < m < |t| {
      NoSpaceAfterKeyword(words, p, rest, k, m);
      assert t[m..][0] == t[m] == s[k + m];
      assert Skip(Space, t, m) == m;
    }
  }

  /** The character after a modifier word found inside a rendered parameter
      is not a space. */
  lemma NoSpaceAfterKeyword(words: Words, p: Param, rest: string, k: nat, m: nat)
    requires ValidIn(words, p) && Sep(rest) && k < |Render(p)| && (k > 0 || p.modifier.None?)
    requires 0 < m && k + m < |Render(p) + rest| && (Render(p) + rest)[k..][..m] in words
    ensures !IsSpace((Render(p) + rest)[k + m])
  {
    var s := Render(p) + rest;
    var r := Render(p);
    var t := s[k..];
    var j := k + m;
    KeywordLower(words, t[..m]);
    assert s[j - 1] == t[..m][m - 1];
    if j < |r| {
      RenderSpaces(words, p, j);
      assert s[j] == r[j] && s[j - 1] == r[j - 1];
      NotOwnModifier(words, p, rest, k, m);
    } else {
      assert s[|r|] == rest[0] == t[|r| - k];
      KeywordBeforeComma(words, t, m, |r| - k);
    }
  }

  /** The scan over one parameter: a modified one becomes a single match,
      any other is kept character by character. */
  function ModifiedPieces(p: Param): seq<Piece> {
    if p.modifier.Some? then [Replaced(Hit(|Render(p)|, p.name))] else KeptAll(Render(p))
  }

  /** No position of an unmodified rendered parameter starts a match. */
  lemma NoModifiedBefore(words: Words, p: Param, rest: string, prev: Option<char>)
    requires ValidIn(words, p) && p.modifier.None? && Sep(rest)
    ensures NoMatchBefore(ModifiedParamMatcher(words), Render(p) + rest, |Render(p)|, prev)
  {
    var m := ModifiedParamMatcher(words);
    var s := Render(p) + rest;
    forall k | 0 <= k < |Render(p)| ensures m(PrevAt(prev, s, k), s[k..]).None? {
      NoModifiedInside(words, p, rest, k);
      ModifiedParamApply(words, PrevAt(prev, s, k), s[k..]);
    }
    NoMatchFrom(m, s, |Render(p)|, prev);
  }

  lemma ScanModifiedParam(words: Words, p: Param, rest: string, prev: Option<char>)
    requires ValidIn(words, p) && Sep(rest)
    ensures Scan(ModifiedParamMatcher(words), Render(p) + rest, prev)
      == ModifiedPieces(p) + Scan(ModifiedParamMatcher(words), rest, Some(Render(p)[|Render(p)| - 1]))
  {
    var m := ModifiedParamMatcher(words);
    var s := Render(p) + rest;
    var r := Render(p);
    assert s[|r| - 1] == r[|r| - 1];
    assert s[..|r|] == r && s[|r|..] == rest;
    if p.modifier.Some? {
      ModifiedAt(words, p, rest);
      ModifiedParamApply(words, prev, s);
      ScanHit(m, s, prev, Hit(|r|, p.name));
    } else {
      NoModifiedBefore(words, p, rest, prev);
      ScanSkips(m, s, |r|, prev);
    }
  }

  lemma ScanModifiedSeparator(words: Words, x: string, prev: Option<char>)
    ensures Scan(ModifiedParamMatcher(words), ", " + x, prev)
      == KeptAll(", ") + Scan(ModifiedParamMatcher(words), x, Some(' '))
  {
    var m := ModifiedParamMatcher(words);
    var s := ", " + x;
    KeywordLenZero(words, s);
    KeywordLenZero(words, s[1..]);
    NoMatchFrom(m, s, 2, prev);
    ScanSkips(m, s, 2, prev);
    assert s[..2] == ", " && s[2..] == x;
  }

  lemma ModifiedPiecesText(p: Param)
    ensures Output(ModifiedPieces(p)) == Render(Stripped(p))
    ensures Captures(ModifiedPieces(p)) == if p.modifier.Some? then [p.name] else []
  {
    if p.modifier.None? {
      KeptAllText(Render(p));
    } else {
      assert Render(Stripped(p)) == p.name;
    }
  }

  /** The pieces of a scan of `x + y` from the pieces of each part. */
  lemma ScanParts(a: seq<Piece>, b: seq<Piece>, c: seq<Piece>)
    ensures Output(a + (b + c)) == Output(a) + (Output(b) + Output(c))
    ensures Captures(a + (b + c)) == Captures(a) + (Captures(b) + Captures(c))
  {
    OutputAppend(a, b + c);
    OutputAppend(b, c);
    CapturesAppend(a, b + c);
    CapturesAppend(b, c);
  }

  lemma StrippedAllCons(ps: seq<Param>)
    requires |ps| > 0
    ensures StrippedAll(ps) == [Stripped(ps[0])] + StrippedAll(ps[1..])
  {
  }

  /** Scanning a rendered list with the modifier pattern: the text keeps every
      parameter but drops modifiers (and the types after them), and the
      captures are the modified names in order. */
  predicate ScansModified(words: Words, ps: seq<Param>, prev: Option<char>) {
    var pieces := Scan(ModifiedParamMatcher(words), RenderList(ps), prev);
    Output(pieces) == RenderList(StrippedAll(ps)) && Captures(pieces) == ModifiedNames(ps)
  }

  lemma ScanModifiedOne(words: Words, p: Param, prev: Option<char>)
    requires ValidIn(words, p)
    ensures ScansModified(words, [p], prev)
  {
    ScanModifiedSingle(words, p, prev);
    ModifiedPiecesText(p);
    SingleList(p);
  }

  /** A list of one parameter is scanned as that parameter. */
  lemma ScanModifiedSingle(words: Words, p: Param, prev: Option<char>)
    requires ValidIn(words, p)
    ensures Scan(ModifiedParamMatcher(words), RenderList([p]), prev) == ModifiedPieces(p)
  {
    assert RenderList([p]) == Render(p) + "";
    ScanModifiedParam(words, p, "", prev);
    assert ModifiedPieces(p) + [] == ModifiedPieces(p);
  }

  lemma SingleList(p: Param)
    ensures RenderList(StrippedAll([p])) == Render(Stripped(p))
    ensures ModifiedNames([p]) == if p.modifier.Some? then [p.name] else []
  {
    assert StrippedAll([p]) == [Stripped(p)];
    assert ModifiedNames([p]) == (if p.modifier.Some? then [p.name] else []) + ModifiedNames([]);
  }

  /** The scan of a list of two or more: the first parameter, the separator, the rest. */
  lemma ScanModifiedConsPieces(words: Words, ps: seq<Param>, prev: Option<char>)
    requires |ps| > 1 && AllValidIn(words, ps)
    ensures Scan(ModifiedParamMatcher(words), RenderList(ps), prev)
      == ModifiedPieces(ps[0]) + (KeptAll(", ") + Scan(ModifiedParamMatcher(words), RenderList(ps[1..]), Some(' ')))
  {
    var p := ps[0];
    var rest := ", " + RenderList(ps[1..]);
    assert RenderList(ps) == Render(p) + rest;
    assert ValidIn(words, p);
    ScanModifiedParam(words, p, rest, prev);
    ScanModifiedSeparator(words, RenderList(ps[1..]), Some(Render(p)[|Render(p)| - 1]));
  }

  lemma ScanModifiedCons(words: Words, ps: seq<Param>, prev: Option<char>)
    requires |ps| > 1 && AllValidIn(words, ps) && ScansModified(words, ps[1..], Some(' '))
    ensures ScansModified(words, ps, prev)
  {
    var p := ps[0];
    var head := ModifiedPieces(p);
    var sep := KeptAll(", ");
    var more := Scan(ModifiedParamMatcher(words), RenderList(ps[1..]), Some(' '));
    ScanModifiedConsPieces(words, ps, prev);
    ScanParts(head, sep, more);
    ModifiedPiecesText(p);
    KeptAllText(", ");
    assert Output(head + (sep + more)) == RenderList(StrippedAll(ps)) by {
      StrippedListCons(ps);
    }
    assert Captures(head + (sep + more)) == ModifiedNames(ps) by {
      assert Captures(sep) + Captures(more) == ModifiedNames(ps[1..]);
      assert ModifiedNames(ps) == Captures(head) + ModifiedNames(ps[1..]);
    }
  }

  lemma StrippedListCons(ps: seq<Param>)
    requires |ps| > 1
    ensures RenderList(StrippedAll(ps)) == Render(Stripped(ps[0])) + (", " + RenderList(StrippedAll(ps[1..])))
  {
    StrippedAllCons(ps);
  }

  lemma {:induction false} ScanModifiedList(words: Words, ps: seq<Param>, prev: Option<char>)
    requires AllValidIn(words, ps)
    ensures ScansModified(words, ps, prev)
    decreases |ps|
  {
    if |ps| == 1 {
      ScanModifiedOne(words, ps[0], prev);
      assert ps == [ps[0]];
    } else if |ps| > 1 {
      ScanModifiedList(words, ps[1..], Some(' '));
      ScanModifiedCons(words, ps, prev);
    }
  }

  // ---------------------------------------------------------------------
  // The second substitution on a list without modifiers.

  /** A rendered parameter without modifier, nested to the right. */
  lemma UnmodifiedShape(q: Param, rest: string)
    requires q.modifier.None?
    ensures Render(q) + rest == q.name + (Suffix(q) + rest)
  {
  }

  /** A typed parameter matches as a whole and keeps its name. */
  lemma AnnotationAt(q: Param, rest: string)
    requires Plain(q) && Sep(rest)
    ensures MatchAnnotation(Render(q) + rest) == if q.typ.Some? then Some(Hit(|Render(q)|, q.name)) else None
  {
    var s := Render(q) + rest;
    AfterName(q, rest, s);
    SuffixEnd(q, s, |q.name|, rest);
    AnnotationFrom(s, |q.name|);
  }

  /** A rendered parameter without modifier: its name is the word run at
      its start, and its suffix and the rest follow. */
  lemma AfterName(q: Param, rest: string, s: string)
    requires ValidName(q.name) && q.modifier.None? && Sep(rest) && s == Render(q) + rest
    ensures 0 < |q.name| <= |s| && Run(Word, s) == |q.name| && s[..|q.name|] == q.name
    ensures s[|q.name|..] == Suffix(q) + rest && |q.name| + |Suffix(q)| == |Render(q)|
  {
    var z := Suffix(q) + rest;
    UnmodifiedShape(q, rest);
    assert z == [] || z[0] == ':' || z[0] == ',';
    RunOfPrefix(Word, q.name, z);
  }

  /** An untyped name: no position of it starts a match. */
  lemma NoAnnotationInside(q: Param, rest: string, k: nat)
    requires Plain(q) && q.typ.None? && Sep(rest) && k < |Render(q)|
    ensures MatchAnnotation((Render(q) + rest)[k..]).None?
  {
    var s := Render(q) + rest;
    var t := s[k..];
    var x := q.name[k..];
    assert Render(q) == q.name;
    assert t == x + rest;
    assert t[0..] == t;
    SkipFrom(Word, t, 0, x, rest);
    assert t[|x|..] == rest;
    SuffixEnd(q, t, |x|, rest);
  }

  function AnnotationPieces(q: Param): seq<Piece> {
    if q.typ.Some? then [Replaced(Hit(|Render(q)|, q.name))] else KeptAll(Render(q))
  }

  lemma ScanAnnotationParam(q: Param, rest: string, prev: Option<char>)
    requires Plain(q) && Sep(rest)
    ensures Scan(MatcherOf(Annotation), Render(q) + rest, prev)
      == AnnotationPieces(q) + Scan(MatcherOf(Annotation), rest, Some(Render(q)[|Render(q)| - 1]))
  {
    var m := MatcherOf(Annotation);
    var s := Render(q) + rest;
    var r := Render(q);
    assert s[|r| - 1] == r[|r| - 1];
    AnnotationAt(q, rest);
    if q.typ.Some? {
      AnnotationMatcher(prev, s);
      ScanHit(m, s, prev, Hit(|r|, q.name));
      assert s[|r|..] == rest;
    } else {
      forall k | 0 <= k < |r| ensures m(PrevAt(prev, s, k), s[k..]).None? {
        AnnotationMatcher(PrevAt(prev, s, k), s[k..]);
        if k == 0 {
          assert s[0..] == s;
        } else {
          NoAnnotationInside(q, rest, k);
        }
      }
      NoMatchFrom(m, s, |r|, prev);
      ScanSkips(m, s, |r|, prev);
      assert s[..|r|] == r && s[|r|..] == rest;
    }
  }

  lemma ScanAnnotationSeparator(x: string, prev: Option<char>)
    ensures Scan(MatcherOf(Annotation), ", " + x, prev)
      == KeptAll(", ") + Scan(MatcherOf(Annotation), x, Some(' '))
  {
    var m := MatcherOf(Annotation);
    var s := ", " + x;
    SkipTo(Word, s, 0, 0);
    SkipTo(Word, s[1..], 0, 0);
    NoMatchFrom(m, s, 2, prev);
    ScanSkips(m, s, 2, prev);
    assert s[..2] == ", " && s[2..] == x;
  }

  /** Scanning a list without modifiers with the annotation pattern leaves
      the names separated by `, `. */
  lemma AnnotationPiecesText(q: Param)
    requires Plain(q)
    ensures Output(AnnotationPieces(q)) == q.name
  {
    if q.typ.None? {
      KeptAllText(Render(q));
    }
  }

  lemma NamesCons(ps: seq<Param>)
    requires |ps| > 0
    ensures Names(ps) == [ps[0].name] + Names(ps[1..])
  {
  }

  lemma {:induction false} ScanAnnotationList(qs: seq<Param>, prev: Option<char>)
    requires AllPlain(qs)
    ensures Output(Scan(MatcherOf(Annotation), RenderList(qs), prev)) == Join(Names(qs), ", ")
    decreases |qs|
  {
    var m := MatcherOf(Annotation);
    if |qs| == 1 {
      var q := qs[0];
      assert RenderList(qs) == Render(q) + "";
      ScanAnnotationParam(q, "", prev);
      AnnotationPiecesText(q);
      OutputAppend(AnnotationPieces(q), []);
      assert Names(qs) == [q.name];
    } else if |qs| > 1 {
      var q := qs[0];
      var tail := qs[1..];
      var rest := ", " + RenderList(tail);
      var prev1 := Some(Render(q)[|Render(q)| - 1]);
      assert RenderList(qs) == Render(q) + rest;
      ScanAnnotationParam(q, rest, prev);
      ScanAnnotationSeparator(RenderList(tail), prev1);
      ScanAnnotationList(tail, Some(' '));
      AnnotationPiecesText(q);
      KeptAllText(", ");
      ScanParts(AnnotationPieces(q), KeptAll(", "), Scan(m, RenderList(tail), Some(' ')));
      NamesCons(qs);
      JoinFirst(q.name, Names(tail), ", ");
    }
  }

  // ---------------------------------------------------------------------
  // What the cleaning step and the exec loop make of a parameter list.

  /** The cleaned list keeps every name, in order, without modifiers or types. */
  lemma CleanParamsRendered(ps: seq<Param>)
    requires AllValid(ps)
    ensures CleanParams(RenderList(ps)) == Join(Names(ps), ", ")
  {
    var qs := StrippedAll(ps);
    AccessListScan(ps);
    StrippedPlain(ps);
    ScanAnnotationList(qs, None);
  }

  /** The exec loop finds exactly the modified parameters, in order. */
  lemma PropertyNamesRendered(ps: seq<Param>)
    requires AllValid(ps)
    ensures PropertyNames(RenderList(ps)) == ModifiedNames(ps)
  {
    AccessListScan(ps);
  }

  // The rule's matcher, unfolded once for AccessListScan.
  lemma ModifiedParamRule()
    ensures MatcherOf(ModifiedParam) == ModifiedParamMatcher(AccessModifiers)
  {
  }

  /** The first substitution and the exec loop over a rendered list. */
  lemma AccessListScan(ps: seq<Param>)
    requires AllValid(ps)
    ensures ReplaceAll(ModifiedParam, RenderList(ps)) == RenderList(StrippedAll(ps))
    ensures PropertyNames(RenderList(ps)) == ModifiedNames(ps)
  {
    AccessModifierWords();
    ScanModifiedList(AccessModifiers, ps, None);
    ModifiedParamRule();
  }

  /** One parameter on its own: the substitution and the exec loop both fire
      exactly when it carries an access modifier; the substitution then drops
      the modifier and the type, and the loop captures the name. */
  lemma ModifiedParamOne(p: Param)
    requires Valid(p)
    ensures ReplaceAll(ModifiedParam, Render(p)) == (if p.modifier.Some? then p.name else Render(p))
    ensures PropertyNames(Render(p)) == (if p.modifier.Some? then [p.name] else [])
  {
    var one := [p];
    assert RenderList(one) == Render(p);
    AccessListScan(one);
    SingleList(p);
    StrippedRender(p);
  }

  lemma StrippedRender(p: Param)
    ensures Render(Stripped(p)) == if p.modifier.Some? then p.name else Render(p)
  {
    assert Render(Param(None, p.name, None)) == "" + p.name + "";
  }

  /** Stripping leaves valid parameters without modifiers, with the same names. */
  lemma StrippedPlain(ps: seq<Param>)
    requires AllValid(ps)
    ensures AllPlain(StrippedAll(ps)) && Names(StrippedAll(ps)) == Names(ps)
  {
  }
}

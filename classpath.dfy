/** The class path of `executeCode` (src/App.tsx:197-283): which programs take
    it, and the transformation that turns their TypeScript classes into
    JavaScript before they are run. */
module ClassPath {
  import opened Text
  import opened Substitution
  import opened ParamList
  import opened Stripping
  import opened Ctor

  // ---------------------------------------------------------------------
  // Which programs take the class path (src/App.tsx:198-202).

  /** `/constructor\s*\(\s*(?:public|private|protected|readonly)/` matches at `i`. */
  predicate ModifiedCtorAt(s: string, i: nat)
    requires i <= |s|
  {
    var a := OpenAt(s, i);
    a.Some? && KeywordLen(s[Skip(Space, s, a.value)..], AccessModifiers) > 0
  }

  /** The same pattern matches at `i` or later. */
  predicate ModifiedCtorFrom(s: string, i: nat)
    requires i <= |s|
    decreases |s| - i
  {
    ModifiedCtorAt(s, i) || (i < |s| && ModifiedCtorFrom(s, i + 1))
  }

  /** The test of src/App.tsx:198-202, in the source's own shape. */
  predicate ClassCandidate(code: string) {
    && Contains(code, "class")
    && ((Contains(code, Keyword) && ModifiedCtorFrom(code, 0))
        || Contains(code, "extends") || Contains(code, "static") || Contains(code, "private"))
  }

  /** A match of the modifier pattern mentions `constructor`. */
  lemma {:induction false} ModifiedCtorMentions(s: string, i: nat)
    requires i <= |s| && ModifiedCtorFrom(s, i)
    ensures Contains(s, Keyword)
    decreases |s| - i
  {
    if ModifiedCtorAt(s, i) {
      StartsWithSlice(s[i..], Keyword);
      assert s[i..][..|Keyword|] == s[i..i + |Keyword|];
      ContainsAt(s, Keyword, i);
    } else {
      ModifiedCtorMentions(s, i + 1);
    }
  }

  /** The `includes('constructor')` guard adds nothing to the regular
      expression it is joined with: a class takes the class path exactly when
      it has a constructor parameter with an access modifier, or mentions
      `extends`, `static` or `private`. */
  lemma ClassCandidateIff(code: string)
    ensures ClassCandidate(code) <==>
              Contains(code, "class")
              && (ModifiedCtorFrom(code, 0) || Contains(code, "extends")
                  || Contains(code, "static") || Contains(code, "private"))
  {
    if ModifiedCtorFrom(code, 0) {
      ModifiedCtorMentions(code, 0);
    }
  }

  // ---------------------------------------------------------------------
  // The transformation.

  /** The class transformation as the source orders it: the head of the
      chain (src/App.tsx:207-229), then the constructor rewrite
      (src/App.tsx:232-276), then the tail (src/App.tsx:279-283). */
  function TransformAsWritten(code: string): (js: string)
    ensures Untouched(ClassHead + ClassTail, code) && !Contains(code, Keyword) ==> js == code
  {
    ClassChainKeeps(code);
    ApplyChain(ClassTail, Synthesize(ApplyChain(ClassHead, code)))
  }

  /** The class transformation with the constructor rewrite done first, while
      the parameters still carry their access modifiers. */
  function Transform(code: string): (js: string)
    ensures Untouched(ClassHead + ClassTail, code) && !Contains(code, Keyword) ==> js == code
  {
    ClassChainKeeps(code);
    ApplyChain(ClassTail, ApplyChain(ClassHead, Synthesize(code)))
  }

  /** Code that no rule of the class chain can fire on passes both halves. */
  lemma ClassChainKeeps(code: string)
    ensures Untouched(ClassHead + ClassTail, code) ==>
              ApplyChain(ClassHead, code) == code && ApplyChain(ClassTail, code) == code
  {
    if Untouched(ClassHead + ClassTail, code) {
      assert Untouched(ClassHead, code) by {
        forall k | 0 <= k < |ClassHead| ensures !Triggered(ClassHead[k], code) {
          assert ClassHead[k] == (ClassHead + ClassTail)[k];
        }
      }
      assert Untouched(ClassTail, code) by {
        forall k | 0 <= k < |ClassTail| ensures !Triggered(ClassTail[k], code) {
          assert ClassTail[k] == (ClassHead + ClassTail)[|ClassHead| + k];
        }
      }
      ChainUntriggered(ClassHead, code);
      ChainUntriggered(ClassTail, code);
    }
  }

  /** The class transformation step by step, the rewrite collecting its
      assignments with its `exec` loop. */
  method TransformClass(code: string) returns (js: string)
    ensures js == TransformAsWritten(code)
  {
    js := ApplyChain(ClassHead, code);
    js := SynthesizeProperties(js);
    js := ApplyChain(ClassTail, js);
  }

  /** A constructor written out parameter by parameter. */
  function Declared(pre: string, ps: seq<Param>, body: string, post: string): string {
    pre + (Keyword + ("(" + (RenderList(ps) + (") {" + (body + ("}" + post))))))
  }

  /** The same constructor with bare parameter names and one assignment per
      parameter that carries an access modifier at the end of its body. */
  function Assigned(pre: string, ps: seq<Param>, body: string, post: string): string {
    var clean := Join(Names(ps), ", ");
    if ModifiedNames(ps) == [] then
      pre + (Keyword + ("(" + (clean + (") {" + (body + ("}" + post))))))
    else
      pre + (Keyword + ("(" + (clean + (") {" + (body + (Join(Assignments(ModifiedNames(ps)), "\n") + "}"))))))
      + post
  }

  /** Every parameter property becomes an assignment: when the rewritten
      class holds nothing the two chains act on, the transformation yields
      the constructor with one `this.name = name;` per parameter declared
      with an access modifier. */
  lemma TransformRendered(pre: string, ps: seq<Param>, body: string, post: string)
    requires AllValid(ps) && ps != [] && '}' !in body
    requires FirstKeyword(pre)
    requires Untouched(ClassHead + ClassTail, Assigned(pre, ps, body, post))
    ensures Transform(Declared(pre, ps, body, post)) == Assigned(pre, ps, body, post)
  {
    var a := Assigned(pre, ps, body, post);
    SynthesizeRendered(pre, ps, body, post);
    assert Untouched(ClassHead, a) by {
      forall k | 0 <= k < |ClassHead| ensures !Triggered(ClassHead[k], a) {
        assert (ClassHead + ClassTail)[k] == ClassHead[k];
      }
    }
    assert Untouched(ClassTail, a) by {
      forall k | 0 <= k < |ClassTail| ensures !Triggered(ClassTail[k], a) {
        assert (ClassHead + ClassTail)[|ClassHead| + k] == ClassTail[k];
      }
    }
    ChainUntriggered(ClassHead, a);
    ChainUntriggered(ClassTail, a);
  }

  // ---------------------------------------------------------------------
  // Untyped parameter lists under the transformation as written.

  /** What the member-modifier substitution (src/App.tsx:229) leaves of a
      parameter: a `public`, `private` or `protected` one loses its
      modifier, a `readonly` one keeps it. */
  function MemberKept(p: Param): Param {
    if p.modifier.Some? && p.modifier.value in MemberModifiers then p.(modifier := None) else p
  }

  function MemberKeptAll(ps: seq<Param>): seq<Param> {
    seq(|ps|, i requires 0 <= i < |ps| => MemberKept(ps[i]))
  }

  predicate Untyped(ps: seq<Param>) {
    forall i :: 0 <= i < |ps| ==> ps[i].typ.None?
  }

  /** The names of the parameters declared `readonly`, in order. */
  function ReadonlyNames(ps: seq<Param>): seq<string> {
    if ps == [] then []
    else (if ps[0].modifier == Some("readonly") then [ps[0].name] else []) + ReadonlyNames(ps[1..])
  }

  /** As written, only the `readonly` parameters become properties: on a
      constructor whose untyped parameters carry any access modifiers, the
      head of the chain has already dropped `public`, `private` and
      `protected` when the rewrite looks for parameter properties, so the
      result has the bare names and one `this.name = name;` per `readonly`
      parameter, where `Transform` has one per modified parameter. */
  lemma TransformAsWrittenRendered(pre: string, ps: seq<Param>, body: string, post: string)
    requires AllValid(ps) && Untyped(ps) && ps != [] && '}' !in body && FirstKeyword(pre)
    requires 'p' !in pre && 'p' !in body && 'p' !in post
    requires Untouched(ClassHead[..7], Declared(pre, ps, body, post))
    requires Untouched(ClassTail, Assigned(pre, MemberKeptAll(ps), body, post))
    ensures TransformAsWritten(Declared(pre, ps, body, post)) == Assigned(pre, MemberKeptAll(ps), body, post)
    ensures Names(MemberKeptAll(ps)) == Names(ps)
    ensures ModifiedNames(MemberKeptAll(ps)) == ReadonlyNames(ps)
  {
    AsWrittenChain(pre, ps, body, post);
    KeptNames(ps);
    KeptReadonly(ps);
  }

  lemma AsWrittenChain(pre: string, ps: seq<Param>, body: string, post: string)
    requires AllValid(ps) && Untyped(ps) && ps != [] && '}' !in body && FirstKeyword(pre)
    requires 'p' !in pre && 'p' !in body && 'p' !in post
    requires Untouched(ClassHead[..7], Declared(pre, ps, body, post))
    requires Untouched(ClassTail, Assigned(pre, MemberKeptAll(ps), body, post))
    ensures TransformAsWritten(Declared(pre, ps, body, post)) == Assigned(pre, MemberKeptAll(ps), body, post)
  {
    var s := Declared(pre, ps, body, post);
    var t := Declared(pre, MemberKeptAll(ps), body, post);
    var u := Assigned(pre, MemberKeptAll(ps), body, post);
    HeadIsMemberModifier(s);
    MemberStrippedList(pre, ps, body, post);
    KeptSynthesized(pre, ps, body, post);
    ChainUntriggered(ClassTail, u);
  }

  lemma KeptNames(ps: seq<Param>)
    ensures Names(MemberKeptAll(ps)) == Names(ps)
  {
  }

  /** The rewrite on the constructor the head of the chain leaves. */
  lemma KeptSynthesized(pre: string, ps: seq<Param>, body: string, post: string)
    requires AllValid(ps) && ps != [] && '}' !in body && FirstKeyword(pre)
    ensures Synthesize(Declared(pre, MemberKeptAll(ps), body, post)) == Assigned(pre, MemberKeptAll(ps), body, post)
  {
    var qs := MemberKeptAll(ps);
    assert AllValid(qs) by {
      forall i | 0 <= i < |qs| ensures Valid(qs[i]) {
        assert Valid(ps[i]);
      }
    }
    SynthesizeRendered(pre, qs, body, post);
  }

  /** The modified names left after the member-modifier substitution are
      the `readonly` ones. */
  lemma {:induction false} KeptReadonly(ps: seq<Param>)
    requires AllValid(ps)
    ensures ModifiedNames(MemberKeptAll(ps)) == ReadonlyNames(ps)
  {
    if ps != [] {
      var qs := MemberKeptAll(ps);
      assert Valid(ps[0]);
      assert AllValid(ps[1..]) by {
        forall i | 0 <= i < |ps| - 1 ensures Valid(ps[1..][i]) {
          assert ps[1..][i] == ps[i + 1];
        }
      }
      assert qs[1..] == MemberKeptAll(ps[1..]);
      KeptReadonly(ps[1..]);
    }
  }

  /** The member-modifier substitution on a constructor with untyped
      parameters drops the `public`, `private` and `protected` modifiers
      and keeps everything else. */
  lemma MemberStrippedList(pre: string, ps: seq<Param>, body: string, post: string)
    requires AllValid(ps) && Untyped(ps) && ps != [] && 'p' !in pre && 'p' !in body && 'p' !in post
    ensures ReplaceAll(MemberModifier, Declared(pre, ps, body, post)) == Declared(pre, MemberKeptAll(ps), body, post)
  {
    var m := MatcherOf(MemberModifier);
    var a := pre + (Keyword + "(");
    var b := ") {" + (body + ("}" + post));
    var x := RenderList(ps) + b;
    var prev := PrevAt(None, a + x, |a|);
    FrameWithoutP(pre, body, post);
    DeclaredSplit(pre, ps, body, post);
    DeclaredSplit(pre, MemberKeptAll(ps), body, post);
    SkipPlain(a, x);
    ScanMemberList(ps, b, prev);
    OutputAppend(KeptAll(a), Scan(m, x, prev));
    KeptAllText(a);
  }

  /** A constructor as the text before its parameters, the parameters, and
      the text after them. */
  lemma DeclaredSplit(pre: string, ps: seq<Param>, body: string, post: string)
    ensures Declared(pre, ps, body, post) == (pre + (Keyword + "(")) + (RenderList(ps) + (") {" + (body + ("}" + post))))
  {
  }

  lemma FrameWithoutP(pre: string, body: string, post: string)
    requires 'p' !in pre && 'p' !in body && 'p' !in post
    ensures 'p' !in pre + (Keyword + "(") && 'p' !in ") {" + (body + ("}" + post))
  {
    assert 'p' !in Keyword + "(";
  }

  /** What the scan makes of one rendered parameter. */
  function MemberPieces(p: Param): seq<Piece> {
    if p.modifier.Some? && p.modifier.value in MemberModifiers then [Replaced(Hit(|Render(p)|, p.name))]
    else KeptAll(Render(p))
  }

  lemma MemberPiecesText(p: Param)
    requires p.typ.None?
    ensures Output(MemberPieces(p)) == Render(MemberKept(p))
  {
    if !(p.modifier.Some? && p.modifier.value in MemberModifiers) {
      KeptAllText(Render(p));
    }
  }

  /** The member-modifier scan of a rendered list of untyped parameters
      followed by text without `p`. */
  lemma {:induction false} ScanMemberList(ps: seq<Param>, b: string, prev: Option<char>)
    requires AllValid(ps) && Untyped(ps) && ps != [] && Closes(b) && 'p' !in b
    ensures Output(Scan(MatcherOf(MemberModifier), RenderList(ps) + b, prev)) == RenderList(MemberKeptAll(ps)) + b
    decreases |ps|
  {
    if |ps| == 1 {
      ScanMemberOne(ps, b, prev);
    } else {
      assert AllValid(ps[1..]) && Untyped(ps[1..]) by {
        forall i | 0 <= i < |ps| - 1 ensures Valid(ps[1..][i]) && ps[1..][i].typ.None? {
          assert ps[1..][i] == ps[i + 1];
        }
      }
      ScanMemberList(ps[1..], b, Some(' '));
      ScanMemberCons(ps, b, prev);
    }
  }

  lemma ScanMemberOne(ps: seq<Param>, b: string, prev: Option<char>)
    requires |ps| == 1 && AllValid(ps) && Untyped(ps) && Closes(b) && 'p' !in b
    ensures Output(Scan(MatcherOf(MemberModifier), RenderList(ps) + b, prev)) == RenderList(MemberKeptAll(ps)) + b
  {
    var p := ps[0];
    var r := Render(p);
    assert Valid(p) && p.typ.None?;
    assert RenderList(ps) == r;
    ScanMemberParam(p, b, prev);
    PlainTail(b, Some(r[|r| - 1]));
    OutputAppend(MemberPieces(p), KeptAll(b));
    MemberPiecesText(p);
    KeptAllText(b);
    assert MemberKeptAll(ps) == [MemberKept(p)];
  }

  lemma ScanMemberCons(ps: seq<Param>, b: string, prev: Option<char>)
    requires |ps| > 1 && AllValid(ps) && Untyped(ps) && Closes(b)
    requires Output(Scan(MatcherOf(MemberModifier), RenderList(ps[1..]) + b, Some(' ')))
             == RenderList(MemberKeptAll(ps[1..])) + b
    ensures Output(Scan(MatcherOf(MemberModifier), RenderList(ps) + b, prev)) == RenderList(MemberKeptAll(ps)) + b
  {
    var m := MatcherOf(MemberModifier);
    var p := ps[0];
    var head := MemberPieces(p);
    var sep := KeptAll(", ");
    var more := Scan(m, RenderList(ps[1..]) + b, Some(' '));
    ScanMemberConsPieces(ps, b, prev);
    ScanParts(head, sep, more);
    assert p.typ.None?;
    MemberPiecesText(p);
    KeptAllText(", ");
    var first := Render(MemberKept(p));
    var others := RenderList(MemberKeptAll(ps[1..]));
    assert Output(head + (sep + more)) == first + (", " + (others + b));
    KeptListCons(ps);
    Regroup(first, ", ", others, b);
  }

  /** The pieces of the scan: the first parameter, the separator, the rest. */
  lemma ScanMemberConsPieces(ps: seq<Param>, b: string, prev: Option<char>)
    requires |ps| > 1 && AllValid(ps) && Untyped(ps) && Closes(b)
    ensures Scan(MatcherOf(MemberModifier), RenderList(ps) + b, prev)
            == MemberPieces(ps[0]) + (KeptAll(", ") + Scan(MatcherOf(MemberModifier), RenderList(ps[1..]) + b, Some(' ')))
  {
    var p := ps[0];
    var r := Render(p);
    assert Valid(p) && p.typ.None?;
    var x := RenderList(ps[1..]) + b;
    var y := ", " + x;
    assert RenderList(ps) + b == r + y;
    ScanMemberParam(p, y, prev);
    ScanMemberSeparator(x, Some(r[|r| - 1]));
  }

  lemma Regroup(a: string, b: string, c: string, d: string)
    ensures a + (b + (c + d)) == (a + (b + c)) + d
  {
  }

  lemma KeptListCons(ps: seq<Param>)
    requires |ps| > 1
    ensures RenderList(MemberKeptAll(ps)) == Render(MemberKept(ps[0])) + (", " + RenderList(MemberKeptAll(ps[1..])))
  {
    var qs := MemberKeptAll(ps);
    assert qs[0] == MemberKept(ps[0]) && qs[1..] == MemberKeptAll(ps[1..]);
  }

  /** The scan over one parameter: a member-modified one is a single match,
      any other is kept character by character. */
  lemma ScanMemberParam(p: Param, rest: string, prev: Option<char>)
    requires Valid(p) && p.typ.None? && Closes(rest)
    ensures Scan(MatcherOf(MemberModifier), Render(p) + rest, prev)
            == MemberPieces(p) + Scan(MatcherOf(MemberModifier), rest, Some(Render(p)[|Render(p)| - 1]))
  {
    var m := MatcherOf(MemberModifier);
    var r := Render(p);
    var s := r + rest;
    assert s[..|r|] == r && s[|r|..] == rest && s[|r| - 1] == r[|r| - 1];
    if p.modifier.Some? && p.modifier.value in MemberModifiers {
      MemberParamHit(p, rest, prev);
    } else {
      MemberParamKept(p, rest, prev);
      ScanSkips(m, s, |r|, prev);
    }
  }

  /** A member-modified parameter is one match. */
  lemma MemberParamHit(p: Param, rest: string, prev: Option<char>)
    requires Valid(p) && p.typ.None? && Closes(rest)
    requires p.modifier.Some? && p.modifier.value in MemberModifiers
    ensures MatcherOf(MemberModifier)(prev, Render(p) + rest) == Some(Hit(|Render(p)|, p.name))
  {
    var s := Render(p) + rest;
    var w := p.modifier.value;
    assert s == w + (" " + (p.name + rest));
    ModifierHit(w, p.name, rest);
    MemberModifierMatches(prev, s);
  }

  /** No match starts inside any other parameter. */
  lemma MemberParamKept(p: Param, rest: string, prev: Option<char>)
    requires Valid(p) && p.typ.None? && Closes(rest)
    requires !(p.modifier.Some? && p.modifier.value in MemberModifiers)
    ensures NoMatchBefore(MatcherOf(MemberModifier), Render(p) + rest, |Render(p)|, prev)
  {
    var m := MatcherOf(MemberModifier);
    var r := Render(p);
    var s := r + rest;
    forall k | 0 <= k < |r| ensures m(PrevAt(prev, s, k), s[k..]).None? {
      MemberModifierMatches(PrevAt(prev, s, k), s[k..]);
      MemberParamKeptAt(p, rest, k);
    }
    NoMatchFrom(m, s, |r|, prev);
  }

  /** Inside a parameter without a member modifier: `readonly `, then the
      name. */
  lemma MemberParamKeptAt(p: Param, rest: string, k: nat)
    requires Valid(p) && p.typ.None? && Closes(rest)
    requires !(p.modifier.Some? && p.modifier.value in MemberModifiers)
    requires k < |Render(p)|
    ensures MatchMemberModifier((Render(p) + rest)[k..]).None?
  {
    var s := Render(p) + rest;
    var pre := Prefix(p);
    assert pre == "" || pre == "readonly ";
    assert s == pre + (p.name + rest);
    if k < |pre| {
      assert s[k..][0] == pre[k];
      NoModifierHere(s[k..]);
    } else {
      NoModifierInName(s, |pre|, p.name, rest, k);
    }
  }

  /** No member modifier starts inside a name that a `,` or a `)` ends:
      a modifier word found there is followed by a word character or by
      that `,` or `)`, never by the space the pattern needs. */
  lemma NoModifierInName(s: string, j: nat, name: string, rest: string, k: nat)
    requires j <= |s| && s[j..] == name + rest && ValidName(name) && Closes(rest)
    requires j <= k < j + |name|
    ensures MatchMemberModifier(s[k..]).None?
  {
    var t := s[k..];
    var l := j + |name| - k;
    assert t == name[k - j..] + rest;
    var n := KeywordLen(t, MemberModifiers);
    if n > 0 {
      KeywordLenIn(t, MemberModifiers);
      MemberModifiersLowercase();
      assert n <= l by {
        assert Lowercase(t[..n]);
        assert l < |t| && t[l] == rest[0];
        assert forall i :: 0 <= i < n ==> t[..n][i] == t[i];
      }
      assert t[n] == (if n < l then name[k - j + n] else rest[0]);
      SkipTo(Space, t, n, n);
    }
  }

  lemma MemberModifiersLowercase()
    ensures forall i :: 0 <= i < |MemberModifiers| ==> Lowercase(MemberModifiers[i])
  {
  }

  /** The scan copies the `, ` between two parameters. */
  lemma ScanMemberSeparator(x: string, prev: Option<char>)
    ensures Scan(MatcherOf(MemberModifier), ", " + x, prev)
            == KeptAll(", ") + Scan(MatcherOf(MemberModifier), x, Some(' '))
  {
    var m := MatcherOf(MemberModifier);
    var s := ", " + x;
    forall k | 0 <= k < 2 ensures m(PrevAt(prev, s, k), s[k..]).None? {
      assert s[k..][0] == s[k];
      NoModifierHere(s[k..]);
      MemberModifierMatches(PrevAt(prev, s, k), s[k..]);
    }
    NoMatchFrom(m, s, 2, prev);
    ScanSkips(m, s, 2, prev);
    assert s[..2] == ", " && s[2..] == x;
  }

  // ---------------------------------------------------------------------
  // A constructor with one `public` parameter, as in
  // `class A{constructor(public a) {}}`.

  /** `constructor(<params>) {<body>}` between `pre` and `post`. */
  function Constructor(pre: string, params: string, body: string, post: string): string {
    pre + (Keyword + ("(" + (params + (") {" + (body + ("}" + post))))))
  }

  /** With the rewrite first, the `public` parameter becomes a property:
      `this.name = name;` closes the constructor body. */
  lemma PublicParamAssigned(pre: string, name: string, body: string, post: string)
    requires ValidName(name) && '}' !in body && FirstKeyword(pre)
    requires Untouched(ClassHead + ClassTail, Constructor(pre, name, body + Assignment(name), post))
    ensures Transform(Constructor(pre, "public " + name, body, post))
            == Constructor(pre, name, body + Assignment(name), post)
  {
    var ps := [Param(Some("public"), name, None)];
    assert Valid(ps[0]);
    assert RenderList(ps) == "public " + name;
    assert Declared(pre, ps, body, post) == Constructor(pre, "public " + name, body, post);
    assert Names(ps) == [name] && ModifiedNames(ps) == [name];
    assert Join(Assignments([name]), "\n") == Assignment(name);
    AssignedText(pre, name, body, Assignment(name), post);
    TransformRendered(pre, ps, body, post);
  }

  lemma AssignedText(pre: string, name: string, body: string, a: string, post: string)
    ensures pre + (Keyword + ("(" + (name + (") {" + (body + (a + "}")))))) + post
            == Constructor(pre, name, body + a, post)
  {
  }

  /** As written, the `public` parameter is lost: the head's member-modifier
      substitution (src/App.tsx:229) has already reduced `public name` to
      `name` when the rewrite looks for parameter properties, so the body
      gains no assignment although the class took the class path for that
      very parameter. */
  lemma PublicParamDropped(pre: string, name: string, body: string, post: string)
    requires ValidName(name) && '}' !in body && FirstKeyword(pre) && Contains(pre, "class")
    requires 'p' !in pre && 'p' !in body && 'p' !in post
    requires Untouched(ClassHead[..7], Constructor(pre, "public " + name, body, post))
    requires Untouched(ClassTail, Constructor(pre, name, body, post))
    ensures ClassCandidate(Constructor(pre, "public " + name, body, post))
    ensures TransformAsWritten(Constructor(pre, "public " + name, body, post)) == Constructor(pre, name, body, post)
  {
    var s := Constructor(pre, "public " + name, body, post);
    var stripped := Constructor(pre, name, body, post);
    PublicCandidate(pre, name, body, post);
    HeadIsMemberModifier(s);
    PublicStripped(pre, name, body, post);
    BareSynthesized(pre, name, body, post);
    ChainUntriggered(ClassTail, stripped);
  }

  /** On a text that sets off none of its first seven rules, the head of the
      class chain is the member-modifier substitution alone. */
  lemma HeadIsMemberModifier(s: string)
    requires Untouched(ClassHead[..7], s)
    ensures ApplyChain(ClassHead, s) == ReplaceAll(MemberModifier, s)
  {
    var front := ClassHead[..7];
    assert ClassHead == front + [MemberModifier];
    ChainUntriggered(front, s);
    ChainAppend(front, [MemberModifier], s);
  }

  /** The member-modifier substitution drops the `public ` of the parameter. */
  lemma PublicStripped(pre: string, name: string, body: string, post: string)
    requires ValidName(name) && 'p' !in pre && 'p' !in body && 'p' !in post
    ensures ReplaceAll(MemberModifier, Constructor(pre, "public " + name, body, post))
            == Constructor(pre, name, body, post)
  {
    var a := pre + (Keyword + "(");
    var b := ") {" + (body + ("}" + post));
    assert 'p' !in Keyword + "(";
    assert 'p' !in b;
    PublicSplit(pre, name, body, post);
    ConstructorSplit(pre, name, body, post);
    MemberModifierOnce(a, name, b);
  }

  lemma PublicSplit(pre: string, name: string, body: string, post: string)
    ensures Constructor(pre, "public " + name, body, post)
            == (pre + (Keyword + "(")) + ("public " + (name + (") {" + (body + ("}" + post)))))
  {
  }

  lemma ConstructorSplit(pre: string, params: string, body: string, post: string)
    ensures Constructor(pre, params, body, post) == (pre + (Keyword + "(")) + (params + (") {" + (body + ("}" + post))))
  {
  }

  /** A constructor whose only parameter is a bare name is left as it is. */
  lemma BareSynthesized(pre: string, name: string, body: string, post: string)
    requires ValidName(name) && '}' !in body && FirstKeyword(pre)
    ensures Synthesize(Constructor(pre, name, body, post)) == Constructor(pre, name, body, post)
  {
    var ps := [Param(None, name, None)];
    assert Valid(ps[0]);
    assert RenderList(ps) == name;
    assert Names(ps) == [name] && ModifiedNames(ps) == [];
    SynthesizeRendered(pre, ps, body, post);
  }

  /** The constructor with the `public` parameter takes the class path. */
  lemma PublicCandidate(pre: string, name: string, body: string, post: string)
    requires ValidName(name) && Contains(pre, "class")
    ensures ClassCandidate(Constructor(pre, "public " + name, body, post))
  {
    var s := Constructor(pre, "public " + name, body, post);
    var x := name + (") {" + (body + ("}" + post)));
    assert s == pre + (Keyword + ("(" + ("public" + (" " + x))));
    Split3(pre, Keyword, "(" + ("public" + (" " + x)));
    ContainsPrefix(s, |pre|, "class");
    PublicModifierAt(s, |pre|, x);
    ModifiedCtorUpTo(s, 0, |pre|);
    StartsWithSlice(s[|pre|..], Keyword);
    ContainsAt(s, Keyword, |pre|);
  }

  /** `constructor(public ` is a match of the modifier pattern. */
  lemma PublicModifierAt(s: string, i: nat, x: string)
    requires i <= |s| && s[i..] == Keyword + ("(" + ("public" + (" " + x)))
    ensures ModifiedCtorAt(s, i)
  {
    var rest := "public" + (" " + x);
    OpenOf(s, i, rest);
    var o := i + |Keyword| + 1;
    SkipFrom(Space, s, o, "", rest);
    PublicFirst(x);
  }

  /** `public` is the second of the access modifiers. */
  lemma PublicFirst(x: string)
    ensures KeywordLen("public" + (" " + x), AccessModifiers) == 6
  {
    var rest := "public" + (" " + x);
    StartsWithPrefix("public", " " + x);
    KeywordLenSelects(AccessModifiers, 0, rest);
  }

  /** What a text contains, every text it begins contains too. */
  lemma ContainsPrefix(s: string, n: nat, t: string)
    requires n <= |s| && Contains(s[..n], t)
    ensures Contains(s, t)
  {
    var k := ContainsWitness(s[..n], t);
    StartsWithSlice(s[..n][k..], t);
    StartsWithSlice(s[k..], t);
    assert s[k..][..|t|] == s[..n][k..][..|t|];
    ContainsAt(s, t, k);
  }

  /** A match at `j` is a match from any earlier `i`. */
  lemma {:induction false} ModifiedCtorUpTo(s: string, i: nat, j: nat)
    requires i <= j <= |s| && ModifiedCtorAt(s, j)
    ensures ModifiedCtorFrom(s, i)
    decreases j - i
  {
    if i < j {
      ModifiedCtorUpTo(s, i + 1, j);
    }
  }

  /** The member-modifier substitution on a text whose only `p` begins
      `public name`: it drops `public `. */
  lemma MemberModifierOnce(a: string, name: string, b: string)
    requires 'p' !in a && 'p' !in b && ValidName(name) && b != [] && b[0] == ')'
    ensures ReplaceAll(MemberModifier, a + ("public " + (name + b))) == a + (name + b)
  {
    var m := MatcherOf(MemberModifier);
    var rest := "public " + (name + b);
    var s := a + rest;
    var h := Hit(7 + |name|, name);
    SkipPlain(a, rest);
    PublicHit(name, b);
    MemberModifierMatches(PrevAt(None, s, |a|), rest);
    ScanHit(m, rest, PrevAt(None, s, |a|), h);
    assert rest[h.len..] == b;
    PlainTail(b, Some(rest[h.len - 1]));
    OutputThree(a, h, b);
  }

  lemma MemberModifierMatches(prev: Option<char>, s: string)
    ensures MatcherOf(MemberModifier)(prev, s) == MatchMemberModifier(s)
  {
    assert MatcherOf(MemberModifier) == MemberModifierMatcher();
  }

  /** The scan copies a prefix without `p` and goes on after it. */
  lemma SkipPlain(a: string, rest: string)
    requires 'p' !in a
    ensures Scan(MatcherOf(MemberModifier), a + rest, None)
            == KeptAll(a) + Scan(MatcherOf(MemberModifier), rest, PrevAt(None, a + rest, |a|))
  {
    var m := MatcherOf(MemberModifier);
    var s := a + rest;
    forall k | 0 <= k < |a| ensures m(PrevAt(None, s, k), s[k..]).None? {
      assert s[k..][0] == a[k];
      NoModifierHere(s[k..]);
      MemberModifierMatches(PrevAt(None, s, k), s[k..]);
    }
    NoMatchFrom(m, s, |a|, None);
    ScanSkips(m, s, |a|, None);
    assert s[|a|..] == rest && s[..|a|] == a;
  }

  /** The scan copies a text without `p` whole. */
  lemma PlainTail(b: string, prev: Option<char>)
    requires 'p' !in b
    ensures Scan(MatcherOf(MemberModifier), b, prev) == KeptAll(b)
  {
    assert !Triggered(MemberModifier, b) by {
      Absent(b, "private", 0);
      Absent(b, "public", 0);
      Absent(b, "protected", 0);
    }
    ScanUntriggered(MemberModifier, b, prev);
  }

  lemma OutputThree(a: string, h: Hit, b: string)
    ensures Output(KeptAll(a) + ([Replaced(h)] + KeptAll(b))) == a + (h.text + b)
  {
    OutputAppend(KeptAll(a), [Replaced(h)] + KeptAll(b));
    OutputAppend([Replaced(h)], KeptAll(b));
    KeptAllText(a);
    KeptAllText(b);
  }

  /** `public name)` is one match of the member-modifier pattern. */
  lemma PublicHit(name: string, b: string)
    requires ValidName(name) && b != [] && b[0] == ')'
    ensures MatchMemberModifier("public " + (name + b)) == Some(Hit(7 + |name|, name))
  {
    assert "public " + (name + b) == "public" + (" " + (name + b));
    ModifierHit("public", name, b);
  }

  /** A member modifier, one space and a name that a `,` or a `)` ends is
      one match of the member-modifier pattern. */
  lemma ModifierHit(w: string, name: string, b: string)
    requires w in MemberModifiers && ValidName(name) && Closes(b)
    ensures MatchMemberModifier(w + (" " + (name + b))) == Some(Hit(|w| + 1 + |name|, name))
  {
    var rest := w + (" " + (name + b));
    ModifierRuns(w, name, b, rest);
    MatchFromRuns(rest, |w|, |w| + 1, |w| + 1 + |name|);
  }

  /** A `,` or a `)` after a parameter: neither space nor word character. */
  predicate Closes(b: string) {
    b != [] && (b[0] == ',' || b[0] == ')')
  }

  /** The runs of the member-modifier pattern over `w name)`. */
  lemma ModifierRuns(w: string, name: string, b: string, rest: string)
    requires w in MemberModifiers && ValidName(name) && Closes(b) && rest == w + (" " + (name + b))
    ensures KeywordLen(rest, MemberModifiers) == |w| && Skip(Space, rest, |w|) == |w| + 1
    ensures StartsWith(rest[|w| + 1..], "static") ==> |w| + 7 <= |rest| && Skip(Space, rest, |w| + 7) == |w| + 7
    ensures |w| + 1 + |name| <= |rest| && Skip(Word, rest, |w| + 1) == |w| + 1 + |name|
    ensures rest[|w| + 1..|w| + 1 + |name|] == name
  {
    ModifierSelected(w, " " + (name + b));
    SpacedName(w, name, b, rest);
    NotStaticSpaced(rest, |w| + 1, name, b);
  }

  /** Each member modifier, followed by a space, is the alternative the pattern takes. */
  lemma ModifierSelected(w: string, x: string)
    requires w in MemberModifiers && x != [] && x[0] == ' '
    ensures KeywordLen(w + x, MemberModifiers) == |w|
  {
    if w == "private" {
      PrivateSelected(x);
    } else if w == "public" {
      PublicSelected(x);
    } else {
      ProtectedSelected(x);
    }
  }

  lemma PrivateSelected(x: string)
    ensures KeywordLen("private" + x, MemberModifiers) == 7
  {
    StartsWithPrefix("private", x);
    KeywordLenSelects(MemberModifiers, 0, "private" + x);
  }

  lemma PublicSelected(x: string)
    ensures KeywordLen("public" + x, MemberModifiers) == 6
  {
    var rest := "public" + x;
    Mismatch(rest, "private", 1);
    StartsWithPrefix("public", x);
    KeywordLenSelects(MemberModifiers, 1, rest);
  }

  lemma ProtectedSelected(x: string)
    ensures KeywordLen("protected" + x, MemberModifiers) == 9
  {
    var rest := "protected" + x;
    var w := MemberModifiers;
    ProtectedNotPrivate(x);
    ProtectedNotPublic(x);
    ProtectedAlone(x);
    assert w[0] == "private" && w[1..][0] == "public" && w[1..][1..] == ["protected"];
    KeywordLenSkip(rest, w);
    KeywordLenSkip(rest, w[1..]);
  }

  lemma ProtectedNotPrivate(x: string)
    ensures !StartsWith("protected" + x, "private")
  {
    var rest := "protected" + x;
    assert rest[2] == 'o';
    Mismatch(rest, "private", 2);
  }

  lemma ProtectedNotPublic(x: string)
    ensures !StartsWith("protected" + x, "public")
  {
    var rest := "protected" + x;
    assert rest[1] == 'r';
    Mismatch(rest, "public", 1);
  }

  lemma ProtectedAlone(x: string)
    ensures KeywordLen("protected" + x, ["protected"]) == 9
  {
    StartsWithPrefix("protected", x);
  }

  /** A first word the text does not start with is passed over. */
  lemma KeywordLenSkip(s: string, words: seq<string>)
    requires words != [] && !StartsWith(s, words[0])
    ensures KeywordLen(s, words) == KeywordLen(s, words[1..])
  {
  }

  /** A word, one space, a name and a `,` or `)`: where the runs end. */
  lemma SpacedName(w: string, name: string, b: string, rest: string)
    requires ValidName(name) && Closes(b) && rest == w + (" " + (name + b))
    ensures Skip(Space, rest, |w|) == |w| + 1
    ensures |w| + 1 + |name| <= |rest| && rest[|w| + 1..] == name + b
    ensures Skip(Word, rest, |w| + 1) == |w| + 1 + |name| && rest[|w| + 1..|w| + 1 + |name|] == name
  {
    Split3(w, " ", name + b);
    SkipFrom(Space, rest, |w|, " ", name + b);
    SkipFrom(Word, rest, |w| + 1, name, b);
    SliceOfPrefix(rest, |w| + 1, name, b);
  }

  /** A name followed by `,` or `)` leaves no room for `static` and a space. */
  lemma NotStaticSpaced(rest: string, i: nat, name: string, b: string)
    requires i <= |rest| && rest[i..] == name + b && ValidName(name) && Closes(b)
    ensures StartsWith(rest[i..], "static") ==> i + 6 <= |rest| && Skip(Space, rest, i + 6) == i + 6
  {
    if StartsWith(rest[i..], "static") {
      StartsWithSlice(rest[i..], "static");
      assert rest[i + 6] == (name + b)[6];
      SkipTo(Space, rest, i + 6, i + 6);
    }
  }

  /** The member-modifier pattern from the ends of its runs, when the
      optional `static\s+` does not apply. */
  lemma MatchFromRuns(s: string, m: nat, a: nat, n: nat)
    requires KeywordLen(s, MemberModifiers) == m > 0
    requires a <= |s| && Skip(Space, s, m) == a > m
    requires StartsWith(s[a..], "static") ==> a + 6 <= |s| && Skip(Space, s, a + 6) == a + 6
    requires Skip(Word, s, a) == n > a
    ensures MatchMemberModifier(s) == Some(Hit(n, s[a..n]))
  {
  }

  /** No member modifier starts where the text does not start with `p`. */
  lemma NoModifierHere(s: string)
    requires s != [] && s[0] != 'p'
    ensures MatchMemberModifier(s).None?
  {
    Mismatch(s, "private", 0);
    Mismatch(s, "public", 0);
    Mismatch(s, "protected", 0);
    KeywordLenNone(MemberModifiers, s);
  }

  /** No word of the list starts the text: the alternation does not match. */
  lemma {:induction false} KeywordLenNone(words: seq<string>, s: string)
    requires forall i :: 0 <= i < |words| ==> !StartsWith(s, words[i])
    ensures KeywordLen(s, words) == 0
  {
    if words != [] {
      assert !StartsWith(s, words[0]);
      assert forall i :: 0 <= i < |words| - 1 ==> words[1..][i] == words[i + 1];
      KeywordLenNone(words[1..], s);
    }
  }

  /** A word one of whose letters the text lacks does not occur in it. */
  lemma Absent(s: string, w: string, i: nat)
    requires i < |w| && w[i] !in s
    ensures !Contains(s, w)
  {
    if Contains(s, w) {
      assert w[i..i + 1] == [w[i]];
      ContainsInner(s, w, i, i + 1);
      ContainsChar(s, w[i]);
      assert false;
    }
  }
}

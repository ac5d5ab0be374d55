/** The two fixed chains of substitutions that turn TypeScript into the
    JavaScript the playground runs: the generic chain (src/App.tsx:322-342)
    and the class chain, whose head runs before the constructor rewrite
    (src/App.tsx:207-229) and whose tail after it (src/App.tsx:279-283). */
module Stripping {
  import opened Text
  import opened Substitution

  /** Apply the substitutions one after the other, in the order given. */
  function ApplyChain(rules: seq<Rule>, s: string): (r: string)
    ensures rules == [] ==> r == s
    ensures |rules| == 1 ==> r == ReplaceAll(rules[0], s)
    decreases |rules|
  {
    if rules == [] then s else ApplyChain(rules[1..], ReplaceAll(rules[0], s))
  }

  /** The generic chain, in the order of src/App.tsx:324-342. */
  const GenericChain: seq<Rule> :=
    [ParamAnnotation, ArrayVarAnnotation, VarAnnotation, ArrowReturn, FunctionReturn,
     TypeAlias, Interface, Generic, CtorModifier, Assertion]

  /** The class chain before the constructor rewrite (src/App.tsx:209-229). */
  const ClassHead: seq<Rule> :=
    [Extends, MethodSignature, Annotation, FunctionReturn, ArrayAnnotation, Interface, Generic, MemberModifier]

  /** The class chain after the constructor rewrite (src/App.tsx:279-283). */
  const ClassTail: seq<Rule> := [TypeRemnant, Assertion]

  /** The generic chain; code none of its rules can fire on passes as it is. */
  function StripGeneric(code: string): (js: string)
    ensures Untouched(GenericChain, code) ==> js == code
  {
    ChainKeeps(GenericChain, code);
    ApplyChain(GenericChain, code)
  }

  /** None of the rules can fire on `s`. */
  predicate Untouched(rules: seq<Rule>, s: string) {
    forall k :: 0 <= k < |rules| ==> !Triggered(rules[k], s)
  }

  /** A chain leaves alone a text that lacks the trigger of each of its rules. */
  lemma {:induction false} ChainUntriggered(rules: seq<Rule>, s: string)
    requires Untouched(rules, s)
    ensures ApplyChain(rules, s) == s
    decreases |rules|
  {
    if rules != [] {
      ReplaceUntriggered(rules[0], s);
      assert Untouched(rules[1..], s) by {
        forall k | 0 <= k < |rules| - 1 ensures !Triggered(rules[1..][k], s) {
          assert rules[1..][k] == rules[k + 1];
        }
      }
      ChainUntriggered(rules[1..], s);
    }
  }

  lemma ChainKeeps(rules: seq<Rule>, s: string)
    ensures Untouched(rules, s) ==> ApplyChain(rules, s) == s
  {
    if Untouched(rules, s) {
      ChainUntriggered(rules, s);
    }
  }

  /** A chain split in two is the first part followed by the second. */
  lemma {:induction false} ChainAppend(a: seq<Rule>, b: seq<Rule>, s: string)
    ensures ApplyChain(a + b, s) == ApplyChain(b, ApplyChain(a, s))
    decreases |a|
  {
    if a == [] {
      assert a + b == b;
    } else {
      assert (a + b)[0] == a[0] && (a + b)[1..] == a[1..] + b;
      ChainAppend(a[1..], b, ReplaceAll(a[0], s));
    }
  }

  /** What can set off a rule of the generic chain: a colon, a `<`, the
      words `type`, `interface` and `constructor`, or ` as ` between spaces. */
  predicate GenericTrigger(code: string) {
    ':' in code || '<' in code || Contains(code, "type") || Contains(code, "interface")
    || Contains(code, "constructor") || SpacedAs(code)
  }

  /** Code with none of the triggers goes through the generic chain unchanged. */
  lemma GenericUntouched(code: string)
    requires !GenericTrigger(code)
    ensures StripGeneric(code) == code
  {
    assert Untouched(GenericChain, code) by {
      forall k | 0 <= k < |GenericChain| ensures !Triggered(GenericChain[k], code) {
        GenericRuleTrigger(GenericChain[k], code);
      }
    }
    ChainUntriggered(GenericChain, code);
  }

  lemma GenericRuleTrigger(rule: Rule, code: string)
    requires rule in GenericChain && !GenericTrigger(code)
    ensures !Triggered(rule, code)
  {
  }
}

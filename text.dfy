/** Character classes and string helpers shared by the playground model.
    Strings are sequences of Unicode scalar values; the character classes
    are those of JavaScript regular expressions without the `u` flag. */
module Text {

  datatype Option<+T> = None | Some(value: T)

  /** `\s` in a JavaScript regular expression, and what `String.prototype.trim`
      removes: the WhiteSpace and LineTerminator code points of ECMAScript. */
  predicate IsSpace(c: char) {
    c == ' ' || c == '\t' || c == '\n' || c == '\r' || c == '\U{000B}' || c == '\U{000C}'
    || c == '\U{00A0}' || c == '\U{1680}' || ('\U{2000}' <= c <= '\U{200A}')
    || c == '\U{2028}' || c == '\U{2029}' || c == '\U{202F}' || c == '\U{205F}'
    || c == '\U{3000}' || c == '\U{FEFF}'
  }

  /** The characters that `.` does not match. */
  predicate IsLineTerminator(c: char) {
    c == '\n' || c == '\r' || c == '\U{2028}' || c == '\U{2029}'
  }

  /** `\w`: ASCII letters, digits and underscore. */
  predicate IsWordChar(c: char) {
    ('a' <= c <= 'z') || ('A' <= c <= 'Z') || ('0' <= c <= '9') || c == '_'
  }

  predicate IsQuote(c: char) { c == '"' || c == '\'' }

  /** The bracket classes that the source's regular expressions repeat. */
  datatype CharClass =
    | Word        // \w
    | Space       // \s
    | TypeName    // [\w\[\]<>|&]
    | GenericArg  // [\w\s,]
    | DeclName    // [\w<>]

  predicate InClass(c: char, k: CharClass) {
    match k
    case Word => IsWordChar(c)
    case Space => IsSpace(c)
    case TypeName => IsWordChar(c) || c == '[' || c == ']' || c == '<' || c == '>' || c == '|' || c == '&'
    case GenericArg => IsWordChar(c) || IsSpace(c) || c == ','
    case DeclName => IsWordChar(c) || c == '<' || c == '>'
  }

  /** Length of the longest prefix of `s` made of characters of class `k`:
      what a greedy `[k]*` consumes when nothing after it forces backtracking. */
  function Run(k: CharClass, s: string): (n: nat)
    ensures n <= |s|
  {
    if |s| > 0 && InClass(s[0], k) then 1 + Run(k, s[1..]) else 0
  }

  /** The run is made of class-`k` characters and stops at the first other one. */
  lemma {:induction false} RunSpec(k: CharClass, s: string)
    ensures forall i :: 0 <= i < Run(k, s) ==> InClass(s[i], k)
    ensures Run(k, s) == |s| || !InClass(s[Run(k, s)], k)
  {
    if |s| > 0 && InClass(s[0], k) {
      RunSpec(k, s[1..]);
      assert forall i :: 1 <= i < Run(k, s) ==> s[i] == s[1..][i - 1];
    }
  }

  /** Index reached by a greedy `[k]*` started at index `i`. */
  function Skip(k: CharClass, s: string, i: nat): (j: nat)
    requires i <= |s|
    ensures i <= j <= |s|
  {
    i + Run(k, s[i..])
  }

  /** A greedy run started at `i` ends exactly at the first character outside `k`. */
  lemma SkipTo(k: CharClass, s: string, i: nat, j: nat)
    requires i <= j <= |s|
    requires forall x :: i <= x < j ==> InClass(s[x], k)
    requires j == |s| || !InClass(s[j], k)
    ensures Skip(k, s, i) == j
  {
    var r := Run(k, s[i..]);
    RunSpec(k, s[i..]);
    if i + r < |s| {
      assert s[i..][r] == s[i + r];
    }
    if j < |s| {
      assert s[i..][j - i] == s[j];
    }
  }

  /** A prefix of class-`k` characters followed by one outside `k` is the run. */
  lemma {:induction false} RunOfPrefix(k: CharClass, a: string, b: string)
    requires forall i :: 0 <= i < |a| ==> InClass(a[i], k)
    requires b == [] || !InClass(b[0], k)
    ensures Run(k, a + b) == |a|
  {
    if |a| > 0 {
      assert (a + b)[1..] == a[1..] + b;
      RunOfPrefix(k, a[1..], b);
    } else {
      assert a + b == b;
    }
  }

  /** A greedy run from `i` over a text that continues with `a + b`. */
  lemma SkipFrom(k: CharClass, s: string, i: nat, a: string, b: string)
    requires i <= |s| && s[i..] == a + b
    requires forall x :: 0 <= x < |a| ==> InClass(a[x], k)
    requires b == [] || !InClass(b[0], k)
    ensures Skip(k, s, i) == i + |a|
  {
    RunOfPrefix(k, a, b);
  }

  /** Slicing a text that continues with `x + z` at the boundary between them. */
  lemma SliceOfPrefix(s: string, a: nat, x: string, z: string)
    requires a <= |s| && s[a..] == x + z
    ensures a + |x| <= |s| && s[a..a + |x|] == x && s[a + |x|..] == z
  {
    assert forall i :: 0 <= i < |x| ==> s[a..a + |x|][i] == s[a..][i];
    assert s[a..][|x|..] == z;
  }

  predicate At(s: string, i: nat, c: char) { i < |s| && s[i] == c }

  /** `s.startsWith(p)`, one character at a time. */
  predicate StartsWith(s: string, p: string)
    decreases |p|
  {
    |p| <= |s| && (p == [] || (s[0] == p[0] && StartsWith(s[1..], p[1..])))
  }

  /** `s` starts with `p` exactly when its first `|p|` characters are `p`. */
  lemma {:induction false} StartsWithSlice(s: string, p: string)
    ensures StartsWith(s, p) <==> |p| <= |s| && s[..|p|] == p
  {
    if p != [] && |p| <= |s| {
      StartsWithSlice(s[1..], p[1..]);
      assert s[..|p|] == [s[0]] + s[1..][..|p| - 1];
      assert p == [p[0]] + p[1..];
    }
  }

  /** A text starts with any of its prefixes. */
  lemma StartsWithPrefix(p: string, x: string)
    ensures StartsWith(p + x, p)
  {
    StartsWithSlice(p + x, p);
    assert (p + x)[..|p|] == p;
  }

  /** `s.includes(t)`. */
  predicate Contains(s: string, t: string)
    decreases |s|
  {
    StartsWith(s, t) || (|s| > 0 && Contains(s[1..], t))
  }

  lemma {:induction false} ContainsAt(s: string, t: string, k: nat)
    requires k <= |s| && StartsWith(s[k..], t)
    ensures Contains(s, t)
  {
    if k > 0 {
      assert s[1..][k - 1..] == s[k..];
      ContainsAt(s[1..], t, k - 1);
    }
  }

  lemma {:induction false} ContainsWitness(s: string, t: string) returns (k: nat)
    requires Contains(s, t)
    ensures k <= |s| && StartsWith(s[k..], t)
  {
    if StartsWith(s, t) {
      k := 0;
    } else {
      var k' := ContainsWitness(s[1..], t);
      assert s[1..][k'..] == s[k' + 1..];
      k := k' + 1;
    }
  }

  /** Whatever a suffix contains, the whole string contains. */
  lemma ContainsSuffix(s: string, k: nat, t: string)
    requires k <= |s| && Contains(s[k..], t)
    ensures Contains(s, t)
  {
    var j := ContainsWitness(s[k..], t);
    assert s[k..][j..] == s[k + j..];
    ContainsAt(s, t, k + j);
  }

  /** A text that contains `t` also contains every part of `t`. */
  lemma ContainsInner(s: string, t: string, i: nat, j: nat)
    requires Contains(s, t) && i <= j <= |t|
    ensures Contains(s, t[i..j])
  {
    var k := ContainsWitness(s, t);
    StartsWithSlice(s[k..], t);
    StartsWithSlice(s[k + i..], t[i..j]);
    assert s[k + i..][..j - i] == t[i..j];
    ContainsAt(s, t[i..j], k + i);
  }

  lemma ContainsChar(s: string, c: char)
    ensures Contains(s, [c]) <==> c in s
  {
    if Contains(s, [c]) {
      var k := ContainsWitness(s, [c]);
      assert s[k] == c;
    }
    if c in s {
      var k :| 0 <= k < |s| && s[k] == c;
      assert s[k..][..1] == [c];
      StartsWithSlice(s[k..], [c]);
      ContainsAt(s, [c], k);
    }
  }

  /** The first index at or after `from` where `t` starts, as `indexOf` would find it. */
  function IndexOf(s: string, t: string, from: nat): (r: Option<nat>)
    requires from <= |s|
    decreases |s| - from
    ensures r.Some? ==> from <= r.value <= |s| - |t| && StartsWith(s[r.value..], t)
    ensures r.Some? ==> forall j :: from <= j < r.value ==> !StartsWith(s[j..], t)
    ensures r.None? ==> forall j :: from <= j <= |s| ==> !StartsWith(s[j..], t)
  {
    if StartsWith(s[from..], t) then Some(from)
    else if from == |s| then None
    else IndexOf(s, t, from + 1)
  }

  /** `String.prototype.trim`. */
  function TrimStart(s: string): (r: string)
    ensures |r| <= |s| && r == s[|s| - |r|..]
    ensures r == [] || !IsSpace(r[0])
    ensures forall i :: 0 <= i < |s| - |r| ==> IsSpace(s[i])
  {
    if |s| > 0 && IsSpace(s[0]) then TrimStart(s[1..]) else s
  }

  function TrimEnd(s: string): (r: string)
    ensures |r| <= |s| && r == s[..|r|]
    ensures r == [] || !IsSpace(r[|r| - 1])
    ensures forall i :: |r| <= i < |s| ==> IsSpace(s[i])
  {
    if |s| > 0 && IsSpace(s[|s| - 1]) then TrimEnd(s[..|s| - 1]) else s
  }

  function Trim(s: string): string { TrimEnd(TrimStart(s)) }

  /** Only a text of whitespace trims to nothing. */
  lemma TrimEmpty(s: string)
    ensures Trim(s) == [] <==> forall i :: 0 <= i < |s| ==> IsSpace(s[i])
  {
    var a := TrimStart(s);
    if a != [] {
      assert a[0] == s[|s| - |a|] && !IsSpace(a[0]);
    }
  }

  /** `Array.prototype.join(sep)` over strings. */
  function Join(parts: seq<string>, sep: string): string {
    if |parts| == 0 then ""
    else if |parts| == 1 then parts[0]
    else Join(parts[..|parts| - 1], sep) + sep + parts[|parts| - 1]
  }

  lemma JoinAppend(parts: seq<string>, x: string, sep: string)
    requires parts != []
    ensures Join(parts + [x], sep) == Join(parts, sep) + sep + x
  {
    assert (parts + [x])[..|parts|] == parts;
  }

  lemma {:induction false} JoinFirst(x: string, parts: seq<string>, sep: string)
    requires parts != []
    ensures Join([x] + parts, sep) == x + sep + Join(parts, sep)
    decreases |parts|
  {
    var all := [x] + parts;
    if |parts| == 1 {
      assert all[..1] == [x];
    } else {
      var init := parts[..|parts| - 1];
      assert all[..|all| - 1] == [x] + init;
      JoinFirst(x, init, sep);
    }
  }

  /** `toLowerCase` restricted to ASCII letters. */
  function LowerChar(c: char): char {
    if 'A' <= c <= 'Z' then (c as int + 32) as char else c
  }

  function ToLower(s: string): (r: string)
    ensures |r| == |s| && forall i :: 0 <= i < |s| ==> r[i] == LowerChar(s[i])
  {
    seq(|s|, i requires 0 <= i < |s| => LowerChar(s[i]))
  }

  lemma ToLowerIdempotent(s: string)
    ensures ToLower(ToLower(s)) == ToLower(s)
  {
  }
}

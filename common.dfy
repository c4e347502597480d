/** Small helpers shared by the models: an optional value, ASCII text
    utilities standing in for the JavaScript string built-ins, sums, and the
    two rounding rules the application applies to money (Math.round and
    toFixed(2)). */
module Common {

  datatype Option<+T> = None | Some(value: T)

  // ---------------------------------------------------------------------
  // Characters and strings

  /** The whitespace a JavaScript `\s` or `trim` removes, restricted to ASCII. */
  predicate IsSpace(c: char) {
    c == ' ' || c == '\t' || c == '\n' || c == '\r' || c == '\U{B}' || c == '\U{C}'
  }

  predicate NoSpaceAtEnds(s: string) {
    |s| == 0 || (!IsSpace(s[0]) && !IsSpace(s[|s| - 1]))
  }

  function TrimStart(s: string): (r: string)
    ensures |r| <= |s| && r == s[|s| - |r|..]
    ensures |r| == 0 || !IsSpace(r[0])
    ensures forall i :: 0 <= i < |s| - |r| ==> IsSpace(s[i])
  {
    if |s| > 0 && IsSpace(s[0]) then TrimStart(s[1..]) else s
  }

  function TrimEnd(s: string): (r: string)
    ensures |r| <= |s| && r == s[..|r|]
    ensures |r| == 0 || !IsSpace(r[|r| - 1])
    ensures forall i :: |r| <= i < |s| ==> IsSpace(s[i])
  {
    if |s| > 0 && IsSpace(s[|s| - 1]) then TrimEnd(s[..|s| - 1]) else s
  }

  /** String.prototype.trim */
  function Trim(s: string): (r: string)
    ensures NoSpaceAtEnds(r)
    ensures |r| <= |s|
    ensures IsBlank(s) <==> r == []
  {
    var t := TrimStart(s);
    if t == [] then
      t
    else
      assert t[0] == s[|s| - |t|] && !IsSpace(t[0]);
      TrimEnd(t)
  }

  /** `!s.trim()`: the text is empty or all whitespace. */
  predicate IsBlank(s: string) {
    forall i :: 0 <= i < |s| ==> IsSpace(s[i])
  }

  function LowerAscii(c: char): char {
    if 'A' <= c <= 'Z' then (c as int + 32) as char else c
  }

  function UpperAscii(c: char): char {
    if 'a' <= c <= 'z' then (c as int - 32) as char else c
  }

  function ToLower(s: string): (r: string)
    ensures |r| == |s| && forall i :: 0 <= i < |s| ==> r[i] == LowerAscii(s[i])
  {
    seq(|s|, i requires 0 <= i < |s| => LowerAscii(s[i]))
  }

  function ToUpper(s: string): (r: string)
    ensures |r| == |s| && forall i :: 0 <= i < |s| ==> r[i] == UpperAscii(s[i])
  {
    seq(|s|, i requires 0 <= i < |s| => UpperAscii(s[i]))
  }

  /** `p` occurs in `s` at position `i`. */
  predicate OccursAt(s: string, p: string, i: int) {
    0 <= i && i + |p| <= |s| && s[i..i + |p|] == p
  }

  /** String.prototype.includes */
  function Includes(s: string, p: string): (b: bool)
    ensures b <==> exists i :: OccursAt(s, p, i)
  {
    if p <= s then
      assert OccursAt(s, p, 0);
      true
    else if |s| == 0 then
      assert forall i :: !OccursAt(s, p, i);
      false
    else
      var b := Includes(s[1..], p);
      if b then
        assert OccursAt(s, p, 1) || exists i :: OccursAt(s, p, i) by {
          var j :| OccursAt(s[1..], p, j);
          assert s[j + 1..j + 1 + |p|] == s[1..][j..j + |p|];
          assert OccursAt(s, p, j + 1);
        }
        true
      else
        assert !OccursAt(s, p, 0) by {
          if |p| <= |s| { assert s[0..|p|] == s[..|p|]; }
        }
        assert forall i :: OccursAt(s, p, i) ==> OccursAt(s[1..], p, i - 1) by {
          forall i | OccursAt(s, p, i) ensures OccursAt(s[1..], p, i - 1) {
            assert i != 0;
            assert s[1..][i - 1..i - 1 + |p|] == s[i..i + |p|];
          }
        }
        false
  }

  // ---------------------------------------------------------------------
  // Words

  /** The longest prefix without whitespace. */
  function TakeWord(s: string): (r: string)
    ensures |r| <= |s| && r == s[..|r|]
    ensures forall i :: 0 <= i < |r| ==> !IsSpace(r[i])
    ensures |r| == |s| || IsSpace(s[|r|])
  {
    if s == [] || IsSpace(s[0]) then [] else [s[0]] + TakeWord(s[1..])
  }

  /** A non-empty run of non-whitespace characters. */
  predicate IsWord(w: string) {
    |w| > 0 && forall i :: 0 <= i < |w| ==> !IsSpace(w[i])
  }

  /** `s.trim().split(/\s+/).filter(Boolean)`: the maximal runs of
      non-whitespace characters, in order. */
  function Words(s: string): (r: seq<string>)
    ensures forall k :: 0 <= k < |r| ==> IsWord(r[k])
    ensures r == [] <==> IsBlank(s)
    decreases |s|
  {
    if s == [] then []
    else if IsSpace(s[0]) then
      var r := Words(s[1..]);
      assert IsBlank(s) <==> IsBlank(s[1..]) by {
        if IsBlank(s[1..]) {
          forall i | 0 <= i < |s| ensures IsSpace(s[i]) { if i > 0 { assert s[i] == s[1..][i - 1]; } }
        }
      }
      r
    else
      var w := TakeWord(s);
      var rest := Words(s[|w|..]);
      var r := [w] + rest;
      assert forall k :: 0 <= k < |r| ==> IsWord(r[k]) by {
        forall k | 0 <= k < |r| ensures IsWord(r[k]) {
          if k > 0 { assert r[k] == rest[k - 1]; }
        }
      }
      r
  }

  /** The first word starts at the first non-space character. */
  lemma {:induction false} FirstWordStart(s: string)
    requires !IsBlank(s)
    ensures Words(s)[0][0] == TrimStart(s)[0]
    decreases |s|
  {
    if IsSpace(s[0]) {
      FirstWordStart(s[1..]);
    }
  }

  /** A word followed by nothing or by whitespace is the first word. */
  lemma {:induction false} TakeWordOf(a: string, b: string)
    requires NoSpaces(a) && (b == [] || IsSpace(b[0]))
    ensures TakeWord(a + b) == a
  {
    if a != [] {
      assert (a + b)[1..] == a[1..] + b;
      TakeWordOf(a[1..], b);
    }
  }

  lemma WordsOfWordThen(a: string, b: string)
    requires IsWord(a) && (b == [] || IsSpace(b[0]))
    ensures Words(a + b) == [a] + Words(b)
  {
    assert (a + b)[0] == a[0];
    TakeWordOf(a, b);
    assert (a + b)[|a|..] == b;
  }

  /** Leading whitespace does not change the words. */
  lemma {:induction false} LeadingBlanksIgnored(p: string, x: string)
    requires IsBlank(p)
    ensures Words(p + x) == Words(x)
  {
    if p == [] {
      assert p + x == x;
    } else {
      assert (p + x)[0] == p[0] && IsSpace(p[0]);
      assert (p + x)[1..] == p[1..] + x;
      LeadingBlanksIgnored(p[1..], x);
    }
  }

  predicate NoSpaces(s: string) {
    forall i :: 0 <= i < |s| ==> !IsSpace(s[i])
  }

  /** `.join(' ')` */
  function JoinSpaces(parts: seq<string>): string {
    if parts == [] then ""
    else if |parts| == 1 then parts[0]
    else parts[0] + " " + JoinSpaces(parts[1..])
  }

  /** `.join(' ')` of up to three parts. */
  lemma {:induction false} JoinSmall(p: seq<string>)
    ensures |p| == 0 ==> JoinSpaces(p) == ""
    ensures |p| == 1 ==> JoinSpaces(p) == p[0]
    ensures |p| == 2 ==> JoinSpaces(p) == p[0] + " " + p[1]
    ensures |p| == 3 ==> JoinSpaces(p) == p[0] + " " + p[1] + " " + p[2]
  {
    if |p| >= 2 {
      assert JoinSpaces(p[|p| - 1..]) == p[|p| - 1];
      if |p| == 3 {
        assert p[1..][1..] == p[2..];
      }
    }
  }

  /** Text after the first word that starts with whitespace does not change it. */
  lemma {:induction false} TakeWordThen(x: string, q: string)
    requires q == [] || IsSpace(q[0])
    ensures TakeWord(x + q) == TakeWord(x)
  {
    if x == [] {
      assert x + q == q;
    } else if !IsSpace(x[0]) {
      assert (x + q)[0] == x[0];
      assert (x + q)[1..] == x[1..] + q;
      TakeWordThen(x[1..], q);
    }
  }

  /** Trailing whitespace does not change the words. */
  lemma {:induction false} TrailingBlanksIgnored(x: string, q: string)
    requires IsBlank(q)
    ensures Words(x + q) == Words(x)
    decreases |x|
  {
    if x == [] {
      assert x + q == q;
    } else if IsSpace(x[0]) {
      assert (x + q)[0] == x[0];
      assert (x + q)[1..] == x[1..] + q;
      TrailingBlanksIgnored(x[1..], q);
    } else {
      assert (x + q)[0] == x[0];
      TakeWordThen(x, q);
      var w := TakeWord(x);
      assert (x + q)[|w|..] == x[|w|..] + q;
      TrailingBlanksIgnored(x[|w|..], q);
    }
  }

  /** Removing leading whitespace does not change the words. */
  lemma {:induction false} TrimStartKeepsWords(s: string)
    ensures Words(TrimStart(s)) == Words(s)
    decreases |s|
  {
    if s != [] && IsSpace(s[0]) {
      TrimStartKeepsWords(s[1..]);
    }
  }

  /** Removing trailing whitespace does not change the words. */
  lemma {:induction false} TrimEndKeepsWords(t: string)
    ensures Words(TrimEnd(t)) == Words(t)
  {
    var r := TrimEnd(t);
    var q := t[|r|..];
    assert t == r + q;
    assert IsBlank(q) by {
      forall i | 0 <= i < |q| ensures IsSpace(q[i]) { assert q[i] == t[|r| + i]; }
    }
    TrailingBlanksIgnored(r, q);
  }

  /** Trimming does not change the words. */
  lemma {:induction false} WordsOfTrim(s: string)
    ensures Words(Trim(s)) == Words(s)
  {
    TrimStartKeepsWords(s);
    TrimEndKeepsWords(TrimStart(s));
  }

  /** The words after one more non-space character in front: a word of its
      own when the text goes on with whitespace, otherwise the start of the
      first word. */
  lemma {:induction false} WordsCons(c: char, x: string)
    requires !IsSpace(c)
    ensures x == [] || IsSpace(x[0]) ==> Words([c] + x) == [[c]] + Words(x)
    ensures x != [] && !IsSpace(x[0]) ==>
      Words(x) != [] && Words([c] + x) == [[c] + Words(x)[0]] + Words(x)[1..]
  {
    var y := [c] + x;
    assert y[0] == c && y[1..] == x;
    var w := TakeWord(x);
    assert TakeWord(y) == [c] + w;
    assert y[|[c] + w|..] == x[|w|..];
  }

  /** The only whitespace is the plain space. */
  predicate OnlyPlainSpaces(s: string) {
    forall i :: 0 <= i < |s| && IsSpace(s[i]) ==> s[i] == ' '
  }

  /** Positions `i` and `i + 1` are not both whitespace. */
  predicate NotTwoSpacesAt(s: string, i: int)
    requires 0 <= i < |s| - 1
  {
    !(IsSpace(s[i]) && IsSpace(s[i + 1]))
  }

  /** No two whitespace characters in a row. */
  predicate NoSpaceRuns(s: string) {
    forall i :: 0 <= i < |s| - 1 ==> NotTwoSpacesAt(s, i)
  }

  /** A character in front of text without whitespace runs keeps it so,
      unless both it and the text's first character are whitespace. */
  lemma {:induction false} ConsNoSpaceRuns(a: char, c: string)
    requires NoSpaceRuns(c) && (c == [] || !(IsSpace(a) && IsSpace(c[0])))
    ensures NoSpaceRuns([a] + c)
  {
    forall i | 0 <= i < |c| ensures NotTwoSpacesAt([a] + c, i) {
      if i > 0 { assert NotTwoSpacesAt(c, i - 1); }
    }
  }

  /** Text with no whitespace at its ends and single spaces between its words. */
  predicate Canonical(s: string) {
    NoSpaceAtEnds(s) && OnlyPlainSpaces(s) && NoSpaceRuns(s)
  }

  /** A suffix of canonical text that starts with a non-space character is
      canonical. */
  lemma {:induction false} CanonicalSuffix(s: string, k: nat)
    requires Canonical(s) && k < |s| && !IsSpace(s[k])
    ensures Canonical(s[k..])
  {
    var r := s[k..];
    assert r[|r| - 1] == s[|s| - 1];
    assert forall i :: 0 <= i < |r| ==> r[i] == s[k + i];
    forall i | 0 <= i < |r| - 1 ensures NotTwoSpacesAt(r, i) {
      assert NotTwoSpacesAt(s, k + i);
    }
  }

  /** Canonical text with more than one word: the first word, one space,
      and canonical text with the other words. */
  lemma {:induction false} CanonicalSplit(s: string)
    requires Canonical(s) && s != [] && |TakeWord(s)| < |s|
    ensures var w := TakeWord(s); var r := s[|w| + 1..];
      |w| + 1 < |s| && s == w + " " + r && r != [] && Canonical(r)
      && Words(s) == [w] + Words(r)
  {
    var w := TakeWord(s);
    var r := s[|w| + 1..];
    assert |w| + 1 < |s| && s[|w|] == ' ' && !IsSpace(s[|w| + 1]) by {
      assert s[|w|] == ' ';
      assert NotTwoSpacesAt(s, |w|);
    }
    assert Canonical(r) by { CanonicalSuffix(s, |w| + 1); }
    assert Words(s) == [w] + Words(r) by { WordsOfSpaceThen(s, |w|); }
    SplitAround(s, |w|);
  }

  /** After the first word, one space and then the rest: the words are the
      first word and the words of the rest. */
  lemma WordsOfSpaceThen(s: string, k: nat)
    requires s != [] && !IsSpace(s[0]) && k == |TakeWord(s)| && k < |s| - 1 && s[k] == ' '
    ensures Words(s) == [TakeWord(s)] + Words(s[k + 1..])
  {
    assert s[k..][0] == ' ' && s[k..][1..] == s[k + 1..];
  }

  lemma SplitAround(s: string, k: nat)
    requires k < |s|
    ensures s == s[..k] + [s[k]] + s[k + 1..]
  {
  }

  /** Canonical text is its words joined by single spaces. */
  lemma {:induction false} CanonicalIsJoined(s: string)
    requires Canonical(s)
    ensures s == JoinSpaces(Words(s))
    decreases |s|
  {
    if s != [] {
      var w := TakeWord(s);
      if |w| < |s| {
        CanonicalSplit(s);
        var r := s[|w| + 1..];
        CanonicalIsJoined(r);
        var ws := Words(r);
        assert ([w] + ws)[1..] == ws;
      } else {
        assert w == s && s[|w|..] == [];
      }
    }
  }

  // ---------------------------------------------------------------------
  // Arrays

  /** Array.prototype.find: the first element satisfying `p`. */
  function Find<T(==)>(xs: seq<T>, p: T -> bool): (r: Option<T>)
    ensures r.None? <==> forall i :: 0 <= i < |xs| ==> !p(xs[i])
    ensures r.Some? ==> exists i :: 0 <= i < |xs| && xs[i] == r.value && p(xs[i])
                                    && forall j :: 0 <= j < i ==> !p(xs[j])
  {
    if xs == [] then None
    else if p(xs[0]) then Some(xs[0])
    else
      var r := Find(xs[1..], p);
      assert forall i :: 1 <= i < |xs| ==> xs[i] == xs[1..][i - 1];
      if r.Some? then
        var i :| 0 <= i < |xs[1..]| && xs[1..][i] == r.value && p(xs[1..][i])
                 && forall j :: 0 <= j < i ==> !p(xs[1..][j]);
        assert xs[i + 1] == r.value;
        r
      else
        r
  }

  // ---------------------------------------------------------------------
  // Rounding

  /** 10 to the power `w`. */
  function Pow10(w: nat): (p: nat)
    ensures p >= 1
  {
    if w == 0 then 1 else 10 * Pow10(w - 1)
  }

  /** JavaScript `Math.round`: the nearest integer, halves rounded up. */
  function MathRound(x: real): (r: int)
    ensures r as real - 0.5 <= x < r as real + 0.5
  {
    (x + 0.5).Floor
  }

  /** `+x.toFixed(2)`: the nearest whole number of cents, halves rounded away
      from zero (binary floating-point effects are not modelled). */
  function ToFixed2(x: real): (r: real)
    ensures x - 0.005 <= r <= x + 0.005
    ensures (r * 100.0).Floor as real == r * 100.0
    ensures x >= 0.0 ==> r >= 0.0
  {
    var m := if x >= 0.0 then MathRound(x * 100.0) else -MathRound(-x * 100.0);
    var r := m as real / 100.0;
    assert r * 100.0 == m as real;
    r
  }
}

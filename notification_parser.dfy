/** parseBankNotification of src/lib/notificationParser.ts: the amount after
    the first `R$`, normalised from the Brazilian decimal format and read by
    parseFloat, and the merchant named by the first of an ordered list of
    patterns whose cleaned capture has an acceptable length.

    The merchant regular expressions are parameters: each is a function from
    the text to its first capture group (None when it does not match). The
    amount expression `/R\$\s*([\d.,]+)/i` is written out. */
module NotificationParser {
  import opened Common

  datatype Parsed = Parsed(valor: Option<real>, loja: Option<string>, descricao: Option<string>)

  /** A merchant pattern: the text's first capture group, if the pattern matches. */
  type Matcher = string -> Option<string>

  predicate IsDigit(c: char) { '0' <= c <= '9' }

  /** A character of the class `[\d.,]`. */
  predicate IsNumChar(c: char) { IsDigit(c) || c == '.' || c == ',' }

  /** The longest prefix of `s` made of digits. */
  function DigitRun(s: string): (r: string)
    ensures |r| <= |s| && r == s[..|r|]
    ensures forall i :: 0 <= i < |r| ==> IsDigit(r[i])
    ensures |r| == |s| || !IsDigit(s[|r|])
  {
    if |s| > 0 && IsDigit(s[0]) then [s[0]] + DigitRun(s[1..]) else []
  }

  /** The longest prefix of `s` in `[\d.,]`: what the greedy `[\d.,]+` takes. */
  function NumRun(s: string): (r: string)
    ensures |r| <= |s| && r == s[..|r|]
    ensures forall i :: 0 <= i < |r| ==> IsNumChar(r[i])
    ensures |r| == |s| || !IsNumChar(s[|r|])
  {
    if |s| > 0 && IsNumChar(s[0]) then [s[0]] + NumRun(s[1..]) else []
  }

  function DigitValue(c: char): (v: nat)
    requires IsDigit(c)
    ensures v < 10
  {
    c as int - '0' as int
  }

  /** The number a string of decimal digits spells. */
  function DigitsValue(d: string): nat
    requires forall i :: 0 <= i < |d| ==> IsDigit(d[i])
  {
    if d == [] then 0 else 10 * DigitsValue(d[..|d| - 1]) + DigitValue(d[|d| - 1])
  }

  /** parseFloat on a string over `[\d.,]`: the longest prefix of the form
      digits, optionally a point and more digits, with at least one digit;
      NaN (None) when there is none. */
  function ParseFloat(s: string): (r: Option<real>)
    ensures r.Some? <==> (|s| > 0 && IsDigit(s[0])) || (|s| > 1 && s[0] == '.' && IsDigit(s[1]))
    ensures r.Some? ==> r.value >= 0.0
  {
    var ip := DigitRun(s);
    var rest := s[|ip|..];
    var fp := if |rest| > 0 && rest[0] == '.' then DigitRun(rest[1..]) else [];
    if ip == [] && fp == [] then None else Some(DecimalValue(ip, fp))
  }

  /** The number written `ip.fp`. */
  function DecimalValue(ip: string, fp: string): (v: real)
    requires forall i :: 0 <= i < |ip| ==> IsDigit(ip[i])
    requires forall i :: 0 <= i < |fp| ==> IsDigit(fp[i])
    ensures v >= 0.0
  {
    DigitsValue(ip) as real + DigitsValue(fp) as real / Pow10(|fp|) as real
  }

  /** `raw.replace(/\./g, "")` */
  function RemoveDots(s: string): (r: string)
    ensures forall c :: c in r <==> c in s && c != '.'
  {
    if s == [] then []
    else
      assert s == s[..|s| - 1] + [s[|s| - 1]];
      RemoveDots(s[..|s| - 1]) + (if s[|s| - 1] == '.' then [] else [s[|s| - 1]])
  }

  /** `s.indexOf(",")`, or the length of `s` when there is no comma. */
  function CommaIndex(s: string): (i: nat)
    ensures i <= |s| && ',' !in s[..i]
    ensures i < |s| ==> s[i] == ','
    ensures i == |s| <==> ',' !in s
  {
    if s == [] then 0
    else if s[0] == ',' then 0
    else
      var i := CommaIndex(s[1..]);
      assert s[..i + 1] == [s[0]] + s[1..][..i];
      assert s == [s[0]] + s[1..];
      1 + i
  }

  /** `raw.replace(",", ".")`: only the first comma is replaced. */
  function ReplaceFirstComma(s: string): (r: string)
    ensures ',' !in s ==> r == s
    ensures ',' in s ==> (|r| == |s| && r[CommaIndex(s)] == '.'
      && forall k :: 0 <= k < |s| && k != CommaIndex(s) ==> r[k] == s[k])
  {
    var i := CommaIndex(s);
    if i < |s| then s[..i] + "." + s[i + 1..] else s
  }

  /** The amount normalisation: a capture with a comma is in Brazilian format,
      so its thousands points go and its first comma becomes the decimal
      point; a capture without a comma is left as it is. */
  function Normalise(raw: string): (r: string)
    ensures ',' !in raw ==> r == raw
    ensures ',' in raw ==> (r == ReplaceFirstComma(RemoveDots(raw)) && ',' in RemoveDots(raw)
      && forall k :: 0 <= k < |r| && r[k] == '.' ==> k == CommaIndex(RemoveDots(raw)))
  {
    if ',' in raw then
      var d := RemoveDots(raw);
      var r := ReplaceFirstComma(d);
      assert ',' in d && '.' !in d;
      assert forall k :: 0 <= k < |r| && k != CommaIndex(d) ==> r[k] == d[k] && d[k] in d;
      r
    else raw
  }

  /** `R\$\s*([\d.,]+)` matches at the start of `t` (the `i` flag admits
      `r$`). */
  predicate AmountAtStart(t: string) {
    |t| >= 2 && (t[0] == 'R' || t[0] == 'r') && t[1] == '$' && NumRun(TrimStart(t[2..])) != []
  }

  /** The amount expression matches at position i. */
  predicate AmountAt(s: string, i: int) {
    0 <= i <= |s| && AmountAtStart(s[i..])
  }

  /** The position of the leftmost match of the amount expression, or the
      length of `s` when there is none (see `LeftmostAmount`). */
  function FirstAmountAt(s: string): (i: nat)
    ensures i <= |s|
  {
    if |s| < 2 then |s|
    else if AmountAtStart(s) then 0
    else 1 + FirstAmountAt(s[1..])
  }

  /** `FirstAmountAt` is the leftmost match, and the length of the text only
      when nothing matches. */
  lemma {:induction false} LeftmostAmount(s: string)
    ensures var i := FirstAmountAt(s);
      && (forall j :: 0 <= j < i ==> !AmountAt(s, j))
      && (i < |s| ==> AmountAt(s, i))
      && (i == |s| ==> forall j :: !AmountAt(s, j))
    decreases |s|
  {
    assert s[0..] == s;
    if |s| >= 2 && !AmountAtStart(s) {
      LeftmostAmount(s[1..]);
      AmountAtShifted(s);
    }
  }

  /** The capture group of the leftmost match of the amount expression. */
  function AmountCapture(s: string): (r: Option<string>)
    ensures r.None? <==> forall i :: !AmountAt(s, i)
    ensures r.Some? ==> r.value != [] && forall k :: 0 <= k < |r.value| ==> IsNumChar(r.value[k])
    ensures r.Some? ==> FirstAmountAt(s) + 2 <= |s| && r.value == NumRun(TrimStart(s[FirstAmountAt(s) + 2..]))
  {
    var i := FirstAmountAt(s);
    LeftmostAmount(s);
    if i < |s| then
      assert s[i..][2..] == s[i + 2..];
      Some(NumRun(TrimStart(s[i + 2..])))
    else None
  }

  lemma AmountAtShifted(s: string)
    requires |s| >= 1
    ensures forall j :: 1 <= j ==> (AmountAt(s, j) <==> AmountAt(s[1..], j - 1))
  {
    forall j | 1 <= j ensures AmountAt(s, j) <==> AmountAt(s[1..], j - 1) {
      AmountAtShift(s, j);
    }
  }

  lemma AmountAtShift(s: string, i: int)
    requires 1 <= i && |s| >= 1
    ensures AmountAt(s, i) <==> AmountAt(s[1..], i - 1)
  {
    if i <= |s| {
      assert s[1..][i - 1..] == s[i..];
    }
  }

  /** The amount the parser reports: the normalised capture read by
      parseFloat, kept only when it is a number above zero. */
  function Amount(text: string): (r: Option<real>)
    ensures r.Some? ==> r.value > 0.0
    ensures AmountCapture(text).None? ==> r.None?
  {
    match AmountCapture(text)
    case None => None
    case Some(raw) =>
      var v := ParseFloat(Normalise(raw));
      if v.Some? && v.value > 0.0 then v else None
  }

  /** `.replace(/\s+/g, " ")`: every run of whitespace becomes one space.
      Read from the left, a whitespace character followed by another one is
      dropped and the last of a run becomes a space. */
  function CollapseSpaces(s: string): (r: string)
    ensures |r| <= |s| && (r == [] <==> s == [])
    ensures OnlyPlainSpaces(r) && NoSpaceRuns(r)
    ensures r != [] ==> (IsSpace(r[0]) <==> IsSpace(s[0]))
    ensures r != [] ==> (IsSpace(r[|r| - 1]) <==> IsSpace(s[|s| - 1]))
    ensures NoSpaceAtEnds(s) ==> NoSpaceAtEnds(r)
    decreases |s|
  {
    if s == [] then []
    else
      var c := CollapseSpaces(s[1..]);
      assert |s| > 1 ==> s[1..][0] == s[1] && s[1..][|s| - 2] == s[|s| - 1];
      if IsSpace(s[0]) && |s| > 1 && IsSpace(s[1]) then
        c
      else if IsSpace(s[0]) then
        ConsNoSpaceRuns(' ', c);
        " " + c
      else
        ConsNoSpaceRuns(s[0], c);
        [s[0]] + c
  }

  /** The step of CollapseKeepsWords for text starting with whitespace. */
  lemma {:induction false} CollapseSpaceStep(s: string)
    requires s != [] && IsSpace(s[0])
    requires Words(CollapseSpaces(s[1..])) == Words(s[1..])
    ensures Words(CollapseSpaces(s)) == Words(s)
  {
    var c := CollapseSpaces(s[1..]);
    if !(|s| > 1 && IsSpace(s[1])) {
      assert CollapseSpaces(s) == " " + c;
      assert (" " + c)[0] == ' ' && (" " + c)[1..] == c;
    }
  }

  /** The step of CollapseKeepsWords for text starting with a non-space. */
  lemma {:induction false} CollapseCharStep(s: string)
    requires s != [] && !IsSpace(s[0])
    requires Words(CollapseSpaces(s[1..])) == Words(s[1..])
    ensures Words(CollapseSpaces(s)) == Words(s)
  {
    var x := s[1..];
    assert s == [s[0]] + x;
    WordsCons(s[0], x);
    WordsCons(s[0], CollapseSpaces(x));
  }

  /** Collapsing whitespace keeps the words. */
  lemma {:induction false} CollapseKeepsWords(s: string)
    ensures Words(CollapseSpaces(s)) == Words(s)
    decreases |s|
  {
    if s != [] {
      CollapseKeepsWords(s[1..]);
      if IsSpace(s[0]) {
        CollapseSpaceStep(s);
      } else {
        CollapseCharStep(s);
      }
    }
  }

  /** Text whose whitespace is already single spaces is left as it is. */
  lemma {:induction false} CollapseKeepsPlain(s: string)
    requires OnlyPlainSpaces(s) && NoSpaceRuns(s)
    ensures CollapseSpaces(s) == s
    decreases |s|
  {
    if s != [] {
      var x := s[1..];
      forall i | 0 <= i < |x| && IsSpace(x[i]) ensures x[i] == ' ' {
        assert x[i] == s[i + 1];
      }
      forall i | 0 <= i < |x| - 1 ensures NotTwoSpacesAt(x, i) {
        assert NotTwoSpacesAt(s, i + 1) && x[i] == s[i + 1] && x[i + 1] == s[i + 2];
      }
      CollapseKeepsPlain(x);
      assert s == [s[0]] + x;
      if IsSpace(s[0]) && |s| > 1 {
        assert NotTwoSpacesAt(s, 0) && x[0] == s[1];
      }
    }
  }

  /** The cleaned capture is the capture's words joined by single spaces. */
  lemma {:induction false} CleanedIsJoined(c: string)
    ensures CollapseSpaces(Trim(c)) == JoinSpaces(Words(c))
  {
    var m := CollapseSpaces(Trim(c));
    WordsOfTrim(c);
    CollapseKeepsWords(Trim(c));
    CanonicalIsJoined(m);
  }

  /** The post-processing of a pattern's capture: a non-empty capture is
      trimmed and its whitespace collapsed, and it is accepted when 3 to 50
      characters remain. The result is the capture's words joined by single
      spaces, when that has 3 to 50 characters. */
  function Candidate(capture: Option<string>): (r: Option<string>)
    ensures r.Some? ==> capture.Some? && 3 <= |r.value| <= 50
    ensures capture.None? || capture.value == [] ==> r.None?
  {
    match capture
    case None => None
    case Some(c) =>
      if c == [] then None
      else
        var m := CollapseSpaces(Trim(c));
        if 3 <= |m| <= 50 then Some(m) else None
  }

  /** The candidate is exactly the capture's words joined by single spaces,
      accepted when that has 3 to 50 characters. */
  lemma {:induction false} CandidateIsJoined(capture: Option<string>)
    ensures Candidate(capture) == (if capture.Some? && 3 <= |JoinSpaces(Words(capture.value))| <= 50
                                   then Some(JoinSpaces(Words(capture.value))) else None)
  {
    if capture.Some? {
      if capture.value == [] {
        assert Words(capture.value) == [];
      } else {
        CleanedIsJoined(capture.value);
      }
    }
  }

  /** Whitespace, then a word, then nothing or more whitespace-led text. */
  lemma {:induction false} BlankThenWord(p: string, a: string, rest: string)
    requires IsBlank(p) && IsWord(a) && (rest == [] || IsSpace(rest[0]))
    ensures Words(p + (a + rest)) == [a] + Words(rest)
  {
    LeadingBlanksIgnored(p, a + rest);
    WordsOfWordThen(a, rest);
  }

  /** Three words with whitespace before, between and after them. */
  lemma {:induction false} ThreeWords(p0: string, a: string, p1: string, b: string, p2: string, c: string, p3: string)
    requires IsBlank(p0) && IsBlank(p1) && IsBlank(p2) && IsBlank(p3)
    requires p1 != [] && p2 != [] && IsWord(a) && IsWord(b) && IsWord(c)
    ensures Words(p0 + (a + (p1 + (b + (p2 + (c + p3)))))) == [a, b, c]
  {
    var t3 := p2 + (c + p3);
    assert Words(t3) == [c] by {
      BlankThenWord(p2, c, p3);
      assert Words(p3) == [];
    }
    var t2 := p1 + (b + t3);
    assert Words(t2) == [b, c] by {
      assert t3[0] == p2[0];
      BlankThenWord(p1, b, t3);
    }
    var t1 := p0 + (a + t2);
    assert Words(t1) == [a, b, c] by {
      assert t2[0] == p1[0];
      BlankThenWord(p0, a, t2);
    }
  }

  /** The words of a capture with a tab, a newline and runs of spaces. */
  lemma {:induction false} ExampleWords(capture: string)
    requires capture == " \tPadaria  Sao\n Jorge "
    ensures Words(capture) == ["Padaria", "Sao", "Jorge"]
  {
    var p0, a, p1, b, p2, c, p3 := " \t", "Padaria", "  ", "Sao", "\n ", "Jorge", " ";
    assert capture == p0 + (a + (p1 + (b + (p2 + (c + p3)))));
    ThreeWords(p0, a, p1, b, p2, c, p3);
  }

  /** That capture is accepted as its words one space apart. */
  lemma {:induction false} CandidateExample(capture: string)
    requires capture == " \tPadaria  Sao\n Jorge "
    ensures Candidate(Some(capture)) == Some("Padaria Sao Jorge")
  {
    ExampleWords(capture);
    var w := Words(capture);
    JoinSmall(w);
    ExampleJoined(w[0], w[1], w[2]);
    AcceptedAsJoined(capture, "Padaria Sao Jorge");
  }

  lemma {:induction false} ExampleJoined(a: string, b: string, c: string)
    requires a == "Padaria" && b == "Sao" && c == "Jorge"
    ensures a + " " + b + " " + c == "Padaria Sao Jorge"
  {
  }

  lemma {:induction false} AcceptedAsJoined(capture: string, m: string)
    requires JoinSpaces(Words(capture)) == m && 3 <= |m| <= 50
    ensures Candidate(Some(capture)) == Some(m)
  {
    CandidateIsJoined(Some(capture));
  }

  /** An accepted candidate has 3 to 50 characters, no whitespace at its
      ends and single spaces between its words. */
  lemma {:induction false} CandidateShape(capture: Option<string>)
    ensures var r := Candidate(capture);
      r.Some? ==> 3 <= |r.value| <= 50 && Canonical(r.value)
  {
  }

  /** The index of the first pattern whose candidate is accepted, or the
      number of patterns when none is. */
  function FirstAccepted(text: string, patterns: seq<Matcher>): (j: nat)
    ensures j <= |patterns|
    ensures forall k :: 0 <= k < j ==> Candidate(patterns[k](text)).None?
    ensures j < |patterns| ==> Candidate(patterns[j](text)).Some?
  {
    if patterns == [] then 0
    else if Candidate(patterns[0](text)).Some? then 0
    else
      var rest := patterns[1..];
      var j := FirstAccepted(text, rest);
      forall k | 1 <= k < 1 + j ensures Candidate(patterns[k](text)).None? {
        assert patterns[k] == rest[k - 1];
      }
      assert 1 + j < |patterns| ==> patterns[1 + j] == rest[j];
      1 + j
  }

  /** The merchant: the accepted candidate of the first pattern that yields one. */
  function Merchant(text: string, patterns: seq<Matcher>): (r: Option<string>)
    ensures r.None? <==> forall k :: 0 <= k < |patterns| ==> Candidate(patterns[k](text)).None?
    ensures r.Some? ==> 3 <= |r.value| <= 50
  {
    var j := FirstAccepted(text, patterns);
    if j < |patterns| then Candidate(patterns[j](text)) else None
  }

  /** The merchant is the words of the first accepted pattern's capture,
      joined by single spaces: no whitespace at its ends and single spaces
      inside. */
  lemma {:induction false} MerchantIsJoined(text: string, patterns: seq<Matcher>)
    ensures var j := FirstAccepted(text, patterns);
      Merchant(text, patterns) ==
        if j < |patterns| then Some(JoinSpaces(Words(patterns[j](text).value))) else None
    ensures Merchant(text, patterns).Some? ==> Canonical(Merchant(text, patterns).value)
  {
    var j := FirstAccepted(text, patterns);
    if j < |patterns| {
      CandidateIsJoined(patterns[j](text));
      CandidateShape(patterns[j](text));
    }
  }

  /** parseBankNotification. A blank text gives an empty result; otherwise the
      amount and the merchant are reported as found, the description names
      the merchant, and it falls back to "Compra" when only an amount was
      found. */
  method ParseBankNotification(text: string, patterns: seq<Matcher>) returns (result: Parsed)
    ensures IsBlank(text) ==> result == Parsed(None, None, None)
    ensures !IsBlank(text) ==> result.valor == Amount(text) && result.loja == Merchant(text, patterns)
    ensures !IsBlank(text) ==> (result.descricao ==
      (if result.loja.Some? then Some("Compra em " + result.loja.value)
       else if result.valor.Some? then Some("Compra")
       else None))
  {
    result := Parsed(None, None, None);
    if Trim(text) == [] {
      return;
    }
    var valor: Option<real> := None;
    var capture := AmountCapture(text);
    if capture.Some? {
      var raw := capture.value;
      if ',' in raw {
        raw := ReplaceFirstComma(RemoveDots(raw));
      }
      assert raw == Normalise(capture.value);
      var parsed := ParseFloat(raw);
      if parsed.Some? && parsed.value > 0.0 {
        valor := parsed;
      }
    }
    assert valor == Amount(text);
    var loja: Option<string> := None;
    var i := 0;
    while i < |patterns|
      invariant 0 <= i <= |patterns|
      invariant FirstAccepted(text, patterns) >= i
      invariant loja == None
    {
      var merchant := Candidate(patterns[i](text));
      if merchant.Some? {
        assert FirstAccepted(text, patterns) == i;
        loja := merchant;
        break;
      }
      assert FirstAccepted(text, patterns) != i;
      i := i + 1;
    }
    assert loja == Merchant(text, patterns) by {
      if loja.None? { assert FirstAccepted(text, patterns) == |patterns|; }
    }
    var descricao := if loja.Some? then Some("Compra em " + loja.value) else None;
    if descricao.None? && valor.Some? {
      descricao := Some("Compra");
    }
    result := Parsed(valor, loja, descricao);
  }

  lemma NumRunAll(s: string)
    requires forall i :: 0 <= i < |s| ==> IsNumChar(s[i])
    ensures NumRun(s) == s
  {
  }

  lemma {:induction false} TrimStartSpaces(sp: string, t: string)
    requires forall i :: 0 <= i < |sp| ==> IsSpace(sp[i])
    requires t == [] || !IsSpace(t[0])
    ensures TrimStart(sp + t) == t
  {
    if sp != [] {
      assert (sp + t)[1..] == sp[1..] + t;
      TrimStartSpaces(sp[1..], t);
    } else {
      assert sp + t == t;
    }
  }

  /** A text that starts with `R$`, optional spaces and a run of `[\d.,]`
      has that run as its amount capture. */
  lemma CaptureAtStart(text: string, sp: string, raw: string)
    requires text == "R$" + sp + raw
    requires forall i :: 0 <= i < |sp| ==> IsSpace(sp[i])
    requires raw != [] && forall i :: 0 <= i < |raw| ==> IsNumChar(raw[i])
    ensures AmountCapture(text) == Some(raw)
  {
    assert text[2..] == sp + raw;
    TrimStartSpaces(sp, raw);
    NumRunAll(raw);
    assert text[0..] == text;
    assert AmountAt(text, 0);
  }

  lemma {:induction false} DigitRunPrefix(a: string, b: string)
    requires forall i :: 0 <= i < |a| ==> IsDigit(a[i])
    requires b == [] || !IsDigit(b[0])
    ensures DigitRun(a + b) == a
  {
    if a != [] {
      assert (a + b)[1..] == a[1..] + b;
      DigitRunPrefix(a[1..], b);
      assert a == [a[0]] + a[1..];
    } else {
      assert a + b == b;
    }
  }

  lemma {:induction false} RemoveDotsAppend(a: string, b: string)
    ensures RemoveDots(a + b) == RemoveDots(a) + RemoveDots(b)
  {
    if b == [] {
      assert a + b == a;
    } else {
      assert (a + b)[..|a + b| - 1] == a + b[..|b| - 1];
      RemoveDotsAppend(a, b[..|b| - 1]);
    }
  }

  lemma RemoveDotsNone(s: string)
    requires '.' !in s
    ensures RemoveDots(s) == s
  {
    if s != [] {
      assert s == s[..|s| - 1] + [s[|s| - 1]];
      RemoveDotsNone(s[..|s| - 1]);
    }
  }

  lemma CommaAt(a: string, b: string)
    requires ',' !in a
    ensures CommaIndex(a + "," + b) == |a|
    ensures ReplaceFirstComma(a + "," + b) == a + "." + b
  {
    var s := a + "," + b;
    assert s[|a|] == ',' && s[..|a|] == a && s[|a| + 1..] == b;
  }

  /** parseFloat of `a.b` for digit strings `a` (non-empty) and `b`. */
  lemma ParseDecimal(a: string, b: string)
    requires a != [] && forall i :: 0 <= i < |a| ==> IsDigit(a[i])
    requires forall i :: 0 <= i < |b| ==> IsDigit(b[i])
    ensures ParseFloat(a + "." + b) == Some(DecimalValue(a, b))
  {
    var s := a + "." + b;
    assert s == a + ("." + b);
    DigitRunPrefix(a, "." + b);
    var rest := s[|a|..];
    assert rest == "." + b;
    assert rest[1..] == b;
    DigitRunPrefix(b, "");
    assert b + "" == b;
    assert DigitRun(rest[1..]) == b;
  }

  lemma Value1234() ensures DigitsValue("1234") == 1234 {
    assert "1234"[..3] == "123" && "123"[..2] == "12" && "12"[..1] == "1" && "1"[..0] == "";
  }

  lemma Value56() ensures DigitsValue("56") == 56 {
    assert "56"[..1] == "5" && "5"[..0] == "";
  }

  lemma Value50() ensures DigitsValue("50") == 50 {
    assert "50"[..1] == "5" && "5"[..0] == "";
  }

  lemma Value00() ensures DigitsValue("00") == 0 && DigitsValue("0") == 0 {
    assert "00"[..1] == "0" && "0"[..0] == "";
  }

  lemma Value1AndPow5() ensures DigitsValue("1") == 1 && Pow10(5) == 100000 {
    assert "1"[..0] == "";
  }

  lemma Value23456() ensures DigitsValue("23456") == 23456 {
    assert "23456"[..4] == "2345" && "2345"[..3] == "234" && "234"[..2] == "23";
    assert "23"[..1] == "2" && "2"[..0] == "";
  }

  lemma Decimal1234_56() ensures DecimalValue("1234", "56") == 1234.56 {
    Value1234();
    Value56();
    assert Pow10(2) == 100;
  }

  lemma Decimal1_23456() ensures DecimalValue("1", "23456") == 1.23456 {
    Value23456();
    Value1AndPow5();
  }

  lemma Parse1234_56() ensures ParseFloat("1234.56") == Some(1234.56) {
    ParseDecimal("1234", "56");
    assert "1234" + "." + "56" == "1234.56";
    Decimal1234_56();
  }

  lemma Parse50_00() ensures ParseFloat("50.00") == Some(50.0) {
    ParseDecimal("50", "00");
    assert "50" + "." + "00" == "50.00";
    Value50();
    Value00();
  }

  lemma Parse0_00() ensures ParseFloat("0.00") == Some(0.0) {
    ParseDecimal("0", "00");
    assert "0" + "." + "00" == "0.00";
    Value00();
  }

  lemma Parse1_23456() ensures ParseFloat("1.23456") == Some(1.23456) {
    ParseDecimal("1", "23456");
    assert "1" + "." + "23456" == "1.23456";
    Decimal1_23456();
  }

  lemma DotAlone() ensures RemoveDots(".") == [] {
    assert "."[..0] == [];
  }

  /** Removing the one point of `a.b`. */
  lemma RemoveOneDot(a: string, b: string, s: string, t: string)
    requires '.' !in a && '.' !in b && s == a + "." + b && t == a + b
    ensures RemoveDots(s) == t
  {
    var pb := "." + b;
    assert RemoveDots(pb) == b by {
      RemoveDotsAppend(".", b);
      DotAlone();
      RemoveDotsNone(b);
    }
    assert s == a + pb;
    assert RemoveDots(a + pb) == a + b by {
      RemoveDotsAppend(a, pb);
      RemoveDotsNone(a);
    }
  }

  lemma DotsOf1_234_56() ensures RemoveDots("1.234,56") == "1234,56" {
    RemoveOneDot("1", "234,56", "1.234,56", "1234,56");
  }

  lemma DotsOf1_234us() ensures RemoveDots("1,234.56") == "1,23456" {
    RemoveOneDot("1,234", "56", "1,234.56", "1,23456");
  }

  lemma Comma1234_56() ensures ReplaceFirstComma("1234,56") == "1234.56" {
    CommaAtEq("1234", "56", "1234,56", "1234.56");
  }

  lemma NormaliseThousands() ensures Normalise("1.234,56") == "1234.56" {
    DotsOf1_234_56();
    Comma1234_56();
  }

  lemma NormaliseComma() ensures Normalise("1234,56") == "1234.56" {
    RemoveDotsNone("1234,56");
    Comma1234_56();
  }

  lemma NormaliseZero() ensures Normalise("0,00") == "0.00" {
    assert ',' in "0,00" && '.' !in "0,00";
    RemoveDotsNone("0,00");
    NormaliseVia("0,00", "0,00");
    CommaAtEq("0", "00", "0,00", "0.00");
  }

  lemma NormalisePoint()
    ensures Normalise("1234.56") == "1234.56" && Normalise("50.00") == "50.00"
  {
    assert ',' !in "1234.56" && ',' !in "50.00";
  }

  lemma NormaliseVia(raw: string, d: string)
    requires ',' in raw && RemoveDots(raw) == d
    ensures Normalise(raw) == ReplaceFirstComma(d)
  {
  }

  lemma CommaAtEq(a: string, b: string, s: string, t: string)
    requires ',' !in a && s == a + "," + b && t == a + "." + b
    ensures ReplaceFirstComma(s) == t
  {
    CommaAt(a, b);
  }

  lemma CommaUs() ensures ReplaceFirstComma("1,23456") == "1.23456" {
    CommaAtEq("1", "23456", "1,23456", "1.23456");
  }

  lemma NormaliseUsFormat() ensures Normalise("1,234.56") == "1.23456" {
    DotsOf1_234us();
    assert "1,234.56"[1] == ',';
    NormaliseVia("1,234.56", "1,23456");
    CommaUs();
  }

  lemma AmountThousands() ensures Amount("R$ 1.234,56") == Some(1234.56) {
    assert "R$ 1.234,56" == "R$" + " " + "1.234,56";
    CaptureAtStart("R$ 1.234,56", " ", "1.234,56");
    NormaliseThousands();
    Parse1234_56();
  }

  lemma AmountComma() ensures Amount("R$1234,56") == Some(1234.56) {
    assert "R$1234,56" == "R$" + "" + "1234,56";
    CaptureAtStart("R$1234,56", "", "1234,56");
    NormaliseComma();
    Parse1234_56();
  }

  lemma AmountPointCapture() ensures AmountCapture("R$ 1234.56") == Some("1234.56") {
    assert "R$ 1234.56" == "R$" + " " + "1234.56";
    CaptureAtStart("R$ 1234.56", " ", "1234.56");
  }

  lemma AmountPoint() ensures Amount("R$ 1234.56") == Some(1234.56) {
    AmountPointCapture();
    NormalisePoint();
    Parse1234_56();
  }

  lemma AmountPointNoSpaceCapture() ensures AmountCapture("R$50.00") == Some("50.00") {
    assert "R$50.00" == "R$" + "" + "50.00";
    CaptureAtStart("R$50.00", "", "50.00");
  }

  lemma AmountPointNoSpace() ensures Amount("R$50.00") == Some(50.0) {
    AmountPointNoSpaceCapture();
    NormalisePoint();
    Parse50_00();
  }

  /** The formats the source documents: Brazilian with and without a thousands
      point, and a plain decimal point. */
  lemma DocumentedFormats()
    ensures Amount("R$ 1.234,56") == Some(1234.56)
    ensures Amount("R$1234,56") == Some(1234.56)
    ensures Amount("R$ 1234.56") == Some(1234.56)
    ensures Amount("R$50.00") == Some(50.0)
  {
    AmountThousands();
    AmountComma();
    AmountPoint();
    AmountPointNoSpace();
  }

  lemma AmountZero() ensures Amount("R$ 0,00") == None {
    assert "R$ 0,00" == "R$" + " " + "0,00";
    CaptureAtStart("R$ 0,00", " ", "0,00");
    NormaliseZero();
    Parse0_00();
  }

  /** Without a '$' the amount expression matches nowhere. */
  lemma NoDollarNoAmount(t: string)
    requires '$' !in t
    ensures Amount(t) == None
  {
    forall i ensures !AmountAt(t, i) {
      if 0 <= i && i + 2 <= |t| { assert t[i..][1] == t[i + 1] && t[i + 1] in t; }
    }
  }

  lemma AmountMissing() ensures Amount("Pix recebido") == None {
    assert '$' !in "Pix recebido";
    NoDollarNoAmount("Pix recebido");
  }

  /** A zero amount, or no `R$` at all, reports no amount. */
  lemma NoAmount()
    ensures Amount("R$ 0,00") == None
    ensures Amount("Pix recebido") == None
  {
    AmountZero();
    AmountMissing();
  }

  /** An amount in US format with a thousands comma is read as Brazilian:
      `R$ 1,234.56` reports 1.23456. */
  lemma UsThousandsMisread()
    ensures Amount("R$ 1,234.56") == Some(1.23456)
  {
    assert "R$ 1,234.56" == "R$" + " " + "1,234.56";
    CaptureAtStart("R$ 1,234.56", " ", "1,234.56");
    NormaliseUsFormat();
    Parse1_23456();
  }
}

/** Bank and store logos of src/lib/logos.tsx: the logo URL of a name, found
    by the first known pattern the name contains or else by a slug of the
    name, and the initials shown when there is no logo. */
module Logos {
  import opened Common

  const CLEARBIT: string := "https://logo.clearbit.com/"

  /** Pattern and domain pairs, searched in this order. */
  const KNOWN_DOMAINS: seq<(string, string)> := [
    ("nubank", "nubank.com.br"),
    ("ita\U{FA}", "itau.com.br"),
    ("itau", "itau.com.br"),
    ("bradesco", "bradesco.com.br"),
    ("santander", "santander.com.br"),
    ("caixa econ\U{F4}mica", "caixa.gov.br"),
    ("caixa economica", "caixa.gov.br"),
    ("caixa", "caixa.gov.br"),
    ("banco do brasil", "bb.com.br"),
    ("inter", "bancointer.com.br"),
    ("banco inter", "bancointer.com.br"),
    ("c6 bank", "c6bank.com.br"),
    ("c6bank", "c6bank.com.br"),
    ("next", "next.me"),
    ("original", "bancooriginal.com.br"),
    ("sicoob", "sicoob.com.br"),
    ("sicredi", "sicredi.com.br"),
    ("xp investimentos", "xpi.com.br"),
    ("pagbank", "pagbank.com.br"),
    ("pag bank", "pagbank.com.br"),
    ("picpay", "picpay.com"),
    ("mercado pago", "mercadopago.com.br"),
    ("stone", "stone.com.br"),
    ("pagseguro", "pagseguro.com.br"),
    ("neon", "banconeon.com.br"),
    ("agibank", "agibank.com.br"),
    ("banco pan", "bancopan.com.br"),
    ("pan", "bancopan.com.br"),
    ("digio", "digio.com.br"),
    ("safra", "safra.com.br"),
    ("bmg", "bancobmg.com.br"),
    ("modal", "bancomodal.com.br"),
    ("amazon", "amazon.com.br"),
    ("americanas", "americanas.com.br"),
    ("magazine luiza", "magazineluiza.com.br"),
    ("magalu", "magazineluiza.com.br"),
    ("shopee", "shopee.com.br"),
    ("mercado livre", "mercadolivre.com.br"),
    ("casas bahia", "casasbahia.com.br"),
    ("ifood", "ifood.com.br"),
    ("rappi", "rappi.com.br"),
    ("uber", "uber.com"),
    ("netflix", "netflix.com"),
    ("spotify", "spotify.com"),
    ("amazon prime", "amazon.com.br"),
    ("globo", "globo.com"),
    ("vivo", "vivo.com.br"),
    ("claro", "claro.com.br"),
    ("tim", "tim.com.br"),
    ("oi", "oi.com.br"),
    ("google", "google.com"),
    ("apple", "apple.com"),
    ("microsoft", "microsoft.com")
  ]

  // ---------------------------------------------------------------------
  // getLogoUrl

  /** `name.toLowerCase().trim()` */
  function Key(name: string): string {
    Trim(ToLower(name))
  }

  /** Entry `i` is the first entry whose pattern the key contains. */
  predicate FirstMatchAt(key: string, table: seq<(string, string)>, i: int) {
    0 <= i < |table| && Includes(key, table[i].0)
    && forall j :: 0 <= j < i ==> !Includes(key, table[j].0)
  }

  /** The domain of the first entry whose pattern the key contains. */
  function FirstDomain(key: string, table: seq<(string, string)>): (r: Option<string>)
    ensures r.None? <==> forall i :: 0 <= i < |table| ==> !Includes(key, table[i].0)
    ensures r.Some? ==> exists i :: FirstMatchAt(key, table, i) && r.value == table[i].1
  {
    if table == [] then None
    else if Includes(key, table[0].0) then
      assert FirstMatchAt(key, table, 0);
      Some(table[0].1)
    else
      var r := FirstDomain(key, table[1..]);
      assert r.Some? ==> exists i :: FirstMatchAt(key, table, i) && r.value == table[i].1 by {
        if r.Some? {
          var i :| FirstMatchAt(key, table[1..], i) && r.value == table[1..][i].1;
          assert FirstMatchAt(key, table, i + 1);
        }
      }
      assert r.None? ==> forall i :: 0 <= i < |table| ==> !Includes(key, table[i].0) by {
        if r.None? {
          forall i | 0 <= i < |table| ensures !Includes(key, table[i].0) {
            if i > 0 { assert table[i] == table[1..][i - 1]; }
          }
        }
      }
      r
  }

  /** There is at most one first match. */
  lemma FirstMatchUnique(key: string, table: seq<(string, string)>, i: int, j: int)
    requires FirstMatchAt(key, table, i) && FirstMatchAt(key, table, j)
    ensures i == j
  {
    assert !(i < j) && !(j < i);
  }

  /** The characters the slug keeps: `[a-z0-9]`, either case. */
  predicate IsSlugChar(c: char) {
    'a' <= c <= 'z' || 'A' <= c <= 'Z' || '0' <= c <= '9'
  }

  /** `key.replace(/\s+/g, "").replace(/[^a-z0-9]/gi, "")`: whitespace is
      not a slug character, so both replacements together keep exactly the
      slug characters, in order. */
  function Slug(key: string): (r: string)
    ensures |r| <= |key|
    ensures forall i :: 0 <= i < |r| ==> IsSlugChar(r[i])
    ensures forall c :: c in r <==> c in key && IsSlugChar(c)
  {
    if key == [] then []
    else
      var init := key[..|key| - 1];
      var last := key[|key| - 1];
      assert key == init + [last];
      Slug(init) + (if IsSlugChar(last) then [last] else [])
  }

  /** The slug of a concatenation is the concatenation of the slugs. */
  lemma {:induction false} SlugAppend(a: string, b: string)
    ensures Slug(a + b) == Slug(a) + Slug(b)
    decreases |b|
  {
    if b == [] {
      assert a + b == a;
    } else {
      var b' := b[..|b| - 1];
      assert a + b == (a + b') + [b[|b| - 1]];
      assert (a + b)[..|a + b| - 1] == a + b';
      SlugAppend(a, b');
    }
  }

  /** A key made of slug characters is its own slug. */
  lemma {:induction false} SlugOfSlugChars(key: string)
    requires forall i :: 0 <= i < |key| ==> IsSlugChar(key[i])
    ensures Slug(key) == key
  {
    if key != [] {
      SlugOfSlugChars(key[..|key| - 1]);
    }
  }

  /** What `getLogoUrl` returns when it searches `table`; the app searches
      KNOWN_DOMAINS. */
  function LogoUrl(name: string, table: seq<(string, string)>): string {
    if IsBlank(name) then ""
    else
      var d := FirstDomain(Key(name), table);
      if d.Some? then CLEARBIT + d.value
      else
        var slug := Slug(Key(name));
        if |slug| >= 3 then CLEARBIT + (slug + ".com.br") else ""
  }

  /** The `for` loop of `getLogoUrl`: it stops at the first pattern the key
      contains. */
  method FindDomain(key: string, table: seq<(string, string)>) returns (domain: Option<string>)
    ensures domain == FirstDomain(key, table)
  {
    var i := 0;
    while i < |table|
      invariant 0 <= i <= |table|
      invariant FirstDomain(key, table) == FirstDomain(key, table[i..])
    {
      var (pattern, d) := table[i];
      if Includes(key, pattern) {
        return Some(d);
      }
      assert table[i..][1..] == table[i + 1..];
      i := i + 1;
    }
    return None;
  }

  /** `getLogoUrl` */
  method GetLogoUrl(name: string) returns (url: string)
    ensures url == LogoUrl(name, KNOWN_DOMAINS)
  {
    if IsBlank(name) {
      return "";
    }
    var key := Key(name);
    var domain := FindDomain(key, KNOWN_DOMAINS);
    if domain.Some? {
      return CLEARBIT + domain.value;
    }
    var slug := Slug(key);
    url := if |slug| >= 3 then CLEARBIT + (slug + ".com.br") else "";
  }

  /** An empty or whitespace name has no logo. */
  lemma BlankHasNoLogo(name: string, table: seq<(string, string)>)
    requires IsBlank(name)
    ensures LogoUrl(name, table) == ""
  {
  }

  /** The first pattern in list order that the key contains gives the URL. */
  lemma FirstKnownPatternWins(name: string, table: seq<(string, string)>, i: int)
    requires !IsBlank(name) && FirstMatchAt(Key(name), table, i)
    ensures LogoUrl(name, table) == CLEARBIT + table[i].1
  {
    var r := FirstDomain(Key(name), table);
    var j :| FirstMatchAt(Key(name), table, j) && r.value == table[j].1;
    FirstMatchUnique(Key(name), table, i, j);
  }

  /** Without a known pattern, a slug of at least three characters gives a
      `.com.br` domain and a shorter one gives no logo. */
  lemma SlugFallback(name: string, table: seq<(string, string)>)
    requires !IsBlank(name)
    requires forall i :: 0 <= i < |table| ==> !Includes(Key(name), table[i].0)
    ensures |Slug(Key(name))| >= 3 ==> LogoUrl(name, table) == CLEARBIT + (Slug(Key(name)) + ".com.br")
    ensures |Slug(Key(name))| < 3 ==> LogoUrl(name, table) == ""
  {
  }

  /** Every result is either empty or a clearbit URL. */
  lemma LogoUrlShape(name: string, table: seq<(string, string)>)
    ensures LogoUrl(name, table) == "" || CLEARBIT <= LogoUrl(name, table)
  {
    var u := LogoUrl(name, table);
    if !IsBlank(name) {
      var d := FirstDomain(Key(name), table);
      if d.Some? {
        PrefixOfConcat(CLEARBIT, d.value);
      } else {
        var slug := Slug(Key(name));
        if |slug| >= 3 {
          PrefixOfConcat(CLEARBIT, slug + ".com.br");
        }
      }
    }
  }

  lemma PrefixOfConcat(a: string, b: string)
    ensures a <= a + b
  {
    assert (a + b)[..|a|] == a;
  }

  // ---------------------------------------------------------------------
  // getInitials

  /** `getInitials` */
  function GetInitials(name: string): string {
    if IsBlank(name) then "?"
    else
      var words := Words(name);
      if |words| == 1 then ToUpper(words[0][..if |words[0]| < 2 then |words[0]| else 2])
      else [UpperAscii(words[0][0]), UpperAscii(words[1][0])]
  }

  /** An empty or whitespace name gives "?". */
  lemma BlankInitials(name: string)
    requires IsBlank(name)
    ensures GetInitials(name) == "?"
  {
  }

  /** A single word, with any whitespace around it, gives its first two
      characters uppercased (one, if the word has one). */
  lemma OneWordInitials(p: string, a: string, q: string)
    requires IsBlank(p) && IsWord(a) && IsBlank(q)
    ensures GetInitials(p + a + q) == ToUpper(a[..if |a| < 2 then |a| else 2])
  {
    assert p + a + q == p + (a + q);
    LeadingBlanksIgnored(p, a + q);
    WordsOfWordThen(a, q);
    assert !IsBlank(p + a + q) by { assert (p + a + q)[|p|] == a[0]; }
  }

  /** Two or more words give the uppercased first characters of the first
      two. */
  lemma TwoWordInitials(p: string, a: string, c: char, rest: string)
    requires IsBlank(p) && IsWord(a) && IsSpace(c) && !IsBlank(rest)
    ensures GetInitials(p + a + [c] + rest) == [UpperAscii(a[0]), UpperAscii(TrimStart(rest)[0])]
  {
    var n := p + a + [c] + rest;
    WordsOfTwo(p, a, c, rest);
    FirstWordStart(rest);
    InitialsOfWords(n);
  }

  /** The words of a blank, a word, a space and the rest. */
  lemma WordsOfTwo(p: string, a: string, c: char, rest: string)
    requires IsBlank(p) && IsWord(a) && IsSpace(c)
    ensures Words(p + a + [c] + rest) == [a] + Words(rest)
  {
    assert p + a + [c] + rest == p + (a + ([c] + rest));
    LeadingBlanksIgnored(p, a + ([c] + rest));
    WordsOfWordThen(a, [c] + rest);
    LeadingBlanksIgnored([c], rest);
  }

  /** A name of two or more words takes the first characters of the first
      two. */
  lemma InitialsOfWords(n: string)
    requires |Words(n)| >= 2
    ensures GetInitials(n) == [UpperAscii(Words(n)[0][0]), UpperAscii(Words(n)[1][0])]
  {
  }

  /** Whatever the name, the initials are one or two characters without
      whitespace. */
  lemma InitialsShape(name: string)
    ensures 1 <= |GetInitials(name)| <= 2 && NoSpaces(GetInitials(name))
  {
    if !IsBlank(name) {
      var w := Words(name);
      var g := GetInitials(name);
      assert IsWord(w[0]);
      if |w| >= 2 {
        assert IsWord(w[1]);
        UpperKeepsNonSpace(w[0][0]);
        UpperKeepsNonSpace(w[1][0]);
        assert g == [UpperAscii(w[0][0]), UpperAscii(w[1][0])];
      } else {
        var n := if |w[0]| < 2 then |w[0]| else 2;
        assert g == ToUpper(w[0][..n]);
        forall i | 0 <= i < |g| ensures !IsSpace(g[i]) {
          UpperKeepsNonSpace(w[0][i]);
        }
      }
    } else {
      assert GetInitials(name) == "?";
    }
  }

  lemma UpperKeepsNonSpace(c: char)
    requires !IsSpace(c)
    ensures !IsSpace(UpperAscii(c))
  {
  }
}

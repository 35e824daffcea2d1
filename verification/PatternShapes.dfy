/** What each pattern of the catalog finds, character by character; and so exactly what the detector finds. */
module PatternShapes {
  import opened Regex
  import opened Splice
  import opened Substitution
  import opened Catalog
  import CatalogFacts
  import opened RegexShapes
  import opened Luhn
  import opened Redaction
  import opened RedactionProof
  import opened PanProof
  import opened Cleanliness

  // ---------- Characters ----------

  predicate Capital(c: char) { 'A' <= c <= 'Z' }

  predicate Small(c: char) { 'a' <= c <= 'z' }

  predicate Numeral(c: char) { '0' <= c <= '9' }

  predicate Alnum(c: char) { Capital(c) || Small(c) || Numeral(c) }

  predicate CapitalOrNumeral(c: char) { Capital(c) || Numeral(c) }

  predicate SmallOrNumeral(c: char) { Small(c) || Numeral(c) }

  predicate AlnumDash(c: char) { Alnum(c) || c == '-' }

  predicate AlnumScore(c: char) { Alnum(c) || c == '_' }

  predicate AlnumScoreDash(c: char) { Alnum(c) || c == '_' || c == '-' }

  predicate Base64Char(c: char) { Alnum(c) || c == '+' || c == '/' }

  predicate CapitalOrBlank(c: char) { Capital(c) || c == ' ' }

  predicate Blank(c: char) { c == ' ' || 9 <= c as int <= 13 || 28 <= c as int <= 31 }

  /** Every character of `t[i..j]` satisfies `f`. */
  ghost predicate All(f: char -> bool, t: string, i: int, j: int) {
    0 <= i <= j <= |t| && forall p :: i <= p < j ==> f(t[p])
  }

  lemma AllExactly(k: Cls, f: char -> bool, t: string, i: nat, j: nat)
    requires i <= j <= |t| && forall c :: In(c, k) <==> f(c)
    ensures AllIn(k, t, i, j) <==> All(f, t, i, j)
  {
  }

  /** `w` stands at `i`. */
  predicate At(t: string, i: int, w: string) { 0 <= i && i + |w| <= |t| && t[i..i + |w|] == w }

  /** `w`, in small letters, stands at `i` in any case. */
  predicate AtAnyCase(t: string, i: int, w: string) { 0 <= i && i + |w| <= |t| && SameIgnoringCase(t[i..i + |w|], w) }

  /** A word character on just one side. */
  predicate Edge(t: string, p: int) {
    0 <= p <= |t| && (p > 0 && AlnumScore(t[p - 1])) != (p < |t| && AlnumScore(t[p]))
  }

  lemma EdgeExactly(t: string, p: nat)
    requires p <= |t|
    ensures BoundaryAt(t, p) <==> Edge(t, p)
  {
  }

  /** A run of one class that ends a pattern. */
  lemma LastRun(k: Cls, f: char -> bool, lo: nat, hi: Bound, t: string, i: nat, j: nat)
    requires i <= j <= |t| && forall c :: In(c, k) <==> f(c)
    ensures Matches(Rep(One(k), lo, hi), t, i, j) <==>
            lo <= j - i && (hi.Upto? ==> j - i <= hi.n) && All(f, t, i, j)
  {
    RunExactly(k, lo, hi, t, i, j);
    AllExactly(k, f, t, i, j);
  }

  /** A literal, then one run. */
  lemma WordThenRun(s: Literal, k: Cls, f: char -> bool, lo: nat, hi: Bound, t: string, i: nat, j: nat)
    requires i <= j <= |t| && forall c :: In(c, k) <==> f(c)
    ensures Matches(Cat(Text(s), Rep(One(k), lo, hi)), t, i, j) <==>
            At(t, i, s) && i + |s| + lo <= j && (hi.Upto? ==> j - i - |s| <= hi.n) && All(f, t, i + |s|, j)
  {
    TextFirst(s, Rep(One(k), lo, hi), t, i, j);
    if i + |s| <= j { LastRun(k, f, lo, hi, t, i + |s|, j); }
  }

  // ---------- Secrets ----------

  ghost predicate AwsKey(t: string, i: nat, j: nat)
    requires j <= |t|
  {
    At(t, i, "AKIA") && j == i + 20 && All(CapitalOrNumeral, t, i + 4, j)
  }

  lemma AwsExactly(t: string, i: nat, j: nat)
    requires i <= j <= |t|
    ensures Matches(AwsBody, t, i, j) <==> AwsKey(t, i, j)
  {
    WordThenRun("AKIA", UpperDigit, CapitalOrNumeral, 16, Upto(16), t, i, j);
  }

  ghost predicate GithubToken(t: string, i: nat, j: nat)
    requires j <= |t|
  {
    (At(t, i, "ghp_") || At(t, i, "gho_") || At(t, i, "ghu_") || At(t, i, "ghs_") || At(t, i, "ghr_")) &&
    j == i + 40 && All(Alnum, t, i + 4, j)
  }

  lemma GithubExactly(t: string, i: nat, j: nat)
    requires i <= j <= |t|
    ensures Matches(GithubBody, t, i, j) <==> GithubToken(t, i, j)
  {
    FiveWordsThenRun(Text("ghp_"), Text("gho_"), Text("ghu_"), Text("ghs_"), Text("ghr_"), Times(AlphaNum, 36),
                     t, i, j);
    KindThenRun("ghp_", t, i, j);
    KindThenRun("gho_", t, i, j);
    KindThenRun("ghu_", t, i, j);
    KindThenRun("ghs_", t, i, j);
    KindThenRun("ghr_", t, i, j);
  }

  lemma FiveWordsThenRun(a: Re, b: Re, c: Re, d: Re, e: Re, run: Re, t: string, i: nat, j: nat)
    requires i <= j <= |t|
    ensures Matches(Cat(Alt(a, Alt(b, Alt(c, Alt(d, e)))), run), t, i, j) <==>
            Matches(Cat(a, run), t, i, j) || Matches(Cat(b, run), t, i, j) || Matches(Cat(c, run), t, i, j) ||
            Matches(Cat(d, run), t, i, j) || Matches(Cat(e, run), t, i, j)
  {
    EitherFirst(a, Alt(b, Alt(c, Alt(d, e))), run, t, i, j);
    EitherFirst(b, Alt(c, Alt(d, e)), run, t, i, j);
    EitherFirst(c, Alt(d, e), run, t, i, j);
    EitherFirst(d, e, run, t, i, j);
  }

  lemma KindThenRun(kind: Literal, t: string, i: nat, j: nat)
    requires i <= j <= |t| && |kind| == 4
    ensures Matches(Cat(Text(kind), Times(AlphaNum, 36)), t, i, j) <==>
            At(t, i, kind) && j == i + 40 && All(Alnum, t, i + 4, j)
  {
    WordThenRun(kind, AlphaNum, Alnum, 36, Upto(36), t, i, j);
  }

  ghost predicate FineToken(t: string, i: nat, j: nat)
    requires j <= |t|
  {
    At(t, i, "github_pat_") && j == i + 93 && All(AlnumScore, t, i + 11, j)
  }

  lemma FineExactly(t: string, i: nat, j: nat)
    requires i <= j <= |t|
    ensures Matches(GithubFineBody, t, i, j) <==> FineToken(t, i, j)
  {
    WordThenRun("github_pat_", AlphaNumUnder, AlnumScore, 82, Upto(82), t, i, j);
  }

  ghost predicate StorageKey(t: string, i: nat, j: nat)
    requires j <= |t|
  {
    At(t, i, "DefaultEndpoints") && At(t, i + 16, "Protocol=https;") && At(t, i + 31, "AccountName=") &&
    exists k :: i + 43 < k && All(SmallOrNumeral, t, i + 43, k) && At(t, k, ";AccountKey=") && k + 53 <= j &&
                All(Base64Char, t, k + 12, j - 1) && t[j - 1] == ';'
  }

  /** A literal in the middle of a pattern that leaves its last character to a literal of one. */
  lemma RunThenChar(k: Cls, f: char -> bool, lo: nat, s: Literal, t: string, i: nat, j: nat)
    requires i <= j <= |t| && |s| == 1 && forall c :: In(c, k) <==> f(c)
    ensures Matches(Cat(AtLeast(k, lo), Text(s)), t, i, j) <==>
            i + lo + 1 <= j && All(f, t, i, j - 1) && t[j - 1] == s[0]
  {
    RunFirst(k, lo, Unbounded, Text(s), t, i, j);
    if i + 1 <= j {
      AllExactly(k, f, t, i, j - 1);
      LastChar(s, t, j);
    }
    forall m | i <= m <= j && Matches(Text(s), t, m, j) ensures m == j - 1 && t[j - 1] == s[0] {
      assert |t[m..j]| == j - m && t[m..j][0] == t[m];
    }
  }

  lemma LastChar(s: Literal, t: string, j: nat)
    requires 0 < j <= |t| && |s| == 1
    ensures Matches(Text(s), t, j - 1, j) <==> t[j - 1] == s[0]
  {
    assert t[j - 1..j] == [t[j - 1]] && s == [s[0]];
  }

  lemma StorageExactly(t: string, i: nat, j: nat)
    requires i <= j <= |t|
    ensures Matches(AzureKey, t, i, j) <==> StorageKey(t, i, j)
  {
    var middle := Cat(Text(";AccountKey="), Cat(AtLeast(Base64, 40), Text(";")));
    var tail := Cat(AtLeast(LowerDigit, 1), middle);
    HeadExactly(tail, t, i, j);
    if i + 43 <= j { TailExactly(LowerDigit, SmallOrNumeral, ";AccountKey=", Base64, Base64Char, ";", t, i + 43, j); }
  }

  lemma HeadExactly(tail: Re, t: string, i: nat, j: nat)
    requires i <= j <= |t|
    ensures Matches(Cat(AzureHead, tail), t, i, j) <==>
            i + 43 <= j && At(t, i, "DefaultEndpoints") && At(t, i + 16, "Protocol=https;") &&
            At(t, i + 31, "AccountName=") && Matches(tail, t, i + 43, j)
  {
    var second := Cat(Text("Protocol=https;"), Text("AccountName="));
    PairFirst(Text("DefaultEndpoints"), second, tail, t, i, j);
    TextFirst("DefaultEndpoints", Cat(second, tail), t, i, j);
    if i + 16 <= j {
      PairFirst(Text("Protocol=https;"), Text("AccountName="), tail, t, i + 16, j);
      TextFirst("Protocol=https;", Cat(Text("AccountName="), tail), t, i + 16, j);
      if i + 31 <= j { TextFirst("AccountName=", tail, t, i + 31, j); }
    }
  }

  lemma TailExactly(name: Cls, f: char -> bool, middle: Literal, key: Cls, g: char -> bool, last: Literal,
                    t: string, h: nat, j: nat)
    requires h <= j <= |t| && |middle| == 12 && |last| == 1
    requires (forall c :: In(c, name) <==> f(c)) && forall c :: In(c, key) <==> g(c)
    ensures Matches(Cat(AtLeast(name, 1), Cat(Text(middle), Cat(AtLeast(key, 40), Text(last)))), t, h, j) <==>
            exists k :: h < k && All(f, t, h, k) && At(t, k, middle) && k + 53 <= j &&
                        All(g, t, k + 12, j - 1) && t[j - 1] == last[0]
  {
    var rest := Cat(Text(middle), Cat(AtLeast(key, 40), Text(last)));
    RunFirst(name, 1, Unbounded, rest, t, h, j);
    forall k | h <= k <= j
      ensures AllIn(name, t, h, k) <==> All(f, t, h, k)
      ensures Matches(rest, t, k, j) <==>
              At(t, k, middle) && k + 53 <= j && All(g, t, k + 12, j - 1) && t[j - 1] == last[0]
    {
      AllExactly(name, f, t, h, k);
      TextFirst(middle, Cat(AtLeast(key, 40), Text(last)), t, k, j);
      if k + 12 <= j { RunThenChar(key, g, 40, last, t, k + 12, j); }
    }
  }

  ghost predicate PrivateKeyHead(t: string, i: nat, j: nat)
    requires j <= |t|
  {
    At(t, i, "-----BEGIN ") && i + 27 <= j && At(t, j - 16, "PRIVATE KEY-----") &&
      All(CapitalOrBlank, t, i + 11, j - 16)
  }

  lemma PemExactly(t: string, i: nat, j: nat)
    requires i <= j <= |t|
    ensures Matches(Pem, t, i, j) <==> PrivateKeyHead(t, i, j)
  {
    var last := Text("PRIVATE KEY-----");
    TextFirst("-----BEGIN ", Cat(AtLeast(UpperSpace, 0), last), t, i, j);
    if i + 11 <= j { RunThenText(UpperSpace, CapitalOrBlank, 0, "PRIVATE KEY-----", t, i + 11, j); }
  }

  lemma RunThenText(k: Cls, f: char -> bool, lo: nat, s: Literal, t: string, i: nat, j: nat)
    requires i <= j <= |t| && forall c :: In(c, k) <==> f(c)
    ensures Matches(Cat(AtLeast(k, lo), Text(s)), t, i, j) <==>
            i + lo + |s| <= j && All(f, t, i, j - |s|) && At(t, j - |s|, s)
  {
    RunFirst(k, lo, Unbounded, Text(s), t, i, j);
    if i + |s| <= j { AllExactly(k, f, t, i, j - |s|); }
    forall m | i <= m <= j && Matches(Text(s), t, m, j) ensures m == j - |s| { assert |t[m..j]| == j - m; }
  }

  ghost predicate WebToken(t: string, i: nat, j: nat)
    requires j <= |t|
  {
    At(t, i, "eyJ") && exists m, n ::
      i + 3 < m && All(AlnumScoreDash, t, i + 3, m) && At(t, m, ".eyJ") && m + 4 < n &&
      All(AlnumScoreDash, t, m + 4, n) && n + 1 < j && t[n] == '.' && All(AlnumScoreDash, t, n + 1, j)
  }

  lemma JwtExactly(t: string, i: nat, j: nat)
    requires i <= j <= |t|
    ensures Matches(JwtBody, t, i, j) <==> WebToken(t, i, j)
  {
    var last := Cat(Text("."), JwtPart);
    var middle := Cat(Text(".eyJ"), Cat(JwtPart, last));
    TextFirst("eyJ", Cat(JwtPart, middle), t, i, j);
    if i + 3 <= j { TwoParts(AlphaNumUnderDash, AlnumScoreDash, ".eyJ", ".", t, i + 3, j); }
  }

  lemma TwoParts(k: Cls, f: char -> bool, s: Literal, dot: Literal, t: string, h: nat, j: nat)
    requires h <= j <= |t| && |s| == 4 && |dot| == 1 && forall c :: In(c, k) <==> f(c)
    ensures Matches(Cat(AtLeast(k, 1), Cat(Text(s), Cat(AtLeast(k, 1), Cat(Text(dot), AtLeast(k, 1))))), t, h, j) <==>
            exists m, n :: h < m && All(f, t, h, m) && At(t, m, s) && m + 4 < n && All(f, t, m + 4, n) && n + 1 < j &&
                           t[n] == dot[0] && All(f, t, n + 1, j)
  {
    var last := Cat(Text(dot), AtLeast(k, 1));
    var rest := Cat(Text(s), Cat(AtLeast(k, 1), last));
    RunFirst(k, 1, Unbounded, rest, t, h, j);
    forall m | h <= m <= j
      ensures AllIn(k, t, h, m) <==> All(f, t, h, m)
      ensures Matches(rest, t, m, j) <==>
              exists n :: At(t, m, s) && m + 4 < n && All(f, t, m + 4, n) && n + 1 < j && t[n] == dot[0] &&
                All(f, t, n + 1, j)
    {
      AllExactly(k, f, t, h, m);
      TextFirst(s, Cat(AtLeast(k, 1), last), t, m, j);
      if m + 4 <= j { LastParts(k, f, dot, t, m + 4, j); }
    }
  }

  lemma LastParts(k: Cls, f: char -> bool, dot: Literal, t: string, h: nat, j: nat)
    requires h <= j <= |t| && |dot| == 1 && forall c :: In(c, k) <==> f(c)
    ensures Matches(Cat(AtLeast(k, 1), Cat(Text(dot), AtLeast(k, 1))), t, h, j) <==>
            exists n :: h < n && All(f, t, h, n) && n + 1 < j && t[n] == dot[0] && All(f, t, n + 1, j)
  {
    RunFirst(k, 1, Unbounded, Cat(Text(dot), AtLeast(k, 1)), t, h, j);
    forall n | h <= n <= j
      ensures AllIn(k, t, h, n) <==> All(f, t, h, n)
      ensures Matches(Cat(Text(dot), AtLeast(k, 1)), t, n, j) <==> n + 1 < j && t[n] == dot[0] && All(f, t, n + 1, j)
    {
      AllExactly(k, f, t, h, n);
      WordThenRun(dot, k, f, 1, Unbounded, t, n, j);
      if n + 1 <= j { OneChar(dot, t, n); }
    }
  }

  lemma OneChar(s: string, t: string, n: nat)
    requires |s| == 1 && n < |t|
    ensures At(t, n, s) <==> t[n] == s[0]
  {
    assert t[n..n + 1] == [t[n]] && s == [s[0]];
  }

  ghost predicate SlackToken(t: string, i: nat, j: nat)
    requires j <= |t|
  {
    At(t, i, "xox") && i + 15 <= j && t[i + 3] in {'a', 'b', 'p', 'r', 's'} && t[i + 4] == '-' &&
      All(AlnumDash, t, i + 5, j)
  }

  lemma SlackExactly(t: string, i: nat, j: nat)
    requires i <= j <= |t|
    ensures Matches(SlackBody, t, i, j) <==> SlackToken(t, i, j)
  {
    TextFirst("xox", SlackBody.second, t, i, j);
    if i + 3 <= j {
      CharFirst(SlackKind, SlackBody.second.second, t, i + 3, j);
      if i + 4 <= j {
        WordThenRun("-", AlphaNumDash, AlnumDash, 10, Unbounded, t, i + 4, j);
        if i + 5 <= j { OneChar("-", t, i + 4); }
      }
    }
  }

  ghost predicate GoogleKey(t: string, i: nat, j: nat)
    requires j <= |t|
  {
    At(t, i, "AIza") && j == i + 39 && All(AlnumScoreDash, t, i + 4, j)
  }

  lemma GoogleExactly(t: string, i: nat, j: nat)
    requires i <= j <= |t|
    ensures Matches(GoogleBody, t, i, j) <==> GoogleKey(t, i, j)
  {
    WordThenRun("AIza", AlphaNumUnderDash, AlnumScoreDash, 35, Upto(35), t, i, j);
  }

  ghost predicate StripeKey(t: string, i: nat, j: nat)
    requires j <= |t|
  {
    (At(t, i, "sk") || At(t, i, "rk")) && At(t, i + 2, "_live_") && i + 32 <= j && All(Alnum, t, i + 8, j)
  }

  lemma StripeExactly(t: string, i: nat, j: nat)
    requires i <= j <= |t|
    ensures Matches(StripeBody, t, i, j) <==> StripeKey(t, i, j)
  {
    var rest := Cat(Text("_live_"), AtLeast(AlphaNum, 24));
    EitherFirst(Text("sk"), Text("rk"), rest, t, i, j);
    TextFirst("sk", rest, t, i, j);
    TextFirst("rk", rest, t, i, j);
    if i + 2 <= j { WordThenRun("_live_", AlphaNum, Alnum, 24, Unbounded, t, i + 2, j); }
  }

  ghost predicate GitlabToken(t: string, i: nat, j: nat)
    requires j <= |t|
  {
    At(t, i, "glpat-") && j == i + 26 && All(AlnumScoreDash, t, i + 6, j)
  }

  lemma GitlabExactly(t: string, i: nat, j: nat)
    requires i <= j <= |t|
    ensures Matches(GitlabBody, t, i, j) <==> GitlabToken(t, i, j)
  {
    WordThenRun("glpat-", AlphaNumUnderDash, AlnumScoreDash, 20, Upto(20), t, i, j);
  }

  ghost predicate NpmToken(t: string, i: nat, j: nat)
    requires j <= |t|
  {
    At(t, i, "npm_") && j == i + 40 && All(Alnum, t, i + 4, j)
  }

  lemma NpmExactly(t: string, i: nat, j: nat)
    requires i <= j <= |t|
    ensures Matches(NpmBody, t, i, j) <==> NpmToken(t, i, j)
  {
    WordThenRun("npm_", AlphaNum, Alnum, 36, Upto(36), t, i, j);
  }

  ghost predicate OpenAiKey(t: string, i: nat, j: nat)
    requires j <= |t|
  {
    At(t, i, "sk-") &&
    ((i + 35 <= j && All(Alnum, t, i + 3, j)) || (At(t, i + 3, "proj-") && i + 40 <= j && All(Alnum, t, i + 8, j)))
  }

  lemma OpenAiExactly(t: string, i: nat, j: nat)
    requires i <= j <= |t|
    ensures Matches(OpenAiBody, t, i, j) <==> OpenAiKey(t, i, j)
  {
    TextFirst("sk-", OpenAiBody.second, t, i, j);
    if i + 3 <= j { ProjectFirst("proj-", AlphaNum, Alnum, t, i + 3, j); }
  }

  lemma ProjectFirst(s: Literal, k: Cls, f: char -> bool, t: string, h: nat, j: nat)
    requires h <= j <= |t| && |s| == 5 && forall c :: In(c, k) <==> f(c)
    ensures Matches(Cat(Optional(Text(s)), AtLeast(k, 32)), t, h, j) <==>
            (h + 32 <= j && All(f, t, h, j)) || (At(t, h, s) && h + 37 <= j && All(f, t, h + 5, j))
  {
    OptionalFirst(Text(s), AtLeast(k, 32), t, h, j);
    LastRun(k, f, 32, Unbounded, t, h, j);
    if h + 5 <= j { LastRun(k, f, 32, Unbounded, t, h + 5, j); }
    forall m | h < m <= j && Matches(Text(s), t, h, m) ensures m == h + 5 && At(t, h, s) { assert |t[h..m]| == m - h; }
    if h + 5 <= j && At(t, h, s) { assert Matches(Text(s), t, h, h + 5); }
  }

  // ---------- Labels ----------

  /** A word, in any case, that ends a pattern. */
  lemma LastWord(w: LowerLiteral, t: string, i: nat, j: nat)
    requires i <= j <= |t|
    ensures Matches(AnyCase(w), t, i, j) <==> AtAnyCase(t, i, w) && j == i + |w|
  {
    assert |t[i..j]| == j - i;
  }

  lemma WordThenWord(v: LowerLiteral, w: LowerLiteral, t: string, i: nat, j: nat)
    requires i <= j <= |t|
    ensures Matches(Cat(AnyCase(v), AnyCase(w)), t, i, j) <==>
            AtAnyCase(t, i, v) && AtAnyCase(t, i + |v|, w) && j == i + |v| + |w|
  {
    WordFirst(v, AnyCase(w), t, i, j);
    if i + |v| <= j { LastWord(w, t, i + |v|, j); }
  }

  /** Two words, the second after white space. */
  ghost predicate TwoWords(t: string, i: int, v: string, w: string, j: int) {
    AtAnyCase(t, i, v) &&
    exists k :: i + |v| < k && All(Blank, t, i + |v|, k) && AtAnyCase(t, k, w) && j == k + |w|
  }

  lemma BlanksFirst(lo: nat, b: Re, t: string, i: nat, j: nat)
    requires i <= j <= |t|
    ensures Matches(Cat(AtLeast(Space, lo), b), t, i, j) <==>
            exists k :: i + lo <= k <= j && All(Blank, t, i, k) && Matches(b, t, k, j)
  {
    RunFirst(Space, lo, Unbounded, b, t, i, j);
    forall k | i <= k <= j ensures AllIn(Space, t, i, k) <==> All(Blank, t, i, k) { AllExactly(Space, Blank, t, i, k); }
  }

  lemma TwoWordsExactly(v: LowerLiteral, w: LowerLiteral, t: string, i: nat, j: nat)
    requires i <= j <= |t|
    ensures Matches(Cat(AnyCase(v), Cat(Spaces1, AnyCase(w))), t, i, j) <==> TwoWords(t, i, v, w, j)
  {
    WordFirst(v, Cat(Spaces1, AnyCase(w)), t, i, j);
    if i + |v| <= j {
      BlanksFirst(1, AnyCase(w), t, i + |v|, j);
      forall k | i + |v| <= k <= j ensures Matches(AnyCase(w), t, k, j) <==> AtAnyCase(t, k, w) && j == k + |w| {
        LastWord(w, t, k, j);
      }
    }
  }

  /** `mrn`, `medical record`, `medical record number` or `patient id`. */
  ghost predicate RecordLabel(t: string, i: int, j: int) {
    (AtAnyCase(t, i, "mrn") && j == i + 3) || TwoWords(t, i, "medical", "record", j) ||
    TwoWords(t, i, "patient", "id", j) ||
    exists k, l :: TwoWords(t, i, "medical", "record", k) && k < l && All(Blank, t, k, l) &&
      AtAnyCase(t, l, "number") && j == l + 6
  }

  lemma RecordLabelExactly(t: string, i: nat, j: nat)
    requires i <= j <= |t|
    ensures Matches(MrnLabel, t, i, j) <==> RecordLabel(t, i, j)
  {
    LastWord("mrn", t, i, j);
    TwoWordsExactly("patient", "id", t, i, j);
    NumberedExactly("medical", "record", "number", t, i, j);
  }

  lemma NumberedExactly(u: LowerLiteral, v: LowerLiteral, w: LowerLiteral, t: string, i: nat, j: nat)
    requires i <= j <= |t|
    ensures Matches(Cat(AnyCase(u), Cat(Spaces1, Cat(AnyCase(v), Optional(Cat(Spaces1, AnyCase(w)))))), t, i, j) <==>
            TwoWords(t, i, u, v, j) ||
            exists k, l :: TwoWords(t, i, u, v, k) && k < l && All(Blank, t, k, l) && AtAnyCase(t, l, w) && j == l + |w|
  {
    var last := Optional(Cat(Spaces1, AnyCase(w)));
    var rest := Cat(AnyCase(v), last);
    WordFirst(u, Cat(Spaces1, rest), t, i, j);
    if i + |u| <= j {
      BlanksFirst(1, rest, t, i + |u|, j);
      forall k | i + |u| <= k <= j
        ensures Matches(rest, t, k, j) <==>
                AtAnyCase(t, k, v) &&
                (j == k + |v| ||
                 exists l :: k + |v| < l && All(Blank, t, k + |v|, l) && AtAnyCase(t, l, w) && j == l + |w|)
      {
        WordFirst(v, last, t, k, j);
        if k + |v| <= j { MaybeNumber(w, t, k + |v|, j); }
      }
    }
  }

  lemma MaybeNumber(w: LowerLiteral, t: string, i: nat, j: nat)
    requires i <= j <= |t|
    ensures Matches(Optional(Cat(Spaces1, AnyCase(w))), t, i, j) <==>
            j == i || exists l :: i < l && All(Blank, t, i, l) && AtAnyCase(t, l, w) && j == l + |w|
  {
    OptionalExactly(Cat(Spaces1, AnyCase(w)), t, i, j);
    BlanksFirst(1, AnyCase(w), t, i, j);
    forall k | i <= k <= j ensures Matches(AnyCase(w), t, k, j) <==> AtAnyCase(t, k, w) && j == k + |w| {
      LastWord(w, t, k, j);
    }
  }

  /** White space, a colon or an equals sign at `a`. */
  ghost predicate ColonAt(t: string, i: int, a: int) {
    0 <= a < |t| && All(Blank, t, i, a) && t[a] in {':', '='}
  }

  /** After white space, 5 to 12 digits up to `j`. */
  ghost predicate DigitsUpTo(t: string, i: int, j: int) {
    exists b :: All(Blank, t, i, b) && b + 5 <= j <= b + 12 && All(Numeral, t, b, j)
  }

  /** A colon, then the digits. */
  ghost predicate NumberAfter(t: string, i: int, j: int) {
    exists a :: ColonAt(t, i, a) && DigitsUpTo(t, a + 1, j)
  }

  lemma ColonFirst(b: Re, t: string, i: nat, j: nat)
    requires i <= j <= |t|
    ensures Matches(Cat(Spaces, Cat(One(Colon), b)), t, i, j) <==>
            exists a :: a < j && ColonAt(t, i, a) && Matches(b, t, a + 1, j)
  {
    BlanksFirst(0, Cat(One(Colon), b), t, i, j);
    forall a | i <= a <= j
      ensures Matches(Cat(One(Colon), b), t, a, j) <==> a < j && t[a] in {':', '='} && Matches(b, t, a + 1, j)
    {
      CharFirst(Colon, b, t, a, j);
    }
    if a :| a < j && ColonAt(t, i, a) && Matches(b, t, a + 1, j) {
      assert All(Blank, t, i, a) && Matches(Cat(One(Colon), b), t, a, j);
    }
    if a :| i <= a <= j && All(Blank, t, i, a) && Matches(Cat(One(Colon), b), t, a, j) {
      assert ColonAt(t, i, a);
    }
  }

  lemma NumberExactly(t: string, i: nat, j: nat)
    requires i <= j <= |t|
    ensures Matches(MrnBody.second, t, i, j) <==> NumberAfter(t, i, j)
  {
    var rest := Cat(Spaces, Rep(One(Digit), 5, Upto(12)));
    forall a: int {:trigger DigitsUpTo(t, a + 1, j)} | i <= a < j
      ensures Matches(rest, t, a + 1, j) <==> DigitsUpTo(t, a + 1, j)
    {
      DigitsAfterBlanks(t, a + 1, j);
    }
    ColonThenDigits(rest, t, i, j);
  }

  lemma ColonThenDigits(rest: Re, t: string, i: nat, j: nat)
    requires i <= j <= |t|
    requires forall a: int {:trigger DigitsUpTo(t, a + 1, j)} :: i <= a < j ==>
               (Matches(rest, t, a + 1, j) <==> DigitsUpTo(t, a + 1, j))
    ensures Matches(Cat(Spaces, Cat(One(Colon), rest)), t, i, j) <==> NumberAfter(t, i, j)
  {
    ColonFirst(rest, t, i, j);
    if a :| a < j && ColonAt(t, i, a) && Matches(rest, t, a + 1, j) { assert DigitsUpTo(t, a + 1, j); }
    if a :| ColonAt(t, i, a) && DigitsUpTo(t, a + 1, j) { assert i <= a < j; }
  }

  lemma DigitsAfterBlanks(t: string, i: nat, j: nat)
    requires i <= j <= |t|
    ensures Matches(Cat(Spaces, Rep(One(Digit), 5, Upto(12))), t, i, j) <==>
            DigitsUpTo(t, i, j)
  {
    var run := Rep(One(Digit), 5, Upto(12));
    BlanksFirst(0, run, t, i, j);
    forall b | i <= b <= j ensures Matches(run, t, b, j) <==> b + 5 <= j <= b + 12 && All(Numeral, t, b, j) {
      LastRun(Digit, Numeral, 5, Upto(12), t, b, j);
    }
  }

  ghost predicate RecordNumber(t: string, i: int, j: int) {
    exists m :: RecordLabel(t, i, m) && NumberAfter(t, m, j)
  }

  lemma RecordNumberExactly(t: string, i: nat, j: nat)
    requires i <= j <= |t|
    ensures Matches(MrnBody, t, i, j) <==> RecordNumber(t, i, j)
  {
    forall m | i <= m <= j ensures Matches(MrnLabel, t, i, m) <==> RecordLabel(t, i, m) { RecordLabelExactly(t, i, m); }
    forall m | i <= m <= j ensures Matches(MrnBody.second, t, m, j) <==> NumberAfter(t, m, j) {
      NumberExactly(t, m, j);
    }
    LabelThenNumber(MrnLabel, MrnBody.second, t, i, j);
  }

  lemma LabelThenNumber(label0: Re, rest: Re, t: string, i: nat, j: nat)
    requires i <= j <= |t|
    requires forall m :: i <= m <= j ==> (Matches(label0, t, i, m) <==> RecordLabel(t, i, m))
    requires forall m :: i <= m <= j ==> (Matches(rest, t, m, j) <==> NumberAfter(t, m, j))
    ensures Matches(Cat(label0, rest), t, i, j) <==> RecordNumber(t, i, j)
  {
    if Matches(Cat(label0, rest), t, i, j) { var m := SplitCat(label0, rest, t, i, j); }
    if m :| RecordLabel(t, i, m) && NumberAfter(t, m, j) { MakeCat(label0, rest, t, i, m, j); }
  }

  /** The label of a field that holds personal data. */
  ghost predicate FieldName(t: string, i: int, j: int) {
    (AtAnyCase(t, i, "patient_") &&
      ((AtAnyCase(t, i + 8, "id") && j == i + 10) || (AtAnyCase(t, i + 8, "name") && j == i + 12) ||
       (AtAnyCase(t, i + 8, "email") && j == i + 13))) ||
    (AtAnyCase(t, i, "date_") && AtAnyCase(t, i + 5, "of_birth") && j == i + 13) ||
    (AtAnyCase(t, i, "dob") && j == i + 3) || (AtAnyCase(t, i, "ssn") && j == i + 3) ||
    (AtAnyCase(t, i, "social_security") && (j == i + 15 || (AtAnyCase(t, i + 15, "_number") && j == i + 22)))
  }

  lemma FieldNameExactly(t: string, i: nat, j: nat)
    requires i <= j <= |t|
    ensures Matches(PhiLabel, t, i, j) <==> FieldName(t, i, j)
  {
    PatientFieldExactly("patient_", "id", "name", "email", t, i, j);
    WordThenWord("date_", "of_birth", t, i, j);
    LastWord("dob", t, i, j);
    LastWord("ssn", t, i, j);
    MaybeWordExactly("social_security", "_number", t, i, j);
  }

  lemma PatientFieldExactly(u: LowerLiteral, a: LowerLiteral, b: LowerLiteral, c: LowerLiteral, t: string, i: nat,
                            j: nat)
    requires i <= j <= |t|
    ensures Matches(Cat(AnyCase(u), Alt(AnyCase(a), Alt(AnyCase(b), AnyCase(c)))), t, i, j) <==>
            AtAnyCase(t, i, u) && ((AtAnyCase(t, i + |u|, a) && j == i + |u| + |a|) ||
              (AtAnyCase(t, i + |u|, b) && j == i + |u| + |b|) || (AtAnyCase(t, i + |u|, c) && j == i + |u| + |c|))
  {
    WordFirst(u, Alt(AnyCase(a), Alt(AnyCase(b), AnyCase(c))), t, i, j);
    if i + |u| <= j {
      LastWord(a, t, i + |u|, j);
      LastWord(b, t, i + |u|, j);
      LastWord(c, t, i + |u|, j);
    }
  }

  lemma MaybeWordExactly(v: LowerLiteral, w: LowerLiteral, t: string, i: nat, j: nat)
    requires i <= j <= |t| && |w| > 0
    ensures Matches(Cat(AnyCase(v), Optional(AnyCase(w))), t, i, j) <==>
            AtAnyCase(t, i, v) && (j == i + |v| || (AtAnyCase(t, i + |v|, w) && j == i + |v| + |w|))
  {
    WordFirst(v, Optional(AnyCase(w)), t, i, j);
    if i + |v| <= j {
      OptionalExactly(AnyCase(w), t, i + |v|, j);
      LastWord(w, t, i + |v|, j);
    }
  }

  ghost predicate NamedField(t: string, i: int, j: int) {
    Edge(t, i) && exists m :: FieldName(t, i, m) && ColonAt(t, m, j - 1)
  }

  lemma NamedFieldExactly(t: string, i: nat, j: nat)
    requires i <= j <= |t|
    ensures Matches(PhiField, t, i, j) <==> NamedField(t, i, j)
  {
    LookFirst(WordBoundary, Cat(PhiLabel, Cat(Spaces, One(Colon))), t, i, j);
    EdgeExactly(t, i);
    forall m | i <= m <= j
      ensures Matches(PhiLabel, t, i, m) <==> FieldName(t, i, m)
      ensures Matches(Cat(Spaces, One(Colon)), t, m, j) <==> ColonAt(t, m, j - 1)
    {
      FieldNameExactly(t, i, m);
      ColonExactly(t, m, j);
    }
    if Matches(Cat(PhiLabel, Cat(Spaces, One(Colon))), t, i, j) {
      var m := SplitCat(PhiLabel, Cat(Spaces, One(Colon)), t, i, j);
    }
    if NamedField(t, i, j) {
      var m :| FieldName(t, i, m) && ColonAt(t, m, j - 1);
      MakeCat(PhiLabel, Cat(Spaces, One(Colon)), t, i, m, j);
    }
  }

  lemma ColonExactly(t: string, i: nat, j: nat)
    requires i <= j <= |t|
    ensures Matches(Cat(Spaces, One(Colon)), t, i, j) <==> ColonAt(t, i, j - 1)
  {
    BlanksFirst(0, One(Colon), t, i, j);
  }

  // ---------- Card numbers ----------

  /** An ID-class word. */
  ghost predicate IdName(t: string, i: int, j: int) {
    (AtAnyCase(t, i, "order_id") && j == i + 8) || (AtAnyCase(t, i, "order") && j == i + 5) ||
    (AtAnyCase(t, i, "ref") && j == i + 3) || (AtAnyCase(t, i, "ref_id") && j == i + 6) ||
    (AtAnyCase(t, i, "transaction_id") && j == i + 14) || (AtAnyCase(t, i, "txn_id") && j == i + 6) ||
    (AtAnyCase(t, i, "id") && j == i + 2) || (AtAnyCase(t, i, "user_id") && j == i + 7) ||
    (AtAnyCase(t, i, "account_id") && j == i + 10) || (AtAnyCase(t, i, "invoice_id") && j == i + 10) ||
    (AtAnyCase(t, i, "receipt") && j == i + 7)
  }

  lemma LongerIdNames(t: string, i: nat, j: nat)
    requires i <= j <= |t|
    ensures Matches(IdWord.right.right.right.right.right, t, i, j) <==>
            (AtAnyCase(t, i, "txn_id") && j == i + 6) || (AtAnyCase(t, i, "id") && j == i + 2) ||
            (AtAnyCase(t, i, "user_id") && j == i + 7) || (AtAnyCase(t, i, "account_id") && j == i + 10) ||
            (AtAnyCase(t, i, "invoice_id") && j == i + 10) || (AtAnyCase(t, i, "receipt") && j == i + 7)
  {
    LastWord("txn_id", t, i, j);
    LastWord("id", t, i, j);
    LastWord("user_id", t, i, j);
    LastWord("account_id", t, i, j);
    LastWord("invoice_id", t, i, j);
    LastWord("receipt", t, i, j);
  }

  lemma FiveThen(a: LowerLiteral, b: LowerLiteral, c: LowerLiteral, d: LowerLiteral, e: LowerLiteral, rest: Re,
                 t: string, i: nat, j: nat)
    requires i <= j <= |t|
    ensures Matches(Alt(AnyCase(a), Alt(AnyCase(b), Alt(AnyCase(c), Alt(AnyCase(d), Alt(AnyCase(e), rest))))), t, i, j)
            <==>
            (AtAnyCase(t, i, a) && j == i + |a|) || (AtAnyCase(t, i, b) && j == i + |b|) ||
            (AtAnyCase(t, i, c) && j == i + |c|) || (AtAnyCase(t, i, d) && j == i + |d|) ||
            (AtAnyCase(t, i, e) && j == i + |e|) || Matches(rest, t, i, j)
  {
    LastWord(a, t, i, j);
    LastWord(b, t, i, j);
    LastWord(c, t, i, j);
    LastWord(d, t, i, j);
    LastWord(e, t, i, j);
    var last := Alt(AnyCase(d), Alt(AnyCase(e), rest));
    assert Matches(last, t, i, j) <==>
           Matches(AnyCase(d), t, i, j) || Matches(AnyCase(e), t, i, j) || Matches(rest, t, i, j);
    assert Matches(Alt(AnyCase(b), Alt(AnyCase(c), last)), t, i, j) <==>
           Matches(AnyCase(b), t, i, j) || Matches(AnyCase(c), t, i, j) || Matches(last, t, i, j);
  }

  lemma IdNameExactly(t: string, i: nat, j: nat)
    requires i <= j <= |t|
    ensures Matches(IdWord, t, i, j) <==> IdName(t, i, j)
  {
    FiveThen("order_id", "order", "ref", "ref_id", "transaction_id", IdWord.right.right.right.right.right, t, i, j);
    LongerIdNames(t, i, j);
  }

  /** An ID-class label, a colon or equals sign, and nothing but white space after it. */
  ghost predicate EndsInIdLabel(w: string, q: int) {
    Edge(w, q) && exists m, a :: IdName(w, q, m) && ColonAt(w, m, a) && All(Blank, w, a + 1, |w|)
  }

  /** Such a label stands directly before `start`, within 30 characters. */
  ghost predicate Labelled(t: string, start: nat)
    requires start <= |t|
  {
    ClosesWithLabel(t[if start <= 30 then 0 else start - 30..start])
  }

  ghost predicate ClosesWithLabel(w: string) {
    exists q :: EndsInIdLabel(w, q)
  }

  /** White space to the end of the text, whether or not the last line break is counted. */
  lemma BlanksToEnd(w: string, i: nat, e: nat)
    requires i <= e <= |w|
    ensures Matches(Cat(Spaces, Look(TextEnd)), w, i, e) ==> All(Blank, w, i, |w|)
    ensures e == |w| && All(Blank, w, i, |w|) ==> Matches(Cat(Spaces, Look(TextEnd)), w, i, e)
  {
    LookLast(Spaces, TextEnd, w, i, e);
    LastRun(Space, Blank, 0, Unbounded, w, i, e);
  }

  lemma LabelTail(w: string, i: nat, e: nat)
    requires i <= e <= |w|
    ensures Matches(Cat(Spaces, Cat(One(Colon), Cat(Spaces, Look(TextEnd)))), w, i, e) ==>
            exists a :: ColonAt(w, i, a) && All(Blank, w, a + 1, |w|)
  {
    forall k | i <= k <= e ensures Matches(Cat(Spaces, Look(TextEnd)), w, k, e) ==> All(Blank, w, k, |w|) {
      BlanksToEnd(w, k, e);
    }
    ColonThenBlanks(Cat(Spaces, Look(TextEnd)), w, i, e);
  }

  lemma ColonThenBlanks(rest: Re, w: string, i: nat, e: nat)
    requires i <= e <= |w| && forall k :: i <= k <= e ==> (Matches(rest, w, k, e) ==> All(Blank, w, k, |w|))
    ensures Matches(Cat(Spaces, Cat(One(Colon), rest)), w, i, e) ==>
            exists a :: ColonAt(w, i, a) && All(Blank, w, a + 1, |w|)
  {
    ColonFirst(rest, w, i, e);
    if a :| a < e && ColonAt(w, i, a) && Matches(rest, w, a + 1, e) { assert All(Blank, w, a + 1, |w|); }
  }

  lemma LabelTailMatches(w: string, i: nat, e: nat)
    requires i <= e == |w| && exists a :: ColonAt(w, i, a) && All(Blank, w, a + 1, |w|)
    ensures Matches(Cat(Spaces, Cat(One(Colon), Cat(Spaces, Look(TextEnd)))), w, i, e)
  {
    var rest := Cat(Spaces, Look(TextEnd));
    ColonFirst(rest, w, i, e);
    var a :| ColonAt(w, i, a) && All(Blank, w, a + 1, |w|);
    BlanksToEnd(w, a + 1, |w|);
  }

  lemma LabelExactly(w: string, q: nat)
    requires q <= |w|
    ensures Ends(IdLabel, w, q) != [] <==> EndsInIdLabel(w, q)
  {
    if Ends(IdLabel, w, q) != [] {
      var e := Ends(IdLabel, w, q)[0];
      assert e in Ends(IdLabel, w, q);
      EndsAreMatches(IdLabel, w, q, e);
      LabelIsThere(w, q, e);
    }
    if EndsInIdLabel(w, q) {
      LabelMatches(w, q);
      EndsAreMatches(IdLabel, w, q, |w|);
    }
  }

  lemma LabelIsThere(w: string, q: nat, e: nat)
    requires q <= e <= |w| && Matches(IdLabel, w, q, e)
    ensures EndsInIdLabel(w, q)
  {
    var rest := Cat(Spaces, Cat(One(Colon), Cat(Spaces, Look(TextEnd))));
    LookFirst(WordBoundary, Cat(IdWord, rest), w, q, e);
    EdgeExactly(w, q);
    var m := SplitCat(IdWord, rest, w, q, e);
    IdNameExactly(w, q, m);
    LabelTail(w, m, e);
  }

  lemma LabelMatches(w: string, q: nat)
    requires q <= |w| && EndsInIdLabel(w, q)
    ensures Matches(IdLabel, w, q, |w|)
  {
    var rest := Cat(Spaces, Cat(One(Colon), Cat(Spaces, Look(TextEnd))));
    var m, a :| IdName(w, q, m) && ColonAt(w, m, a) && All(Blank, w, a + 1, |w|);
    IdNameExactly(w, q, m);
    LabelTailMatches(w, m, |w|);
    MakeCat(IdWord, rest, w, q, m, |w|);
    EdgeExactly(w, q);
    LookFirst(WordBoundary, Cat(IdWord, rest), w, q, |w|);
  }

  lemma LabelledExactly(t: string, start: nat)
    requires start <= |t|
    ensures IdPreceded(t, start) <==> Labelled(t, start)
  {
    var w := t[if start <= 30 then 0 else start - 30..start];
    forall q | 0 <= q <= |w| ensures Ends(IdLabel, w, q) != [] <==> EndsInIdLabel(w, q) { LabelExactly(w, q); }
    if q :| EndsInIdLabel(w, q) { assert 0 <= q <= |w| && Ends(IdLabel, w, q) != []; }
    assert Search(IdLabel, w) <==> ClosesWithLabel(w);
  }

  /** 13 to 19 digits between edges that pass the checksum and have no ID-class label before them. */
  ghost predicate CardNumber(t: string, i: nat, j: nat)
    requires i <= j <= |t|
  {
    Edge(t, i) && Edge(t, j) && 13 <= j - i <= 19 && All(Numeral, t, i, j) && LuhnValid(t[i..j]) && !Labelled(t, i)
  }

  lemma CandidateExactly(t: string, i: nat, j: nat)
    requires i <= j <= |t|
    ensures Matches(PanCandidate, t, i, j) <==> Edge(t, i) && Edge(t, j) && 13 <= j - i <= 19 && All(Numeral, t, i, j)
  {
    BoundedExactly(Rep(One(Digit), 13, Upto(19)), t, i, j);
    LastRun(Digit, Numeral, 13, Upto(19), t, i, j);
    EdgeExactly(t, i);
    EdgeExactly(t, j);
  }

  /** The spans that count as card numbers are the card numbers. */
  lemma PansExactly(t: string)
    ensures Pans(t) == [] <==> forall i, j :: 0 <= i <= j <= |t| ==> !CardNumber(t, i, j)
  {
    if i, j :| 0 <= i <= j <= |t| && CardNumber(t, i, j) { CardIsPan(t, i, j); }
    if Pans(t) != [] {
      var c := Pans(t)[0];
      PanIsCard(t, c);
    }
  }

  lemma CardIsPan(t: string, i: nat, j: nat)
    requires i <= j <= |t| && CardNumber(t, i, j)
    ensures (i, j) in Pans(t)
  {
    CandidateExactly(t, i, j);
    CandidateIsVisited(t, i, j);
    CandidateIsDigits(t, i, j);
    LabelledExactly(t, i);
    PansOrdered(t);
  }

  lemma PanIsCard(t: string, c: (nat, nat))
    requires c in Pans(t)
    ensures c.0 <= c.1 <= |t| && CardNumber(t, c.0, c.1)
  {
    PanIsCandidate(t, c);
    CandidateExactly(t, c.0, c.1);
    PansOrdered(t);
    LabelledExactly(t, c.0);
  }

  // ---------- The detector ----------

  /** A token between edges, of one of the ten bounded kinds. */
  ghost predicate Token(t: string, i: nat, j: nat)
    requires i <= j <= |t|
  {
    Edge(t, i) && Edge(t, j) &&
    (AwsKey(t, i, j) || GithubToken(t, i, j) || FineToken(t, i, j) || WebToken(t, i, j) || SlackToken(t, i, j) ||
     GoogleKey(t, i, j) || StripeKey(t, i, j) || GitlabToken(t, i, j) || NpmToken(t, i, j) || OpenAiKey(t, i, j))
  }

  ghost predicate Personal(t: string, i: nat, j: nat)
    requires i <= j <= |t|
  {
    (Edge(t, i) && Edge(t, j) && RecordNumber(t, i, j)) || NamedField(t, i, j)
  }

  /** Something the catalog knows stands at `t[i..j]`. */
  ghost predicate Sensitive(t: string, i: nat, j: nat)
    requires i <= j <= |t|
  {
    Token(t, i, j) || StorageKey(t, i, j) || PrivateKeyHead(t, i, j) || Personal(t, i, j) || CardNumber(t, i, j)
  }

  const TokenBodies: seq<Re> :=
    [AwsBody, GithubBody, GithubFineBody, JwtBody, SlackBody, GoogleBody, StripeBody, GitlabBody, NpmBody, OpenAiBody]

  lemma SecretMembers()
    ensures forall body :: body in TokenBodies ==> Bounded(body) in SecretPatterns
    ensures AzureKey in SecretPatterns && Pem in SecretPatterns
    ensures forall q :: q in SecretPatterns ==>
              q == AzureKey || q == Pem || exists body :: body in TokenBodies && q == Bounded(body)
  {
    EachIsPattern(AwsBody, GithubBody, GithubFineBody, AzureKey, Pem, JwtBody, SlackBody, GoogleBody, StripeBody,
                  GitlabBody, NpmBody, OpenAiBody);
    forall q | q in SecretPatterns
      ensures q == AzureKey || q == Pem || exists body :: body in TokenBodies && q == Bounded(body)
    {
      EachIsBounded(AwsBody, GithubBody, GithubFineBody, AzureKey, Pem, JwtBody, SlackBody, GoogleBody, StripeBody,
                    GitlabBody, NpmBody, OpenAiBody, q);
    }
  }

  lemma EachIsPattern(a: Re, b: Re, c: Re, key: Re, pem: Re, d: Re, e: Re, f: Re, g: Re, h: Re, m: Re, n: Re)
    ensures var patterns := [Bounded(a), Bounded(b), Bounded(c), key, pem, Bounded(d), Bounded(e), Bounded(f),
                             Bounded(g), Bounded(h), Bounded(m), Bounded(n)];
            key in patterns && pem in patterns &&
            forall body :: body in [a, b, c, d, e, f, g, h, m, n] ==> Bounded(body) in patterns
  {
  }

  lemma EachIsBounded(a: Re, b: Re, c: Re, key: Re, pem: Re, d: Re, e: Re, f: Re, g: Re, h: Re, m: Re, n: Re, q: Re)
    requires q in [Bounded(a), Bounded(b), Bounded(c), key, pem, Bounded(d), Bounded(e), Bounded(f), Bounded(g),
                   Bounded(h), Bounded(m), Bounded(n)]
    ensures q == key || q == pem || exists body :: body in [a, b, c, d, e, f, g, h, m, n] && q == Bounded(body)
  {
    var bodies := [a, b, c, d, e, f, g, h, m, n];
    assert a in bodies && b in bodies && c in bodies && d in bodies && e in bodies;
    assert f in bodies && g in bodies && h in bodies && m in bodies && n in bodies;
  }

  ghost predicate SomeBody(t: string, i: nat, j: nat)
    requires i <= j <= |t|
  {
    exists body :: body in TokenBodies && Matches(body, t, i, j)
  }

  lemma AnyOfTen(good: Re -> bool, a: Re, b: Re, c: Re, d: Re, e: Re, f: Re, g: Re, h: Re, m: Re, n: Re)
    ensures (exists body :: body in [a, b, c, d, e, f, g, h, m, n] && good(body)) <==>
            good(a) || good(b) || good(c) || good(d) || good(e) || good(f) || good(g) || good(h) || good(m) || good(n)
  {
    var bodies := [a, b, c, d, e, f, g, h, m, n];
    assert a in bodies && b in bodies && c in bodies && d in bodies && e in bodies;
    assert f in bodies && g in bodies && h in bodies && m in bodies && n in bodies;
  }

  lemma BodiesByName(t: string, i: nat, j: nat)
    requires i <= j <= |t|
    ensures SomeBody(t, i, j) <==>
            Matches(AwsBody, t, i, j) || Matches(GithubBody, t, i, j) || Matches(GithubFineBody, t, i, j) ||
            Matches(JwtBody, t, i, j) || Matches(SlackBody, t, i, j) || Matches(GoogleBody, t, i, j) ||
            Matches(StripeBody, t, i, j) || Matches(GitlabBody, t, i, j) || Matches(NpmBody, t, i, j) ||
            Matches(OpenAiBody, t, i, j)
  {
    ghost var good: Re -> bool := body => i <= j <= |t| && Matches(body, t, i, j);
    AnyOfTen(good, AwsBody, GithubBody, GithubFineBody, JwtBody, SlackBody, GoogleBody, StripeBody, GitlabBody, NpmBody,
             OpenAiBody);
    assert SomeBody(t, i, j) <==> exists body :: body in TokenBodies && good(body);
  }

  lemma BodyKinds(t: string, i: nat, j: nat)
    requires i <= j <= |t|
    ensures SomeBody(t, i, j) <==>
            AwsKey(t, i, j) || GithubToken(t, i, j) || FineToken(t, i, j) || WebToken(t, i, j) || SlackToken(t, i, j) ||
            GoogleKey(t, i, j) || StripeKey(t, i, j) || GitlabToken(t, i, j) || NpmToken(t, i, j) || OpenAiKey(t, i, j)
  {
    BodiesByName(t, i, j);
    AwsExactly(t, i, j);
    GithubExactly(t, i, j);
    FineExactly(t, i, j);
    JwtExactly(t, i, j);
    SlackExactly(t, i, j);
    GoogleExactly(t, i, j);
    StripeExactly(t, i, j);
    GitlabExactly(t, i, j);
    NpmExactly(t, i, j);
    OpenAiExactly(t, i, j);
  }

  ghost predicate SecretAt(t: string, i: nat, j: nat)
    requires i <= j <= |t|
  {
    Token(t, i, j) || StorageKey(t, i, j) || PrivateKeyHead(t, i, j)
  }

  lemma SomeBounded(bodies: seq<Re>, t: string, i: nat, j: nat)
    requires i <= j <= |t|
    ensures (exists body :: body in bodies && Matches(Bounded(body), t, i, j)) <==>
            Edge(t, i) && Edge(t, j) && exists body :: body in bodies && Matches(body, t, i, j)
  {
    EdgeExactly(t, i);
    EdgeExactly(t, j);
    forall body ensures Matches(Bounded(body), t, i, j) <==> Edge(t, i) && Edge(t, j) && Matches(body, t, i, j) {
      BoundedExactly(body, t, i, j);
    }
  }

  lemma SecretsExactly(t: string, i: nat, j: nat)
    requires i <= j <= |t|
    ensures (exists q :: q in SecretPatterns && Matches(q, t, i, j)) <==> SecretAt(t, i, j)
  {
    SecretMembers();
    SomeBounded(TokenBodies, t, i, j);
    BodyKinds(t, i, j);
    StorageExactly(t, i, j);
    PemExactly(t, i, j);
    ByMembers(SecretPatterns, TokenBodies, AzureKey, Pem, t, i, j);
    assert Token(t, i, j) <==> Edge(t, i) && Edge(t, j) && SomeBody(t, i, j);
  }

  lemma ByMembers(patterns: seq<Re>, bodies: seq<Re>, key: Re, pem: Re, t: string, i: nat, j: nat)
    requires i <= j <= |t| && key in patterns && pem in patterns
    requires forall body :: body in bodies ==> Bounded(body) in patterns
    requires forall q :: q in patterns ==> q == key || q == pem || exists body :: body in bodies && q == Bounded(body)
    ensures (exists q :: q in patterns && Matches(q, t, i, j)) <==>
            Matches(key, t, i, j) || Matches(pem, t, i, j) ||
            exists body :: body in bodies && Matches(Bounded(body), t, i, j)
  {
  }

  lemma PersonalExactly(t: string, i: nat, j: nat)
    requires i <= j <= |t|
    ensures Matches(Mrn, t, i, j) || Matches(PhiField, t, i, j) <==> Personal(t, i, j)
  {
    BoundedExactly(MrnBody, t, i, j);
    EdgeExactly(t, i);
    EdgeExactly(t, j);
    RecordNumberExactly(t, i, j);
    NamedFieldExactly(t, i, j);
  }

  /** A match of a pattern of the catalog is a hit. */
  lemma CatalogMatchIsHit(t: string, q: Re, i: nat, j: nat)
    requires q in SecretPatterns || q == Mrn || q == PhiField
    requires i <= j <= |t| && Matches(q, t, i, j)
    ensures DetectSensitive(t) != []
  {
    if q in SecretPatterns {
      SecretIsTame(q);
      var n :| 0 <= n < |SecretPatterns| && SecretPatterns[n] == q;
      MatchIsHit(Secret, SecretPatterns, 0, n, CatalogFacts.MarkChars, t, i, j);
    } else if q == Mrn {
      MrnIsTame();
      MatchIsHit(Phi, PhiPatterns, 0, 0, CatalogFacts.MarkChars, t, i, j);
    } else {
      PhiFieldIsTame();
      MatchIsHit(Phi, PhiPatterns, 0, 1, CatalogFacts.PhiPanChars, t, i, j);
    }
  }

  lemma SecretIsTame(q: Re)
    requires q in SecretPatterns
    ensures Tame(q, CatalogFacts.MarkChars)
  {
    SecretsAreTame();
    AzureIsTame();
  }

  /** Nothing of the catalog stands in the text. */
  ghost predicate Harmless(t: string) {
    forall i, j :: 0 <= i <= j <= |t| ==> !Sensitive(t, i, j)
  }

  /** The detector finds something exactly in the texts in which something of the catalog stands. */
  lemma DetectsExactly(t: string)
    ensures DetectSensitive(t) == [] <==> Harmless(t)
  {
    if DetectSensitive(t) == [] { UndetectedIsHarmless(t); }
    if Harmless(t) { HarmlessIsUndetected(t); }
  }

  lemma UndetectedIsHarmless(t: string)
    requires DetectSensitive(t) == []
    ensures Harmless(t)
  {
    PansExactly(t);
    forall i, j | 0 <= i <= j <= |t| ensures !Sensitive(t, i, j) {
      SecretsExactly(t, i, j);
      PersonalExactly(t, i, j);
      forall q | (q in SecretPatterns || q == Mrn || q == PhiField) && Matches(q, t, i, j) ensures false {
        CatalogMatchIsHit(t, q, i, j);
      }
    }
  }

  lemma HarmlessIsClean(t: string)
    requires Harmless(t)
    ensures forall q :: q in SecretPatterns || q == Mrn || q == PhiField ==> Clean(q, t)
    ensures Pans(t) == []
  {
    forall i, j | 0 <= i <= j <= |t| ensures !CardNumber(t, i, j) { assert !Sensitive(t, i, j); }
    PansExactly(t);
    forall q | q in SecretPatterns || q == Mrn || q == PhiField ensures Clean(q, t) {
      forall i, j | 0 <= i <= j <= |t| ensures !Matches(q, t, i, j) {
        SecretsExactly(t, i, j);
        PersonalExactly(t, i, j);
        assert !Sensitive(t, i, j);
      }
    }
  }

  lemma HarmlessIsUndetected(t: string)
    requires Harmless(t)
    ensures DetectSensitive(t) == []
  {
    HarmlessIsClean(t);
    CleanTextHasNoHits(t);
  }

  /** Nothing of the catalog stands in any redaction. */
  lemma RedactedIsHarmless(x: string)
    ensures Harmless(Redact(x))
  {
    RedactedIsClean(x);
    DetectsExactly(Redact(x));
  }
}

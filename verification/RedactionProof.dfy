/** Redacted text is clean: the detector finds nothing in `Redact(x)`, for every text `x`. */
module RedactionProof {
  import opened Regex
  import opened Splice
  import opened Substitution
  import opened Catalog
  import opened CatalogFacts
  import opened Luhn
  import opened Redaction

  // ---------- One substitution ----------

  /** A pattern that no placeholder can become part of a match of. */
  ghost predicate Tame(q: Re, cs: set<char>) {
    Avoids(q, Brackets) && Escapes(q, cs) && (Assertions(q) == {} || Assertions(q) == {WordBoundary}) &&
    forall c :: c in cs ==> !IsUpper(c)
  }

  ghost predicate MarkIn(s: string, cs: set<char>) {
    Bracketed(s) && forall c :: c in s ==> c in cs
  }

  lemma CleanHasNoHits(r: Re, t: string)
    requires Clean(r, t)
    ensures forall i :: 0 <= i <= |t| ==> !Hit(r, t, i)
  {
    forall i | 0 <= i <= |t| ensures !Hit(r, t, i) {
      if Ends(r, t, i) != [] {
        var e := Ends(r, t, i)[0];
        assert e in Ends(r, t, i);
        EndsAreMatches(r, t, i, e);
      }
    }
  }

  lemma {:induction false} CleanHasNoSpans(r: Re, t: string, i: nat)
    requires i <= |t| && forall k :: 0 <= k <= |t| ==> !Hit(r, t, k)
    ensures FindIter(r, t, i) == []
    decreases |t| - i
  {
    if i < |t| { CleanHasNoSpans(r, t, i + 1); }
  }

  lemma TameMatchIsHit(q: Re, cs: set<char>, t: string, i: nat, j: nat)
    requires i <= j <= |t| && Tame(q, cs) && Matches(q, t, i, j)
    ensures Hit(q, t, i)
  {
    EndsAreMatches(q, t, i, j);
    var e := Ends(q, t, i)[0];
    assert e in Ends(q, t, i);
    EndsAreMatches(q, t, i, e);
    EscapesSound(q, cs, t, i, e);
  }

  /** Replacing the matches of `r` removes every match of `q`, when `r` hits wherever `q` matches. */
  lemma SubRemoves(r: Re, q: Re, s: string, cs: set<char>, t: string)
    requires Tame(q, cs) && MarkIn(s, cs)
    requires Assertions(q) == {} || SafeCuts(t, FindIter(r, t, 0))
    requires forall i, j :: 0 <= i <= j <= |t| && Matches(q, t, i, j) ==> Hit(r, t, i)
    ensures Clean(q, Sub(r, s, t))
  {
    SpansAreHits(r, t, 0);
    var cuts := FindIter(r, t, 0);
    var out := Spliced(t, 0, cuts, s);
    forall a, b | 0 <= a <= b <= |out| ensures !Matches(q, out, a, b) {
      if Matches(q, out, a, b) {
        var p, n := MatchBefore(q, t, cuts, s, cs, a, b);
        OutsideSpans(r, t, 0, p);
      }
    }
  }

  lemma SubKeepsClean(r: Re, q: Re, s: string, cs: set<char>, t: string)
    requires Tame(q, cs) && MarkIn(s, cs) && Clean(q, t)
    requires Assertions(q) == {} || SafeCuts(t, FindIter(r, t, 0))
    ensures Clean(q, Sub(r, s, t))
  {
    SpansAreHits(r, t, 0);
    SpliceKeepsClean(q, t, FindIter(r, t, 0), s, cs);
  }

  lemma TokenCutsAreSafe(r: Re, t: string)
    requires SafeStart(r) && SafeEnd(r)
    ensures SafeCuts(t, FindIter(r, t, 0))
  {
    SpansAreHits(r, t, 0);
    forall c | c in FindIter(r, t, 0) ensures SafeEdge(t, c.0) && SafeEdge(t, c.1) {
      SafeStartSound(r, t, c.0, c.1);
      SafeEndSound(r, t, c.0, c.1);
    }
  }

  // ---------- A list of substitutions ----------

  /** Applying `r` puts placeholders at safe places only, or changes nothing. */
  ghost predicate Settled(r: Re, t: string) {
    (SafeStart(r) && SafeEnd(r)) || (Assertions(r) == {} && Clean(r, t))
  }

  /** One pass over patterns that are all settled leaves each of them clean, and keeps clean
      whatever was clean. */
  lemma {:induction false} SettledPass(rs: seq<Re>, s: string, cs: set<char>, t: string, q: Re)
    requires MarkIn(s, cs) && (forall r :: r in rs ==> Tame(r, cs) && Settled(r, t))
    requires Tame(q, cs) && (q in rs || Clean(q, t))
    ensures Clean(q, SubAll(rs, s, t))
    decreases rs
  {
    if rs != [] {
      var r, t1 := rs[0], Sub(rs[0], s, t);
      assert r in rs && forall x :: x in rs[1..] ==> x in rs;
      SettledStep(r, s, cs, t, q);
      forall x | x in rs[1..] ensures Settled(x, t1) {
        if !(SafeStart(x) && SafeEnd(x)) { SettledStep(r, s, cs, t, x); }
      }
      assert q in rs ==> q == r || q in rs[1..];
      SettledPass(rs[1..], s, cs, t1, q);
    }
  }

  lemma SettledStep(r: Re, s: string, cs: set<char>, t: string, q: Re)
    requires MarkIn(s, cs) && Tame(r, cs) && Settled(r, t) && Tame(q, cs)
    ensures q == r || Clean(q, t) ==> Clean(q, Sub(r, s, t))
  {
    if Clean(r, t) {
      CleanHasNoHits(r, t);
      CleanHasNoSpans(r, t, 0);
      assert Sub(r, s, t) == t[0..] == t;
    } else {
      TokenCutsAreSafe(r, t);
      forall i, j | 0 <= i <= j <= |t| && Matches(r, t, i, j) ensures Hit(r, t, i) { TameMatchIsHit(r, cs, t, i, j); }
      if q == r { SubRemoves(r, r, s, cs, t); }
      if Clean(q, t) { SubKeepsClean(r, q, s, cs, t); }
    }
  }

  /** A pattern without assertions, once removed, stays away whatever is replaced around it. */
  lemma {:induction false} LoosePass(rs: seq<Re>, s: string, cs: set<char>, t: string, q: Re)
    requires MarkIn(s, cs) && Tame(q, cs) && Assertions(q) == {} && (q in rs || Clean(q, t))
    ensures Clean(q, SubAll(rs, s, t))
    decreases rs
  {
    if rs != [] {
      var r, t1 := rs[0], Sub(rs[0], s, t);
      if Clean(q, t) {
        SubKeepsClean(r, q, s, cs, t);
      } else if q == r {
        forall i, j | 0 <= i <= j <= |t| && Matches(r, t, i, j) ensures Hit(r, t, i) { TameMatchIsHit(r, cs, t, i, j); }
        SubRemoves(r, r, s, cs, t);
      }
      assert q in rs ==> q == r || q in rs[1..];
      LoosePass(rs[1..], s, cs, t1, q);
    }
  }

  // ---------- The catalog ----------

  /** A pattern of the catalog that is tame and puts placeholders at safe places only. */
  ghost predicate SafeTame(r: Re) {
    Tame(r, MarkChars) && SafeStart(r) && SafeEnd(r)
  }

  lemma BoundedIsSafeTame(body: Re)
    requires PlainBody(body, MarkChars)
    ensures SafeTame(Bounded(body))
  {
    BoundedIsSafe(body, MarkChars);
  }

  lemma AllOfTwelve(a: Re, b: Re, c: Re, d: Re, e: Re, f: Re, g: Re, h: Re, i: Re, j: Re, k: Re, l: Re)
    requires SafeTame(a) && SafeTame(b) && SafeTame(c) && SafeTame(e) && SafeTame(f) && SafeTame(g)
    requires SafeTame(h) && SafeTame(i) && SafeTame(j) && SafeTame(k) && SafeTame(l)
    ensures forall r :: r in [a, b, c, d, e, f, g, h, i, j, k, l] ==> r == d || SafeTame(r)
  {
  }

  lemma SecretsAreTame()
    ensures forall r :: r in SecretPatterns ==> r == AzureKey || SafeTame(r)
  {
    AwsFacts(); BoundedIsSafeTame(AwsBody);
    GithubFacts(); BoundedIsSafeTame(GithubBody);
    GithubFineFacts(); BoundedIsSafeTame(GithubFineBody);
    PemFacts();
    JwtFacts(); BoundedIsSafeTame(JwtBody);
    SlackFacts(); BoundedIsSafeTame(SlackBody);
    GoogleFacts(); BoundedIsSafeTame(GoogleBody);
    StripeFacts(); BoundedIsSafeTame(StripeBody);
    GitlabFacts(); BoundedIsSafeTame(GitlabBody);
    NpmFacts(); BoundedIsSafeTame(NpmBody);
    OpenAiFacts(); BoundedIsSafeTame(OpenAiBody);
    AllOfTwelve(Bounded(AwsBody), Bounded(GithubBody), Bounded(GithubFineBody), AzureKey, Pem, Bounded(JwtBody),
                Bounded(SlackBody), Bounded(GoogleBody), Bounded(StripeBody), Bounded(GitlabBody), Bounded(NpmBody),
                Bounded(OpenAiBody));
  }

  lemma MarksAreMarks()
    ensures MarkIn(SecretMark, MarkChars) && MarkIn(PhiMark, MarkChars) && MarkIn(PanMark, MarkChars)
    ensures MarkIn(EmailMark, MarkChars) && MarkIn(PhoneMark, MarkChars)
    ensures MarkIn(PhiMark, PhiPanChars) && MarkIn(PanMark, PhiPanChars)
  {
  }

  lemma PlainIsTame(r: Re)
    requires PlainBody(r, MarkChars)
    ensures Tame(r, MarkChars) && Assertions(r) == {}
  {
  }

  lemma PhiTokenIsTame(r: Re)
    requires SafeToken(r, PhiPanChars)
    ensures Tame(r, PhiPanChars) && SafeStart(r)
  {
  }

  lemma AzureIsTame()
    ensures Tame(AzureKey, MarkChars) && Assertions(AzureKey) == {}
  {
    AzureFacts();
    PlainIsTame(AzureKey);
  }

  lemma AzureIsASecret()
    ensures AzureKey in SecretPatterns
  {
    assert SecretPatterns[3] == AzureKey;
  }

  lemma MrnIsTame()
    ensures SafeTame(Mrn)
  {
    MrnFacts();
    BoundedIsSafeTame(MrnBody);
  }

  lemma PhiFieldIsTame()
    ensures Tame(PhiField, PhiPanChars) && SafeStart(PhiField)
  {
    PhiFieldFacts();
    PhiTokenIsTame(PhiField);
  }

  lemma PhiFieldValueHits(t: string, i: nat, j: nat)
    requires i <= j <= |t| && Matches(PhiField, t, i, j)
    ensures Hit(PhiFieldValue, t, i)
  {
    var star := Rep(One(ValueChar), 0, Unbounded);
    assert Repeats(One(Space), 0, Unbounded, t, j, j) && Matches(Spaces, t, j, j);
    assert Matches(Cat(PhiField, Spaces), t, i, j);
    assert Repeats(One(ValueChar), 0, Unbounded, t, j, j) && Matches(star, t, j, j);
    assert Matches(PhiFieldValue, t, i, j);
    EndsAreMatches(PhiFieldValue, t, i, j);
    var e := Ends(PhiFieldValue, t, i)[0];
    assert e in Ends(PhiFieldValue, t, i);
    EndsAreMatches(PhiFieldValue, t, i, e);
    PhiFieldIsTame();
    EscapesSound(PhiFieldValue, PhiPanChars, t, i, e);
  }

  /** The value is taken up to a character that is not a word character. */
  lemma PhiValueCutsAreSafe(t: string)
    ensures SafeCuts(t, FindIter(PhiFieldValue, t, 0))
  {
    SpansAreHits(PhiFieldValue, t, 0);
    PhiFieldIsTame();
    forall c | c in FindIter(PhiFieldValue, t, 0) ensures SafeEdge(t, c.0) && SafeEdge(t, c.1) {
      SafeStartSound(PhiFieldValue, t, c.0, c.1);
      TrailingStarIsMaximal(Cat(PhiField, Spaces), ValueChar, t, c.0);
    }
  }
}

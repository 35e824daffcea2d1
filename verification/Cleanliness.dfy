/** The redact-and-pass theorem: the detector finds nothing in redacted text. */
module Cleanliness {
  import opened Regex
  import opened Splice
  import opened Substitution
  import opened Catalog
  import opened CatalogFacts
  import opened KeyStep
  import opened Luhn
  import opened Redaction
  import opened RedactionProof
  import opened PanProof

  /** A candidate outside the replaced runs is no card number, before and after. */
  lemma KeptIsNoPan(t: string, cuts: seq<(nat, nat)>, out: string, a: nat, b: nat, p: nat, n: nat)
    requires Found(t, 0, cuts, out, a, b, p, n) && !IsPan(t, (p, p + (b - a))) && Digits(t[p..p + (b - a)])
    requires forall c :: c in cuts ==> c.0 < c.1 <= |t| && IsDigit(t[c.1 - 1])
    ensures !IsPan(out, (a, b))
  {
    assert out[a..b] == t[p..p + (b - a)];
    if IdPreceded(t, p) { PrecededCarries(t, cuts, out, a, b, p, n); }
  }

  lemma VisitedOutsidePans(t: string, p: nat, q: nat)
    requires p <= q <= |t| && Matches(PanCandidate, t, p, q) && !Inside(Pans(t), p)
    ensures !IsPan(t, (p, q)) && Digits(t[p..q])
  {
    CandidateIsVisited(t, p, q);
    CandidateIsDigits(t, p, q);
    PansOrdered(t);
    var c := (p, q);
    if IsPan(t, c) { assert c.0 <= p < c.1; }
  }

  lemma SafeTameIsBlind(q: Re, t: string, cuts: seq<(nat, nat)>, s: string)
    requires SafeTame(q) && MarkIn(s, MarkChars) && SafeCuts(t, cuts)
    ensures Blind(q, t, cuts, s, MarkChars)
  {
  }

  lemma PlaceOfCandidate(t: string, a: nat, b: nat) returns (p: nat, n: nat)
    requires a <= b <= |RedactPan(t)| && Matches(PanCandidate, RedactPan(t), a, b)
    ensures Found(t, 0, Pans(t), RedactPan(t), a, b, p, n)
    ensures Matches(PanCandidate, t, p, p + (b - a))
  {
    PansOrdered(t);
    PanCutsAreSafe(t);
    CandidateIsTame();
    MarksAreMarks();
    SafeTameIsBlind(PanCandidate, t, Pans(t), PanMark);
    p, n := MatchBefore(PanCandidate, t, Pans(t), PanMark, MarkChars, a, b);
  }

  /** No candidate of the redacted text is a card number. */
  lemma CandidateIsKept(t: string, a: nat, b: nat)
    requires a <= b <= |RedactPan(t)| && Matches(PanCandidate, RedactPan(t), a, b)
    ensures !IsPan(RedactPan(t), (a, b))
  {
    var p, n := PlaceOfCandidate(t, a, b);
    KeptFromPlace(t, RedactPan(t), a, b, p, n);
  }

  lemma KeptFromPlace(t: string, out: string, a: nat, b: nat, p: nat, n: nat)
    requires Found(t, 0, Pans(t), out, a, b, p, n) && Matches(PanCandidate, t, p, p + (b - a))
    ensures !IsPan(out, (a, b))
  {
    VisitedOutsidePans(t, p, p + (b - a));
    PansEndInDigits(t);
    KeptIsNoPan(t, Pans(t), out, a, b, p, n);
  }

  lemma PansEndInDigits(t: string)
    ensures forall c :: c in Pans(t) ==> c.0 < c.1 <= |t| && IsDigit(t[c.1 - 1])
  {
    PanCutsAreSafe(t);
  }

  lemma HasMember<T>(s: seq<T>)
    requires s != []
    ensures exists c :: c in s
  {
    assert s[0] in s;
  }

  lemma RedactPanRemovesPans(t: string)
    ensures Pans(RedactPan(t)) == []
  {
    var out := RedactPan(t);
    PansOrdered(out);
    SpansAreHits(PanCandidate, out, 0);
    forall c | c in FindIter(PanCandidate, out, 0) ensures !IsPan(out, c) {
      CandidateIsKept(t, c.0, c.1);
    }
    if Pans(out) != [] { HasMember(Pans(out)); }
  }

  lemma RedactPanKeepsClean(q: Re, cs: set<char>, t: string)
    requires Tame(q, cs) && MarkIn(PanMark, cs) && Clean(q, t)
    ensures Clean(q, RedactPan(t))
  {
    PansOrdered(t);
    PanCutsAreSafe(t);
    SpliceKeepsClean(q, t, Pans(t), PanMark, cs);
  }

  // ---------- The first pass: no Azure key survives it, or comes back ----------

  lemma NoAzureAfter(x: string)
    ensures Clean(AzureKey, RedactCatalog(x))
  {
    AzureIsTame();
    AzureIsASecret();
    MarksAreMarks();
    var y0 := SubAll(SecretPatterns, SecretMark, x);
    LoosePass(SecretPatterns, SecretMark, MarkChars, x, AzureKey);
    LoosePass(RedactPhiPatterns, PhiMark, MarkChars, y0, AzureKey);
    RedactPanKeepsClean(AzureKey, MarkChars, SubAll(RedactPhiPatterns, PhiMark, y0));
  }

  lemma NoAzureBeforeFinalPass(x: string)
    ensures Clean(AzureKey, BeforeFinalPass(x))
  {
    NoAzureAfter(x);
    AzureIsTame();
    MarksAreMarks();
    var noEmail := Sub(Email, EmailMark, RedactCatalog(x));
    SubKeepsClean(Email, AzureKey, EmailMark, MarkChars, RedactCatalog(x));
    var noPhone := Sub(Phone, PhoneMark, noEmail);
    SubKeepsClean(Phone, AzureKey, PhoneMark, MarkChars, noEmail);
    SpliceKeepsClean(AzureKey, noPhone, Numbers(noPhone), PhoneMark, MarkChars);
  }

  // ---------- The secrets ----------

  lemma {:induction false} SubAllParts(rs: seq<Re>, k: nat, s: string, t: string)
    requires k <= |rs|
    ensures SubAll(rs, s, t) == SubAll(rs[k..], s, SubAll(rs[..k], s, t))
    decreases k
  {
    if k == 0 {
      assert rs[0..] == rs;
    } else {
      SubAllParts(rs[1..], k - 1, s, Sub(rs[0], s, t));
      assert rs[1..][k - 1..] == rs[k..] && rs[1..][..k - 1] == rs[..k][1..];
    }
  }

  /** The patterns that are replaced before the storage keys are, and those after them. */
  const EarlyBodies: seq<Re> := [AwsBody, GithubBody, GithubFineBody]

  function EarlySecrets(): seq<Re> { SecretPatterns[..3] }

  function LateSecrets(): seq<Re> { SecretPatterns[4..] }

  /** The text in which the storage keys are replaced, and the text after that. */
  function BeforeKeys(t: string): string { SubAll(EarlySecrets(), SecretMark, t) }

  function AfterKeys(t: string): string { Sub(AzureKey, SecretMark, BeforeKeys(t)) }

  lemma SecretSteps(t: string)
    ensures SubAll(SecretPatterns, SecretMark, t) == SubAll(LateSecrets(), SecretMark, AfterKeys(t))
  {
    AzureIsFourth();
    ThreeSteps(SecretPatterns, 3, AzureKey, SecretMark, t);
  }

  lemma AzureIsFourth()
    ensures |SecretPatterns| > 3 && SecretPatterns[3] == AzureKey
  {
  }

  lemma ThreeSteps(rs: seq<Re>, k: nat, key: Re, s: string, t: string)
    requires k < |rs| && rs[k] == key
    ensures SubAll(rs, s, t) == SubAll(rs[k + 1..], s, Sub(key, s, SubAll(rs[..k], s, t)))
  {
    SubAllParts(rs, k, s, t);
    assert rs[k..][0] == rs[k] && rs[k..][1..] == rs[k + 1..];
  }

  lemma LateAreTame(u: string)
    requires Clean(AzureKey, u)
    ensures forall r :: r in LateSecrets() ==> Tame(r, MarkChars) && Settled(r, u)
  {
    AzureIsTame();
    SecretsAreTame();
    forall r | r in LateSecrets() ensures Tame(r, MarkChars) && Settled(r, u) { assert r in SecretPatterns; }
  }

  lemma LatePass(u: string, q: Re)
    requires Clean(AzureKey, u) && Tame(q, MarkChars) && (q in LateSecrets() || Clean(q, u))
    ensures Clean(q, SubAll(LateSecrets(), SecretMark, u))
  {
    MarksAreMarks();
    LateAreTame(u);
    SettledPass(LateSecrets(), SecretMark, MarkChars, u, q);
  }

  lemma KeysAreGone(t: string)
    ensures Clean(AzureKey, AfterKeys(t))
  {
    AzureIsTame();
    MarksAreMarks();
    var u := BeforeKeys(t);
    forall i, j | 0 <= i <= j <= |u| && Matches(AzureKey, u, i, j) ensures Hit(AzureKey, u, i) {
      TameMatchIsHit(AzureKey, MarkChars, u, i, j);
    }
    SubRemoves(AzureKey, AzureKey, SecretMark, MarkChars, u);
  }

  /** The storage-key pattern and those after it are clean after the secrets are replaced, whatever the text. */
  lemma LateSecretsAreClean(t: string, q: Re)
    requires q == AzureKey || q in LateSecrets()
    ensures Tame(q, MarkChars) && Clean(q, SubAll(SecretPatterns, SecretMark, t))
  {
    AzureIsTame();
    KeysAreGone(t);
    LateAreTame(AfterKeys(t));
    LatePass(AfterKeys(t), q);
    SecretSteps(t);
  }

  lemma EarlyFacts(body: Re)
    requires body in EarlyBodies
    ensures WordToken(body) && SafeTame(Bounded(body)) && Tame(Glued(body), MarkChars)
    ensures Bounded(body) in EarlySecrets()
  {
    EarlyBodyFacts();
    BoundedIsSafeTame(body);
    AzureFacts();
    GluedIsTame(body, AzureKey);
    EarlyAreBounded();
  }

  lemma EarlyBodyFacts()
    ensures forall body :: body in EarlyBodies ==> WordToken(body)
  {
    AwsFacts();
    GithubFacts();
    GithubFineFacts();
    WordBodies();
    ThreeBodies(AwsBody, GithubBody, GithubFineBody);
  }

  lemma ThreeBodies(a: Re, b: Re, c: Re)
    requires WordToken(a) && WordToken(b) && WordToken(c)
    ensures forall body :: body in [a, b, c] ==> WordToken(body)
  {
  }

  lemma WordBodies()
    ensures WordsOnly(AwsBody) && WordsOnly(GithubBody) && WordsOnly(GithubFineBody)
  {
    assert WordsOnly(GithubKind) && WordsOnly(Times(AlphaNum, 36));
  }

  lemma EarlyAreBounded()
    ensures forall body :: body in EarlyBodies ==> Bounded(body) in EarlySecrets()
    ensures forall q :: q in EarlySecrets() ==> exists body :: body in EarlyBodies && q == Bounded(body)
  {
    assert EarlySecrets() == [Bounded(AwsBody), Bounded(GithubBody), Bounded(GithubFineBody)];
  }

  lemma GluedIsTame(body: Re, key: Re)
    requires PlainBody(body, MarkChars) && PlainBody(key, MarkChars)
    ensures Tame(Cat(B, Cat(body, key)), MarkChars)
  {
    MarkCharsAreLow();
    assert Assertions(Cat(body, key)) == {};
  }

  lemma EarlyAreTame(t: string)
    ensures forall r :: r in EarlySecrets() ==> Tame(r, MarkChars) && Settled(r, t)
  {
    EarlyAreBounded();
    forall r | r in EarlySecrets() ensures Tame(r, MarkChars) && Settled(r, t) {
      var body :| body in EarlyBodies && r == Bounded(body);
      EarlyFacts(body);
    }
  }

  /** Before the keys are replaced, an early pattern is clean, and no token has come to stand in front of a key. */
  lemma EarlyPass(t: string, body: Re)
    requires body in EarlyBodies
    ensures Clean(Bounded(body), BeforeKeys(t)) && (Clean(Glued(body), t) ==> Clean(Glued(body), BeforeKeys(t)))
  {
    EarlyFacts(body);
    EarlyAreTame(t);
    MarksAreMarks();
    SettledPass(EarlySecrets(), SecretMark, MarkChars, t, Bounded(body));
    if Clean(Glued(body), t) { SettledPass(EarlySecrets(), SecretMark, MarkChars, t, Glued(body)); }
  }

  /** An early pattern is clean after the storage keys are replaced exactly when no such token stood directly
      in front of a key then. */
  lemma EarlyExactly(t: string, body: Re)
    requires body in EarlyBodies
    ensures Clean(Bounded(body), AfterKeys(t)) <==> Clean(Glued(body), BeforeKeys(t))
  {
    EarlyPass(t, body);
    EarlyFacts(body);
    MarksAreMarks();
    KeyStepExactly(body, SecretMark, BeforeKeys(t));
  }

  lemma EarlySecretsAreClean(t: string, body: Re)
    requires body in EarlyBodies && Clean(Glued(body), BeforeKeys(t))
    ensures Tame(Bounded(body), MarkChars) && Clean(Bounded(body), SubAll(SecretPatterns, SecretMark, t))
  {
    EarlyExactly(t, body);
    EarlyFacts(body);
    KeysAreGone(t);
    LatePass(AfterKeys(t), Bounded(body));
    SecretSteps(t);
  }

  // ---------- PHI ----------

  lemma TwoSteps(a: Re, b: Re, s: string, t: string)
    ensures SubAll([a, b], s, t) == Sub(b, s, Sub(a, s, t))
  {
    assert SubAll([a, b], s, t) == SubAll([b], s, Sub(a, s, t));
    assert SubAll([b], s, Sub(a, s, t)) == SubAll([], s, Sub(b, s, Sub(a, s, t)));
  }

  lemma MrnStep(t: string)
    ensures Clean(Mrn, Sub(Mrn, PhiMark, t))
  {
    MrnIsTame();
    MarksAreMarks();
    SettledStep(Mrn, PhiMark, MarkChars, t, Mrn);
  }

  lemma PhiFieldStep(t: string)
    ensures Clean(PhiField, Sub(PhiFieldValue, PhiMark, t))
  {
    PhiFieldIsTame();
    MarksAreMarks();
    PhiValueCutsAreSafe(t);
    forall i, j | 0 <= i <= j <= |t| && Matches(PhiField, t, i, j) ensures Hit(PhiFieldValue, t, i) {
      PhiFieldValueHits(t, i, j);
    }
    SubRemoves(PhiFieldValue, PhiField, PhiMark, PhiPanChars, t);
  }

  lemma PhiPassKeepsClean(t: string, q: Re)
    requires Tame(q, MarkChars) && Clean(q, t)
    ensures Clean(q, SubAll(RedactPhiPatterns, PhiMark, t))
  {
    MrnIsTame();
    MarksAreMarks();
    var t1 := Sub(Mrn, PhiMark, t);
    SettledStep(Mrn, PhiMark, MarkChars, t, q);
    PhiValueCutsAreSafe(t1);
    SubKeepsClean(PhiFieldValue, q, PhiMark, MarkChars, t1);
    TwoSteps(Mrn, PhiFieldValue, PhiMark, t);
  }

  lemma PhiPass(t: string)
    ensures Clean(Mrn, SubAll(RedactPhiPatterns, PhiMark, t))
    ensures Clean(PhiField, SubAll(RedactPhiPatterns, PhiMark, t))
  {
    var t1 := Sub(Mrn, PhiMark, t);
    TwoSteps(Mrn, PhiFieldValue, PhiMark, t);
    MrnStep(t);
    PhiFieldStep(t1);
    MrnIsTame();
    MarksAreMarks();
    PhiValueCutsAreSafe(t1);
    SubKeepsClean(PhiFieldValue, Mrn, PhiMark, MarkChars, t1);
  }

  // ---------- One pass ----------

  lemma RestOfPass(t: string, q: Re)
    requires Tame(q, MarkChars) && Clean(q, SubAll(SecretPatterns, SecretMark, t))
    ensures Clean(q, RedactCatalog(t))
  {
    var t1 := SubAll(SecretPatterns, SecretMark, t);
    PhiPassKeepsClean(t1, q);
    MarksAreMarks();
    RedactPanKeepsClean(q, MarkChars, SubAll(RedactPhiPatterns, PhiMark, t1));
  }

  /** For every text, one catalog pass leaves no card number, no PHI label and no secret but the three kinds that
      are replaced before the storage keys. */
  lemma OnePassCleans(t: string)
    ensures forall q :: q == AzureKey || q in LateSecrets() || q == Mrn || q == PhiField ==> Clean(q, RedactCatalog(t))
    ensures Pans(RedactCatalog(t)) == []
  {
    var t1 := SubAll(SecretPatterns, SecretMark, t);
    var t2 := SubAll(RedactPhiPatterns, PhiMark, t1);
    forall q | q == AzureKey || q in LateSecrets() ensures Clean(q, RedactCatalog(t)) {
      LateSecretsAreClean(t, q);
      RestOfPass(t, q);
    }
    MarksAreMarks();
    PhiPass(t1);
    MrnIsTame();
    RedactPanKeepsClean(Mrn, MarkChars, t2);
    PhiFieldIsTame();
    RedactPanKeepsClean(PhiField, PhiPanChars, t2);
    RedactPanRemovesPans(t2);
  }

  lemma SecretsSplit()
    ensures forall q :: q in SecretPatterns <==> q in EarlySecrets() || q == AzureKey || q in LateSecrets()
  {
    AzureIsASecret();
    SplitMembers(SecretPatterns, 3);
  }

  lemma SplitMembers(rs: seq<Re>, k: nat)
    requires k < |rs|
    ensures forall q :: q in rs <==> q in rs[..k] || q == rs[k] || q in rs[k + 1..]
  {
    assert rs == rs[..k] + [rs[k]] + rs[k + 1..];
  }

  /** No token of the three early kinds stands directly in front of a storage key. */
  ghost predicate NothingGlued(t: string) {
    forall body :: body in EarlyBodies ==> Clean(Glued(body), t)
  }

  /** One catalog pass leaves the detector nothing to find, unless a token stands directly in front of a key
      when the keys are replaced. */
  lemma CatalogPassCleans(t: string)
    requires NothingGlued(BeforeKeys(t))
    ensures DetectSensitive(RedactCatalog(t)) == []
  {
    var out := RedactCatalog(t);
    OnePassCleans(t);
    SecretsSplit();
    EarlyAreBounded();
    forall q | q in SecretPatterns ensures Clean(q, out) {
      if q in EarlySecrets() {
        var body :| body in EarlyBodies && q == Bounded(body);
        EarlySecretsAreClean(t, body);
        RestOfPass(t, q);
      }
    }
    CleanTextHasNoHits(out);
  }

  /** A caller can look at the text itself: the patterns before the keys bring nothing in front of one. */
  lemma UngluedTextIsCleaned(t: string)
    requires NothingGlued(t)
    ensures DetectSensitive(RedactCatalog(t)) == []
  {
    forall body | body in EarlyBodies ensures Clean(Glued(body), BeforeKeys(t)) { EarlyPass(t, body); }
    CatalogPassCleans(t);
  }

  lemma NoKeyNothingGlued(t: string)
    requires Clean(AzureKey, t)
    ensures NothingGlued(t)
  {
    forall body, i, e | body in EarlyBodies && 0 <= i <= e <= |t| ensures !Matches(Glued(body), t, i, e) {
      if Matches(Glued(body), t, i, e) { var m := SplitGlued(body, t, i, e); }
    }
  }

  // ---------- When one pass is not enough ----------

  /** No pattern that comes after the storage keys finds anything. */
  ghost predicate LaterPassesIdle(t: string) {
    (forall q :: q in LateSecrets() || q in RedactPhiPatterns ==> Clean(q, t)) && Pans(t) == []
  }

  lemma CleanSubIsIdentity(r: Re, s: string, t: string)
    requires Clean(r, t)
    ensures Sub(r, s, t) == t
  {
    CleanHasNoHits(r, t);
    CleanHasNoSpans(r, t, 0);
    assert t[0..] == t;
  }

  lemma {:induction false} CleanSubAllIsIdentity(rs: seq<Re>, s: string, t: string)
    requires forall r :: r in rs ==> Clean(r, t)
    ensures SubAll(rs, s, t) == t
    decreases rs
  {
    if rs != [] {
      assert rs[0] in rs && forall r :: r in rs[1..] ==> r in rs;
      CleanSubIsIdentity(rs[0], s, t);
      CleanSubAllIsIdentity(rs[1..], s, t);
    }
  }

  lemma IdlePasses(t: string)
    requires LaterPassesIdle(AfterKeys(t))
    ensures RedactCatalog(t) == AfterKeys(t)
  {
    SecretSteps(t);
    CleanSubAllIsIdentity(LateSecrets(), SecretMark, AfterKeys(t));
    CleanSubAllIsIdentity(RedactPhiPatterns, PhiMark, AfterKeys(t));
    assert AfterKeys(t)[0..] == AfterKeys(t);
  }

  lemma {:induction false} MatchIsHit(cls: Class, rs: seq<Re>, k: nat, n: nat, cs: set<char>, t: string, i: nat, j: nat)
    requires k <= n < |rs| && i <= j <= |t| && Tame(rs[n], cs) && Matches(rs[n], t, i, j)
    ensures HitsFrom(cls, rs, k, t) != []
    decreases n - k
  {
    if k < n {
      MatchIsHit(cls, rs, k + 1, n, cs, t, i, j);
    } else {
      TameMatchIsHit(rs[n], cs, t, i, j);
      if !Inside(FindIter(rs[n], t, 0), i) { OutsideSpans(rs[n], t, 0, i); }
      var c :| c in FindIter(rs[n], t, 0) && c.0 <= i < c.1;
    }
  }

  lemma EarlyMatchIsHit(t: string, body: Re, i: nat, j: nat)
    requires body in EarlyBodies && i <= j <= |t| && Matches(Bounded(body), t, i, j)
    ensures DetectSensitive(t) != []
  {
    EarlyFacts(body);
    var n :| 0 <= n < |EarlySecrets()| && EarlySecrets()[n] == Bounded(body);
    assert SecretPatterns[n] == Bounded(body);
    MatchIsHit(Secret, SecretPatterns, 0, n, MarkChars, t, i, j);
  }

  /** Where the later patterns find nothing, one pass is enough exactly when no token stands directly in front of
      a key when the keys are replaced. */
  lemma OnePassExactly(t: string)
    requires LaterPassesIdle(AfterKeys(t))
    ensures DetectSensitive(RedactCatalog(t)) == [] <==> NothingGlued(BeforeKeys(t))
  {
    IdlePasses(t);
    if NothingGlued(BeforeKeys(t)) {
      CatalogPassCleans(t);
    } else {
      var body :| body in EarlyBodies && !Clean(Glued(body), BeforeKeys(t));
      EarlyExactly(t, body);
      var i, j :| 0 <= i <= j <= |AfterKeys(t)| && Matches(Bounded(body), AfterKeys(t), i, j);
      EarlyMatchIsHit(AfterKeys(t), body, i, j);
    }
  }

  // ---------- Both passes ----------

  lemma {:induction false} CleanListHasNoHits(cls: Class, rs: seq<Re>, k: nat, t: string)
    requires k <= |rs| && forall q :: q in rs ==> Clean(q, t)
    ensures HitsFrom(cls, rs, k, t) == []
    decreases |rs| - k
  {
    if k < |rs| {
      assert rs[k] in rs;
      CleanHasNoHits(rs[k], t);
      CleanHasNoSpans(rs[k], t, 0);
      CleanListHasNoHits(cls, rs, k + 1, t);
    }
  }

  /** A clean text has no hits. */
  lemma CleanTextHasNoHits(t: string)
    requires (forall q :: q in SecretPatterns || q == Mrn || q == PhiField ==> Clean(q, t)) && Pans(t) == []
    ensures DetectSensitive(t) == []
  {
    CleanListHasNoHits(Secret, SecretPatterns, 0, t);
    PhiMembers();
    CleanListHasNoHits(Phi, PhiPatterns, 0, t);
  }

  lemma PhiMembers()
    ensures forall q :: q in PhiPatterns ==> q == Mrn || q == PhiField
  {
  }

  lemma RedactIsTwoPasses(x: string)
    ensures Redact(x) == RedactCatalog(BeforeFinalPass(x))
  {
  }

  /** For every text, the detector finds nothing in its redaction. */
  lemma RedactedIsClean(x: string)
    ensures DetectSensitive(Redact(x)) == []
  {
    NoAzureBeforeFinalPass(x);
    NoKeyNothingGlued(BeforeFinalPass(x));
    UngluedTextIsCleaned(BeforeFinalPass(x));
    RedactIsTwoPasses(x);
  }
}

/** Syntactic facts about the catalog's patterns that the cleanliness proof needs. */
module CatalogFacts {
  import opened Regex
  import opened Splice
  import opened Substitution
  import opened Catalog

  /** Every character of the five placeholders. */
  const MarkChars: set<char> :=
    {'[', ']', ':', 'r', 'e', 'd', 'a', 'c', 't', 's', 'p', 'h', 'i', 'n', 'm', 'l', 'o'}

  /** Every character of the two placeholders put in after a PHI field is redacted. */
  const PhiPanChars: set<char> := {'[', ']', ':', 'r', 'e', 'd', 'a', 'c', 't', 'p', 'h', 'i', 'n'}

  ghost predicate Quiet(r: Re) {
    Avoids(r, Brackets) && Assertions(r) == {}
  }

  ghost predicate PlainBody(r: Re, cs: set<char>) {
    Quiet(r) && Escapes(r, cs)
  }

  ghost predicate SafeToken(r: Re, cs: set<char>) {
    Avoids(r, Brackets) && Escapes(r, cs) && Assertions(r) == {WordBoundary} && SafeStart(r) && SafeEnd(r)
  }

  lemma PlainText(s: Literal, cs: set<char>)
    requires HasOutside(s, cs)
    ensures PlainBody(Text(s), cs)
  {
  }

  lemma PlainAnyCase(s: LowerLiteral, cs: set<char>)
    requires HasOutside(s, cs)
    ensures PlainBody(AnyCase(s), cs)
  {
  }

  lemma PlainCat(a: Re, b: Re, cs: set<char>)
    requires Quiet(a) && Quiet(b) && (Escapes(a, cs) || Escapes(b, cs))
    ensures PlainBody(Cat(a, b), cs)
  {
  }

  lemma PlainAlt(a: Re, b: Re, cs: set<char>)
    requires PlainBody(a, cs) && PlainBody(b, cs)
    ensures PlainBody(Alt(a, b), cs)
  {
  }

  lemma BoundedIsSafe(r: Re, cs: set<char>)
    requires PlainBody(r, cs)
    ensures SafeToken(Bounded(r), cs)
  {
    assert Assertions(Bounded(r)) == Assertions(B) + (Assertions(r) + Assertions(B));
    assert Avoids(Cat(r, B), Brackets) && SafeEnd(Cat(r, B));
  }

  lemma AwsFacts()
    ensures PlainBody(AwsBody, MarkChars)
  {
    PlainText("AKIA", MarkChars);
    PlainCat(AwsBody.first, AwsBody.second, MarkChars);
  }

  lemma GithubFacts()
    ensures PlainBody(GithubBody, MarkChars)
  {
    PlainText("ghp_", MarkChars);
    PlainText("gho_", MarkChars);
    PlainText("ghu_", MarkChars);
    PlainText("ghs_", MarkChars);
    PlainText("ghr_", MarkChars);
    FiveAlternatives(Text("ghp_"), Text("gho_"), Text("ghu_"), Text("ghs_"), Text("ghr_"), MarkChars);
    PlainCat(GithubKind, GithubBody.second, MarkChars);
  }

  lemma GithubFineFacts()
    ensures PlainBody(GithubFineBody, MarkChars)
  {
    PlainText("github_pat_", MarkChars);
    PlainCat(GithubFineBody.first, GithubFineBody.second, MarkChars);
  }

  lemma JwtFacts()
    ensures PlainBody(JwtBody, MarkChars)
  {
    PlainText("eyJ", MarkChars);
    PlainCat(JwtBody.first, JwtBody.second, MarkChars);
  }

  lemma SlackFacts()
    ensures PlainBody(SlackBody, MarkChars)
  {
    PlainText("xox", MarkChars);
    PlainCat(SlackBody.first, SlackBody.second, MarkChars);
  }

  lemma GoogleFacts()
    ensures PlainBody(GoogleBody, MarkChars)
  {
    PlainText("AIza", MarkChars);
    PlainCat(GoogleBody.first, GoogleBody.second, MarkChars);
  }

  lemma GitlabFacts()
    ensures PlainBody(GitlabBody, MarkChars)
  {
    PlainText("glpat-", MarkChars);
    PlainCat(GitlabBody.first, GitlabBody.second, MarkChars);
  }

  lemma NpmFacts()
    ensures PlainBody(NpmBody, MarkChars)
  {
    PlainText("npm_", MarkChars);
    PlainCat(NpmBody.first, NpmBody.second, MarkChars);
  }

  lemma OpenAiFacts()
    ensures PlainBody(OpenAiBody, MarkChars)
  {
    PlainText("sk-", MarkChars);
    PlainCat(OpenAiBody.first, OpenAiBody.second, MarkChars);
  }

  lemma StripeFacts()
    ensures PlainBody(StripeBody, MarkChars)
  {
    PlainText("_live_", MarkChars);
    PlainCat(Text("_live_"), AtLeast(AlphaNum, 24), MarkChars);
    PlainCat(StripeBody.first, StripeBody.second, MarkChars);
  }

  lemma AzureFacts()
    ensures PlainBody(AzureKey, MarkChars)
  {
    PlainText("DefaultEndpoints", MarkChars);
    PlainCat(Text("DefaultEndpoints"), AzureHead.second, MarkChars);
    PlainCat(AzureHead, AzureKey.second, MarkChars);
  }

  lemma AzureEndsSafely()
    ensures SafeEnd(AzureKey)
  {
    assert SafeEnd(Cat(Text(";AccountKey="), Cat(AtLeast(Base64, 40), Text(";"))));
  }

  lemma PemFacts()
    ensures PlainBody(Pem, MarkChars) && SafeStart(Pem) && SafeEnd(Pem)
  {
    PlainText("-----BEGIN ", MarkChars);
    PlainCat(Pem.first, Pem.second, MarkChars);
  }

  lemma MrnLabelIsQuiet()
    ensures Quiet(MrnLabel)
  {
    assert Quiet(MedicalRecord) && Quiet(PatientId);
  }

  lemma LabelledNumber(head: Re, cs: set<char>)
    requires Quiet(head) && forall c :: c in cs ==> !IsDigit(c)
    ensures PlainBody(Cat(head, Cat(Spaces, Cat(One(Colon), Cat(Spaces, Rep(One(Digit), 5, Upto(12)))))), cs)
  {
    var value := Rep(One(Digit), 5, Upto(12));
    PlainCat(Spaces, value, cs);
    PlainCat(One(Colon), Cat(Spaces, value), cs);
    PlainCat(Spaces, Cat(One(Colon), Cat(Spaces, value)), cs);
    PlainCat(head, Cat(Spaces, Cat(One(Colon), Cat(Spaces, value))), cs);
  }

  lemma MrnFacts()
    ensures PlainBody(MrnBody, MarkChars)
  {
    MrnLabelIsQuiet();
    LabelledNumber(MrnLabel, MarkChars);
  }

  lemma PatientFieldFacts()
    ensures PlainBody(PatientField, PhiPanChars)
  {
    PlainAnyCase("patient_", PhiPanChars);
    PlainCat(PatientField.first, PatientField.second, PhiPanChars);
  }

  lemma SocialSecurityFacts()
    ensures PlainBody(SocialSecurity, PhiPanChars)
  {
    PlainAnyCase("social_security", PhiPanChars);
    PlainCat(SocialSecurity.first, SocialSecurity.second, PhiPanChars);
  }

  lemma DateOfBirthFacts()
    ensures PlainBody(DateOfBirth, PhiPanChars)
  {
    PlainAnyCase("date_", PhiPanChars);
    PlainCat(AnyCase("date_"), AnyCase("of_birth"), PhiPanChars);
  }

  lemma ShortFieldFacts()
    ensures PlainBody(AnyCase("dob"), PhiPanChars) && PlainBody(AnyCase("ssn"), PhiPanChars)
  {
    PlainAnyCase("dob", PhiPanChars);
    PlainAnyCase("ssn", PhiPanChars);
  }

  lemma FiveAlternatives(a: Re, b: Re, c: Re, d: Re, e: Re, cs: set<char>)
    requires PlainBody(a, cs) && PlainBody(b, cs) && PlainBody(c, cs) && PlainBody(d, cs) && PlainBody(e, cs)
    ensures PlainBody(Alt(a, Alt(b, Alt(c, Alt(d, e)))), cs)
  {
    PlainAlt(d, e, cs);
    PlainAlt(c, Alt(d, e), cs);
    PlainAlt(b, Alt(c, Alt(d, e)), cs);
  }

  lemma PhiLabelFacts()
    ensures PlainBody(PhiLabel, PhiPanChars)
  {
    PatientFieldFacts();
    SocialSecurityFacts();
    DateOfBirthFacts();
    ShortFieldFacts();
    FiveAlternatives(PatientField, DateOfBirth, AnyCase("dob"), AnyCase("ssn"), SocialSecurity, PhiPanChars);
  }

  lemma FieldIsSafe(head: Re, cs: set<char>)
    requires PlainBody(head, cs)
    ensures SafeToken(Cat(B, Cat(head, Cat(Spaces, One(Colon)))), cs)
  {
    var tail := Cat(Spaces, One(Colon));
    assert Quiet(tail) && SafeEnd(tail);
    PlainCat(head, tail, cs);
    assert SafeEnd(Cat(head, tail));
    assert Assertions(Cat(B, Cat(head, tail))) == Assertions(B) + Assertions(Cat(head, tail));
  }

  lemma PhiFieldFacts()
    ensures SafeToken(PhiField, PhiPanChars)
  {
    PhiLabelFacts();
    FieldIsSafe(PhiLabel, PhiPanChars);
  }
}

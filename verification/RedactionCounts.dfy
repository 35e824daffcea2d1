/** Which finding of `redact_with_findings` counts what, and that a category is named exactly when it has something. */
module RedactionCounts {
  import opened Regex
  import opened Splice
  import opened Substitution
  import opened Catalog
  import opened CatalogFacts
  import opened Redaction
  import opened RedactionProof
  import opened Cleanliness
  import opened PatternShapes
  import opened PiiShapes
  import opened Pii

  /** How many spans the patterns have in the text. */
  function SpanCount(rs: seq<Re>, t: string): nat {
    if rs == [] then 0 else |FindIter(rs[0], t, 0)| + SpanCount(rs[1..], t)
  }

  lemma {:induction false} CountOfSum(a: seq<SensitiveHit>, b: seq<SensitiveHit>, cls: Class)
    ensures CountOf(a + b, cls) == CountOf(a, cls) + CountOf(b, cls)
    decreases a
  {
    if a == [] {
      assert a + b == b;
    } else {
      assert (a + b)[1..] == a[1..] + b;
      CountOfSum(a[1..], b, cls);
    }
  }

  lemma {:induction false} CountOfOneClass(hits: seq<SensitiveHit>, mine: Class, cls: Class)
    requires forall h :: h in hits ==> h.cls == mine
    ensures CountOf(hits, cls) == if cls == mine then |hits| else 0
    decreases hits
  {
    if hits != [] {
      assert hits[0] in hits && forall h :: h in hits[1..] ==> h in hits;
      CountOfOneClass(hits[1..], mine, cls);
    }
  }

  lemma CountOfHits(mine: Class, k: nat, t: string, spans: seq<(nat, nat)>, cls: Class)
    ensures CountOf(HitsOf(mine, k, t, spans), cls) == if cls == mine then |spans| else 0
  {
    CountOfOneClass(HitsOf(mine, k, t, spans), mine, cls);
  }

  lemma {:induction false} CountOfPatterns(mine: Class, rs: seq<Re>, k: nat, t: string, cls: Class)
    requires k <= |rs|
    ensures CountOf(HitsFrom(mine, rs, k, t), cls) == if cls == mine then SpanCount(rs[k..], t) else 0
    decreases |rs| - k
  {
    if k < |rs| {
      var spans := FindIter(rs[k], t, 0);
      CountOfHits(mine, k, t, spans, cls);
      CountOfPatterns(mine, rs, k + 1, t, cls);
      CountOfSum(HitsOf(mine, k, t, spans), HitsFrom(mine, rs, k + 1, t), cls);
      assert rs[k..][1..] == rs[k + 1..];
    }
  }

  lemma CountOfDetected(secrets: seq<Re>, phi: seq<Re>, t: string, cls: Class)
    ensures CountOf(DetectWith(secrets, phi, t), cls) ==
            if cls == Secret then SpanCount(secrets, t) else if cls == Phi then SpanCount(phi, t) else |Pans(t)|
  {
    var a, b := HitsFrom(Secret, secrets, 0, t), HitsFrom(Phi, phi, 0, t);
    CountOfSum(a + b, PanHits(t), cls);
    CountOfSum(a, b, cls);
    CountOfPatterns(Secret, secrets, 0, t, cls);
    CountOfPatterns(Phi, phi, 0, t, cls);
    CountOfHits(Pan, 0, t, Pans(t), cls);
    assert secrets[0..] == secrets && phi[0..] == phi;
  }

  predicate Counted(findings: map<Category, nat>, c: Category, n: nat) {
    (c in findings <==> n > 0) && (n > 0 ==> findings[c] == n)
  }

  lemma ReportCounts(credentials: nat, personal: nat, secrets: nat)
    ensures var findings := Report(credentials, personal, secrets);
            Counted(findings, Credential, credentials) && Counted(findings, SecretValue, secrets) &&
            Counted(findings, Category.Pii, personal)
  {
  }

  lemma DetectedCounts(x: string)
    ensures CountOf(DetectSensitive(x), Pan) == |Pans(x)|
    ensures CountOf(DetectSensitive(x), Phi) == SpanCount(PhiPatterns, x)
    ensures CountOf(DetectSensitive(x), Secret) == SpanCount(SecretPatterns, x)
  {
    CountOfDetected(SecretPatterns, PhiPatterns, x, Pan);
    CountOfDetected(SecretPatterns, PhiPatterns, x, Phi);
    CountOfDetected(SecretPatterns, PhiPatterns, x, Secret);
  }

  /** Card numbers are counted as credentials, secrets as secrets, and medical values, addresses and phone numbers
      as personal data. */
  lemma CountsExactly(x: string)
    ensures Counted(RedactWithFindings(x).1, Credential, |Pans(x)|)
    ensures Counted(RedactWithFindings(x).1, SecretValue, SpanCount(SecretPatterns, x))
    ensures Counted(RedactWithFindings(x).1, Category.Pii,
                    |FindIter(Email, RedactCatalog(x), 0)| + |FindIter(Phone, WithoutEmail(x), 0)| +
                    |FindIter(PhoneInContext, WithoutPhone(x), 0)| + SpanCount(PhiPatterns, x))
  {
    DetectedCounts(x);
    ReportCounts(|Pans(x)|, PersonalCount(x), SpanCount(SecretPatterns, x));
  }

  // ---------- A category is named exactly when something of it stands in the text ----------

  /** No match of the pattern is empty. */
  ghost predicate Solid(r: Re, t: string) {
    forall i :: 0 <= i <= |t| ==> !Matches(r, t, i, i)
  }

  lemma NoSpansExactly(r: Re, t: string)
    requires Solid(r, t)
    ensures FindIter(r, t, 0) == [] <==> Clean(r, t)
  {
    if i, j :| 0 <= i <= j <= |t| && Matches(r, t, i, j) {
      EndsAreMatches(r, t, i, j);
      var e := Ends(r, t, i)[0];
      assert e in Ends(r, t, i);
      EndsAreMatches(r, t, i, e);
      if !Inside(FindIter(r, t, 0), i) { OutsideSpans(r, t, 0, i); }
    }
    if Clean(r, t) {
      CleanHasNoHits(r, t);
      CleanHasNoSpans(r, t, 0);
    }
  }

  lemma TameIsSolid(r: Re, cs: set<char>, t: string)
    requires Tame(r, cs)
    ensures Solid(r, t)
  {
    forall i | 0 <= i <= |t| ensures !Matches(r, t, i, i) {
      if Matches(r, t, i, i) { EscapesSound(r, cs, t, i, i); }
    }
  }

  lemma {:induction false} NoSpanExactly(rs: seq<Re>, t: string)
    requires forall r :: r in rs ==> Solid(r, t)
    ensures SpanCount(rs, t) == 0 <==> forall r :: r in rs ==> Clean(r, t)
    decreases rs
  {
    if rs != [] {
      assert rs[0] in rs && forall r :: r in rs <==> r == rs[0] || r in rs[1..];
      NoSpansExactly(rs[0], t);
      NoSpanExactly(rs[1..], t);
    }
  }

  lemma CatalogIsSolid(t: string)
    ensures forall r :: r in SecretPatterns || r in PhiPatterns ==> Solid(r, t)
  {
    PhiMembers();
    MrnIsTame();
    PhiFieldIsTame();
    forall r | r in SecretPatterns || r in PhiPatterns ensures Solid(r, t) {
      if r in SecretPatterns {
        SecretIsTame(r);
        TameIsSolid(r, MarkChars, t);
      } else if r == Mrn {
        TameIsSolid(Mrn, MarkChars, t);
      } else {
        TameIsSolid(PhiField, PhiPanChars, t);
      }
    }
  }

  ghost predicate AnyMatch(rs: seq<Re>, t: string, i: nat, j: nat)
    requires i <= j <= |t|
  {
    exists q :: q in rs && Matches(q, t, i, j)
  }

  lemma NoMatchExactly(rs: seq<Re>, t: string)
    requires forall r :: r in rs ==> Solid(r, t)
    ensures SpanCount(rs, t) == 0 <==> forall i, j :: 0 <= i <= j <= |t| ==> !AnyMatch(rs, t, i, j)
  {
    NoSpanExactly(rs, t);
    if SpanCount(rs, t) != 0 {
      var r :| r in rs && !Clean(r, t);
      var i, j :| 0 <= i <= j <= |t| && Matches(r, t, i, j);
      assert AnyMatch(rs, t, i, j);
    }
  }

  lemma SecretsNamed(x: string)
    ensures SecretValue in RedactWithFindings(x).1 <==> exists i, j :: 0 <= i <= j <= |x| && SecretAt(x, i, j)
  {
    CountsExactly(x);
    CatalogIsSolid(x);
    NoMatchExactly(SecretPatterns, x);
    forall i, j | 0 <= i <= j <= |x| ensures AnyMatch(SecretPatterns, x, i, j) <==> SecretAt(x, i, j) {
      SecretsExactly(x, i, j);
    }
  }

  lemma CardsNamed(x: string)
    ensures Credential in RedactWithFindings(x).1 <==> exists i, j :: 0 <= i <= j <= |x| && CardNumber(x, i, j)
  {
    CountsExactly(x);
    PansExactly(x);
  }

  ghost predicate NoPersonal(t: string) {
    forall i, j :: 0 <= i <= j <= |t| ==> !Personal(t, i, j)
  }

  lemma PersonalNamed(t: string)
    ensures SpanCount(PhiPatterns, t) == 0 <==> NoPersonal(t)
  {
    CatalogIsSolid(t);
    NoMatchExactly(PhiPatterns, t);
    forall i, j | 0 <= i <= j <= |t| ensures AnyMatch(PhiPatterns, t, i, j) <==> Personal(t, i, j) {
      PersonalMatch(t, i, j);
    }
  }

  lemma PersonalMatch(t: string, i: nat, j: nat)
    requires i <= j <= |t|
    ensures AnyMatch(PhiPatterns, t, i, j) <==> Personal(t, i, j)
  {
    PersonalExactly(t, i, j);
    TwoPhiPatterns();
    OneOfTwo(PhiPatterns, Mrn, PhiField, t, i, j);
  }

  lemma OneOfTwo(rs: seq<Re>, a: Re, b: Re, t: string, i: nat, j: nat)
    requires i <= j <= |t| && forall q :: q in rs <==> q == a || q == b
    ensures AnyMatch(rs, t, i, j) <==> Matches(a, t, i, j) || Matches(b, t, i, j)
  {
  }

  lemma TwoPhiPatterns()
    ensures forall q :: q in PhiPatterns <==> q == Mrn || q == PhiField
  {
    assert PhiPatterns == [Mrn, PhiField];
  }

  lemma PiecesNamed(r: Re, k: Kind, t: string)
    requires Finds(r, k, t)
    ensures FindIter(r, t, 0) == [] <==> NoneIn(k, t)
  {
    assert Solid(r, t);
    NoSpansExactly(r, t);
    if i, j :| 0 <= i <= j <= |t| && Matches(r, t, i, j) { assert StandsAt(k, t, i, j); }
    if i, j :| 0 <= i < j <= |t| && StandsAt(k, t, i, j) { assert Matches(r, t, i, j); }
  }

  lemma NoEmptyNumber(u: string)
    ensures IsContextNumber(u) ==> |u| > 0
  {
  }

  lemma ContextNamed(t: string)
    ensures FindIter(PhoneInContext, t, 0) == [] <==> NoContextNumberIn(t)
  {
    forall i, j | 0 <= i <= j <= |t| ensures Matches(PhoneInContext, t, i, j) <==> IsContextNumber(t[i..j]) {
      ContextOfPiece(t, i, j);
    }
    forall i | 0 <= i <= |t| ensures !Matches(PhoneInContext, t, i, i) {
      NoEmptyNumber(t[i..i]);
    }
    NoSpansExactly(PhoneInContext, t);
  }

  /** Personal data is reported exactly when there is a medical value, or an address or a number to replace. */
  lemma PersonalDataNamed(x: string)
    ensures Category.Pii !in RedactWithFindings(x).1 <==>
            NoPersonal(x) && NoneIn(Address, RedactCatalog(x)) && NoneIn(PhoneNumber, WithoutEmail(x)) &&
            NoContextNumberIn(WithoutPhone(x))
  {
    CountsExactly(x);
    PersonalNamed(x);
    EmailFinds(RedactCatalog(x));
    PiecesNamed(Email, Address, RedactCatalog(x));
    PhoneFinds(WithoutEmail(x));
    PiecesNamed(Phone, PhoneNumber, WithoutEmail(x));
    ContextNamed(WithoutPhone(x));
  }
}

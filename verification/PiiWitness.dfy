/** Two texts of which an address, or a number, is left: each stood directly against a number that was replaced. */
module PiiWitness {
  import opened Regex
  import opened Splice
  import opened SplicePlaces
  import opened Substitution
  import opened Catalog
  import opened Redaction
  import opened RedactionProof
  import opened Cleanliness
  import opened PatternShapes
  import opened PiiShapes
  import opened Pii
  import opened OnePassWitness

  // ---------- Characters of which no secret and no label can be made ----------

  ghost predicate Dull(cs: set<char>) {
    '-' !in cs && '_' !in cs && 'A' !in cs && 'D' !in cs && 'J' !in cs && 'x' !in cs && 'g' !in cs && 'm' !in cs &&
    's' !in cs && 'i' !in cs && 'b' !in cs && LowerClosed(cs)
  }

  lemma TokensEscape(cs: set<char>)
    requires Dull(cs)
    ensures Escapes(Bounded(AwsBody), cs) && Escapes(AzureKey, cs) && Escapes(Pem, cs)
    ensures Escapes(Bounded(JwtBody), cs) && Escapes(Bounded(SlackBody), cs) && Escapes(Bounded(GoogleBody), cs)
  {
    InFirst(AwsBody.first, AwsBody.second, cs);
    InFirst(AzureHead.first, AzureHead.second, cs);
    InFirst(AzureHead, AzureKey.second, cs);
    InFirst(Pem.first, Pem.second, cs);
    InFirst(JwtBody.first, JwtBody.second, cs);
    InFirst(SlackBody.first, SlackBody.second, cs);
    InFirst(GoogleBody.first, GoogleBody.second, cs);
  }

  lemma KeysEscape(cs: set<char>)
    requires Dull(cs)
    ensures Escapes(Bounded(StripeBody), cs) && Escapes(Bounded(GitlabBody), cs)
    ensures Escapes(Bounded(NpmBody), cs) && Escapes(Bounded(OpenAiBody), cs)
  {
    InFirst(Text("_live_"), AtLeast(AlphaNum, 24), cs);
    InSecond(StripeBody.first, StripeBody.second, cs);
    InFirst(GitlabBody.first, GitlabBody.second, cs);
    InFirst(NpmBody.first, NpmBody.second, cs);
    InFirst(OpenAiBody.first, OpenAiBody.second, cs);
  }

  lemma LabelsEscape(cs: set<char>)
    requires Dull(cs)
    ensures Escapes(Mrn, cs) && Escapes(PhiField, cs)
  {
    InFirst(MedicalRecord.first, MedicalRecord.second, cs);
    InSecond(Spaces1, AnyCase("id"), cs);
    InSecond(PatientId.first, PatientId.second, cs);
    InBoth(MedicalRecord, PatientId, cs);
    InBoth(AnyCase("mrn"), MrnLabel.right, cs);
    InFirst(MrnLabel, MrnBody.second, cs);
    FieldsEscape(cs);
    InFirst(PhiLabel, Cat(Spaces, One(Colon)), cs);
    InSecond(B, Cat(PhiLabel, Cat(Spaces, One(Colon))), cs);
  }

  lemma FieldsEscape(cs: set<char>)
    requires Dull(cs)
    ensures Escapes(PhiLabel, cs)
  {
    InFirst(AnyCase("patient_"), PatientField.second, cs);
    InFirst(AnyCase("date_"), AnyCase("of_birth"), cs);
    InFirst(AnyCase("social_security"), SocialSecurity.second, cs);
    InBoth(AnyCase("ssn"), SocialSecurity, cs);
    InBoth(AnyCase("dob"), PhiLabel.right.right.right, cs);
    InBoth(DateOfBirth, PhiLabel.right.right, cs);
    InBoth(PatientField, PhiLabel.right, cs);
  }

  /** Twelve digits in a row at most. */
  ghost predicate ShortRuns(t: string) {
    forall i, j :: 0 <= i && i + 13 <= j <= |t| ==> !All(Numeral, t, i, j)
  }

  /** Such a text has nothing of the catalog in it. */
  lemma DullIsLeftAlone(t: string, cs: set<char>)
    requires Dull(cs) && Over(t, cs) && ShortRuns(t)
    ensures RedactCatalog(t) == t
  {
    PansExactly(t);
    forall i, j | 0 <= i <= j <= |t| ensures !CardNumber(t, i, j) {}
    forall q | q in SecretPatterns || q == Mrn || q == PhiField ensures Clean(q, t) {
      CatalogEscapes(q, cs);
      EscapesMeansClean(q, cs, t);
    }
    CleanIsLeftAlone(t);
  }

  lemma CatalogEscapes(q: Re, cs: set<char>)
    requires Dull(cs) && (q in SecretPatterns || q == Mrn || q == PhiField)
    ensures Escapes(q, cs)
  {
    TokensEscape(cs);
    KeysEscape(cs);
    GithubEscapes(cs);
    LabelsEscape(cs);
    if q in SecretPatterns {
      AllEscape(Bounded(AwsBody), Bounded(GithubBody), Bounded(GithubFineBody), AzureKey, Pem, Bounded(JwtBody),
                Bounded(SlackBody), Bounded(GoogleBody), Bounded(StripeBody), Bounded(GitlabBody), Bounded(NpmBody),
                Bounded(OpenAiBody), cs);
    }
  }

  lemma AllEscape(a: Re, b: Re, c: Re, d: Re, e: Re, f: Re, g: Re, h: Re, i: Re, j: Re, k: Re, l: Re, cs: set<char>)
    requires Escapes(a, cs) && Escapes(b, cs) && Escapes(c, cs) && Escapes(d, cs) && Escapes(e, cs) && Escapes(f, cs)
    requires Escapes(g, cs) && Escapes(h, cs) && Escapes(i, cs) && Escapes(j, cs) && Escapes(k, cs) && Escapes(l, cs)
    ensures forall r :: r in [a, b, c, d, e, f, g, h, i, j, k, l] ==> Escapes(r, cs)
  {
  }

  // ---------- One span ----------

  /** The pattern matches in one place only. */
  ghost predicate MatchesOnly(r: Re, t: string, m: nat, e: nat) {
    m < e <= |t| && Matches(r, t, m, e) &&
    forall a, b :: 0 <= a <= b <= |t| && Matches(r, t, a, b) ==> a == m && b == e
  }

  lemma OnlyHit(r: Re, t: string, i: nat, m: nat, e: nat)
    requires MatchesOnly(r, t, m, e) && i <= |t|
    ensures Hit(r, t, i) <==> i == m
    ensures i == m ==> EndAt(r, t, m) == e
  {
    if Ends(r, t, i) != [] { HitIsMatch(r, t, i); }
    if i == m { EndsAreMatches(r, t, m, e); }
  }

  /** Then that is what is replaced. */
  lemma {:induction false} OnlySpan(r: Re, t: string, i: nat, m: nat, e: nat)
    requires MatchesOnly(r, t, m, e) && i <= m
    ensures FindIter(r, t, i) == [(m, e)]
    decreases m - i
  {
    OnlyHit(r, t, i, m, e);
    if i < m { OnlySpan(r, t, i + 1, m, e); } else { NoSpansBehind(r, t, e, m, e); }
  }

  lemma HitIsMatch(r: Re, t: string, i: nat)
    requires i <= |t| && Ends(r, t, i) != []
    ensures i <= Ends(r, t, i)[0] <= |t| && Matches(r, t, i, Ends(r, t, i)[0])
  {
    var e := Ends(r, t, i)[0];
    assert e in Ends(r, t, i);
    EndsAreMatches(r, t, i, e);
  }

  lemma {:induction false} NoSpansBehind(r: Re, t: string, i: nat, m: nat, e: nat)
    requires MatchesOnly(r, t, m, e) && m < i <= |t|
    ensures FindIter(r, t, i) == []
    decreases |t| - i
  {
    OnlyHit(r, t, i, m, e);
    if i < |t| { NoSpansBehind(r, t, i + 1, m, e); }
  }

  const DullChars: set<char> :=
    {'f', 'o', '@', 'a', 'r', '.', 'c', '1', '2', '3', '4', '5', '6', '7', '[', ']', 'e', 'd', 't', ':', 'p', 'h',
     'n', '+'}

  lemma DullCharsAreDull()
    ensures Dull(DullChars) && Over(PhoneMark, DullChars)
  {
  }

  // ---------- An address in front of a number ----------

  const Mail := "foo@far.co"
  const Number := "5551234567"

  /** An address of ten characters, the at sign and the dot in their places, and something behind it. */
  ghost predicate MailFront(t: string) {
    |t| >= 10 && t[..10] == Mail && Over(t, DullChars)
  }

  lemma MailLetters(t: string)
    requires MailFront(t)
    ensures t[0] == 'f' && t[1] == 'o' && t[2] == 'o' && t[3] == '@' && t[4] == 'f' && t[5] == 'a' && t[6] == 'r'
    ensures t[7] == '.' && t[8] == 'c' && t[9] == 'o'
  {
    assert forall p :: 0 <= p < 10 ==> t[p] == t[..10][p] == Mail[p];
  }

  ghost predicate MailAndNumber(t: string) {
    |t| == 20 && MailFront(t) && t[10..] == Number
  }

  lemma NumberDigits(t: string)
    requires MailAndNumber(t)
    ensures All(Numeral, t, 10, 20)
  {
    assert forall p :: 10 <= p < 20 ==> t[p] == t[10..][p - 10] == Number[p - 10];
  }

  lemma AddressPlaces(t: string, i: nat, j: nat) returns (p: nat)
    requires StandsAt(Address, t, i, j)
    ensures LetterChar(t[j - 1]) && (j == |t| || !AlnumScore(t[j])) && i <= p < j && t[p] == '.'
    ensures exists q :: i <= q < j && t[q] == '@'
  {
    var u := t[i..j];
    AddressFacts(u);
    assert u[j - i - 1] == t[j - 1];
    var k :| 0 <= k < |u| && u[k] == '.';
    var l :| 0 <= l < |u| && u[l] == '@';
    p := i + k;
    assert t[i + l] == '@';
  }

  lemma NumberPlaces(t: string, i: nat, j: nat)
    requires StandsAt(PhoneNumber, t, i, j)
    ensures Numeral(t[j - 1]) && (i == 0 || !Numeral(t[i - 1])) && (j == |t| || !Numeral(t[j]))
    ensures Numeral(t[i]) || t[i] == '(' || t[i] == '+'
  {
    var u := t[i..j];
    NumberEnds(u);
    NumberStarts(u);
    assert u[j - i - 1] == t[j - 1] && u[0] == t[i];
  }

  /** The word that would have to end an address goes on. */
  lemma NoAddressYet(t: string)
    requires MailAndNumber(t)
    ensures NoneIn(Address, t)
  {
    forall i, j | 0 <= i < j <= |t| ensures !StandsAt(Address, t, i, j) {
      if StandsAt(Address, t, i, j) {
        var p := AddressPlaces(t, i, j);
        NoEndInMail(t, i, j, p);
      }
    }
  }

  lemma NoEndInMail(t: string, i: nat, j: nat, p: nat)
    requires MailAndNumber(t) && i <= p < j <= |t| && LetterChar(t[j - 1]) && t[p] == '.'
    ensures j < |t| && AlnumScore(t[j])
  {
    MailLetters(t);
    NumberDigits(t);
    assert p == 7;
  }

  lemma OneNumber(t: string, i: nat, j: nat)
    requires MailAndNumber(t) && i <= j <= |t|
    ensures StandsAt(PhoneNumber, t, i, j) <==> i == 10 && j == 20
  {
    if StandsAt(PhoneNumber, t, i, j) {
      NumberPlaces(t, i, j);
      OnlyPlace(t, i, j);
    }
    if i == 10 && j == 20 { NumberStands(t); }
  }

  lemma OnlyPlace(t: string, i: nat, j: nat)
    requires MailAndNumber(t) && i < j <= |t| && Numeral(t[j - 1]) && (i == 0 || !Numeral(t[i - 1]))
    requires (j == |t| || !Numeral(t[j])) && (Numeral(t[i]) || t[i] == '(' || t[i] == '+')
    ensures i == 10 && j == 20
  {
    MailLetters(t);
    NumberDigits(t);
  }

  lemma NumberStands(t: string)
    requires MailAndNumber(t)
    ensures StandsAt(PhoneNumber, t, 10, 20)
  {
    MailLetters(t);
    NumberDigits(t);
    TenDigits(t[10..20]);
  }

  lemma TenDigits(u: string)
    requires |u| == 10 && All(Numeral, u, 0, 10)
    ensures IsPhone(u)
  {
    assert Area(u, 0, 3) && Gap(u, 3, 3) && Gap(u, 6, 6);
    assert National(u, 0, 10);
  }

  lemma NumberIsReplaced(t: string)
    requires MailAndNumber(t)
    ensures Sub(Phone, PhoneMark, t) == Mail + PhoneMark
  {
    PhoneFinds(t);
    forall i, j | 0 <= i <= j <= |t| ensures Matches(Phone, t, i, j) <==> i == 10 && j == 20 { OneNumber(t, i, j); }
    OnlySpan(Phone, t, 0, 10, 20);
    OneSpliced(t, 10, 20, PhoneMark);
    assert t[20..] == "";
  }

  lemma OneSpliced(t: string, m: nat, e: nat, s: string)
    requires m <= e <= |t|
    ensures Spliced(t, 0, [(m, e)], s) == t[..m] + s + t[e..]
  {
    var cuts := [(m, e)];
    assert cuts[1..] == [];
    assert Spliced(t, e, [], s) == t[e..];
    assert t[0..m] == t[..m];
  }

  /** The address stands there now. */
  lemma AddressStands(t: string)
    requires MailFront(t) && |t| > 10 && t[10] == '['
    ensures AddressAt(t, 0, 10)
  {
    MailLetters(t);
    var u := t[0..10];
    assert u == t[..10];
    assert forall p :: 0 <= p < 10 ==> u[p] == t[p];
    assert DottedLabel(u, 4, 8);
    assert LabelsAt(u, 4, 8, [4, 8]);
    assert Labels(u, 4, 8) && All(LetterChar, u, 8, 10) && All(LocalChar, u, 0, 3);
  }

  lemma NoDigitsNoNumber(t: string)
    requires forall p :: 0 <= p < |t| ==> !Numeral(t[p])
    ensures NoContextNumberIn(t)
  {
    forall i, j | 0 <= i <= j <= |t| ensures !IsContextNumber(t[i..j]) {
      NumberNeedsDigit(t[i..j]);
      assert forall p :: 0 <= p < j - i ==> t[i..j][p] == t[i + p];
    }
  }

  lemma NumberNeedsDigit(u: string)
    ensures IsContextNumber(u) ==> exists p :: 0 <= p < |u| && Numeral(u[p])
  {
    if IsContextNumber(u) {
      var k :| ContextNumber(u, 0, k, |u|);
      assert Numeral(u[|u| - 1]);
    }
  }

  lemma MailText()
    ensures MailAndNumber(Mail + Number)
    ensures MailFront(Mail + PhoneMark) && |Mail + PhoneMark| == 26 && (Mail + PhoneMark)[10] == '['
    ensures forall p :: 0 <= p < 26 ==> !Numeral((Mail + PhoneMark)[p])
  {
    DullCharsAreDull();
    assert Over(Mail, DullChars) && Over(Number, DullChars);
    assert (Mail + Number)[..10] == Mail && (Mail + Number)[10..] == Number;
    assert (Mail + PhoneMark)[..10] == Mail;
  }

  lemma MailHasShortRuns(t: string)
    requires MailAndNumber(t)
    ensures ShortRuns(t)
  {
    MailLetters(t);
    forall i, j | 0 <= i && i + 13 <= j <= |t| ensures !All(Numeral, t, i, j) { assert !Numeral(t[i]); }
  }

  lemma NoDigitsShortRuns(t: string)
    requires forall p :: 0 <= p < |t| ==> !Numeral(t[p])
    ensures ShortRuns(t)
  {
    forall i, j | 0 <= i && i + 13 <= j <= |t| ensures !All(Numeral, t, i, j) { assert !Numeral(t[i]); }
  }

  lemma MailRun(t: string, out: string, cs: set<char>)
    requires MailAndNumber(t) && Dull(cs) && Over(t, cs) && Over(out, cs) && Sub(Phone, PhoneMark, t) == out
    requires forall p :: 0 <= p < |out| ==> !Numeral(out[p])
    ensures Redact(t) == out
  {
    MailHasShortRuns(t);
    DullIsLeftAlone(t, cs);
    NoDigitsShortRuns(out);
    DullIsLeftAlone(out, cs);
    NoAddressYet(t);
    NoDigitsNoNumber(out);
    OnlyNumbersGo(t, out);
  }

  /** The address is still there when the number behind it is gone. */
  lemma AddressMayBeLeft()
    ensures Redact("foo@far.co" + "5551234567") == "foo@far.co" + "[redacted:phone]"
    ensures AddressAt("foo@far.co" + "[redacted:phone]", 0, 10)
  {
    MailText();
    DullCharsAreDull();
    NumberIsReplaced(Mail + Number);
    MailRun(Mail + Number, Mail + PhoneMark, DullChars);
    AddressStands(Mail + PhoneMark);
  }

  // ---------- A number behind a number ----------

  /** Ten digits, a plus sign and seven digits. */
  ghost predicate TwoNumbers(t: string) {
    |t| == 18 && All(Numeral, t, 0, 10) && t[10] == '+' && All(Numeral, t, 11, 18) && t[0] != '0' && t[11] != '0'
  }

  lemma NationalHasNoSign(u: string, a: int, j: int, p: int)
    requires National(u, a, j) && a <= p < j
    ensures u[p] != '+'
  {
    var b, c, d :| Area(u, a, b) && Gap(u, b, c) && All(Numeral, u, c, c + 3) && Gap(u, c + 3, d) &&
                   j == d + 4 && All(Numeral, u, d, j);
  }

  lemma CountryHasSignFirst(u: string, i: int, a: int, p: int)
    requires Country(u, i, a) && i < p < a
    ensures u[p] != '+'
  {
    var k, q :| (k == i || (k == i + 1 && 0 <= i < |u| && u[i] == '+')) && 1 <= q - k <= 3 && All(Numeral, u, k, q) &&
                Gap(u, q, a);
  }

  lemma SignIsFirst(u: string, p: nat)
    requires NanpNumber(u, 0, |u|) && 0 < p < |u|
    ensures u[p] != '+'
  {
    if National(u, 0, |u|) {
      NationalHasNoSign(u, 0, |u|, p);
    } else {
      var a :| Country(u, 0, a) && National(u, a, |u|);
      if a <= p { NationalHasNoSign(u, a, |u|, p); } else { CountryHasSignFirst(u, 0, a, p); }
    }
  }

  lemma NationalIsLong(u: string, a: int, j: int)
    requires National(u, a, j)
    ensures j - a >= 10
  {
  }

  lemma NumberIsLong(u: string)
    requires NanpNumber(u, 0, |u|)
    ensures |u| >= 10
  {
    if National(u, 0, |u|) {
      NationalIsLong(u, 0, |u|);
    } else {
      var a :| Country(u, 0, a) && National(u, a, |u|);
      NationalIsLong(u, a, |u|);
    }
  }

  lemma PrefixedStarts(u: string)
    requires InternationalNumber(u, 0, |u|)
    ensures |u| > 1 && (u[0] == '+' || (u[0] == '0' && u[1] == '0'))
  {
    var p, q, r, s :|
      ((p == 0 + 1 && 0 <= 0 < |u| && u[0] == '+') || (p == 0 + 2 && At(u, 0, "00"))) && Gap(u, p, q) &&
      1 <= r - q <= 3 && All(Numeral, u, q, r) && Gap(u, r, s) && Grouped(u, s, |u|, 5, 12);
    GroupedForward(u, s, |u|, 5, 12);
    if At(u, 0, "00") { assert u[0..2][0] == u[0] && u[0..2][1] == u[1]; }
  }

  lemma FirstNumberStands(t: string)
    requires TwoNumbers(t)
    ensures StandsAt(PhoneNumber, t, 0, 10)
  {
    TenDigits(t[0..10]);
  }

  /** No number but the first: the plus sign stands behind a digit. */
  lemma OnlyFirst(t: string, i: nat, j: nat)
    requires TwoNumbers(t) && i <= j <= |t|
    ensures StandsAt(PhoneNumber, t, i, j) <==> i == 0 && j == 10
  {
    if StandsAt(PhoneNumber, t, i, j) {
      NumberPlaces(t, i, j);
      TwoStarts(t, i, j);
    }
    WholeIsNone(t, t[0..18]);
    RestIsNone(t, t[11..18]);
    if i == 0 && j == 10 { FirstNumberStands(t); }
  }

  lemma TwoStarts(t: string, i: nat, j: nat)
    requires TwoNumbers(t) && i < j <= |t| && Numeral(t[j - 1]) && (i == 0 || !Numeral(t[i - 1]))
    requires (j == |t| || !Numeral(t[j])) && (Numeral(t[i]) || t[i] == '(' || t[i] == '+')
    ensures (i == 0 && (j == 10 || j == 18)) || (i == 11 && j == 18)
  {
  }

  /** A number has no plus sign in the middle. */
  lemma WholeIsNone(t: string, u: string)
    requires TwoNumbers(t) && u == t[0..18]
    ensures !IsPhone(u)
  {
    assert u[0] == t[0] && u[10] == t[10];
    if InternationalNumber(u, 0, |u|) { PrefixedStarts(u); }
    if NanpNumber(u, 0, |u|) { SignIsFirst(u, 10); }
  }

  /** Seven digits without a prefix are too few. */
  lemma RestIsNone(t: string, u: string)
    requires TwoNumbers(t) && u == t[11..18]
    ensures !IsPhone(u)
  {
    assert u[0] == t[11];
    if InternationalNumber(u, 0, |u|) { PrefixedStarts(u); }
    if NanpNumber(u, 0, |u|) { NumberIsLong(u); }
  }

  const Second := "+1234567"

  lemma FirstIsReplaced(t: string)
    requires TwoNumbers(t)
    ensures Sub(Phone, PhoneMark, t) == PhoneMark + t[10..]
  {
    PhoneFinds(t);
    forall i, j | 0 <= i <= j <= |t| ensures Matches(Phone, t, i, j) <==> i == 0 && j == 10 { OnlyFirst(t, i, j); }
    OnlySpan(Phone, t, 0, 0, 10);
    OneSpliced(t, 0, 10, PhoneMark);
    assert t[..0] == "" && "" + PhoneMark == PhoneMark;
  }

  /** The placeholder and the second number. */
  ghost predicate MarkAndNumber(out: string) {
    |out| == 24 && out[..16] == PhoneMark && out[16] == '+' && All(Numeral, out, 17, 24)
  }

  lemma MarkLetters(out: string)
    requires MarkAndNumber(out)
    ensures forall p :: 0 <= p < 16 ==> !Numeral(out[p]) && (Separator(out[p]) ==> p == 9)
    ensures out[10] == 'p' && out[15] == ']'
  {
    assert forall p :: 0 <= p < 16 ==> out[p] == out[..16][p] == PhoneMark[p];
  }

  lemma SecondIsNumber(u: string)
    requires |u| == 8 && u[0] == '+' && All(Numeral, u, 1, 8)
    ensures IsPhone(u)
  {
    var at := [2, 3, 4, 5, 6, 7];
    assert forall k, l :: 0 <= k && l == k + 1 && l < |at| ==> Group(u, at[k], at[l]);
    assert GroupsAt(u, 2, 7, at);
    assert Grouped(u, 2, 8, 5, 12) && Gap(u, 1, 1) && Gap(u, 2, 2) && All(Numeral, u, 1, 2);
    assert InternationalNumber(u, 0, 8);
  }

  lemma SecondStands(out: string)
    requires MarkAndNumber(out)
    ensures PhoneAt(out, 16, 24)
  {
    MarkLetters(out);
    SecondIsNumber(out[16..24]);
  }

  /** The keyword in the placeholder has a bracket behind it. */
  lemma NoKeywordNumber(out: string)
    requires MarkAndNumber(out)
    ensures NoContextNumberIn(out)
  {
    forall i, j | 0 <= i <= j <= |out| ensures !IsContextNumber(out[i..j]) {
      ContextOfPiece(out, i, j);
      ContextExactly(out, i, j);
      forall k ensures !ContextNumber(out, i, k, j) { NoLead(out, i, k, j); }
    }
  }

  lemma NoLead(out: string, i: nat, k: int, j: nat)
    requires MarkAndNumber(out)
    ensures !ContextNumber(out, i, k, j)
  {
    if ContextNumber(out, i, k, j) {
      var w :| Keyword(out, i, w) && 1 <= k - w <= 4 && All(Separator, out, w, k);
      KeywordEnding(out, i, w);
      GroupedStarts(out, k, j, 6, 13);
      MarkLetters(out);
    }
  }

  lemma OverSum(a: string, b: string, cs: set<char>)
    requires Over(a, cs) && Over(b, cs)
    ensures Over(a + b, cs)
  {
  }

  lemma NumbersJoined(a: string, b: string)
    requires |a| == 10 && All(Numeral, a, 0, 10) && a[0] != '0'
    requires |b| == 8 && b[0] == '+' && All(Numeral, b, 1, 8) && b[1] != '0'
    ensures TwoNumbers(a + b) && (a + b)[10..] == b
  {
    assert forall p :: 0 <= p < 8 ==> (a + b)[10 + p] == b[p];
  }

  lemma MarkJoined(m: string, b: string)
    requires m == PhoneMark && |m| == 16 && |b| == 8 && b[0] == '+' && All(Numeral, b, 1, 8)
    ensures MarkAndNumber(m + b)
  {
    assert (m + b)[..16] == m;
    assert forall p :: 0 <= p < 8 ==> (m + b)[16 + p] == b[p];
  }

  lemma SecondText()
    ensures |Number| == 10 && All(Numeral, Number, 0, 10) && Number[0] != '0' && Over(Number, DullChars)
    ensures |Second| == 8 && Second[0] == '+' && All(Numeral, Second, 1, 8) && Second[1] != '0'
    ensures Over(Second, DullChars)
  {
  }

  lemma NumbersHaveShortRuns(t: string)
    requires TwoNumbers(t) || MarkAndNumber(t)
    ensures ShortRuns(t)
  {
    if MarkAndNumber(t) { MarkLetters(t); }
    forall i, j | 0 <= i && i + 13 <= j <= |t| ensures !All(Numeral, t, i, j) {
      assert TwoNumbers(t) ==> !Numeral(t[10]);
      assert MarkAndNumber(t) ==> !Numeral(t[i]);
    }
  }

  lemma NumbersAreNoAddress(t: string)
    requires TwoNumbers(t)
    ensures NoneIn(Address, t)
  {
    forall i, j | 0 <= i < j <= |t| ensures !StandsAt(Address, t, i, j) {
      if StandsAt(Address, t, i, j) { var p := AddressPlaces(t, i, j); }
    }
  }

  lemma NumberRun(t: string, out: string, cs: set<char>)
    requires TwoNumbers(t) && MarkAndNumber(out) && Dull(cs) && Over(t, cs) && Over(out, cs)
    requires Sub(Phone, PhoneMark, t) == out
    ensures Redact(t) == out
  {
    NumbersHaveShortRuns(t);
    DullIsLeftAlone(t, cs);
    NumbersHaveShortRuns(out);
    DullIsLeftAlone(out, cs);
    NumbersAreNoAddress(t);
    NoKeywordNumber(out);
    OnlyNumbersGo(t, out);
  }

  /** The second number is still there when the first is gone. */
  lemma NumberMayBeLeft()
    ensures Redact("5551234567" + "+1234567") == "[redacted:phone]" + "+1234567"
    ensures PhoneAt("[redacted:phone]" + "+1234567", 16, 24)
  {
    SecondText();
    DullCharsAreDull();
    NumbersJoined(Number, Second);
    MarkJoined(PhoneMark, Second);
    OverSum(Number, Second, DullChars);
    OverSum(PhoneMark, Second, DullChars);
    FirstIsReplaced(Number + Second);
    NumberRun(Number + Second, PhoneMark + Second, DullChars);
    SecondStands(PhoneMark + Second);
  }
}

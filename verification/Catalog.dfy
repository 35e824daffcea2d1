/** The patterns of the sensitive-data catalog and of the generic PII passes, as written in the source. */
module Catalog {
  import opened Regex
  import opened Splice
  import opened Substitution

  const UpperDigit := Cls(false, true, true, false, {})
  const LowerDigit := Cls(true, false, true, false, {})
  const AlphaNum := Cls(true, true, true, false, {})
  const AlphaNumDash := Cls(true, true, true, false, {'-'})
  const AlphaNumUnder := Cls(true, true, true, false, {'_'})
  const AlphaNumUnderDash := Cls(true, true, true, false, {'_', '-'})
  const Base64 := Cls(true, true, true, false, {'+', '/'})
  const UpperSpace := Cls(false, true, false, false, {' '})
  const SlackKind := Cls(false, false, false, false, {'a', 'b', 'p', 'r', 's'})
  const Digit := Cls(false, false, true, false, {})
  const Space := Cls(false, false, false, true, {})
  const Colon := Cls(false, false, false, false, {':', '='})
  const ValueChar := Cls(true, true, true, false, {'_', '@', '.', '-'})

  const B := Look(WordBoundary)
  const Spaces := Rep(One(Space), 0, Unbounded)
  const Spaces1 := Rep(One(Space), 1, Unbounded)

  function Times(k: Cls, n: nat): Re { Rep(One(k), n, Upto(n)) }

  function AtLeast(k: Cls, n: nat): Re { Rep(One(k), n, Unbounded) }

  function Optional(r: Re): Re { Rep(r, 0, Upto(1)) }

  /** `\b` on both sides. */
  function Bounded(body: Re): Re { Cat(B, Cat(body, B)) }

  // ---------- Secrets ----------

  const AwsBody := Cat(Text("AKIA"), Times(UpperDigit, 16))
  const GithubKind := Alt(Text("ghp_"), Alt(Text("gho_"), Alt(Text("ghu_"), Alt(Text("ghs_"), Text("ghr_")))))
  const GithubBody := Cat(GithubKind, Times(AlphaNum, 36))
  const GithubFineBody := Cat(Text("github_pat_"), Times(AlphaNumUnder, 82))
  const AzureHead := Cat(Text("DefaultEndpoints"), Cat(Text("Protocol=https;"), Text("AccountName=")))
  const AzureKey :=
    Cat(AzureHead, Cat(AtLeast(LowerDigit, 1), Cat(Text(";AccountKey="), Cat(AtLeast(Base64, 40), Text(";")))))
  const Pem := Cat(Text("-----BEGIN "), Cat(AtLeast(UpperSpace, 0), Text("PRIVATE KEY-----")))
  const JwtPart := AtLeast(AlphaNumUnderDash, 1)
  const JwtBody := Cat(Text("eyJ"), Cat(JwtPart, Cat(Text(".eyJ"), Cat(JwtPart, Cat(Text("."), JwtPart)))))
  const SlackBody := Cat(Text("xox"), Cat(One(SlackKind), Cat(Text("-"), AtLeast(AlphaNumDash, 10))))
  const GoogleBody := Cat(Text("AIza"), Times(AlphaNumUnderDash, 35))
  const StripeBody := Cat(Alt(Text("sk"), Text("rk")), Cat(Text("_live_"), AtLeast(AlphaNum, 24)))
  const GitlabBody := Cat(Text("glpat-"), Times(AlphaNumUnderDash, 20))
  const NpmBody := Cat(Text("npm_"), Times(AlphaNum, 36))
  const OpenAiBody := Cat(Text("sk-"), Cat(Optional(Text("proj-")), AtLeast(AlphaNum, 32)))

  const SecretPatterns: seq<Re> :=
    [Bounded(AwsBody), Bounded(GithubBody), Bounded(GithubFineBody), AzureKey, Pem, Bounded(JwtBody),
     Bounded(SlackBody), Bounded(GoogleBody), Bounded(StripeBody), Bounded(GitlabBody), Bounded(NpmBody),
     Bounded(OpenAiBody)]

  // ---------- PHI ----------

  const MedicalRecord :=
    Cat(AnyCase("medical"), Cat(Spaces1, Cat(AnyCase("record"), Optional(Cat(Spaces1, AnyCase("number"))))))
  const PatientId := Cat(AnyCase("patient"), Cat(Spaces1, AnyCase("id")))
  const MrnLabel := Alt(AnyCase("mrn"), Alt(MedicalRecord, PatientId))
  const MrnBody := Cat(MrnLabel, Cat(Spaces, Cat(One(Colon), Cat(Spaces, Rep(One(Digit), 5, Upto(12))))))
  const Mrn := Bounded(MrnBody)

  const PatientField := Cat(AnyCase("patient_"), Alt(AnyCase("id"), Alt(AnyCase("name"), AnyCase("email"))))
  const SocialSecurity := Cat(AnyCase("social_security"), Optional(AnyCase("_number")))
  const DateOfBirth := Cat(AnyCase("date_"), AnyCase("of_birth"))
  const PhiLabel :=
    Alt(PatientField, Alt(DateOfBirth, Alt(AnyCase("dob"), Alt(AnyCase("ssn"), SocialSecurity))))
  const PhiField := Cat(B, Cat(PhiLabel, Cat(Spaces, One(Colon))))

  /** The redaction of a PHI field also takes the value, which may be empty. */
  const PhiFieldValue := Cat(Cat(PhiField, Spaces), Rep(One(ValueChar), 0, Unbounded))

  const PhiPatterns: seq<Re> := [Mrn, PhiField]
  const RedactPhiPatterns: seq<Re> := [Mrn, PhiFieldValue]

  // ---------- PAN ----------

  const PanCandidate := Bounded(Rep(One(Digit), 13, Upto(19)))
  const IdWord :=
    Alt(AnyCase("order_id"), Alt(AnyCase("order"), Alt(AnyCase("ref"), Alt(AnyCase("ref_id"),
    Alt(AnyCase("transaction_id"), Alt(AnyCase("txn_id"), Alt(AnyCase("id"), Alt(AnyCase("user_id"),
    Alt(AnyCase("account_id"), Alt(AnyCase("invoice_id"), AnyCase("receipt")))))))))))
  const IdLabel := Cat(B, Cat(IdWord, Cat(Spaces, Cat(One(Colon), Cat(Spaces, Look(TextEnd))))))

  // ---------- Email and phone ----------

  const EmailLocal := Cls(true, true, true, false, {'.', '_', '%', '+', '-'})
  const Letter := Cls(true, true, false, false, {})
  const Email :=
    Cat(B, Cat(Rep(One(EmailLocal), 1, Upto(64)), Cat(Text("@"),
      Cat(Rep(Cat(Rep(One(AlphaNumDash), 1, Upto(63)), Text(".")), 1, Unbounded),
        Cat(Rep(One(Letter), 2, Upto(63)), B)))))

  const PhoneGap := Optional(One(Cls(false, false, false, false, {' ', '.', '-'})))
  const CountryCode := Cat(Optional(Text("+")), Cat(Rep(One(Digit), 1, Upto(3)), PhoneGap))
  const AreaCode := Alt(Cat(Text("("), Cat(Times(Digit, 3), Text(")"))), Times(Digit, 3))
  const Nanp :=
    Cat(Optional(CountryCode), Cat(AreaCode, Cat(PhoneGap, Cat(Times(Digit, 3), Cat(PhoneGap, Times(Digit, 4))))))
  const International :=
    Cat(Alt(Text("+"), Text("00")), Cat(PhoneGap, Cat(Rep(One(Digit), 1, Upto(3)), Cat(PhoneGap,
      Cat(Rep(Cat(One(Digit), PhoneGap), 5, Upto(12)), One(Digit))))))
  const Phone := Cat(Look(NotAfterDigit), Cat(Alt(Nanp, International), Look(NotBeforeDigit)))

  const PhoneWord :=
    Alt(AnyCase("tel"), Alt(AnyCase("phone"), Alt(AnyCase("call"), Alt(AnyCase("ring"), Alt(AnyCase("mobile"),
    Alt(AnyCase("cell"), Alt(AnyCase("fax"), AnyCase("whatsapp"))))))))
  const PhoneLead := Cat(PhoneWord, Cat(B, Rep(One(Cls(false, false, false, false, {' ', ':', '.', '-'})), 1, Upto(4))))
  const PhoneRun := Cat(Rep(Cat(One(Digit), PhoneGap), 6, Upto(13)), One(Digit))
  const PhoneInContext := Cat(PhoneLead, PhoneRun)

  const SecretMark := "[redacted:secret]"
  const PhiMark := "[redacted:phi]"
  const PanMark := "[redacted:pan]"
  const EmailMark := "[redacted:email]"
  const PhoneMark := "[redacted:phone]"
}

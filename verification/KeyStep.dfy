/**
 Replacing Azure storage keys, the one substitution of the catalog that can put a placeholder next to a
 word character: exactly which tokens it turns into matches of an earlier pattern.
 */
module KeyStep {
  import opened Regex
  import opened Splice
  import opened SplicePlaces
  import opened Substitution
  import opened Catalog
  import opened RegexShapes
  import opened CatalogFacts
  import opened Redaction
  import opened RedactionProof

  /** A token at a word boundary, with a storage key directly behind it. */
  function Glued(body: Re): Re { Cat(B, Cat(body, AzureKey)) }

  // ---------- The shape of a key ----------

  /** The head of a key, the account name up to `k`, the key proper and a semicolon. */
  ghost predicate KeyParts(t: string, p: nat, k: nat, e: nat) {
    p + 43 < k && k + 53 <= e <= |t| &&
    t[p..p + 16] == "DefaultEndpoints" && t[p + 16..p + 31] == "Protocol=https;" &&
    t[p + 31..p + 43] == "AccountName=" &&
    AllIn(LowerDigit, t, p + 43, k) && t[k..k + 12] == ";AccountKey=" && AllIn(Base64, t, k + 12, e - 1) &&
    t[e - 1] == ';'
  }

  lemma KeyShape(t: string, p: nat, e: nat) returns (k: nat)
    requires p <= e <= |t| && Matches(AzureKey, t, p, e)
    ensures KeyParts(t, p, k, e)
  {
    var h := HeadShape(AzureKey.second, t, p, e);
    k := TailShape(LowerDigit, ";AccountKey=", Base64, ";", t, h, e);
  }

  lemma TailShape(name: Cls, middle: Literal, key: Cls, last: Literal, t: string, h: nat, e: nat) returns (k: nat)
    requires |middle| == 12 && |last| == 1
    requires h <= e <= |t|
    requires Matches(Cat(AtLeast(name, 1), Cat(Text(middle), Cat(AtLeast(key, 40), Text(last)))), t, h, e)
    ensures h < k && k + 53 <= e && AllIn(name, t, h, k) && t[k..k + 12] == middle && AllIn(key, t, k + 12, e - 1)
    ensures t[e - 1] == last[0]
  {
    k := SplitRun(name, 1, Cat(Text(middle), Cat(AtLeast(key, 40), Text(last))), t, h, e);
    SplitText(middle, Cat(AtLeast(key, 40), Text(last)), t, k, e);
    var m := SplitRun(key, 40, Text(last), t, k + 12, e);
    assert t[m..e] == last && t[m..e][0] == t[m];
  }

  lemma HeadShape(tail: Re, t: string, p: nat, e: nat) returns (h: nat)
    requires p <= e <= |t| && Matches(Cat(AzureHead, tail), t, p, e)
    ensures h == p + 43 <= e && Matches(tail, t, h, e)
    ensures t[p..p + 16] == "DefaultEndpoints" && t[p + 16..p + 31] == "Protocol=https;" &&
            t[p + 31..h] == "AccountName="
  {
    h :| p <= h <= e && Matches(AzureHead, t, p, h) && Matches(tail, t, h, e);
    SplitText("DefaultEndpoints", Cat(Text("Protocol=https;"), Text("AccountName=")), t, p, h);
    SplitText("Protocol=https;", Text("AccountName="), t, p + 16, h);
    assert t[p + 31..h] == "AccountName=";
  }

  // ---------- Keys do not overlap ----------

  lemma OneCapitalD()
    ensures forall k :: 1 <= k < 16 ==> "DefaultEndpoints"[k] != 'D'
    ensures forall k :: 0 <= k < 15 ==> "Protocol=https;"[k] != 'D'
    ensures forall k :: 0 <= k < 12 ==> "AccountName="[k] != 'D' && ";AccountKey="[k] != 'D'
  {
  }

  /** Inside a key, a capital D stands in front or in the key proper. */
  lemma CapitalD(t: string, p: nat, k: nat, e: nat, m: nat)
    requires KeyParts(t, p, k, e) && p < m < e && t[m] == 'D'
    ensures k + 12 <= m
  {
    OneCapitalD();
    if m < p + 16 {
      CharAt(t, p, p + 16, "DefaultEndpoints", m);
    } else if m < p + 31 {
      CharAt(t, p + 16, p + 31, "Protocol=https;", m);
    } else if m < p + 43 {
      CharAt(t, p + 31, p + 43, "AccountName=", m);
    } else if k <= m < k + 12 {
      CharAt(t, k, k + 12, ";AccountKey=", m);
    }
  }

  lemma NoSemicolonBeforeEquals()
    ensures forall k :: 0 <= k < 16 ==> "DefaultEndpoints"[k] != ';'
    ensures forall k :: 0 <= k < 9 ==> "Protocol=https;"[k] != ';'
    ensures "Protocol=https;"[8] == '=' && "DefaultEndpoints"[0] == 'D'
  {
  }

  /** The first 25 characters of a key: no semicolon, and an equals sign at the end. */
  lemma KeyFront(t: string, m: nat, k: nat, e: nat)
    requires KeyParts(t, m, k, e)
    ensures t[m] == 'D' && t[m + 24] == '=' && forall q :: m <= q < m + 25 ==> t[q] != ';'
  {
    NoSemicolonBeforeEquals();
    CharAt(t, m, m + 16, "DefaultEndpoints", m);
    CharAt(t, m + 16, m + 31, "Protocol=https;", m + 24);
    forall q | m <= q < m + 25 ensures t[q] != ';' {
      if q < m + 16 { CharAt(t, m, m + 16, "DefaultEndpoints", q); }
      else { CharAt(t, m + 16, m + 31, "Protocol=https;", q); }
    }
  }

  lemma KeysAreApart(t: string, p: nat, e: nat, m: nat, e': nat)
    requires p <= e <= |t| && m <= e' <= |t| && p <= m < e
    requires Matches(AzureKey, t, p, e) && Matches(AzureKey, t, m, e')
    ensures m == p
  {
    var k := KeyShape(t, p, e);
    var k' := KeyShape(t, m, e');
    KeyFront(t, m, k', e');
    if p < m {
      CapitalD(t, p, k, e, m);
      NoEquals(t[m + 24]);
    }
  }

  lemma NoEquals(c: char)
    ensures In(c, Base64) ==> c != '='
  {
  }

  // ---------- A token that is left alone ----------

  /** Every match is made of word characters. */
  predicate WordsOnly(r: Re) {
    match r
    case Text(s) => forall p :: 0 <= p < |s| ==> IsWord(s[p])
    case AnyCase(_) => true
    case One(k) => !k.space && forall c :: c in k.extra ==> IsWord(c)
    case Cat(a, b) => WordsOnly(a) && WordsOnly(b)
    case Alt(a, b) => WordsOnly(a) && WordsOnly(b)
    case Rep(b, _, _) => WordsOnly(b)
    case Look(_) => true
  }

  lemma {:induction false} WordsOnlySound(r: Re, t: string, i: nat, j: nat)
    requires i <= j <= |t| && WordsOnly(r) && Matches(r, t, i, j)
    ensures forall p :: i <= p < j ==> IsWord(t[p])
    decreases r, 0
  {
    match r
    case Text(s) =>
      forall p | i <= p < j ensures IsWord(t[p]) { assert t[p] == t[i..j][p - i] == s[p - i]; }
    case AnyCase(s) =>
      forall p | i <= p < j ensures IsWord(t[p]) { assert t[p] == t[i..j][p - i] && Lower(t[p]) == s[p - i]; }
    case One(k) =>
    case Cat(a, b) =>
      var m :| i <= m <= j && Matches(a, t, i, m) && Matches(b, t, m, j);
      WordsOnlySound(a, t, i, m);
      WordsOnlySound(b, t, m, j);
    case Alt(a, b) =>
      if Matches(a, t, i, j) { WordsOnlySound(a, t, i, j); } else { WordsOnlySound(b, t, i, j); }
    case Rep(b, lo, hi) => WordRepeats(b, lo, hi, t, i, j);
    case Look(_) =>
  }

  lemma {:induction false} WordRepeats(b: Re, lo: nat, hi: Bound, t: string, i: nat, j: nat)
    requires i <= j <= |t| && WordsOnly(b) && Repeats(b, lo, hi, t, i, j)
    ensures forall p :: i <= p < j ==> IsWord(t[p])
    decreases b, 1 + j - i
  {
    if i < j {
      var lo' := if lo == 0 then 0 else lo - 1;
      var m :| i < m <= j && Matches(b, t, i, m) && Repeats(b, lo', Less(hi), t, m, j);
      WordsOnlySound(b, t, i, m);
      WordRepeats(b, lo', Less(hi), t, m, j);
    }
  }

  // ---------- What the step exposes ----------

  /** A token the step can expose: plain, and made of word characters. */
  ghost predicate WordToken(body: Re) {
    PlainBody(body, MarkChars) && WordsOnly(body)
  }

  lemma SplitGlued(body: Re, t: string, i: nat, e: nat) returns (m: nat)
    requires i <= e <= |t| && Matches(Glued(body), t, i, e)
    ensures i <= m <= e && BoundaryAt(t, i) && Matches(body, t, i, m) && Matches(AzureKey, t, m, e)
  {
    var k := SplitCat(B, Cat(body, AzureKey), t, i, e);
    m := SplitCat(body, AzureKey, t, k, e);
  }

  lemma MakeGlued(body: Re, t: string, i: nat, m: nat, e: nat)
    requires i <= m <= e <= |t| && BoundaryAt(t, i) && Matches(body, t, i, m) && Matches(AzureKey, t, m, e)
    ensures Matches(Glued(body), t, i, e)
  {
    assert Matches(B, t, i, i);
    assert Matches(Cat(body, AzureKey), t, i, e);
  }

  lemma KeyCuts(u: string)
    ensures Ordered(FindIter(AzureKey, u, 0), 0, |u|)
    ensures forall c :: c in FindIter(AzureKey, u, 0) ==>
              c.0 < c.1 <= |u| && Matches(AzureKey, u, c.0, c.1) && u[c.1 - 1] == ';' && SafeEdge(u, c.1)
    ensures NonEmpty(FindIter(AzureKey, u, 0)) && SafeEnds(u, FindIter(AzureKey, u, 0))
  {
    SpansAreHits(AzureKey, u, 0);
    forall c | c in FindIter(AzureKey, u, 0) ensures u[c.1 - 1] == ';' && SafeEdge(u, c.1) {
      var k := KeyShape(u, c.0, c.1);
      AzureEndsSafely();
      SafeEndSound(AzureKey, u, c.0, c.1);
    }
  }

  /** A token directly in front of a key becomes a match when the key is replaced. */
  lemma KeyExposes(body: Re, s: string, u: string, i: nat, e: nat) returns (a: nat, b: nat)
    requires WordToken(body) && MarkIn(s, MarkChars) && i <= e <= |u| && Matches(Glued(body), u, i, e)
    ensures a <= b <= |Sub(AzureKey, s, u)| && Matches(Bounded(body), Sub(AzureKey, s, u), a, b)
  {
    var m := SplitGlued(body, u, i, e);
    WordPiece(body, u, i, m);
    UntouchedByKeys(u, i, m, e);
    KeyIsCut(u, m, e);
    KeyCuts(u);
    a, b := ExposedBy(body, u, FindIter(AzureKey, u, 0), s, i, m);
  }

  lemma WordPiece(body: Re, u: string, i: nat, m: nat)
    requires WordToken(body) && i <= m <= |u| && Matches(body, u, i, m)
    ensures i < m && (forall p :: i <= p < m ==> IsWord(u[p])) && Assertions(body) == {}
  {
    MarkCharsAreLow();
    EscapesSound(body, MarkChars, u, i, m);
    WordsOnlySound(body, u, i, m);
  }

  /** No key is replaced inside a word in front of a key. */
  lemma UntouchedByKeys(u: string, i: nat, m: nat, e: nat)
    requires i < m <= e <= |u| && Matches(AzureKey, u, m, e) && forall p :: i <= p < m ==> IsWord(u[p])
    ensures Untouched(FindIter(AzureKey, u, 0), i, m)
  {
    KeyCuts(u);
    forall c | c in FindIter(AzureKey, u, 0) ensures c.1 <= i || m <= c.0 {
      if c.0 <= m < c.1 { KeysAreApart(u, c.0, c.1, m, e); }
    }
  }

  lemma ExposedBy(body: Re, u: string, cuts: seq<(nat, nat)>, s: string, i: nat, m: nat) returns (a: nat, b: nat)
    requires Ordered(cuts, 0, |u|) && Bracketed(s) && NonEmpty(cuts)
    requires i < m <= |u| && Untouched(cuts, i, m) && CutStart(cuts, m)
    requires Assertions(body) == {} && BoundaryAt(u, i) && Matches(body, u, i, m)
    requires forall p :: i <= p < m ==> IsWord(u[p])
    ensures a <= b <= |Spliced(u, 0, cuts, s)| && Matches(Bounded(body), Spliced(u, 0, cuts, s), a, b)
  {
    a, b := KeepPlace(u, 0, cuts, s, i, m);
    ExposedMatch(body, u, cuts, i, m, Spliced(u, 0, cuts, s), a, b);
  }

  lemma KeyIsCut(u: string, m: nat, e: nat)
    requires m <= e <= |u| && Matches(AzureKey, u, m, e)
    ensures CutStart(FindIter(AzureKey, u, 0), m)
  {
    KeyCuts(u);
    AzureIsTame();
    TameMatchIsHit(AzureKey, MarkChars, u, m, e);
    if !Inside(FindIter(AzureKey, u, 0), m) { OutsideSpans(AzureKey, u, 0, m); }
    var c :| c in FindIter(AzureKey, u, 0) && c.0 <= m < c.1;
    KeysAreApart(u, c.0, c.1, m, e);
  }

  lemma ExposedMatch(body: Re, u: string, cuts: seq<(nat, nat)>, i: nat, m: nat, out: string, a: nat, b: nat)
    requires Assertions(body) == {} && Placed(u, 0, cuts, out, i, m, a, b) && CutStart(cuts, m)
    requires BoundaryAt(u, i) && Matches(body, u, i, m) && forall p :: i <= p < m ==> IsWord(u[p])
    ensures Matches(Bounded(body), out, a, b)
  {
    Transfer(body, u, i, out, a, m - i);
    SameAt(out, a, b, u, i, m, 0);
    SameAt(out, a, b, u, i, m, m - i - 1);
    assert out[b - 1] == u[m - 1] && IsWord(u[m - 1]) && IsWord(u[i]);
    MakeBounded(body, out, a, b);
  }

  // ---------- What the step leaves alone ----------

  /** A match after the step was one before, or stood directly in front of a key. */
  lemma KeyCreates(body: Re, s: string, u: string, a: nat, b: nat) returns (i: nat, e: nat)
    requires PlainBody(body, MarkChars) && MarkIn(s, MarkChars)
    requires a <= b <= |Sub(AzureKey, s, u)| && Matches(Bounded(body), Sub(AzureKey, s, u), a, b)
    ensures i <= e <= |u| && (Matches(Bounded(body), u, i, e) || Matches(Glued(body), u, i, e))
  {
    var cuts := FindIter(AzureKey, u, 0);
    KeyCuts(u);
    i, e := PieceBefore(body, u, cuts, s, a, b);
    if BoundaryAt(u, e) {
      MakeBounded(body, u, i, e);
    } else {
      var c :| c in cuts && c.0 == e;
      MakeGlued(body, u, i, e, c.1);
      e := c.1;
    }
  }

  /** A token in spliced text was there before, and what was no boundary behind it is the start of a cut. */
  lemma PieceBefore(body: Re, u: string, cuts: seq<(nat, nat)>, s: string, a: nat, b: nat) returns (p: nat, q: nat)
    requires PlainBody(body, MarkChars) && MarkIn(s, MarkChars) && Ordered(cuts, 0, |u|) && SafeEnds(u, cuts)
    requires a <= b <= |Spliced(u, 0, cuts, s)| && Matches(Bounded(body), Spliced(u, 0, cuts, s), a, b)
    ensures p <= q <= |u| && BoundaryAt(u, p) && Matches(body, u, p, q) && (BoundaryAt(u, q) || CutStart(cuts, q))
  {
    var out := Spliced(u, 0, cuts, s);
    SplitBounded(body, out, a, b);
    MarkCharsAreLow();
    BlindPiece(body, out, s, MarkChars, a, b);
    var n;
    p, n := Locate(u, 0, cuts, s, a, b);
    q := p + (b - a);
    PieceMoves(body, u, cuts, out, a, b, p, n);
  }

  lemma PieceMoves(body: Re, u: string, cuts: seq<(nat, nat)>, out: string, a: nat, b: nat, p: nat, n: nat)
    requires Assertions(body) == {} && Found(u, 0, cuts, out, a, b, p, n) && SafeEnds(u, cuts)
    requires BoundaryAt(out, a) && Matches(body, out, a, b) && BoundaryAt(out, b)
    ensures var q := p + (b - a);
            BoundaryAt(u, p) && Matches(body, u, p, q) && (BoundaryAt(u, q) || CutStart(cuts, q))
  {
    var q := p + (b - a);
    Transfer(body, out, a, u, p, b - a);
    LeftBoundary(u, cuts, out, a, b, p, n);
    SameAt(out, a, b, u, p, q, b - a - 1);
    NextIsCut(u, cuts, out, b, q);
  }

  lemma MarkCharsAreLow()
    ensures forall c :: c in MarkChars ==> !IsUpper(c)
  {
  }

  /** A boundary that was not there before is the start of a placeholder. */
  lemma NextIsCut(t: string, cuts: seq<(nat, nat)>, out: string, b: nat, q: nat)
    requires SameNext(t, cuts, out, b, q) && 0 < b && 0 < q && out[b - 1] == t[q - 1] && BoundaryAt(out, b)
    ensures BoundaryAt(t, q) || CutStart(cuts, q)
  {
  }

  /** Replacing storage keys leaves a token's pattern clean exactly when no such token stands directly in front
      of a key. */
  lemma KeyStepExactly(body: Re, s: string, u: string)
    requires WordToken(body) && MarkIn(s, MarkChars) && Clean(Bounded(body), u)
    ensures Clean(Bounded(body), Sub(AzureKey, s, u)) <==> Clean(Glued(body), u)
  {
    var out := Sub(AzureKey, s, u);
    if i, e :| 0 <= i <= e <= |u| && Matches(Glued(body), u, i, e) {
      var a, b := KeyExposes(body, s, u, i, e);
    }
    if a, b :| 0 <= a <= b <= |out| && Matches(Bounded(body), out, a, b) {
      var i, e := KeyCreates(body, s, u, a, b);
    }
  }
}

/** The loops of `detect_sensitive` and `redact_catalog`. */
module RedactionPasses {
  import opened Regex
  import opened Splice
  import opened Substitution
  import opened Catalog
  import opened Luhn
  import opened Redaction

  lemma HitsOfAppend(cls: Class, k: nat, t: string, spans: seq<(nat, nat)>, c: (nat, nat))
    ensures HitsOf(cls, k, t, spans + [c]) == HitsOf(cls, k, t, spans) + [HitAt(cls, k, t, c)]
  {
  }

  lemma {:induction false} PansOfAppend(t: string, spans: seq<(nat, nat)>, c: (nat, nat))
    requires forall s :: s in spans + [c] ==> s.0 <= s.1 <= |t|
    ensures (forall s :: s in spans ==> s in spans + [c]) && c in spans + [c]
    ensures PansOf(t, spans + [c]) == PansOf(t, spans) + if IsPan(t, c) then [c] else []
  {
    assert (spans + [c])[|spans|] == c;
    if spans != [] {
      assert (spans + [c])[1..] == spans[1..] + [c];
      assert forall s :: s in (spans + [c])[1..] ==> s in spans + [c];
      PansOfAppend(t, spans[1..], c);
    } else {
      assert (spans + [c])[1..] == [];
    }
  }

  /** The matches of one pattern, each a hit. */
  method AppendHits(cls: Class, idx: nat, content: string, matches: seq<(nat, nat)>, before: seq<SensitiveHit>)
    returns (hits: seq<SensitiveHit>)
    ensures hits == before + HitsOf(cls, idx, content, matches)
  {
    hits := before;
    var m := 0;
    while m < |matches|
      invariant m <= |matches|
      invariant hits == before + HitsOf(cls, idx, content, matches[..m])
    {
      assert matches[..m + 1] == matches[..m] + [matches[m]];
      HitsOfAppend(cls, idx, content, matches[..m], matches[m]);
      hits := hits + [HitAt(cls, idx, content, matches[m])];
      m := m + 1;
    }
    assert matches[..m] == matches;
  }

  /** One pattern class of `detect_sensitive`: every match of every pattern is a hit. */
  method AppendMatches(cls: Class, patterns: seq<Re>, content: string, before: seq<SensitiveHit>)
    returns (hits: seq<SensitiveHit>)
    ensures hits == before + HitsFrom(cls, patterns, 0, content)
  {
    hits := before;
    var idx := 0;
    while idx < |patterns|
      invariant idx <= |patterns|
      invariant hits + HitsFrom(cls, patterns, idx, content) == before + HitsFrom(cls, patterns, 0, content)
    {
      hits := AppendHits(cls, idx, content, FindIter(patterns[idx], content, 0), hits);
      idx := idx + 1;
    }
  }

  lemma PanHitsAppend(t: string, runs: seq<(nat, nat)>, c: (nat, nat))
    requires forall d :: d in runs + [c] ==> d.0 <= d.1 <= |t|
    ensures c in runs + [c] && forall d :: d in runs ==> d in runs + [c]
    ensures HitsOf(Pan, 0, t, PansOf(t, runs + [c])) ==
            HitsOf(Pan, 0, t, PansOf(t, runs)) + if IsPan(t, c) then [HitAt(Pan, 0, t, c)] else []
  {
    PansOfAppend(t, runs, c);
    if IsPan(t, c) {
      HitsOfAppend(Pan, 0, t, PansOf(t, runs), c);
    } else {
      assert PansOf(t, runs) + [] == PansOf(t, runs);
    }
  }

  /** The candidate runs that are neither labelled as an id nor fail the checksum. */
  method AppendPans(content: string, runs: seq<(nat, nat)>, before: seq<SensitiveHit>)
    returns (hits: seq<SensitiveHit>)
    requires forall c :: c in runs ==> c.0 <= c.1 <= |content|
    ensures hits == before + HitsOf(Pan, 0, content, PansOf(content, runs))
  {
    hits := before;
    var m := 0;
    while m < |runs|
      invariant m <= |runs|
      invariant hits == before + HitsOf(Pan, 0, content, PansOf(content, runs[..m]))
    {
      assert runs[..m + 1] == runs[..m] + [runs[m]];
      PanHitsAppend(content, runs[..m], runs[m]);
      if IsPan(content, runs[m]) {
        hits := hits + [HitAt(Pan, 0, content, runs[m])];
      }
      m := m + 1;
    }
    assert runs[..m] == runs;
  }

  method DetectPans(content: string, before: seq<SensitiveHit>) returns (hits: seq<SensitiveHit>)
    ensures hits == before + PanHits(content)
  {
    SpansAreHits(PanCandidate, content, 0);
    hits := AppendPans(content, FindIter(PanCandidate, content, 0), before);
  }

  /** The detector, for any two lists of patterns. */
  method Detect(secrets: seq<Re>, phi: seq<Re>, content: string) returns (hits: seq<SensitiveHit>)
    ensures hits == DetectWith(secrets, phi, content)
  {
    hits := AppendMatches(Secret, secrets, content, []);
    hits := AppendMatches(Phi, phi, content, hits);
    hits := DetectPans(content, hits);
  }

  /** The whole detector. */
  method DetectAll(content: string) returns (hits: seq<SensitiveHit>)
    ensures hits == DetectSensitive(content)
  {
    hits := Detect(SecretPatterns, PhiPatterns, content);
  }

  /** Rewrite the text once per pattern. */
  method SubstituteEach(patterns: seq<Re>, placeholder: string, text: string) returns (out: string)
    ensures out == SubAll(patterns, placeholder, text)
  {
    out := text;
    var k := 0;
    while k < |patterns|
      invariant k <= |patterns|
      invariant SubAll(patterns[k..], placeholder, out) == SubAll(patterns, placeholder, text)
    {
      assert patterns[k..][1..] == patterns[k + 1..];
      out := Sub(patterns[k], placeholder, out);
      k := k + 1;
    }
  }

  /** Secrets, then PHI with its value, then card numbers. */
  method CatalogPass(text: string) returns (out: string)
    ensures out == RedactCatalog(text)
  {
    out := SubstituteEach(SecretPatterns, SecretMark, text);
    out := SubstituteEach(RedactPhiPatterns, PhiMark, out);
    out := RedactPan(out);
  }
}

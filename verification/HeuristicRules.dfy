/** When each universal advisory is given, said of the source as it stands: its body, its authors, its markers. */
module HeuristicRules {
  import opened JsonValue
  import opened Strings
  import opened Heuristics
  import Regex

  // ---------- What a text says but for white space around it and case ----------

  /** A word that white space cannot be part of at either end. */
  predicate Tight(w: string) { w != "" && !White(w[0]) && !White(w[|w| - 1]) }

  /** The word and nothing else. */
  ghost predicate SaysOnly(s: string, w: string) {
    exists i :: AllWhite(s, 0, i) && SpelledAt(s, i, w) && AllWhite(s, i + |w|, |s|)
  }

  ghost predicate SaysFirst(s: string, w: string) {
    exists i :: AllWhite(s, 0, i) && SpelledAt(s, i, w)
  }

  ghost predicate SaysLast(s: string, w: string) {
    exists i :: SpelledAt(s, i, w) && AllWhite(s, i + |w|, |s|)
  }

  lemma SpelledEnds(s: string, p: int, w: string)
    requires SpelledAt(s, p, w) && Tight(w)
    ensures !White(s[p]) && !White(s[p + |w| - 1])
  {
    assert Regex.Lower(s[p + 0]) == w[0] && Regex.Lower(s[p + (|w| - 1)]) == w[|w| - 1];
  }

  /** What is spelled lies between the white space. */
  lemma SpelledInside(s: string, i: nat, j: nat, p: int, w: string)
    requires i <= j <= |s| && AllWhite(s, 0, i) && AllWhite(s, j, |s|) && SpelledAt(s, p, w) && Tight(w)
    ensures i <= p && p + |w| <= j
  {
    SpelledEnds(s, p, w);
  }

  /** The squeezed text, character by character. */
  lemma SqueezedAt(s: string) returns (i: nat, j: nat)
    ensures i <= j <= |s| && AllWhite(s, 0, i) && AllWhite(s, j, |s|)
    ensures |Squeezed(s)| == j - i && forall k :: 0 <= k < j - i ==> Squeezed(s)[k] == Regex.Lower(s[i + k])
    ensures i < j ==> !White(s[i]) && !White(s[j - 1])
  {
    i, j := StripAt(s);
    assert forall k :: 0 <= k < j - i ==> Strip(s)[k] == s[i + k];
  }

  lemma SpelledThere(s: string, i: nat, j: nat, u: string, k: nat, w: string)
    requires i <= j <= |s| && |u| == j - i && forall m :: 0 <= m < j - i ==> u[m] == Regex.Lower(s[i + m])
    requires k + |w| <= |u|
    ensures StandsAt(u, k, w) <==> SpelledAt(s, i + k, w)
  {
    var v := u[k..k + |w|];
    assert forall m :: 0 <= m < |w| ==> v[m] == Regex.Lower(s[i + k + m]);
    if v == w { assert forall m :: 0 <= m < |w| ==> v[m] == w[m]; }
  }

  lemma OnlyExactly(s: string, w: string)
    requires Tight(w)
    ensures Squeezed(s) == w <==> SaysOnly(s, w)
  {
    var i, j := SqueezedAt(s);
    var u := Squeezed(s);
    if |w| <= |u| { SpelledThere(s, i, j, u, 0, w); }
    if u == w { assert u[0..|w|] == w; }
    if p :| AllWhite(s, 0, p) && SpelledAt(s, p, w) && AllWhite(s, p + |w|, |s|) {
      SpelledInside(s, i, j, p, w);
      assert p == i && p + |w| == j;
      assert u[0..|w|] == u;
    }
  }

  lemma FirstExactly(s: string, w: string)
    requires Tight(w)
    ensures w <= Squeezed(s) <==> SaysFirst(s, w)
  {
    var i, j := SqueezedAt(s);
    var u := Squeezed(s);
    if |w| <= |u| { SpelledThere(s, i, j, u, 0, w); }
    assert w <= u <==> StandsAt(u, 0, w);
    if p :| AllWhite(s, 0, p) && SpelledAt(s, p, w) {
      SpelledInside(s, i, j, p, w);
      assert p == i;
    }
  }

  lemma LastExactly(s: string, w: string)
    requires Tight(w)
    ensures EndsWith(Squeezed(s), w) <==> SaysLast(s, w)
  {
    var i, j := SqueezedAt(s);
    var u := Squeezed(s);
    if |w| <= |u| {
      SpelledThere(s, i, j, u, |u| - |w|, w);
      assert u[|u| - |w|..|u| - |w| + |w|] == u[|u| - |w|..];
    }
    if p :| SpelledAt(s, p, w) && AllWhite(s, p + |w|, |s|) {
      SpelledInside(s, i, j, p, w);
      assert p + |w| == j;
    }
  }

  lemma NamedExactly(s: string, w: string)
    requires Tight(w)
    ensures Contains(Squeezed(s), w) <==> Names(s, w)
  {
    var i, j := SqueezedAt(s);
    var u := Squeezed(s);
    forall k: nat | k + |w| <= |u| ensures StandsAt(u, k, w) <==> SpelledAt(s, i + k, w) {
      SpelledThere(s, i, j, u, k, w);
    }
    if p :| 0 <= p && p + |w| <= |s| && SpelledAt(s, p, w) {
      SpelledInside(s, i, j, p, w);
      var k: nat := p - i;
      assert StandsAt(u, k, w);
    }
    if k :| 0 <= k <= |u| && StandsAt(u, k, w) { assert SpelledAt(s, i + k, w); }
  }

  // ---------- The rules ----------

  ghost predicate Given(s: seq<Advisory>, kind: string) {
    exists a :: a in s && a.kind == kind
  }

  lemma {:induction false} AppliedExactly(rules: seq<Rule>, a: Advisory)
    ensures a in Applied(rules) <==> exists i :: 0 <= i < |rules| && rules[i].holds && rules[i].advisory == a
    decreases rules
  {
    if rules != [] {
      AppliedExactly(rules[1..], a);
      if i :| 0 <= i < |rules| && rules[i].holds && rules[i].advisory == a {
        if i > 0 { assert rules[1..][i - 1] == rules[i]; }
      }
      if a in Applied(rules[1..]) {
        var i :| 0 <= i < |rules[1..]| && rules[1..][i].holds && rules[1..][i].advisory == a;
        assert rules[i + 1] == rules[1..][i];
      }
    }
  }

  /** A rule that gives a kind no other rule gives. */
  lemma GivenExactly(rules: seq<Rule>, n: nat)
    requires n < |rules| && forall i :: 0 <= i < |rules| && i != n ==> rules[i].advisory.kind != rules[n].advisory.kind
    ensures Given(Applied(rules), rules[n].advisory.kind) <==> rules[n].holds
  {
    AppliedExactly(rules, rules[n].advisory);
    if a :| a in Applied(rules) && a.kind == rules[n].advisory.kind { AppliedExactly(rules, a); }
  }

  /** A marker of the connector says just the word. */
  ghost predicate MarkerSays(show: Show, e: Emission, key: string, w: string) {
    key in e.metadata && SaysOnly(Heuristics.Text(show, e.metadata[key]), w)
  }

  predicate MarkerIsSet(e: Emission, key: string) { key in e.metadata && Truthy(e.metadata[key]) }

  ghost predicate ByBot(show: Show, e: Emission) {
    MarkerSays(show, e, "actor_type", "bot") || exists i :: 0 <= i < |e.authors| && SaysLast(e.authors[i], "[bot]")
  }

  ghost predicate ByDependencyTool(e: Emission) {
    exists i :: 0 <= i < |e.authors| && (Names(e.authors[i], "dependabot") || Names(e.authors[i], "renovate"))
  }

  ghost predicate OnlyStatus(e: Emission) {
    SaysOnly(e.body, "lgtm") || SaysOnly(e.body, "approved") || SaysOnly(e.body, "done") ||
    SaysOnly(e.body, "fixed") || SaysOnly(e.body, "closed")
  }

  ghost predicate FromTemplate(e: Emission) {
    SaysFirst(e.body, "<!--") || Names(e.body, "issue template")
  }

  lemma MarkerExactly(show: Show, e: Emission, key: string, w: string)
    requires Tight(w)
    ensures Squeezed(if key in e.metadata then Heuristics.Text(show, e.metadata[key]) else "") == w <==>
            MarkerSays(show, e, key, w)
  {
    if key in e.metadata {
      OnlyExactly(Heuristics.Text(show, e.metadata[key]), w);
    } else {
      OnlyExactly("", w);
    }
  }

  lemma BotsExactly(authors: seq<string>)
    ensures SomeAuthor(authors, s => EndsWith(s, "[bot]")) <==>
            exists i :: 0 <= i < |authors| && SaysLast(authors[i], "[bot]")
  {
    forall i | 0 <= i < |authors| ensures EndsWith(Squeezed(authors[i]), "[bot]") <==> SaysLast(authors[i], "[bot]") {
      LastExactly(authors[i], "[bot]");
    }
  }

  lemma ToolsExactly(authors: seq<string>)
    ensures SomeAuthor(authors, s => Contains(s, "dependabot") || Contains(s, "renovate")) <==>
            exists i :: 0 <= i < |authors| && (Names(authors[i], "dependabot") || Names(authors[i], "renovate"))
  {
    forall i | 0 <= i < |authors|
      ensures Contains(Squeezed(authors[i]), "dependabot") <==> Names(authors[i], "dependabot")
      ensures Contains(Squeezed(authors[i]), "renovate") <==> Names(authors[i], "renovate")
      ensures Names(authors[i], "dependabot") || Names(authors[i], "renovate") ==> Squeezed(authors[i]) != ""
    {
      NamedExactly(authors[i], "dependabot");
      NamedExactly(authors[i], "renovate");
    }
  }

  lemma StatusExactly(e: Emission)
    ensures Squeezed(e.body) in {"lgtm", "approved", "done", "fixed", "closed"} <==> OnlyStatus(e)
  {
    OnlyExactly(e.body, "lgtm");
    OnlyExactly(e.body, "approved");
    OnlyExactly(e.body, "done");
    OnlyExactly(e.body, "fixed");
    OnlyExactly(e.body, "closed");
  }

  lemma TemplateExactly(e: Emission)
    ensures "<!--" <= Squeezed(e.body) || Contains(Squeezed(e.body), "issue template") <==> FromTemplate(e)
  {
    FirstExactly(e.body, "<!--");
    NamedExactly(e.body, "issue template");
  }

  lemma AuthorRules(show: Show, e: Emission)
    ensures BotRule(show, e).holds <==> ByBot(show, e)
    ensures DependencyRule(e).holds <==> ByDependencyTool(e)
  {
    MarkerExactly(show, e, "actor_type", "bot");
    BotsExactly(e.authors);
    ToolsExactly(e.authors);
  }

  lemma BodyRules(e: Emission)
    ensures StatusRule(e).holds <==> OnlyStatus(e)
    ensures TemplateRule(e).holds <==> FromTemplate(e)
  {
    StatusExactly(e);
    TemplateExactly(e);
  }

  lemma MarkerRules(show: Show, e: Emission)
    ensures DuplicateRule(e).holds <==> MarkerIsSet(e, "duplicate_delivery")
    ensures SyncRule(e).holds <==> MarkerIsSet(e, "generated_sync_event")
    ensures StaleRule(e).holds <==> MarkerIsSet(e, "stale_source")
    ensures TrustRule(show, e).holds <==> MarkerSays(show, e, "source_trust", "low")
  {
    MarkerExactly(show, e, "source_trust", "low");
  }

  const Kinds: seq<string> :=
    ["bot_authored", "dependency_automation", "status_only", "template_dominant", "duplicate_delivery",
     "generated_sync_event", "stale_source", "low_source_trust"]

  lemma KindsDiffer()
    ensures forall i, j :: 0 <= i < j < 8 ==> Kinds[i] != Kinds[j]
  {
    assert Kinds[0][0] == 'b' && Kinds[6][0] == 's';
  }

  /** The kind of each rule. */
  ghost predicate InKinds(rules: seq<Rule>, kinds: seq<string>) {
    |rules| == |kinds| == 8 && (forall i :: 0 <= i < 8 ==> rules[i].advisory.kind == kinds[i]) &&
    forall i, j :: 0 <= i < j < 8 ==> kinds[i] != kinds[j]
  }

  lemma EachKind(rules: seq<Rule>, kinds: seq<string>)
    requires InKinds(rules, kinds)
    ensures forall n :: 0 <= n < 8 ==> (Given(Applied(rules), kinds[n]) <==> rules[n].holds)
    ensures forall a :: a in Applied(rules) ==> a.kind in kinds
  {
    forall n | 0 <= n < 8 ensures Given(Applied(rules), kinds[n]) <==> rules[n].holds { GivenExactly(rules, n); }
    forall a | a in Applied(rules) ensures a.kind in kinds { AppliedExactly(rules, a); }
  }

  lemma EightRules(a: Rule, b: Rule, c: Rule, d: Rule, e: Rule, f: Rule, g: Rule, h: Rule, kinds: seq<string>,
                   s: seq<Advisory>)
    requires InKinds([a, b, c, d, e, f, g, h], kinds) && s == Applied([a, b, c, d, e, f, g, h])
    ensures Given(s, kinds[0]) <==> a.holds
    ensures Given(s, kinds[1]) <==> b.holds
    ensures Given(s, kinds[2]) <==> c.holds
    ensures Given(s, kinds[3]) <==> d.holds
    ensures Given(s, kinds[4]) <==> e.holds
    ensures Given(s, kinds[5]) <==> f.holds
    ensures Given(s, kinds[6]) <==> g.holds
    ensures Given(s, kinds[7]) <==> h.holds
    ensures forall x :: x in s ==> x.kind in kinds
  {
    var rules := [a, b, c, d, e, f, g, h];
    EachKind(rules, kinds);
    assert rules[0] == a && rules[1] == b && rules[2] == c && rules[3] == d;
    assert rules[4] == e && rules[5] == f && rules[6] == g && rules[7] == h;
  }

  lemma KindsInOrder(a: Rule, b: Rule, c: Rule, d: Rule, e: Rule, f: Rule, g: Rule, h: Rule, kinds: seq<string>)
    requires |kinds| == 8 && forall i, j :: 0 <= i < j < 8 ==> kinds[i] != kinds[j]
    requires a.advisory.kind == kinds[0] && b.advisory.kind == kinds[1] && c.advisory.kind == kinds[2]
    requires d.advisory.kind == kinds[3] && e.advisory.kind == kinds[4] && f.advisory.kind == kinds[5]
    requires g.advisory.kind == kinds[6] && h.advisory.kind == kinds[7]
    ensures InKinds([a, b, c, d, e, f, g, h], kinds)
  {
  }

  lemma AuthorKinds(show: Show, e: Emission)
    ensures BotRule(show, e).advisory.kind == Kinds[0] && DependencyRule(e).advisory.kind == Kinds[1]
    ensures StatusRule(e).advisory.kind == Kinds[2] && TemplateRule(e).advisory.kind == Kinds[3]
  {
  }

  lemma MarkerKinds(show: Show, e: Emission)
    ensures DuplicateRule(e).advisory.kind == Kinds[4] && SyncRule(e).advisory.kind == Kinds[5]
    ensures StaleRule(e).advisory.kind == Kinds[6] && TrustRule(show, e).advisory.kind == Kinds[7]
  {
  }

  lemma RulesInKinds(show: Show, e: Emission)
    ensures InKinds([BotRule(show, e), DependencyRule(e), StatusRule(e), TemplateRule(e), DuplicateRule(e), SyncRule(e),
                     StaleRule(e), TrustRule(show, e)], Kinds)
  {
    KindsDiffer();
    AuthorKinds(show, e);
    MarkerKinds(show, e);
    KindsInOrder(BotRule(show, e), DependencyRule(e), StatusRule(e), TemplateRule(e), DuplicateRule(e), SyncRule(e),
                 StaleRule(e), TrustRule(show, e), Kinds);
  }

  /** Each kind of advisory is given exactly when its rule holds, and no other kind is. */
  lemma UniversalExactly(show: Show, e: Emission)
    ensures var s := UniversalAdvisories(show, e);
            (Given(s, "bot_authored") <==> ByBot(show, e)) &&
            (Given(s, "dependency_automation") <==> ByDependencyTool(e)) &&
            (Given(s, "status_only") <==> OnlyStatus(e)) && (Given(s, "template_dominant") <==> FromTemplate(e)) &&
            (Given(s, "duplicate_delivery") <==> MarkerIsSet(e, "duplicate_delivery")) &&
            (Given(s, "generated_sync_event") <==> MarkerIsSet(e, "generated_sync_event")) &&
            (Given(s, "stale_source") <==> MarkerIsSet(e, "stale_source")) &&
            (Given(s, "low_source_trust") <==> MarkerSays(show, e, "source_trust", "low"))
    ensures forall a :: a in UniversalAdvisories(show, e) ==> a.kind in Kinds
  {
    AuthorRules(show, e);
    BodyRules(e);
    MarkerRules(show, e);
    RulesInKinds(show, e);
    EightRules(BotRule(show, e), DependencyRule(e), StatusRule(e), TemplateRule(e), DuplicateRule(e), SyncRule(e),
               StaleRule(e), TrustRule(show, e), Kinds, UniversalAdvisories(show, e));
  }
}

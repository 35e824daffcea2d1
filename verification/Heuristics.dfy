/** Fail-open advisories: provider signals, universal rules, and their merge. */
module Heuristics {
  import opened Lru
  import opened JsonValue
  import opened Strings
  import Receipts

  type Show = Json -> string

  type Fields = map<string, Json>

  datatype Advisory = Advisory(kind: string, message: string, evidenceIds: seq<string>, metadata: Json)

  /** The fields the heuristics read; everything else is in `rest`. */
  datatype Emission = Emission(body: string, authors: seq<string>, metadata: Fields, advisories: seq<Advisory>,
                               rest: Json)

  /** `value or other`. */
  function Or(v: Json, other: Json): Json { if Truthy(v) then v else other }

  function Text(show: Show, v: Json): string { if v.Str? then v.text else show(v) }

  function Squeezed(s: string): string { Lowered(Strip(s)) }

  // ---------- Tokens ----------

  predicate TokenChar(c: char) {
    'a' <= c <= 'z' || '0' <= c <= '9' || c == '.' || c == '_' || c == '-'
  }

  /** Each run of other characters becomes one underscore. */
  function Collapsed(s: string, inRun: bool): string {
    if s == "" then ""
    else if TokenChar(s[0]) then [s[0]] + Collapsed(s[1..], false)
    else (if inRun then "" else "_") + Collapsed(s[1..], true)
  }

  function StripUnderscores(s: string): string {
    if s != "" && s[0] == '_' then StripUnderscores(s[1..])
    else if s != "" && s[|s| - 1] == '_' then StripUnderscores(s[..|s| - 1])
    else s
  }

  function Token(show: Show, v: Json): string {
    StripUnderscores(Collapsed(Squeezed(if Truthy(v) then Text(show, v) else ""), false))
  }

  // ---------- Signals ----------

  function Signal(code: string, scope: string, basis: string, confidence: string, effect: string,
                  text: string): Advisory {
    Advisory(code, text, [],
             Obj(map["scope" := Str(scope), "basis" := Str(basis), "confidence" := Str(confidence),
                     "recommended_effect" := Str(effect), "schema_version" := Int(1)]))
  }

  function SchemaError(reason: string): Advisory {
    Signal("heuristic_schema_error", "universal", reason, "high", "annotate",
           "An integration heuristic signal was malformed; evidence was preserved.")
  }

  /** The one advisory of a signal: itself, or the diagnosis of what is wrong with it. */
  function ItemAdvisory(show: Show, item: Json): Advisory {
    if !item.Obj? then SchemaError("advisory_signal_not_object")
    else
      var m := item.fields;
      var code, scope := Token(show, Get(m, "code")), Token(show, Or(Get(m, "scope"), Str("integration")));
      var confidence := Token(show, Or(Get(m, "confidence"), Str("medium")));
      var effect := Token(show, Or(Get(m, "recommended_effect"), Str("annotate")));
      if code == "" then SchemaError("advisory_code_missing")
      else if scope !in {"integration", "universal"} then SchemaError("advisory_scope_invalid")
      else if confidence !in {"low", "medium", "high"} then SchemaError("advisory_confidence_invalid")
      else if effect !in {"annotate", "rank_lower", "route"} then SchemaError("advisory_effect_invalid")
      else if "schema_version" in m && !Receipts.EqualsOne(m["schema_version"]) then
        SchemaError("advisory_schema_version_invalid")
      else
        var basis := Token(show, Get(m, "basis"));
        Signal(code, scope, if basis == "" then "integration_rule" else basis, confidence, effect,
               Text(show, Or(Get(m, "explanation"), Str("Integration-specific advisory signal."))))
  }

  function IntegrationAdvisories(show: Show, metadata: Fields): seq<Advisory> {
    var raw := Get(metadata, "advisory_signals");
    if raw == Null || raw == Str("") || raw == Arr([]) then []
    else if !raw.Arr? then [SchemaError("advisory_signals_not_sequence")]
    else Promoted(item => ItemAdvisory(show, item), raw.items)
  }

  function Promoted(each: Json -> Advisory, items: seq<Json>): seq<Advisory> {
    seq(|items|, i requires 0 <= i < |items| => each(items[i]))
  }

  /** The loop over the provider's signals: one advisory each, so that nothing is dropped. */
  method PromoteSignals(show: Show, metadata: Fields) returns (out: seq<Advisory>)
    ensures out == IntegrationAdvisories(show, metadata)
  {
    var raw := Get(metadata, "advisory_signals");
    if raw == Null || raw == Str("") || raw == Arr([]) {
      return [];
    }
    if !raw.Arr? {
      return [SchemaError("advisory_signals_not_sequence")];
    }
    out := Promote(item => ItemAdvisory(show, item), raw.items);
  }

  method Promote(each: Json -> Advisory, items: seq<Json>) returns (out: seq<Advisory>)
    ensures out == Promoted(each, items)
  {
    out := [];
    for i := 0 to |items|
      invariant |out| == i && forall k :: 0 <= k < i ==> out[k] == each(items[k])
    {
      out := out + [each(items[i])];
    }
  }

  // ---------- Universal rules ----------

  predicate EndsWith(s: string, w: string) { |w| <= |s| && s[|s| - |w|..] == w }

  predicate SomeAuthor(authors: seq<string>, test: string -> bool) {
    exists i :: 0 <= i < |authors| && Squeezed(authors[i]) != "" && test(Squeezed(authors[i]))
  }

  function When(b: bool, a: Advisory): seq<Advisory> { if b then [a] else [] }

  /** A rule on one source: whether it holds, and what it gives then. */
  datatype Rule = Rule(holds: bool, advisory: Advisory)

  function Universal(holds: bool, code: string, basis: string, confidence: string, effect: string, text: string): Rule {
    Rule(holds, Signal(code, "universal", basis, confidence, effect, text))
  }

  function BotRule(show: Show, e: Emission): Rule {
    var actor := Squeezed(if "actor_type" in e.metadata then Text(show, e.metadata["actor_type"]) else "");
    Universal(actor == "bot" || SomeAuthor(e.authors, s => EndsWith(s, "[bot]")),
              "bot_authored", "provider_actor_type_or_author_suffix", "high", "annotate",
              "The source was authored by an automation identity.")
  }

  function DependencyRule(e: Emission): Rule {
    Universal(SomeAuthor(e.authors, s => Contains(s, "dependabot") || Contains(s, "renovate")),
              "dependency_automation", "known_dependency_automation_identity", "high", "rank_lower",
              "The source was produced by dependency automation.")
  }

  function StatusRule(e: Emission): Rule {
    Universal(Squeezed(e.body) in {"lgtm", "approved", "done", "fixed", "closed"},
              "status_only", "exact_status_vocabulary", "high", "rank_lower",
              "The source body contains only a bounded status phrase.")
  }

  function TemplateRule(e: Emission): Rule {
    Universal("<!--" <= Squeezed(e.body) || Contains(Squeezed(e.body), "issue template"),
              "template_dominant", "template_marker", "medium", "rank_lower",
              "Template or boilerplate markers dominate the captured source.")
  }

  function DuplicateRule(e: Emission): Rule {
    Universal(Truthy(Get(e.metadata, "duplicate_delivery")),
              "duplicate_delivery", "connector_delivery_identity", "high", "annotate",
              "The connector identified this delivery as a replay or duplicate.")
  }

  function SyncRule(e: Emission): Rule {
    Universal(Truthy(Get(e.metadata, "generated_sync_event")),
              "generated_sync_event", "connector_sync_marker", "high", "rank_lower",
              "The source represents a generated synchronization event.")
  }

  function StaleRule(e: Emission): Rule {
    Universal(Truthy(Get(e.metadata, "stale_source")),
              "stale_source", "connector_freshness_marker", "high", "route",
              "The connector marked the source as stale.")
  }

  function TrustRule(show: Show, e: Emission): Rule {
    var trust := Squeezed(if "source_trust" in e.metadata then Text(show, e.metadata["source_trust"]) else "");
    Universal(trust == "low",
              "low_source_trust", "connector_source_trust_marker", "medium", "route",
              "The connector marked the source trust posture as low.")
  }

  function Applied(rules: seq<Rule>): seq<Advisory> {
    if rules == [] then [] else When(rules[0].holds, rules[0].advisory) + Applied(rules[1..])
  }

  function UniversalAdvisories(show: Show, e: Emission): seq<Advisory> {
    Applied([BotRule(show, e), DependencyRule(e), StatusRule(e), TemplateRule(e), DuplicateRule(e), SyncRule(e),
             StaleRule(e), TrustRule(show, e)])
  }

  // ---------- The merge ----------

  /** Kind and scope. */
  function KeyOf(show: Show, a: Advisory): (string, string) {
    (a.kind, if a.metadata.Obj? && "scope" in a.metadata.fields then Text(show, a.metadata.fields["scope"]) else "")
  }

  type KeyFunction = Advisory -> (string, string)

  /** The advisories whose key is not in `seen`, each key once. */
  function Deduped(key: KeyFunction, s: seq<Advisory>, seen: set<(string, string)>): seq<Advisory> {
    if s == [] then []
    else if key(s[0]) in seen then Deduped(key, s[1..], seen)
    else [s[0]] + Deduped(key, s[1..], seen + {key(s[0])})
  }

  function Kinds(s: seq<Advisory>): set<string> { set a | a in s :: a.kind }

  function Without(s: seq<Advisory>, kinds: set<string>): seq<Advisory> {
    if s == [] then [] else (if s[0].kind in kinds then [] else [s[0]]) + Without(s[1..], kinds)
  }

  /** What an emission is given, from the parts of it that evaluation does not change. */
  function Added(show: Show, e: Emission): seq<Advisory> {
    var integration := IntegrationAdvisories(show, e.metadata);
    integration + Without(UniversalAdvisories(show, e), Kinds(integration))
  }

  function Merged(key: KeyFunction, e: Emission, added: seq<Advisory>): Emission {
    e.(advisories := Deduped(key, e.advisories + added, {}))
  }

  function Keying(show: Show): KeyFunction { a => KeyOf(show, a) }

  function EvaluateFailOpen(show: Show, e: Emission): Emission { Merged(Keying(show), e, Added(show, e)) }

  method Dedupe(key: KeyFunction, advisories: seq<Advisory>) returns (out: seq<Advisory>)
    ensures out == Deduped(key, advisories, {})
  {
    out := [];
    var seen: set<(string, string)> := {};
    assert advisories[0..] == advisories;
    for i := 0 to |advisories|
      invariant out + Deduped(key, advisories[i..], seen) == Deduped(key, advisories, {})
    {
      var a := advisories[i];
      assert advisories[i..][1..] == advisories[i + 1..];
      if key(a) in seen {
        continue;
      }
      ghost var rest := Deduped(key, advisories[i + 1..], seen + {key(a)});
      assert out + ([a] + rest) == out + [a] + rest;
      seen := seen + {key(a)};
      out := out + [a];
    }
  }

  // ---------- What the merge keeps ----------

  ghost predicate DistinctKeys(key: KeyFunction, s: seq<Advisory>) {
    forall i, j :: 0 <= i < j < |s| ==> key(s[i]) != key(s[j])
  }

  function KeySet(key: KeyFunction, s: seq<Advisory>): set<(string, string)> { set a | a in s :: key(a) }

  /** No key before `i` equals the key at `i`. */
  ghost predicate FirstOfItsKey(key: KeyFunction, s: seq<Advisory>, i: nat)
    requires i < |s|
  {
    forall j :: 0 <= j < i ==> key(s[j]) != key(s[i])
  }

  /** The places of the first occurrences of keys not seen. */
  ghost predicate FirstPlaces(key: KeyFunction, s: seq<Advisory>, seen: set<(string, string)>, at: seq<nat>) {
    forall i: nat :: i < |s| ==> (i in at <==> IsFirstPlace(key, s, seen, i))
  }

  ghost predicate IsFirstPlace(key: KeyFunction, s: seq<Advisory>, seen: set<(string, string)>, i: nat)
    requires i < |s|
  {
    key(s[i]) !in seen && FirstOfItsKey(key, s, i)
  }

  /** `at` lists, in order, the places of `out` in `s`: the first occurrences of keys not seen. */
  ghost predicate Places(key: KeyFunction, s: seq<Advisory>, seen: set<(string, string)>, out: seq<Advisory>,
                         at: seq<nat>) {
    InPlace(s, out, at) && FirstPlaces(key, s, seen, at)
  }

  ghost predicate InPlace(s: seq<Advisory>, out: seq<Advisory>, at: seq<nat>) {
    |at| == |out| && (forall i, j :: 0 <= i < j < |at| ==> at[i] < at[j]) &&
    forall k :: 0 <= k < |at| ==> at[k] < |s| && out[k] == s[at[k]]
  }

  lemma MovedInPlace(s: seq<Advisory>, out: seq<Advisory>, rest: seq<nat>)
    requires s != [] && InPlace(s[1..], out, rest)
    ensures InPlace(s, out, Moved(rest)) && InPlace(s, [s[0]] + out, [0] + Moved(rest))
  {
    var at := Moved(rest);
    assert InPlace(s, out, at);
    var all, full := [0] + at, [s[0]] + out;
    forall k | 0 <= k < |all| ensures all[k] < |s| && full[k] == s[all[k]] {
      if k > 0 { assert all[k] == at[k - 1] && full[k] == out[k - 1]; }
    }
  }

  lemma {:induction false} DedupedPlaces(key: KeyFunction, s: seq<Advisory>, seen: set<(string, string)>)
    returns (at: seq<nat>)
    ensures Places(key, s, seen, Deduped(key, s, seen), at)
  {
    if s == [] {
      at := [];
    } else if key(s[0]) in seen {
      var rest := DedupedPlaces(key, s[1..], seen);
      at := Moved(rest);
      MovedInPlace(s, Deduped(key, s[1..], seen), rest);
      assert [] + Moved(rest) == at;
      PlacesAfter(key, s, seen, rest, at);
    } else {
      var rest := DedupedPlaces(key, s[1..], seen + {key(s[0])});
      at := [0] + Moved(rest);
      MovedInPlace(s, Deduped(key, s[1..], seen + {key(s[0])}), rest);
      PlacesAfter(key, s, seen, rest, at);
    }
  }

  function Moved(rest: seq<nat>): seq<nat> { seq(|rest|, k requires 0 <= k < |rest| => rest[k] + 1) }

  lemma PlacesAfter(key: KeyFunction, s: seq<Advisory>, seen: set<(string, string)>, rest: seq<nat>, at: seq<nat>)
    requires s != [] && at == (if key(s[0]) in seen then [] else [0]) + Moved(rest)
    requires FirstPlaces(key, s[1..], if key(s[0]) in seen then seen else seen + {key(s[0])}, rest)
    ensures FirstPlaces(key, s, seen, at)
  {
    var next := if key(s[0]) in seen then seen else seen + {key(s[0])};
    forall i: nat | i < |s| ensures i in at <==> IsFirstPlace(key, s, seen, i) {
      MovedMembers(rest, Moved(rest), i);
      assert i in at <==> (key(s[0]) !in seen && i == 0) || i in Moved(rest);
      if i > 0 { PlaceInTail(key, s, seen, next, i); }
    }
  }

  lemma PlaceInTail(key: KeyFunction, s: seq<Advisory>, seen: set<(string, string)>, next: set<(string, string)>,
                    i: nat)
    requires 0 < i < |s| && next == if key(s[0]) in seen then seen else seen + {key(s[0])}
    ensures IsFirstPlace(key, s, seen, i) <==> IsFirstPlace(key, s[1..], next, i - 1)
  {
    FirstInTail(key, s, i);
  }

  lemma MovedMembers(rest: seq<nat>, moved: seq<nat>, i: nat)
    requires |moved| == |rest| && forall k :: 0 <= k < |rest| ==> moved[k] == rest[k] + 1
    ensures i in moved <==> i > 0 && i - 1 in rest
  {
    if i > 0 && i - 1 in rest {
      var k :| 0 <= k < |rest| && rest[k] == i - 1;
      assert moved[k] == i;
    }
  }

  lemma FirstInTail(key: KeyFunction, s: seq<Advisory>, i: nat)
    requires 0 < i < |s|
    ensures FirstOfItsKey(key, s, i) <==> key(s[i]) != key(s[0]) && FirstOfItsKey(key, s[1..], i - 1)
  {
    if key(s[i]) != key(s[0]) && FirstOfItsKey(key, s[1..], i - 1) {
      forall j | 0 <= j < i ensures key(s[j]) != key(s[i]) {
        if j > 0 { assert s[1..][j - 1] == s[j]; }
      }
    }
    if FirstOfItsKey(key, s, i) {
      forall j | 0 <= j < i - 1 ensures key(s[1..][j]) != key(s[1..][i - 1]) { assert s[1..][j] == s[j + 1]; }
    }
  }

  lemma {:induction false} DedupedFacts(key: KeyFunction, s: seq<Advisory>, seen: set<(string, string)>)
    ensures DistinctKeys(key, Deduped(key, s, seen)) && KeySet(key, Deduped(key, s, seen)) == KeySet(key, s) - seen
  {
    if s != [] {
      var rest := s[1..];
      assert KeySet(key, s) == {key(s[0])} + KeySet(key, rest) by {
        assert forall a :: a in s <==> a == s[0] || a in rest;
      }
      if key(s[0]) in seen {
        DedupedFacts(key, rest, seen);
      } else {
        var out := Deduped(key, rest, seen + {key(s[0])});
        DedupedFacts(key, rest, seen + {key(s[0])});
        KeySetCons(key, s[0], out);
        forall j | 0 <= j < |out| ensures key(out[j]) != key(s[0]) {
          assert out[j] in out && key(out[j]) in KeySet(key, out);
        }
      }
    }
  }

  lemma KeySetCons(key: KeyFunction, a: Advisory, s: seq<Advisory>)
    ensures KeySet(key, [a] + s) == {key(a)} + KeySet(key, s)
  {
    assert forall x :: x in [a] + s <==> x == a || x in s;
  }

  /** Distinct advisories stay, and what follows with known keys goes. */
  lemma {:induction false} DedupedAgain(key: KeyFunction, kept: seq<Advisory>, more: seq<Advisory>,
                                        seen: set<(string, string)>)
    requires DistinctKeys(key, kept) && KeySet(key, kept) !! seen && KeySet(key, more) <= KeySet(key, kept) + seen
    ensures Deduped(key, kept + more, seen) == kept
    decreases kept
  {
    if kept == [] {
      assert kept + more == more;
      AllSeen(key, more, seen);
    } else {
      var a, rest := kept[0], kept[1..];
      FirstKeyAlone(key, kept);
      DedupedAgain(key, rest, more, seen + {key(a)});
      assert (kept + more)[1..] == rest + more;
      assert kept == [a] + rest;
    }
  }

  lemma {:induction false} AllSeen(key: KeyFunction, more: seq<Advisory>, seen: set<(string, string)>)
    requires KeySet(key, more) <= seen
    ensures Deduped(key, more, seen) == []
  {
    if more != [] {
      assert more[0] in more && key(more[0]) in KeySet(key, more);
      assert forall a :: a in more[1..] ==> a in more;
      AllSeen(key, more[1..], seen);
    }
  }

  lemma FirstKeyAlone(key: KeyFunction, kept: seq<Advisory>)
    requires DistinctKeys(key, kept) && kept != []
    ensures KeySet(key, kept) == {key(kept[0])} + KeySet(key, kept[1..]) && key(kept[0]) !in KeySet(key, kept[1..])
  {
    var rest := kept[1..];
    KeySetCons(key, kept[0], rest);
    assert kept == [kept[0]] + rest;
    forall k | k in KeySet(key, rest) ensures k != key(kept[0]) {
      var x :| x in rest && key(x) == k;
      var j :| 0 <= j < |rest| && rest[j] == x;
      assert kept[j + 1] == x;
    }
  }

  /** Merging twice is merging once. */
  lemma MergedTwice(key: KeyFunction, e: Emission, added: seq<Advisory>)
    ensures Merged(key, Merged(key, e, added), added) == Merged(key, e, added)
  {
    var all := e.advisories + added;
    DedupedFacts(key, all, {});
    assert forall a :: a in added ==> a in all;
    DedupedAgain(key, Deduped(key, all, {}), added, {});
  }

  /** Evaluation is idempotent and touches nothing but the advisories. */
  lemma EvaluateIsIdempotent(show: Show, e: Emission)
    ensures EvaluateFailOpen(show, EvaluateFailOpen(show, e)) == EvaluateFailOpen(show, e)
    ensures EvaluateFailOpen(show, e).(advisories := e.advisories) == e
  {
    AddedDependsOnSource(show, e, Deduped(Keying(show), e.advisories + Added(show, e), {}));
    MergedTwice(Keying(show), e, Added(show, e));
  }

  lemma AddedDependsOnSource(show: Show, e: Emission, advisories: seq<Advisory>)
    ensures Added(show, e.(advisories := advisories)) == Added(show, e)
  {
    RulesDependOnSource(show, e, advisories);
  }

  lemma RulesDependOnSource(show: Show, e: Emission, advisories: seq<Advisory>)
    ensures UniversalAdvisories(show, e.(advisories := advisories)) == UniversalAdvisories(show, e)
  {
  }

  lemma {:induction false} WithoutMembers(s: seq<Advisory>, kinds: set<string>)
    ensures forall a :: a in Without(s, kinds) <==> a in s && a.kind !in kinds
  {
    if s != [] {
      WithoutMembers(s[1..], kinds);
      assert forall a :: a in s <==> a == s[0] || a in s[1..];
    }
  }

  lemma MergeFacts(key: KeyFunction, e: Emission, integration: seq<Advisory>, universal: seq<Advisory>)
    returns (at: seq<nat>)
    ensures var all := e.advisories + (integration + Without(universal, Kinds(integration)));
            var out := Deduped(key, all, {});
            DistinctKeys(key, out) && KeySet(key, out) == KeySet(key, all) && Places(key, all, {}, out, at) &&
            forall a :: a in out ==>
              a in e.advisories || a in integration || (a in universal && a.kind !in Kinds(integration))
  {
    var all := e.advisories + (integration + Without(universal, Kinds(integration)));
    DedupedFacts(key, all, {});
    at := DedupedPlaces(key, all, {});
    WithoutMembers(universal, Kinds(integration));
    forall a | a in Deduped(key, all, {})
      ensures a in e.advisories || a in integration || (a in universal && a.kind !in Kinds(integration))
    {
      var k :| 0 <= k < |Deduped(key, all, {})| && Deduped(key, all, {})[k] == a;
      assert a == all[at[k]] && a in all;
    }
  }

  /** The result has distinct kind-and-scope keys, in the order of their first occurrence; what it has
      beyond the emission's own advisories is a provider signal, or a universal signal whose kind no
      provider signal carries. */
  lemma EvaluateMerges(show: Show, e: Emission) returns (at: seq<nat>)
    ensures var out, integration := EvaluateFailOpen(show, e).advisories, IntegrationAdvisories(show, e.metadata);
            DistinctKeys(Keying(show), out) &&
            KeySet(Keying(show), out) == KeySet(Keying(show), e.advisories + Added(show, e)) &&
            Places(Keying(show), e.advisories + Added(show, e), {}, out, at) &&
            forall a :: a in out ==>
              a in e.advisories || a in integration ||
              (a in UniversalAdvisories(show, e) && a.kind !in Kinds(integration))
  {
    at := MergeFacts(Keying(show), e, IntegrationAdvisories(show, e.metadata), UniversalAdvisories(show, e));
  }
}

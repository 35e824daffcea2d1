/** What it means that a bundle has no semantic errors. */
module BundleProof {
  import opened Lru
  import opened Bundle
  import opened JsonValue
  import opened Strings

  // ---------- The loops ----------

  lemma AllErrorsStep(found: Errors, part: nat -> Errors, k: nat, n: nat)
    requires k < n
    ensures found + AllErrors(part, k, n) == found + part(k) + AllErrors(part, k + 1, n)
  {
    assert found + (part(k) + AllErrors(part, k + 1, n)) == found + part(k) + AllErrors(part, k + 1, n);
  }

  /** A loop that appends the errors of one part after another. */
  method Collect(part: nat -> Errors, n: nat) returns (errs: Errors)
    ensures errs == AllErrors(part, 0, n)
  {
    errs := [];
    for k := 0 to n
      invariant errs + AllErrors(part, k, n) == AllErrors(part, 0, n)
    {
      AllErrorsStep(errs, part, k, n);
      errs := errs + part(k);
    }
  }

  /** The loop over the stages, with what it carries from stage to stage. */
  method CheckStages(stages: seq<Stage>, check: StageCheck) returns (errs: Errors, strongest: nat)
    ensures errs == AllErrors(Carried(stages, check), 0, |stages|) && strongest == StrongestFrom(stages, 0, 0)
  {
    errs, strongest := [], 0;
    var outputs: Outputs := map[];
    var upstreamOk := true;
    ghost var part := Carried(stages, check);
    for i := 0 to |stages|
      invariant errs + AllErrors(part, i, |stages|) == AllErrors(part, 0, |stages|)
      invariant outputs == OutputsBefore(stages, i) && upstreamOk == Clear(stages, i)
      invariant StrongestFrom(stages, i, strongest) == StrongestFrom(stages, 0, 0)
    {
      AllErrorsStep(errs, part, i, |stages|);
      errs := errs + check(i, outputs, upstreamOk);
      outputs := WithOutput(outputs, stages[i]);
      strongest := Max(strongest, HeldRank(stages[i]));
      upstreamOk := upstreamOk && !Blocks(stages[i]);
    }
  }

  method CheckBundle(env: Env, b: Bundle) returns (errs: Errors)
    ensures errs == SemanticErrors(env, b)
  {
    errs := [];
    if HasDuplicate(Ids(b.stages)) {
      errs := errs + [OfBundle("duplicate stage ids")];
    }
    if Ids(b.stages) != RequiredOrder {
      errs := errs + [OfBundle("missing or reordered stages")];
      return;
    }
    OrderIsDistinct();
    var found, strongest := CheckStages(b.stages, CheckOf(env, b));
    var ofBundle := CheckWhole(env, b, strongest);
    errs := found + ofBundle;
  }

  /** The checks after the loop. */
  method CheckWhole(env: Env, b: Bundle, strongest: nat) returns (errs: Errors)
    requires strongest == StrongestFrom(b.stages, 0, 0)
    ensures errs == BundleErrors(env, b)
  {
    errs := [];
    if ClassRank(b.class_) != strongest {
      errs := errs + [OfBundle("evidence_class must equal the strongest held")];
    }
    if b.id != env.bundle(BundleContent(b)) {
      errs := errs + [OfBundle("bundle_id does not match")];
    }
    var downstream := Collect(DownstreamPart(b.stages, b.unprovenDownstream), |b.unprovenDownstream|);
    errs := errs + downstream + env.closing(b);
  }

  lemma OrderIsDistinct()
    ensures !HasDuplicate(RequiredOrder)
  {
    forall i, j | 0 <= i < j < |RequiredOrder| ensures RequiredOrder[i] != RequiredOrder[j] {
      NamesDiffer(i, j);
    }
  }

  lemma NamesDiffer(i: nat, j: nat)
    requires i < j < 20
    ensures RequiredOrder[i] != RequiredOrder[j]
  {
    assert |RequiredOrder[i]| != |RequiredOrder[j]| || RequiredOrder[i][0] != RequiredOrder[j][0];
  }

  // ---------- Acceptance, stage by stage ----------

  ghost predicate RecordOk(env: Env, stages: seq<Stage>, i: nat)
    requires i < |stages|
  {
    stages[i].recordDigest == env.record(RecordContent(stages[i])) &&
    stages[i].previous == if i == 0 then NoLink else Link(stages[i - 1].id, stages[i - 1].recordDigest)
  }

  ghost predicate OnDisk(env: Env, artifacts: seq<Artifact>) {
    forall k :: 0 <= k < |artifacts| ==> env.disk(artifacts[k].path) == Some(artifacts[k].digest)
  }

  ghost predicate NoEmails(env: Env, texts: seq<string>) {
    forall k :: 0 <= k < |texts| ==> !env.hasEmail(texts[k])
  }

  /** The artifacts are on disk as declared, and the aggregate is theirs. */
  ghost predicate BlockOk(env: Env, block: Option<Block>) {
    block.Some? ==>
      OnDisk(env, block.value.artifacts) && block.value.aggregateDigest == env.aggregate(block.value.artifacts)
  }

  /** Stage `j`, at or before `i`, put out exactly what is cited. */
  ghost predicate EmittedBy(stages: seq<Stage>, i: nat, c: Citation, j: nat)
    requires i < |stages|
  {
    j <= i && stages[j].id == c.stageId && stages[j].output.Some? &&
    Some(stages[j].output.value.aggregateDigest) == c.outputDigest
  }

  /** A cited digest was put out at or before this stage; a missing output is really missing. */
  ghost predicate CitationOk(stages: seq<Stage>, i: nat, c: Citation)
    requires i < |stages|
  {
    if c.outputDigest.Some? then !CitesMissing(c) && exists j :: EmittedBy(stages, i, c, j)
    else
      c.status == "missing" && c.requiredOutput.Some? && Visible(c.requiredOutput.value) &&
      !HasOutput(stages, c.stageId)
  }

  ghost predicate CitationsOk(stages: seq<Stage>, i: nat)
    requires i < |stages|
  {
    forall k :: 0 <= k < |stages[i].dependsOn| ==> CitationOk(stages, i, stages[i].dependsOn[k])
  }

  ghost predicate StatusOk(b: Bundle, i: nat)
    requires i < |b.stages|
  {
    var s := b.stages[i];
    (s.status == "passed" ==>
      Clear(b.stages, i) && s.output.Some? && s.hasTransformation && s.held == "component") &&
    (s.status == "failed" ==> s.hasFailure) &&
    (s.status == "unproven" ==>
      s.hasUnproven && s.output.None? && s.held == "none" && s.required in FutureClasses &&
      s.id in b.unprovenDownstream)
  }

  ghost predicate StageOk(env: Env, b: Bundle, i: nat)
    requires i < |b.stages|
  {
    RecordOk(env, b.stages, i) && BlockOk(env, b.stages[i].output) && BlockOk(env, b.stages[i].input) &&
    CitationsOk(b.stages, i) && StatusOk(b, i) && NoEmails(env, b.stages[i].texts)
  }

  /** Component where some stage passed, none otherwise. */
  ghost predicate ClassOk(b: Bundle) {
    ClassRank(b.class_) == if exists i :: 0 <= i < |b.stages| && HeldRank(b.stages[i]) == 1 then 1 else 0
  }

  ghost predicate StagesOk(env: Env, b: Bundle) {
    forall i :: 0 <= i < |b.stages| ==> StageOk(env, b, i)
  }

  ghost predicate StageIsUnproven(stages: seq<Stage>, id: string) {
    exists i :: 0 <= i < |stages| && stages[i].id == id && stages[i].status == "unproven"
  }

  ghost predicate ListedAreUnproven(stages: seq<Stage>, ids: seq<string>) {
    forall k :: 0 <= k < |ids| ==> StageIsUnproven(stages, ids[k])
  }

  ghost predicate Accepts(env: Env, b: Bundle) {
    Ids(b.stages) == RequiredOrder && StagesOk(env, b) && ClassOk(b) && b.id == env.bundle(BundleContent(b)) &&
    ListedAreUnproven(b.stages, b.unprovenDownstream) && env.closing(b) == []
  }

  // ---------- Each check, exactly ----------

  ghost predicate DistinctIds(stages: seq<Stage>) {
    forall i, j :: 0 <= i < j < |stages| ==> stages[i].id != stages[j].id
  }

  /** What the map of outputs holds after the stages before `n`. */
  ghost predicate Registered(outputs: Outputs, stages: seq<Stage>, n: nat)
    requires n <= |stages|
  {
    (forall j :: 0 <= j < n && stages[j].output.Some? ==>
      stages[j].id in outputs && outputs[stages[j].id] == stages[j].output.value.aggregateDigest) &&
    forall id :: id in outputs ==> exists j :: 0 <= j < n && stages[j].id == id && stages[j].output.Some?
  }

  lemma RegisterNext(outputs: Outputs, stages: seq<Stage>, n: nat)
    requires n < |stages| && DistinctIds(stages) && Registered(outputs, stages, n)
    ensures Registered(WithOutput(outputs, stages[n]), stages, n + 1)
  {
    var next := WithOutput(outputs, stages[n]);
    forall id | id in next ensures exists j :: 0 <= j < n + 1 && stages[j].id == id && stages[j].output.Some? {
      if id in outputs {
        var j :| 0 <= j < n && stages[j].id == id && stages[j].output.Some?;
      }
    }
  }

  lemma {:induction false} FirstIsThat(stages: seq<Stage>, i: nat)
    requires i < |stages| && DistinctIds(stages)
    ensures FirstWithId(stages, stages[i].id) == Some(stages[i])
  {
    if i > 0 {
      assert stages[0].id != stages[i].id;
      FirstIsThat(stages[1..], i - 1);
    }
  }

  lemma {:induction false} FirstIsThere(stages: seq<Stage>, id: string) returns (i: nat)
    requires FirstWithId(stages, id).Some?
    ensures i < |stages| && stages[i].id == id && FirstWithId(stages, id) == Some(stages[i])
  {
    i := 0;
    if stages[0].id != id {
      i := FirstIsThere(stages[1..], id);
      i := i + 1;
    }
  }

  lemma CitationExactly(stages: seq<Stage>, i: nat, k: nat, c: Citation, outputs: Outputs)
    requires i < |stages| && DistinctIds(stages) && Registered(outputs, stages, i + 1)
    ensures CitationErrors(stages, i, k, c, outputs) == [] <==> CitationOk(stages, i, c)
  {
    if c.outputDigest.Some? {
      if c.stageId in outputs {
        var j :| 0 <= j < i + 1 && stages[j].id == c.stageId && stages[j].output.Some?;
        assert outputs[c.stageId] == stages[j].output.value.aggregateDigest;
        assert c.outputDigest.value == outputs[c.stageId] ==> EmittedBy(stages, i, c, j);
      }
    } else {
      MissingExactly(stages, c.stageId);
    }
  }

  lemma MissingExactly(stages: seq<Stage>, id: string)
    requires DistinctIds(stages)
    ensures HasOutput(stages, id) <==> FirstWithId(stages, id).Some? && FirstWithId(stages, id).value.output.Some?
  {
    if HasOutput(stages, id) {
      var j :| 0 <= j < |stages| && stages[j].id == id && stages[j].output.Some?;
      FirstIsThat(stages, j);
    }
    if FirstWithId(stages, id).Some? {
      var j := FirstIsThere(stages, id);
    }
  }

  ghost predicate NoneFound(part: nat -> Errors, k: nat, n: nat) {
    forall m: nat {:trigger part(m)} :: k <= m < n ==> part(m) == []
  }

  lemma {:induction false} AllExactly(part: nat -> Errors, k: nat, n: nat)
    ensures AllErrors(part, k, n) == [] <==> NoneFound(part, k, n)
    decreases n - k
  {
    if k < n {
      AllExactly(part, k + 1, n);
      assert NoneFound(part, k, n) <==> part(k) == [] && NoneFound(part, k + 1, n);
    }
  }

  lemma CitationsExactly(stages: seq<Stage>, i: nat, outputs: Outputs)
    requires i < |stages| && DistinctIds(stages) && Registered(outputs, stages, i + 1)
    ensures AllErrors(CitationPart(stages, i, outputs), 0, |stages[i].dependsOn|) == [] <==> CitationsOk(stages, i)
  {
    AllExactly(CitationPart(stages, i, outputs), 0, |stages[i].dependsOn|);
    var part, deps := CitationPart(stages, i, outputs), stages[i].dependsOn;
    forall k: nat | k < |deps| ensures part(k) == [] <==> CitationOk(stages, i, deps[k]) {
      CitationExactly(stages, i, k, deps[k], outputs);
    }
  }

  lemma ArtifactsExactly(env: Env, i: nat, artifacts: seq<Artifact>)
    ensures NoneFound(ArtifactPart(env, i, artifacts), 0, |artifacts|) <==> OnDisk(env, artifacts)
  {
    var part := ArtifactPart(env, i, artifacts);
    forall k: nat | k < |artifacts|
      ensures part(k) == [] <==> env.disk(artifacts[k].path) == Some(artifacts[k].digest)
    {
    }
  }

  lemma BlockExactly(env: Env, i: nat, block: Option<Block>)
    ensures BlockErrors(env, i, block) == [] <==> BlockOk(env, block)
  {
    if block.Some? {
      AllExactly(ArtifactPart(env, i, block.value.artifacts), 0, |block.value.artifacts|);
      ArtifactsExactly(env, i, block.value.artifacts);
    }
  }

  lemma TextsExactly(env: Env, i: nat, texts: seq<string>)
    ensures AllErrors(TextPart(env, i, texts), 0, |texts|) == [] <==> NoEmails(env, texts)
  {
    var part := TextPart(env, i, texts);
    AllExactly(part, 0, |texts|);
    forall k: nat | k < |texts| ensures part(k) == [] <==> !env.hasEmail(texts[k]) {}
  }

  lemma StatusExactly(b: Bundle, i: nat)
    requires i < |b.stages|
    ensures StatusErrors(b, i, Clear(b.stages, i)) == [] <==> StatusOk(b, i)
  {
  }

  lemma RecordExactly(env: Env, stages: seq<Stage>, i: nat)
    requires i < |stages|
    ensures RecordErrors(env, stages, i) == [] <==> RecordOk(env, stages, i)
  {
  }

  lemma {:induction false} OutputsAreRegistered(stages: seq<Stage>, n: nat)
    requires n <= |stages| && DistinctIds(stages)
    ensures Registered(OutputsBefore(stages, n), stages, n)
  {
    if n > 0 {
      var before := OutputsBefore(stages, n - 1);
      OutputsAreRegistered(stages, n - 1);
      RegisterNext(before, stages, n - 1);
      assert OutputsBefore(stages, n) == WithOutput(before, stages[n - 1]);
    }
  }

  /** The six groups of checks of a stage. */
  ghost predicate NothingFound(env: Env, b: Bundle, i: nat, outputs: Outputs)
    requires i < |b.stages|
  {
    RecordErrors(env, b.stages, i) == [] && BlockErrors(env, i, b.stages[i].output) == [] &&
    BlockErrors(env, i, b.stages[i].input) == [] &&
    AllErrors(CitationPart(b.stages, i, outputs), 0, |b.stages[i].dependsOn|) == [] &&
    StatusErrors(b, i, Clear(b.stages, i)) == [] &&
    AllErrors(TextPart(env, i, b.stages[i].texts), 0, |b.stages[i].texts|) == []
  }

  lemma StageGroups(env: Env, b: Bundle, i: nat, outputs: Outputs)
    requires i < |b.stages|
    ensures StageErrors(env, b, i, outputs, Clear(b.stages, i)) == [] <==>
            NothingFound(env, b, i, WithOutput(outputs, b.stages[i]))
  {
    var s := b.stages[i];
    SixParts(RecordErrors(env, b.stages, i), BlockErrors(env, i, s.output), BlockErrors(env, i, s.input),
             AllErrors(CitationPart(b.stages, i, WithOutput(outputs, s)), 0, |s.dependsOn|),
             StatusErrors(b, i, Clear(b.stages, i)), AllErrors(TextPart(env, i, s.texts), 0, |s.texts|));
  }

  lemma GroupsExactly(env: Env, b: Bundle, i: nat, outputs: Outputs)
    requires i < |b.stages| && DistinctIds(b.stages) && Registered(outputs, b.stages, i + 1)
    ensures NothingFound(env, b, i, outputs) <==> StageOk(env, b, i)
  {
    RecordExactly(env, b.stages, i);
    BlockExactly(env, i, b.stages[i].output);
    BlockExactly(env, i, b.stages[i].input);
    CitationsExactly(b.stages, i, outputs);
    StatusExactly(b, i);
    TextsExactly(env, i, b.stages[i].texts);
  }

  lemma StageExactly(env: Env, b: Bundle, i: nat)
    requires i < |b.stages| && DistinctIds(b.stages)
    ensures StagePart(env, b)(i) == [] <==> StageOk(env, b, i)
  {
    var outputs := OutputsBefore(b.stages, i);
    OutputsAreRegistered(b.stages, i);
    RegisterNext(outputs, b.stages, i);
    StageGroups(env, b, i, outputs);
    GroupsExactly(env, b, i, WithOutput(outputs, b.stages[i]));
  }

  lemma SixParts(a: Errors, b: Errors, c: Errors, d: Errors, e: Errors, f: Errors)
    ensures a + b + c + d + e + f == [] <==> a == [] && b == [] && c == [] && d == [] && e == [] && f == []
  {
    assert |a + b + c + d + e + f| == |a| + |b| + |c| + |d| + |e| + |f|;
  }

  lemma StagesExactly(env: Env, b: Bundle)
    requires DistinctIds(b.stages)
    ensures AllErrors(StagePart(env, b), 0, |b.stages|) == [] <==> StagesOk(env, b)
  {
    var part := StagePart(env, b);
    AllExactly(part, 0, |b.stages|);
    forall i: nat | i < |b.stages| ensures part(i) == [] <==> StageOk(env, b, i) {
      StageExactly(env, b, i);
    }
  }

  lemma {:induction false} StrongestExactly(stages: seq<Stage>, i: nat, strongest: nat)
    requires i <= |stages| && strongest <= 1
    ensures StrongestFrom(stages, i, strongest) ==
            if strongest == 1 || exists k :: i <= k < |stages| && HeldRank(stages[k]) == 1 then 1 else 0
    decreases |stages| - i
  {
    if i < |stages| {
      StrongestExactly(stages, i + 1, Max(strongest, HeldRank(stages[i])));
    }
  }

  lemma DownstreamExactly(stages: seq<Stage>, ids: seq<string>)
    requires DistinctIds(stages)
    ensures AllErrors(DownstreamPart(stages, ids), 0, |ids|) == [] <==> ListedAreUnproven(stages, ids)
  {
    var part := DownstreamPart(stages, ids);
    AllExactly(part, 0, |ids|);
    forall k: nat | k < |ids| ensures part(k) == [] <==> StageIsUnproven(stages, ids[k]) {
      UnprovenExactly(stages, ids[k]);
    }
  }

  lemma UnprovenExactly(stages: seq<Stage>, id: string)
    requires DistinctIds(stages)
    ensures IsUnproven(stages, id) <==> StageIsUnproven(stages, id)
  {
    if StageIsUnproven(stages, id) {
      var i :| 0 <= i < |stages| && stages[i].id == id && stages[i].status == "unproven";
      FirstIsThat(stages, i);
    }
    if FirstWithId(stages, id).Some? {
      var j := FirstIsThere(stages, id);
    }
  }

  lemma OrderedIdsAreDistinct(stages: seq<Stage>)
    requires Ids(stages) == RequiredOrder
    ensures DistinctIds(stages)
  {
    forall i, j | 0 <= i < j < |stages| ensures stages[i].id != stages[j].id {
      assert |Ids(stages)| == 20 && Ids(stages)[i] == stages[i].id && Ids(stages)[j] == stages[j].id;
      NamesDiffer(i, j);
    }
  }

  /** A bundle has no semantic errors exactly when it is acceptable. */
  lemma AcceptedExactly(env: Env, b: Bundle)
    ensures SemanticErrors(env, b) == [] <==> Accepts(env, b)
  {
    if Ids(b.stages) == RequiredOrder {
      OrderedIdsAreDistinct(b.stages);
      StagesExactly(env, b);
      StrongestExactly(b.stages, 0, 0);
      DownstreamExactly(b.stages, b.unprovenDownstream);
    }
  }

  // ---------- What acceptance implies ----------

  /** No passed stage follows a failed or unproven one. */
  lemma NothingPassesAfterABlock(env: Env, b: Bundle, i: nat, j: nat)
    requires SemanticErrors(env, b) == [] && i < j < |b.stages| && Blocks(b.stages[i])
    ensures b.stages[j].status != "passed"
  {
    AcceptedExactly(env, b);
    assert StageOk(env, b, j);
  }

  /** Every cited digest is the aggregate of artifacts that are on disk, put out at or before the citing
      stage, which neither failed nor is unproven when the citing stage passed. */
  lemma CitedOutputIsReal(env: Env, b: Bundle, i: nat, k: nat) returns (j: nat)
    requires SemanticErrors(env, b) == [] && i < |b.stages| && k < |b.stages[i].dependsOn|
    requires b.stages[i].dependsOn[k].outputDigest.Some?
    ensures j <= i && b.stages[j].id == b.stages[i].dependsOn[k].stageId && b.stages[j].output.Some?
    ensures var block := b.stages[j].output.value;
            OnDisk(env, block.artifacts) &&
            b.stages[i].dependsOn[k].outputDigest.value == env.aggregate(block.artifacts)
    ensures b.stages[j].status != "unproven" && (b.stages[i].status == "passed" && j < i ==> !Blocks(b.stages[j]))
  {
    AcceptedExactly(env, b);
    var c := b.stages[i].dependsOn[k];
    assert StageOk(env, b, i) && CitationOk(b.stages, i, c);
    j :| EmittedBy(b.stages, i, c, j);
    assert StageOk(env, b, j);
  }

  /** An output cited as missing is put out by no stage at all. */
  lemma MissingOutputIsMissing(env: Env, b: Bundle, i: nat, k: nat)
    requires SemanticErrors(env, b) == [] && i < |b.stages| && k < |b.stages[i].dependsOn|
    requires b.stages[i].dependsOn[k].outputDigest.None?
    ensures !HasOutput(b.stages, b.stages[i].dependsOn[k].stageId)
  {
    AcceptedExactly(env, b);
    assert StageOk(env, b, i) && CitationOk(b.stages, i, b.stages[i].dependsOn[k]);
  }

  /** The class of the bundle is component exactly when some stage passed, and none otherwise. */
  lemma ClassIsStrongestHeld(env: Env, b: Bundle)
    requires SemanticErrors(env, b) == []
    ensures b.class_ ==
            if exists i :: 0 <= i < |b.stages| && b.stages[i].status == "passed" then "component" else "none"
  {
    AcceptedExactly(env, b);
    forall i | 0 <= i < |b.stages| ensures HeldRank(b.stages[i]) == (if b.stages[i].status == "passed" then 1 else 0) {
      assert StageOk(env, b, i);
    }
  }

  // ---------- What the digests determine ----------

  /** The same bundle but for when it was started and completed. */
  predicate SameButTimes(a: Bundle, b: Bundle) { a == b.(startedAt := a.startedAt, completedAt := a.completedAt) }

  ghost predicate ContentsCollide(env: Env, a: Bundle, b: Bundle) {
    BundleContent(a) != BundleContent(b) && env.bundle(BundleContent(a)) == env.bundle(BundleContent(b))
  }

  lemma FromContent(a: Bundle, b: Bundle)
    requires BundleContent(a) == BundleContent(b) && a.id == b.id
    ensures SameButTimes(a, b)
  {
    assert BundleContent(a).stages == a.stages && BundleContent(b).stages == b.stages;
    assert BundleContent(a).class_ == a.class_ && BundleContent(b).class_ == b.class_;
    assert BundleContent(a).rest == a.rest && BundleContent(b).rest == b.rest;
    assert BundleContent(a).unprovenDownstream == a.unprovenDownstream;
    assert BundleContent(b).unprovenDownstream == b.unprovenDownstream;
  }

  lemma TimesAreFree(env: Env, a: Bundle, b: Bundle)
    requires Accepts(env, a) && SameButTimes(a, b)
    ensures a.id == b.id && (Accepts(env, b) <==> env.closing(b) == [])
  {
    assert BundleContent(a) == BundleContent(b) && a.stages == b.stages;
    forall i | 0 <= i < |b.stages| ensures StageOk(env, b, i) { assert StageOk(env, a, i); }
  }

  /** What the id of an accepted bundle determines, exactly: another accepted bundle has the same id just when it
      is the same but for its two times, or the two contents collide. The times are free. */
  lemma IdDetermines(env: Env, a: Bundle, b: Bundle)
    requires SemanticErrors(env, a) == []
    ensures SemanticErrors(env, b) == [] ==> (a.id == b.id <==> SameButTimes(a, b) || ContentsCollide(env, a, b))
    ensures SameButTimes(a, b) ==> (SemanticErrors(env, b) == [] <==> env.closing(b) == [])
  {
    AcceptedExactly(env, a);
    AcceptedExactly(env, b);
    if SameButTimes(a, b) { TimesAreFree(env, a, b); }
    if BundleContent(a) == BundleContent(b) && a.id == b.id { FromContent(a, b); }
  }

  /** Equal record digests come from equal records up to the link, or from two that collide. */
  ghost predicate RecordsCollide(env: Env, a: Stage, b: Stage) {
    RecordContent(a) != RecordContent(b) && env.record(RecordContent(a)) == env.record(RecordContent(b))
  }

  lemma DigestDeterminesRecord(env: Env, a: Bundle, b: Bundle, i: nat)
    requires SemanticErrors(env, a) == [] && SemanticErrors(env, b) == [] && i < |a.stages| && i < |b.stages|
    ensures a.stages[i].recordDigest == b.stages[i].recordDigest <==>
            RecordContent(a.stages[i]) == RecordContent(b.stages[i]) || RecordsCollide(env, a.stages[i], b.stages[i])
  {
    AcceptedExactly(env, a);
    AcceptedExactly(env, b);
    assert StageOk(env, a, i) && StageOk(env, b, i);
  }

  /** Accepted bundles whose record digests all agree have the same stages, links included, or two of their
      records collide. */
  lemma ChainDetermines(env: Env, a: Bundle, b: Bundle) returns (i: nat)
    requires SemanticErrors(env, a) == [] && SemanticErrors(env, b) == []
    ensures |a.stages| == |b.stages| == 20
    ensures SameDigests(a.stages, b.stages) ==>
              a.stages == b.stages || (i < 20 && RecordsCollide(env, a.stages[i], b.stages[i]))
    ensures a.stages == b.stages ==> SameDigests(a.stages, b.stages)
  {
    AcceptedExactly(env, a);
    AcceptedExactly(env, b);
    i := SameChain(env, a, b);
  }

  lemma SameChain(env: Env, a: Bundle, b: Bundle) returns (i: nat)
    requires Accepts(env, a) && Accepts(env, b)
    ensures |a.stages| == |b.stages| == 20
    ensures SameDigests(a.stages, b.stages) ==>
              a.stages == b.stages || (i < 20 && RecordsCollide(env, a.stages[i], b.stages[i]))
  {
    TwentyStages(a.stages);
    TwentyStages(b.stages);
    i := 0;
    if SameDigests(a.stages, b.stages) && a.stages != b.stages {
      i :| 0 <= i < 20 && a.stages[i] != b.stages[i];
      DifferentRecords(env, a, b, i);
    }
  }

  ghost predicate SameDigests(a: seq<Stage>, b: seq<Stage>) {
    |a| == |b| && forall k :: 0 <= k < |a| ==> a[k].recordDigest == b[k].recordDigest
  }

  lemma DifferentRecords(env: Env, a: Bundle, b: Bundle, i: nat)
    requires Accepts(env, a) && Accepts(env, b) && SameDigests(a.stages, b.stages)
    requires i < |a.stages| && a.stages[i] != b.stages[i]
    ensures RecordsCollide(env, a.stages[i], b.stages[i])
  {
    var s, t := a.stages[i], b.stages[i];
    assert StageOk(env, a, i) && StageOk(env, b, i);
    if i > 0 { assert Ids(a.stages)[i - 1] == a.stages[i - 1].id && Ids(b.stages)[i - 1] == b.stages[i - 1].id; }
    assert s.previous == t.previous && s.recordDigest == t.recordDigest;
    WholeRecord(s);
    WholeRecord(t);
  }

  /** A record is its content, its digest and its link. */
  lemma WholeRecord(s: Stage)
    ensures s == RecordContent(s).(recordDigest := s.recordDigest, previous := s.previous)
  {
  }

  lemma TwentyStages(stages: seq<Stage>)
    requires Ids(stages) == RequiredOrder
    ensures |stages| == 20
  {
    assert |Ids(stages)| == |stages|;
  }

  // ---------- What the last record digest does not determine ----------

  /** Put something else into a stage, and bring its digest, the next stage's link and the id up to date. */
  function Rewritten(env: Env, b: Bundle, k: nat, rest: Json): Bundle
    requires k < |b.stages|
  {
    var changed := b.stages[k].(rest := rest);
    var digest := env.record(RecordContent(changed));
    var stages := Relinked(b.stages[k := changed.(recordDigest := digest)], k + 1, Link(changed.id, digest));
    var next := b.(stages := stages);
    next.(id := env.bundle(BundleContent(next)))
  }

  function Relinked(stages: seq<Stage>, k: nat, link: Link): seq<Stage> {
    if k < |stages| then stages[k := stages[k].(previous := link)] else stages
  }

  /** All that the checks other than those of the chain look at. */
  function Shape(s: Stage): Stage { s.(recordDigest := "", previous := NoLink, rest := Null) }

  ghost predicate SameShape(a: seq<Stage>, b: seq<Stage>) {
    |a| == |b| && forall k :: 0 <= k < |a| ==> Shape(a[k]) == Shape(b[k])
  }

  lemma ShapeParts(s: Stage, t: Stage)
    requires Shape(s) == Shape(t)
    ensures s.id == t.id && s.output == t.output && s.input == t.input && s.dependsOn == t.dependsOn
    ensures s.status == t.status && s.held == t.held && s.required == t.required && s.texts == t.texts
    ensures s.hasTransformation == t.hasTransformation && s.hasFailure == t.hasFailure && s.hasUnproven == t.hasUnproven
  {
    assert s == Shape(s).(recordDigest := s.recordDigest, previous := s.previous, rest := s.rest);
    assert t == Shape(t).(recordDigest := t.recordDigest, previous := t.previous, rest := t.rest);
  }

  lemma AllParts(a: seq<Stage>, b: seq<Stage>)
    requires SameShape(a, b)
    ensures forall k :: 0 <= k < |a| ==> a[k].id == b[k].id && a[k].output == b[k].output && a[k].status == b[k].status
    ensures forall k :: 0 <= k < |a| ==> HeldRank(a[k]) == HeldRank(b[k])
  {
    forall k | 0 <= k < |a|
      ensures a[k].id == b[k].id && a[k].output == b[k].output && a[k].status == b[k].status
      ensures HeldRank(a[k]) == HeldRank(b[k])
    {
      ShapeParts(a[k], b[k]);
    }
  }

  lemma ShapeKeepsCitation(a: seq<Stage>, b: seq<Stage>, i: nat, c: Citation)
    requires SameShape(a, b) && i < |a| && CitationOk(a, i, c)
    ensures CitationOk(b, i, c)
  {
    AllParts(a, b);
    if c.outputDigest.Some? {
      var j :| EmittedBy(a, i, c, j);
      assert EmittedBy(b, i, c, j);
    }
  }

  lemma ShapeKeepsStatus(a: Bundle, b: Bundle, i: nat)
    requires SameShape(a.stages, b.stages) && a.unprovenDownstream == b.unprovenDownstream
    requires i < |a.stages| && StatusOk(a, i)
    ensures StatusOk(b, i)
  {
    AllParts(a.stages, b.stages);
    ShapeParts(a.stages[i], b.stages[i]);
    assert Clear(a.stages, i) ==> Clear(b.stages, i);
  }

  /** A stage of the same shape is acceptable as soon as its own digest and link are right. */
  lemma ShapeKeepsStage(env: Env, a: Bundle, b: Bundle, i: nat)
    requires SameShape(a.stages, b.stages) && a.unprovenDownstream == b.unprovenDownstream
    requires i < |a.stages| && StageOk(env, a, i) && RecordOk(env, b.stages, i)
    ensures StageOk(env, b, i)
  {
    var s, t := a.stages[i], b.stages[i];
    ShapeParts(s, t);
    ShapeKeepsStatus(a, b, i);
    forall k | 0 <= k < |t.dependsOn| ensures CitationOk(b.stages, i, t.dependsOn[k]) {
      assert CitationOk(a.stages, i, s.dependsOn[k]);
      ShapeKeepsCitation(a.stages, b.stages, i, s.dependsOn[k]);
    }
  }

  lemma ShapeKeepsClass(a: Bundle, b: Bundle)
    requires SameShape(a.stages, b.stages) && a.class_ == b.class_ && ClassOk(a)
    ensures ClassOk(b)
  {
    AllParts(a.stages, b.stages);
  }

  lemma ShapeKeepsListed(a: seq<Stage>, b: seq<Stage>, ids: seq<string>)
    requires SameShape(a, b) && ListedAreUnproven(a, ids)
    ensures ListedAreUnproven(b, ids)
  {
    AllParts(a, b);
    forall k | 0 <= k < |ids| ensures StageIsUnproven(b, ids[k]) {
      assert StageIsUnproven(a, ids[k]);
      var i :| 0 <= i < |a| && a[i].id == ids[k] && a[i].status == "unproven";
      assert b[i].id == ids[k] && b[i].status == "unproven";
    }
  }

  lemma RewrittenStages(env: Env, b: Bundle, k: nat, rest: Json)
    requires StagesOk(env, b) && k < |b.stages|
    ensures var next := Rewritten(env, b, k, rest);
            SameShape(b.stages, next.stages) && (forall i :: 0 <= i < |b.stages| ==> RecordOk(env, next.stages, i)) &&
            RecordContent(next.stages[k]) == RecordContent(b.stages[k]).(rest := rest) &&
            forall i :: 0 <= i < |b.stages| && i != k ==> next.stages[i].recordDigest == b.stages[i].recordDigest
  {
    var next := Rewritten(env, b, k, rest);
    forall i | 0 <= i < |b.stages|
      ensures RecordOk(env, next.stages, i) && Shape(b.stages[i]) == Shape(next.stages[i])
      ensures i != k ==> next.stages[i].recordDigest == b.stages[i].recordDigest
    {
      assert StageOk(env, b, i);
      if i != k { assert RecordContent(next.stages[i]) == RecordContent(b.stages[i]); }
    }
  }

  /** Whatever is put into a stage of an accepted bundle, no other record digest changes, and the chain is
      accepted again. */
  lemma RewrittenIsAccepted(env: Env, b: Bundle, k: nat, rest: Json)
    requires SemanticErrors(env, b) == [] && k < |b.stages|
    ensures var next := Rewritten(env, b, k, rest);
            |next.stages| == |b.stages| &&
            (SemanticErrors(env, next) == [] <==> env.closing(next) == []) &&
            RecordContent(next.stages[k]) == RecordContent(b.stages[k]).(rest := rest) &&
            forall i :: 0 <= i < |b.stages| && i != k ==> next.stages[i].recordDigest == b.stages[i].recordDigest
  {
    var next := Rewritten(env, b, k, rest);
    AcceptedExactly(env, b);
    AcceptedExactly(env, next);
    RewrittenStages(env, b, k, rest);
    forall i | 0 <= i < |next.stages| ensures StageOk(env, next, i) {
      assert StageOk(env, b, i);
      ShapeKeepsStage(env, b, next, i);
    }
    AllParts(b.stages, next.stages);
    assert Ids(next.stages) == Ids(b.stages);
    ShapeKeepsClass(b, next);
    ShapeKeepsListed(b.stages, next.stages, b.unprovenDownstream);
  }

  /** A stage that failed, with nothing else to check. */
  function FailedStage(i: nat): Stage
    requires i < 20
  {
    Stage(RequiredOrder[i], "", NoLink, None, None, [], "failed", "none", "component", false, true, false, [], Null)
  }

  function FailedRecord(env: Env, i: nat): Stage
    requires i < 20
  {
    FailedStage(i).(recordDigest := env.record(FailedStage(i)),
                    previous := if i == 0 then NoLink
                                else Link(RequiredOrder[i - 1], env.record(FailedStage(i - 1))))
  }

  /** Twenty failed stages. */
  function FailedBundle(env: Env): Bundle {
    var b := Bundle("", "", "", seq(20, i requires 0 <= i < 20 => FailedRecord(env, i)), "none", [], Null);
    b.(id := env.bundle(BundleContent(b)))
  }

  lemma FailedIsAccepted(env: Env)
    ensures SemanticErrors(env, FailedBundle(env)) == [] <==> env.closing(FailedBundle(env)) == []
  {
    var b := FailedBundle(env);
    AcceptedExactly(env, b);
    forall i | 0 <= i < |b.stages| ensures StageOk(env, b, i) && HeldRank(b.stages[i]) == 0 {
      FailedStageIsOk(env, b, i);
    }
    assert Ids(b.stages) == RequiredOrder;
  }

  lemma FailedStageIsOk(env: Env, b: Bundle, i: nat)
    requires i < 20 && |b.stages| == 20 && forall k :: 0 <= k < 20 ==> b.stages[k] == FailedRecord(env, k)
    ensures StageOk(env, b, i) && HeldRank(b.stages[i]) == 0
  {
    assert RecordContent(b.stages[i]) == FailedStage(i);
    if i > 0 { assert b.stages[i - 1] == FailedRecord(env, i - 1); }
  }

  /** Two accepted bundles with one last record digest, and different first records. */
  lemma LastDigestIsLoose(env: Env) returns (a: Bundle, b: Bundle)
    requires forall x :: env.closing(x) == []
    ensures SemanticErrors(env, a) == [] && SemanticErrors(env, b) == []
    ensures |a.stages| == |b.stages| == 20 && a.stages[19].recordDigest == b.stages[19].recordDigest
    ensures RecordContent(a.stages[0]) != RecordContent(b.stages[0])
  {
    a := FailedBundle(env);
    FailedIsAccepted(env);
    b := Rewritten(env, a, 0, Arr([]));
    RewrittenIsAccepted(env, a, 0, Arr([]));
    assert RecordContent(a.stages[0]).rest == Null;
  }
}

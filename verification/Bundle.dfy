/** The information-cycle evidence bundle: twenty stages, a record link, output citations, held classes. */
module Bundle {
  import opened Lru
  import opened JsonValue
  import opened Strings

  const RequiredOrder: seq<string> := [
    "raw_acquisition", "acquisition_verification", "sanitized_capture", "provider_fact_extraction",
    "provider_neutral_observation", "guarded_redaction", "sanitized_observation", "redaction_receipt",
    "integration_advisories", "universal_normalization", "universal_advisories", "adapter_emission",
    "external_ingest_envelope", "cursor_or_delivery_decision", "gateway_negotiation", "bot_acceptance",
    "durable_evidence", "candidate_or_decision_lifecycle", "recall_transformation", "agent_session_exposure"]

  datatype Artifact = Artifact(path: string, digest: string)

  datatype Block = Block(artifacts: seq<Artifact>, aggregateDigest: string)

  /** The link to the previous record; `Malformed` is anything that is no object. */
  datatype Link = NoLink | Malformed | Link(stageId: string, recordDigest: string)

  /** A citation of an earlier output, or of one that is still missing. */
  datatype Citation =
    Citation(stageId: string, outputDigest: Option<string>, requiredOutput: Option<string>, status: string)

  datatype Stage = Stage(
    id: string, recordDigest: string, previous: Link, output: Option<Block>, input: Option<Block>,
    dependsOn: seq<Citation>, status: string, held: string, required: string,
    hasTransformation: bool, hasFailure: bool, hasUnproven: bool, texts: seq<string>, rest: Json)

  datatype Bundle = Bundle(
    id: string, startedAt: string, completedAt: string, stages: seq<Stage>, class_: string,
    unprovenDownstream: seq<string>, rest: Json)

  /** The file digests on disk, the digests of artifact lists, records and bundles, the email detector, and
      the two checks at the end: the raw-sample policy and the provenance in the repository's history. */
  datatype Env = Env(
    disk: string -> Option<string>, aggregate: seq<Artifact> -> string, record: Stage -> string,
    bundle: Bundle -> string, hasEmail: string -> bool, closing: Bundle -> Errors)

  /** The digest domain of a record: all of it but the two chain fields. */
  function RecordContent(s: Stage): Stage { s.(recordDigest := "", previous := NoLink) }

  /** The digest domain of the bundle: all of it but its id and its two times. */
  function BundleContent(b: Bundle): Bundle { b.(id := "", startedAt := "", completedAt := "") }

  datatype BundleError =
    | OfBundle(reason: string)
    | OfStage(stage: nat, reason: string)
    | OfCitation(stage: nat, dep: nat, reason: string)

  type Errors = seq<BundleError>

  function When(b: bool, e: BundleError): Errors { if b then [e] else [] }

  /** The errors of the parts `k`, ..., `n - 1`, in order. */
  function AllErrors(part: nat -> Errors, k: nat, n: nat): Errors
    decreases n - k
  {
    if k >= n then [] else part(k) + AllErrors(part, k + 1, n)
  }

  // ---------- The checks of one stage ----------

  function RecordErrors(env: Env, stages: seq<Stage>, i: nat): Errors
    requires i < |stages|
  {
    var s := stages[i];
    When(s.recordDigest != env.record(RecordContent(s)), OfStage(i, "stage_record_digest does not match")) +
    if i == 0 then When(s.previous != NoLink, OfStage(i, "the first stage may not carry previous_stage_record"))
    else if !s.previous.Link? then [OfStage(i, "previous_stage_record link is required")]
    else
      When(s.previous.stageId != stages[i - 1].id, OfStage(i, "previous_stage_record.stage_id")) +
      When(s.previous.recordDigest != stages[i - 1].recordDigest, OfStage(i, "broken stage-record chain link"))
  }

  function ArtifactPart(env: Env, i: nat, artifacts: seq<Artifact>): nat -> Errors {
    (k: nat) =>
      When(k < |artifacts| && env.disk(artifacts[k].path) != Some(artifacts[k].digest),
           OfStage(i, "artifact missing or digest mismatch"))
  }

  function BlockErrors(env: Env, i: nat, block: Option<Block>): Errors {
    if block.None? then []
    else
      AllErrors(ArtifactPart(env, i, block.value.artifacts), 0, |block.value.artifacts|) +
      When(block.value.aggregateDigest != env.aggregate(block.value.artifacts),
           OfStage(i, "aggregate_digest incorrect"))
  }

  type Outputs = map<string, string>

  /** The stage's own output is registered before its citations are checked. */
  function WithOutput(outputs: Outputs, s: Stage): Outputs {
    if s.output.Some? then outputs[s.id := s.output.value.aggregateDigest] else outputs
  }

  predicate HasOutput(stages: seq<Stage>, id: string) {
    exists j :: 0 <= j < |stages| && stages[j].id == id && stages[j].output.Some?
  }

  function FirstWithId(stages: seq<Stage>, id: string): Option<Stage> {
    if stages == [] then None else if stages[0].id == id then Some(stages[0]) else FirstWithId(stages[1..], id)
  }

  predicate CitesMissing(c: Citation) { c.requiredOutput.Some? || c.status == "missing" }

  function CitationErrors(stages: seq<Stage>, i: nat, k: nat, c: Citation, outputs: Outputs): Errors {
    if c.outputDigest.Some? == CitesMissing(c) then
      [OfCitation(i, k, "exactly one of output_digest or required_output")]
    else if c.outputDigest.Some? then
      if c.stageId !in outputs then [OfCitation(i, k, "that stage produced no output artifacts")]
      else When(c.outputDigest.value != outputs[c.stageId], OfCitation(i, k, "output digest does not match"))
    else
      var target := FirstWithId(stages, c.stageId);
      When(c.status != "missing" || c.requiredOutput.None? || !Visible(c.requiredOutput.value),
           OfCitation(i, k, "missing prerequisite must carry required_output")) +
      When(target.Some? && target.value.output.Some?, OfCitation(i, k, "has real output; cannot be cited as missing"))
  }

  function CitationPart(stages: seq<Stage>, i: nat, outputs: Outputs): nat -> Errors
    requires i < |stages|
  {
    (k: nat) => if k < |stages[i].dependsOn| then CitationErrors(stages, i, k, stages[i].dependsOn[k], outputs) else []
  }

  const FutureClasses := {"component", "observed_live", "terminal_product", "human_accepted"}

  function StatusErrors(b: Bundle, i: nat, upstreamOk: bool): Errors
    requires i < |b.stages|
  {
    var s := b.stages[i];
    if s.status == "passed" then
      When(!upstreamOk, OfStage(i, "cannot claim passed after an upstream failed/unproven stage")) +
      When(s.output.None?, OfStage(i, "passed requires output artifacts")) +
      When(!s.hasTransformation, OfStage(i, "passed requires the transformation record")) +
      When(s.held != "component", OfStage(i, "only component evidence is provable"))
    else if s.status == "failed" then When(!s.hasFailure, OfStage(i, "failed requires the failure record"))
    else if s.status == "unproven" then
      When(!s.hasUnproven, OfStage(i, "unproven requires the dependency record")) +
      When(s.output.Some?, OfStage(i, "an unproven stage must not carry output artifacts")) +
      When(s.held != "none", OfStage(i, "an unproven stage holds no evidence")) +
      When(s.required !in FutureClasses, OfStage(i, "unproven requires required_evidence_class")) +
      When(s.id !in b.unprovenDownstream, OfStage(i, "unproven stage must be listed"))
    else []
  }

  function TextPart(env: Env, i: nat, texts: seq<string>): nat -> Errors {
    (k: nat) => When(k < |texts| && env.hasEmail(texts[k]), OfStage(i, "raw values must not appear"))
  }

  function StageErrors(env: Env, b: Bundle, i: nat, outputs: Outputs, upstreamOk: bool): Errors
    requires i < |b.stages|
  {
    var s := b.stages[i];
    RecordErrors(env, b.stages, i) + BlockErrors(env, i, s.output) + BlockErrors(env, i, s.input) +
    AllErrors(CitationPart(b.stages, i, WithOutput(outputs, s)), 0, |s.dependsOn|) + StatusErrors(b, i, upstreamOk) +
    AllErrors(TextPart(env, i, s.texts), 0, |s.texts|)
  }

  // ---------- The loop over the stages ----------

  predicate Blocks(s: Stage) { s.status == "failed" || s.status == "unproven" }

  /** Only component evidence counts as held. */
  function HeldRank(s: Stage): nat { if s.status == "passed" && s.held == "component" then 1 else 0 }

  function Max(a: nat, b: nat): nat { if a <= b then b else a }

  /** The outputs registered, and whether nothing blocks, before stage `n`. */
  function OutputsBefore(stages: seq<Stage>, n: nat): Outputs
    requires n <= |stages|
  {
    if n == 0 then map[] else WithOutput(OutputsBefore(stages, n - 1), stages[n - 1])
  }

  predicate Clear(stages: seq<Stage>, n: nat)
    requires n <= |stages|
  {
    forall j :: 0 <= j < n ==> !Blocks(stages[j])
  }

  /** The checks of a stage, given the outputs registered before it and whether nothing blocks it. */
  type StageCheck = (nat, Outputs, bool) -> Errors

  function Carried(stages: seq<Stage>, check: StageCheck): nat -> Errors {
    (i: nat) => if i < |stages| then check(i, OutputsBefore(stages, i), Clear(stages, i)) else []
  }

  function CheckOf(env: Env, b: Bundle): StageCheck {
    (i: nat, outputs: Outputs, upstreamOk: bool) =>
      if i < |b.stages| then StageErrors(env, b, i, outputs, upstreamOk) else []
  }

  function StagePart(env: Env, b: Bundle): nat -> Errors { Carried(b.stages, CheckOf(env, b)) }

  function StrongestFrom(stages: seq<Stage>, i: nat, strongest: nat): nat
    requires i <= |stages|
    decreases |stages| - i
  {
    if i == |stages| then strongest else StrongestFrom(stages, i + 1, Max(strongest, HeldRank(stages[i])))
  }

  /** The rank of a class, or -1. */
  function ClassRank(name: string): int {
    if name == "none" then 0 else if name == "component" then 1 else if name == "observed_live" then 2
    else if name == "terminal_product" then 3 else if name == "human_accepted" then 4 else -1
  }

  function DownstreamPart(stages: seq<Stage>, ids: seq<string>): nat -> Errors {
    (k: nat) => When(k < |ids| && !IsUnproven(stages, ids[k]), OfBundle("unproven_downstream"))
  }

  predicate IsUnproven(stages: seq<Stage>, id: string) {
    var first := FirstWithId(stages, id);
    first.Some? && first.value.status == "unproven"
  }

  function Ids(stages: seq<Stage>): seq<string> { seq(|stages|, i requires 0 <= i < |stages| => stages[i].id) }

  predicate HasDuplicate(ids: seq<string>) { exists i, j :: 0 <= i < j < |ids| && ids[i] == ids[j] }

  function BundleErrors(env: Env, b: Bundle): Errors {
    When(ClassRank(b.class_) != StrongestFrom(b.stages, 0, 0),
         OfBundle("evidence_class must equal the strongest held")) +
    When(b.id != env.bundle(BundleContent(b)), OfBundle("bundle_id does not match")) +
    AllErrors(DownstreamPart(b.stages, b.unprovenDownstream), 0, |b.unprovenDownstream|) + env.closing(b)
  }

  function SemanticErrors(env: Env, b: Bundle): Errors {
    if Ids(b.stages) != RequiredOrder then
      When(HasDuplicate(Ids(b.stages)), OfBundle("duplicate stage ids")) + [OfBundle("missing or reordered stages")]
    else AllErrors(StagePart(env, b), 0, |b.stages|) + BundleErrors(env, b)
  }
}

/**
 The artifact between the job that proposes a patch and the job that persists it: written
 as JSON in URL-safe base64, then decoded and validated again from scratch.
 */
module CiArtifact {
  import opened Common
  import opened JsonValues
  import opened CiPatch
  import opened CiEdit
  import Base64

  const ARTIFACT_SCHEMA := "attention-router-ci-copilot-autofix-proposal.v2"
  const PUBLIC_CI := "Public CI"
  const MAX_EXCERPT_CHARS := 12_000
  const MAX_ARTIFACT_EXCERPT_CHARS := 20_000
  const ARTIFACT_KEYS := {
    "schema", "repo", "pr_number", "source_head", "branch", "trigger_workflow", "trigger_run_id",
    "patch_sha256", "log_excerpt", "patch_proposal"}

  /** What lies outside the model: str and int of unusual values, JSON in UTF-8, SHA-256. */
  datatype Host = Host(
    show: Json -> string,
    toInt: Json -> Option<int>,
    dump: Json -> seq<Base64.Byte>,
    parse: seq<Base64.Byte> -> Option<Json>,
    digest: string -> string)

  /** Which run the artifact is for. */
  datatype Source = Source(repo: string, pr: int, head: string, branch: string)

  /** int(value or 0). */
  function IntOf(h: Host, j: Json): Option<int> {
    if Falsy(j) then Some(0)
    else match j
         case Number(n) => Some(if n >= 0.0 then n.Floor else -(-n).Floor)
         case Bool(_) => Some(1)
         case _ => h.toInt(j)
  }

  /** The excerpts of the failed jobs, joined and cut. */
  function Excerpt(joined: string): (r: string)
    ensures r <= joined && |r| <= 12_000
    ensures |r| == 12_000 || r == joined
  {
    if |joined| <= MAX_EXCERPT_CHARS then joined else joined[..MAX_EXCERPT_CHARS]
  }

  /** The artifact that the proposing job writes. */
  function Artifact(h: Host, s: Source, workflow: string, runId: int, excerpt: string, p: Proposal): map<string, Json> {
    map["schema" := Text(ARTIFACT_SCHEMA), "repo" := Text(s.repo), "pr_number" := Number(s.pr as real),
        "source_head" := Text(s.head), "branch" := Text(s.branch), "trigger_workflow" := Text(workflow),
        "trigger_run_id" := Number(runId as real), "patch_sha256" := Text(h.digest(p.patch)),
        "log_excerpt" := Text(excerpt), "patch_proposal" := Object(PayloadOf(p))]
  }

  /** _encode_artifact. */
  function EncodeArtifact(h: Host, payload: map<string, Json>): string {
    Base64.Encode(h.dump(Object(payload)))
  }

  /** _decode_artifact. */
  function DecodeArtifact(h: Host, encoded: string): Result<map<string, Json>, Error> {
    match Base64.Decoded(encoded)
    case None => Err(ArtifactUnreadable)
    case Some(raw) =>
      match h.parse(raw)
      case None => Err(ArtifactUnreadable)
      case Some(payload) => if payload.Object? then Ok(payload.members) else Err(ArtifactNotObject)
  }

  /** _validate_artifact. */
  function ValidateArtifact(h: Host, artifact: map<string, Json>, s: Source,
        changed: seq<string>): Result<(Proposal, string), Error>
  {
    if artifact.Keys != ARTIFACT_KEYS then Err(KeysMismatch)
    else if artifact["schema"] != Text(ARTIFACT_SCHEMA) then Err(SchemaMismatch)
    else if artifact["repo"] != Text(s.repo) || IntOf(h, artifact["pr_number"]) != Some(s.pr) then Err(IdentityMismatch)
    else if artifact["source_head"] != Text(s.head) || artifact["branch"] != Text(s.branch) then Err(IdentityMismatch)
    else if artifact["trigger_workflow"] != Text(PUBLIC_CI) then Err(WorkflowNotAllowed)
    else if !artifact["patch_proposal"].Object? then Err(ItemInvalid)
    else match ValidatePatch(h.show, artifact["patch_proposal"].members, PatchableFiles(changed))
         case Err(e) => Err(e)
         case Ok(p) =>
           if p.decision != "PATCH" || p.confidence != "HIGH" then Err(NotHighConfidencePatch)
           else if Text(h.digest(p.patch)) != artifact["patch_sha256"] then Err(HashMismatch)
           else
             var excerpt := TextOf(h.show, artifact, "log_excerpt");
             if |excerpt| > MAX_ARTIFACT_EXCERPT_CHARS then Err(ExcerptTooLong) else Ok((p, excerpt))
  }

  /** What is written for any source, decoded again, is what was written, as far as JSON comes back. */
  lemma DecodeEncode(h: Host, payload: map<string, Json>)
    requires h.parse(h.dump(Object(payload))) == Some(Object(payload))
    ensures DecodeArtifact(h, EncodeArtifact(h, payload)) == Ok(payload)
  {
    Base64.RoundTrip(h.dump(Object(payload)));
  }

  /**
   A validated patch proposal, from whatever payload it came, written into an artifact,
   decoded and revalidated for the same source and changed files, is accepted as the same
   proposal with the same log excerpt exactly when the run was a Public CI run; otherwise
   the workflow is the reason for the refusal.
   */
  lemma EmittedArtifactRevalidates(h: Host, s: Source, workflow: string, runId: int, log: string,
        payload: map<string, Json>, changed: seq<string>)
    requires ValidatePatch(h.show, payload, PatchableFiles(changed)).Ok?
    requires ValidatePatch(h.show, payload, PatchableFiles(changed)).value.decision == "PATCH"
    requires var artifact :=
      Artifact(h, s, workflow, runId, Excerpt(log), ValidatePatch(h.show, payload, PatchableFiles(changed)).value);
      h.parse(h.dump(Object(artifact))) == Some(Object(artifact))
    ensures var p := ValidatePatch(h.show, payload, PatchableFiles(changed)).value;
      var decoded := DecodeArtifact(h, EncodeArtifact(h, Artifact(h, s, workflow, runId, Excerpt(log), p)));
      && decoded.Ok?
      && ValidateArtifact(h, decoded.value, s, changed) ==
           if workflow == PUBLIC_CI then Ok((p, Excerpt(log))) else Err(WorkflowNotAllowed)
  {
    var patchable := PatchableFiles(changed);
    HighConfidence(h.show, payload, patchable);
    ValidationIsFixpoint(h.show, payload, patchable);
    Revalidates(h, s, workflow, runId, log, ValidatePatch(h.show, payload, patchable).value, changed);
  }

  lemma HighConfidence(show: Show, payload: map<string, Json>, patchable: seq<string>)
    requires ValidatePatch(show, payload, patchable).Ok?
    requires ValidatePatch(show, payload, patchable).value.decision == "PATCH"
    ensures ValidatePatch(show, payload, patchable).value.confidence == "HIGH"
  {
  }

  /** What each key of a written artifact holds. */
  lemma ArtifactHolds(h: Host, s: Source, workflow: string, runId: int, excerpt: string, p: Proposal)
    ensures var a := Artifact(h, s, workflow, runId, excerpt, p);
      && a.Keys == ARTIFACT_KEYS
      && a["schema"] == Text(ARTIFACT_SCHEMA) && a["repo"] == Text(s.repo) && a["pr_number"] == Number(s.pr as real)
      && a["source_head"] == Text(s.head) && a["branch"] == Text(s.branch) && a["trigger_workflow"] == Text(workflow)
      && a["patch_sha256"] == Text(h.digest(p.patch)) && a["log_excerpt"] == Text(excerpt)
      && a["patch_proposal"] == Object(PayloadOf(p))
  {
    hide PayloadOf;
  }

  lemma Revalidates(h: Host, s: Source, workflow: string, runId: int, log: string, p: Proposal, changed: seq<string>)
    requires ValidatePatch(h.show, PayloadOf(p), PatchableFiles(changed)) == Ok(p) && p.decision == "PATCH"
    requires p.confidence == "HIGH"
    requires var artifact := Artifact(h, s, workflow, runId, Excerpt(log), p);
      h.parse(h.dump(Object(artifact))) == Some(Object(artifact))
    ensures var decoded := DecodeArtifact(h, EncodeArtifact(h, Artifact(h, s, workflow, runId, Excerpt(log), p)));
      && decoded.Ok?
      && ValidateArtifact(h, decoded.value, s, changed) ==
           if workflow == PUBLIC_CI then Ok((p, Excerpt(log))) else Err(WorkflowNotAllowed)
  {
    hide ValidatePatch, PayloadOf, PatchableFiles, EncodeArtifact, DecodeArtifact, Excerpt, Artifact;
    var artifact := Artifact(h, s, workflow, runId, Excerpt(log), p);
    DecodeEncode(h, artifact);
    ArtifactHolds(h, s, workflow, runId, Excerpt(log), p);
    assert IntOf(h, artifact["pr_number"]) == Some(s.pr);
  }

  /** So does a patch that came from structured edits. */
  lemma EditedArtifactRevalidates(h: Host, diff: Diff, s: Source, runId: int, log: string, payload: map<string, Json>,
        files: Files, changed: seq<string>)
    requires Proposed(h.show, diff, payload, files, PatchableFiles(changed)).Ok?
    requires Proposed(h.show, diff, payload, files, PatchableFiles(changed)).value.decision == "PATCH"
    requires var artifact :=
      Artifact(h, s, PUBLIC_CI, runId, Excerpt(log),
      Proposed(h.show, diff, payload, files, PatchableFiles(changed)).value);
      h.parse(h.dump(Object(artifact))) == Some(Object(artifact))
    ensures var p := Proposed(h.show, diff, payload, files, PatchableFiles(changed)).value;
      var decoded := DecodeArtifact(h, EncodeArtifact(h, Artifact(h, s, PUBLIC_CI, runId, Excerpt(log), p)));
      decoded.Ok? && ValidateArtifact(h, decoded.value, s, changed) == Ok((p, Excerpt(log)))
  {
    hide ValidatePatch, Proposed, Artifact, EncodeArtifact, DecodeArtifact, ValidateArtifact, PatchableFiles;
    var p, working := ProposedPatch(h.show, diff, payload, files, PatchableFiles(changed));
    HighConfidence(h.show, PayloadOf(p), PatchableFiles(changed));
    Revalidates(h, s, PUBLIC_CI, runId, log, p, changed);
  }

  /** An accepted artifact names the run it is checked against, and its patch is an accepted one. */
  lemma AcceptedArtifactIsBound(h: Host, artifact: map<string, Json>, s: Source, t: Source, changed: seq<string>)
    requires ValidateArtifact(h, artifact, s, changed).Ok?
    ensures ValidateArtifact(h, artifact, t, changed).Ok? <==> s == t
  {
    hide ValidatePatch, PatchableFiles;
  }
}

/**
 The patch contract of the CI trial: which payloads are proposals, and what their headers
 and changed lines are.
 */
module CiPatch {
  import opened Common
  import opened JsonValues
  import opened TextScan

  /** The text of values that are not texts: str(...). */
  type Show = Json -> string

  predicate Falsy(j: Json) {
    j == Null || j == Bool(false) || j == Number(0.0) || j == Text("") || j == Array([]) || j == Object(map[])
  }

  /** str(value). */
  function Str(show: Show, j: Json): string {
    if j.Text? then j.text else show(j)
  }

  function Get(payload: map<string, Json>, key: string): Json {
    if key in payload then payload[key] else Null
  }

  /** str(payload.get(key) or ""). */
  function TextOf(show: Show, payload: map<string, Json>, key: string): string {
    var j := Get(payload, key);
    if Falsy(j) then "" else Str(show, j)
  }

  datatype Proposal = Proposal(decision: string, confidence: string, summary: string, targets: seq<string>,
        patch: string)

  datatype Error =
    | KeysMismatch | SchemaMismatch | DecisionInvalid | ConfidenceInvalid | SummaryInvalid | ListInvalid
    | TargetOutsideAllowlist | UnexpectedContent | ConfidenceTooLow | CountOutsideBudget | PatchOutsideBudget
    | ForbiddenOperation | HeadersIncomplete | PathMismatch | HeadersDisagree | TooManyChangedLines
    | ItemInvalid | TextInvalid | TextOutsideBudget | NothingToChange | NotOneRegion | NoPatch
    | ArtifactUnreadable | ArtifactNotObject | IdentityMismatch | WorkflowNotAllowed | NotHighConfidencePatch
    | HashMismatch | ExcerptTooLong

  const PATCH_SCHEMA := "attention-router-ci-copilot-patch.v1.5"
  const MAX_PATCH_FILES := 2
  const MAX_CHANGED_LINES := 60
  const MAX_PATCH_CHARS := 12_000
  const MAX_SUMMARY_CHARS := 600
  const CONFIDENCES := {"LOW", "MEDIUM", "HIGH"}
  const PATCH_KEYS := {"schema", "decision", "confidence", "summary", "target_files", "patch"}
  const FORBIDDEN_MARKERS := [
    "GIT binary patch", "new file mode", "deleted file mode", "old mode", "new mode",
    "rename from", "rename to", "similarity index"]

  // ----- paths -----

  function DropEmpty(parts: seq<string>): (r: seq<string>)
    ensures forall p :: p in r <==> p in parts && p != "" && p != "."
  {
    if parts == [] then []
    else (if parts[0] == "" || parts[0] == "." then [] else [parts[0]]) + DropEmpty(parts[1..])
  }

  /** PurePosixPath(value).parts of a relative path. */
  function Parts(value: string): seq<string> {
    DropEmpty(Split(value, '/'))
  }

  predicate EndsWith(s: string, tail: string) {
    |tail| <= |s| && s[|s| - |tail|..] == tail
  }

  /** _is_safe_relative_test_file. A name that is only ".py" has no suffix. */
  predicate IsSafeTestFile(value: string) {
    && value != "" && '\n' !in value && '\r' !in value && value[0] != '-'
    && value[0] != '/'
    && var parts := Parts(value);
    && ".." !in parts
    && |parts| >= 2 && parts[0] == "tests"
    && EndsWith(parts[|parts| - 1], ".py") && |parts[|parts| - 1]| > 3
  }

  function PatchableFiles(changed: seq<string>): (r: seq<string>)
    ensures forall p :: p in r <==> p in changed && IsSafeTestFile(p)
  {
    if changed == [] then []
    else (if IsSafeTestFile(changed[0]) then [changed[0]] else []) + PatchableFiles(changed[1..])
  }

  // ----- headers and changed lines -----

  /** re.findall of one header form: what follows the prefix on the lines that have more than it. */
  function HeaderPaths(lines: seq<string>, prefix: string): seq<string> {
    if lines == [] then []
    else
      (if prefix <= lines[0] && |lines[0]| > |prefix| then [lines[0][|prefix|..]] else [])
      + HeaderPaths(lines[1..], prefix)
  }

  /** _parse_diff_paths. */
  function DiffPaths(patch: string): Result<seq<string>, Error> {
    var olds := HeaderPaths(Split(patch, '\n'), "--- a/");
    var news := HeaderPaths(Split(patch, '\n'), "+++ b/");
    if olds == [] || |olds| != |news| then Err(HeadersIncomplete)
    else if olds != news then Err(PathMismatch)
    else Ok(Dedupe(olds))
  }

  predicate IsChange(line: string) {
    !("+++" <= line) && !("---" <= line) && ("+" <= line || "-" <= line)
  }

  function Changes(lines: seq<string>): nat {
    if lines == [] then 0
    else Changes(lines[..|lines| - 1]) + (if IsChange(lines[|lines| - 1]) then 1 else 0)
  }

  /** _changed_line_count. */
  method ChangedLineCount(patch: string) returns (count: nat)
    ensures count == Changes(SplitLines(patch))
  {
    count := 0;
    var lines := SplitLines(patch);
    for i := 0 to |lines|
      invariant count == Changes(lines[..i])
    {
      assert lines[..i + 1][..i] == lines[..i];
      if "+++" <= lines[i] || "---" <= lines[i] {
      } else if "+" <= lines[i] || "-" <= lines[i] {
        count := count + 1;
      }
    }
    assert lines[..|lines|] == lines;
  }

  // ----- the contract -----

  function Strs(show: Show, items: seq<Json>): (r: seq<string>)
    ensures |r| == |items| && forall i | 0 <= i < |r| :: r[i] == Str(show, items[i])
  {
    seq(|items|, i requires 0 <= i < |items| => Str(show, items[i]))
  }

  predicate SameMembers(xs: seq<string>, ys: seq<string>) {
    (forall x | x in xs :: x in ys) && (forall y | y in ys :: y in xs)
  }

  /** validate_patch_payload. */
  function ValidatePatch(show: Show, payload: map<string, Json>, patchable: seq<string>): Result<Proposal, Error> {
    var decision, confidence, summary, patch :=
      TextOf(show, payload, "decision"), TextOf(show, payload, "confidence"),
      Strip(TextOf(show, payload, "summary")), TextOf(show, payload, "patch");
    var targetsRaw := Get(payload, "target_files");
    if payload.Keys != PATCH_KEYS then Err(KeysMismatch)
    else if Get(payload, "schema") != Text(PATCH_SCHEMA) then Err(SchemaMismatch)
    else if decision !in {"PATCH", "NEEDS_HUMAN", "INSUFFICIENT_CONTEXT"} then Err(DecisionInvalid)
    else if confidence !in CONFIDENCES then Err(ConfidenceInvalid)
    else if summary == "" || |summary| > MAX_SUMMARY_CHARS then Err(SummaryInvalid)
    else if !targetsRaw.Array? then Err(ListInvalid)
    else
      var targets := Strs(show, targetsRaw.elements);
      if exists t | t in targets :: t !in patchable || !IsSafeTestFile(t) then Err(TargetOutsideAllowlist)
      else if decision != "PATCH" then
        if patch != "" || targets != [] then Err(UnexpectedContent)
        else Ok(Proposal(decision, confidence, summary, [], ""))
      else if confidence != "HIGH" then Err(ConfidenceTooLow)
      else if !(1 <= |targets| <= MAX_PATCH_FILES) then Err(CountOutsideBudget)
      else if patch == "" || |patch| > MAX_PATCH_CHARS then Err(PatchOutsideBudget)
      else if exists m | m in FORBIDDEN_MARKERS :: Contains(patch, m) then Err(ForbiddenOperation)
      else match DiffPaths(patch)
           case Err(e) => Err(e)
           case Ok(paths) =>
             if !SameMembers(paths, targets) then Err(HeadersDisagree)
             else if Changes(SplitLines(patch)) > MAX_CHANGED_LINES then Err(TooManyChangedLines)
             else Ok(Proposal(decision, confidence, summary, targets, patch))
  }

  /** The payload that an artifact or a structured edit makes of a proposal. */
  function PayloadOf(p: Proposal): map<string, Json> {
    map["schema" := Text(PATCH_SCHEMA), "decision" := Text(p.decision), "confidence" := Text(p.confidence),
        "summary" := Text(p.summary), "target_files" := Array(Texts(p.targets)), "patch" := Text(p.patch)]
  }

  function Texts(xs: seq<string>): (r: seq<Json>)
    ensures |r| == |xs| && forall i | 0 <= i < |r| :: r[i] == Text(xs[i])
  {
    seq(|xs|, i requires 0 <= i < |xs| => Text(xs[i]))
  }

  /** What the contract says of a proposal, without a payload. */
  predicate Acceptable(p: Proposal, patchable: seq<string>) {
    && p.decision in {"PATCH", "NEEDS_HUMAN", "INSUFFICIENT_CONTEXT"} && p.confidence in CONFIDENCES
    && p.summary != "" && Strip(p.summary) == p.summary && |p.summary| <= MAX_SUMMARY_CHARS
    && (if p.decision == "PATCH" then
          && p.confidence == "HIGH"
          && 1 <= |p.targets| <= MAX_PATCH_FILES
          && (forall t | t in p.targets :: t in patchable && IsSafeTestFile(t))
          && IsBoundedPatch(p.patch)
          && DiffPaths(p.patch).Ok? && SameMembers(DiffPaths(p.patch).value, p.targets)
        else p.targets == [] && p.patch == "")
  }

  predicate IsBoundedPatch(patch: string) {
    && 0 < |patch| <= MAX_PATCH_CHARS
    && (forall m | m in FORBIDDEN_MARKERS :: !Contains(patch, m))
    && Changes(SplitLines(patch)) <= MAX_CHANGED_LINES
  }

  /** A payload is accepted only as an acceptable proposal. */
  lemma AcceptedIsAcceptable(show: Show, payload: map<string, Json>, patchable: seq<string>)
    requires ValidatePatch(show, payload, patchable).Ok?
    ensures Acceptable(ValidatePatch(show, payload, patchable).value, patchable)
  {
    hide DiffPaths, Changes, SplitLines, Contains, IsSafeTestFile, Strip, SameMembers;
    StripTwice(TextOf(show, payload, "summary"));
  }

  /** Every acceptable proposal, written down, is accepted as itself. */
  lemma AcceptableIsAccepted(show: Show, p: Proposal, patchable: seq<string>)
    requires Acceptable(p, patchable)
    ensures ValidatePatch(show, PayloadOf(p), patchable) == Ok(p)
  {
    hide DiffPaths, Changes, SplitLines, Contains, IsSafeTestFile, Strip, SameMembers;
    var payload := PayloadOf(p);
    assert payload.Keys == PATCH_KEYS;
    assert Strs(show, Texts(p.targets)) == p.targets;
    assert TextOf(show, payload, "decision") == p.decision && TextOf(show, payload, "confidence") == p.confidence;
    assert TextOf(show, payload, "summary") == p.summary && TextOf(show, payload, "patch") == p.patch;
  }

  /** Validation is a fixpoint on its own output: a proposal written down again validates to itself. */
  lemma ValidationIsFixpoint(show: Show, payload: map<string, Json>, patchable: seq<string>)
    requires ValidatePatch(show, payload, patchable).Ok?
    ensures var p := ValidatePatch(show, payload, patchable).value;
      ValidatePatch(show, PayloadOf(p), patchable) == Ok(p)
  {
    hide ValidatePatch, Acceptable, PayloadOf;
    AcceptedIsAcceptable(show, payload, patchable);
    AcceptableIsAccepted(show, ValidatePatch(show, payload, patchable).value, patchable);
  }
}

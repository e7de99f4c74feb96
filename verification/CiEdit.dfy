/**
 Structured edits: at most two textual replacements in the candidate files become a
 deterministic patch, which must pass the patch contract. How two texts are compared is
 left to a function of the path and both texts.
 */
module CiEdit {
  import opened Common
  import opened JsonValues
  import opened TextScan
  import opened CiPatch

  const EDIT_SCHEMA := "attention-router-ci-copilot-structured-edit.v2.1"
  const MAX_EDITS := 2
  const MAX_EDIT_TEXT_CHARS := 8_000
  const EDIT_KEYS := {"schema", "decision", "confidence", "summary", "edits"}
  const ITEM_KEYS := {"path", "old_text", "new_text"}

  type Files = map<string, string>

  /** The unified diff of one file, headers included. */
  type Diff = (string, string, string) -> string

  datatype Edit = Edit(path: string, old_: string, new_: string)

  /** The checks on one edit before it touches the working copy. */
  function EditOf(show: Show, item: Json, patchable: seq<string>, working: Files): (r: Result<Edit, Error>)
    ensures r.Ok? ==>
      r.value.path in working && r.value.old_ != "" && Count(working[r.value.path], r.value.old_) == 1
      && r.value.new_ != r.value.old_
  {
    if !item.Object? || item.members.Keys != ITEM_KEYS then Err(ItemInvalid)
    else
      var path := TextOf(show, item.members, "path");
      var old_, new_ := Get(item.members, "old_text"), Get(item.members, "new_text");
      if path !in patchable || path !in working then Err(TargetOutsideAllowlist)
      else if !old_.Text? || !new_.Text? then Err(TextInvalid)
      else if old_.text == "" || |old_.text| > MAX_EDIT_TEXT_CHARS || |new_.text| > MAX_EDIT_TEXT_CHARS then
        Err(TextOutsideBudget)
      else if old_.text == new_.text then Err(NothingToChange)
      else if Count(working[path], old_.text) != 1 then Err(NotOneRegion)
      else Ok(Edit(path, old_.text, new_.text))
  }

  function Applied(working: Files, e: Edit): Files
    requires e.path in working
  {
    working[e.path := ReplaceFirst(working[e.path], e.old_, e.new_)]
  }

  /** The edits of a payload, each checked against what the ones before it left, and the working copy at the end. */
  function ApplyAll(show: Show, items: seq<Json>, patchable: seq<string>,
        files: Files): (r: Result<(seq<Edit>, Files), Error>)
    ensures r.Ok? ==> |r.value.0| == |items| && r.value.1.Keys == files.Keys
    ensures r.Ok? ==> forall e | e in r.value.0 :: e.path in files.Keys
  {
    if items == [] then Ok(([], files))
    else match ApplyAll(show, items[..|items| - 1], patchable, files)
         case Err(e) => Err(e)
         case Ok((edits, working)) =>
           match EditOf(show, items[|items| - 1], patchable, working)
           case Err(e) => Err(e)
           case Ok(edit) => Ok((edits + [edit], Applied(working, edit)))
  }

  function Paths(edits: seq<Edit>): (r: seq<string>)
    ensures |r| == |edits| && forall i | 0 <= i < |r| :: r[i] == edits[i].path
  {
    seq(|edits|, i requires 0 <= i < |edits| => edits[i].path)
  }

  /** The diffs of the targets that changed, one after the other. */
  function Patch(diff: Diff, files: Files, edited: Files, targets: seq<string>): string
    requires forall t | t in targets :: t in files && t in edited
  {
    if targets == [] then ""
    else
      var t := targets[|targets| - 1];
      Patch(diff, files, edited, targets[..|targets| - 1])
        + (if files[t] == edited[t] then "" else diff(t, files[t], edited[t]))
  }

  /** _build_deterministic_patch. */
  method BuildPatch(diff: Diff, files: Files, edited: Files, targets: seq<string>) returns (patch: string)
    requires forall t | t in targets :: t in files && t in edited
    ensures patch == Patch(diff, files, edited, targets)
  {
    patch := "";
    for i := 0 to |targets|
      invariant patch == Patch(diff, files, edited, targets[..i])
    {
      assert targets[..i + 1][..i] == targets[..i];
      var before, after := files[targets[i]], edited[targets[i]];
      patch := patch + (if before == after then "" else diff(targets[i], before, after));
    }
    assert targets[..|targets|] == targets;
  }

  function PatchPayload(confidence: string, summary: string, targets: seq<string>, patch: string): map<string, Json> {
    PayloadOf(Proposal("PATCH", confidence, summary, targets, patch))
  }

  function Proposed(show: Show, diff: Diff, payload: map<string, Json>, files: Files,
        patchable: seq<string>): Result<Proposal, Error>
  {
    var decision, confidence, summary :=
      TextOf(show, payload, "decision"), TextOf(show, payload, "confidence"), Strip(TextOf(show, payload, "summary"));
    var edits := Get(payload, "edits");
    if payload.Keys != EDIT_KEYS then Err(KeysMismatch)
    else if Get(payload, "schema") != Text(EDIT_SCHEMA) then Err(SchemaMismatch)
    else if decision !in {"EDIT", "NEEDS_HUMAN", "INSUFFICIENT_CONTEXT"} then Err(DecisionInvalid)
    else if confidence !in CONFIDENCES then Err(ConfidenceInvalid)
    else if summary == "" || |summary| > MAX_SUMMARY_CHARS then Err(SummaryInvalid)
    else if !edits.Array? then Err(ListInvalid)
    else if decision != "EDIT" then
      if edits.elements != [] then Err(UnexpectedContent) else Ok(Proposal(decision, confidence, summary, [], ""))
    else if confidence != "HIGH" then Err(ConfidenceTooLow)
    else if !(1 <= |edits.elements| <= MAX_EDITS) then Err(CountOutsideBudget)
    else match ApplyAll(show, edits.elements, patchable, files)
         case Err(e) => Err(e)
         case Ok((applied, working)) =>
           var targets := Dedupe(Paths(applied));
           var patch := Patch(diff, files, working, targets);
           if patch == "" then Err(NoPatch)
           else ValidatePatch(show, PatchPayload(confidence, summary, targets, patch), patchable)
  }

  /** The loop over the edits: it rewrites the working copy and notes what it touched. */
  method ApplyEdits(show: Show, items: seq<Json>, patchable: seq<string>, files: Files)
      returns (r: Result<(Files, seq<string>), Error>)
    ensures var applied := ApplyAll(show, items, patchable, files);
      r == if applied.Err? then Err(applied.error) else Ok((applied.value.1, Paths(applied.value.0)))
  {
    hide EditOf, Applied;
    var working, touched := files, [];
    ghost var edits: seq<Edit> := [];
    for i := 0 to |items|
      invariant ApplyAll(show, items[..i], patchable, files) == Ok((edits, working))
      invariant touched == Paths(edits)
    {
      assert items[..i + 1][..i] == items[..i];
      var edit := EditOf(show, items[i], patchable, working);
      if edit.Err? {
        ApplyFails(show, items, i + 1, patchable, files);
        return Err(edit.error);
      }
      working := Applied(working, edit.value);
      touched := touched + [edit.value.path];
      edits := edits + [edit.value];
    }
    assert items[..|items|] == items;
    r := Ok((working, touched));
  }

  /** validate_structured_edit_payload. */
  method ValidateStructuredEdit(show: Show, diff: Diff, payload: map<string, Json>, files: Files,
        patchable: seq<string>)
      returns (r: Result<Proposal, Error>)
    ensures r == Proposed(show, diff, payload, files, patchable)
  {
    hide ValidatePatch, PayloadOf, ApplyAll, Strip, TextOf;
    var decision := TextOf(show, payload, "decision");
    var confidence := TextOf(show, payload, "confidence");
    var summary := Strip(TextOf(show, payload, "summary"));
    var raw := Get(payload, "edits");
    if payload.Keys != EDIT_KEYS { return Err(KeysMismatch); }
    if Get(payload, "schema") != Text(EDIT_SCHEMA) { return Err(SchemaMismatch); }
    if decision !in {"EDIT", "NEEDS_HUMAN", "INSUFFICIENT_CONTEXT"} { return Err(DecisionInvalid); }
    if confidence !in CONFIDENCES { return Err(ConfidenceInvalid); }
    if summary == "" || |summary| > MAX_SUMMARY_CHARS { return Err(SummaryInvalid); }
    if !raw.Array? { return Err(ListInvalid); }
    if decision != "EDIT" {
      if raw.elements != [] { return Err(UnexpectedContent); }
      return Ok(Proposal(decision, confidence, summary, [], ""));
    }
    if confidence != "HIGH" { return Err(ConfidenceTooLow); }
    var items := raw.elements;
    if !(1 <= |items| <= MAX_EDITS) { return Err(CountOutsideBudget); }
    var applied := ApplyEdits(show, items, patchable, files);
    if applied.Err? { return Err(applied.error); }
    var (working, touched) := applied.value;
    var targets := Dedupe(touched);
    var patch := BuildPatch(diff, files, working, targets);
    if patch == "" { return Err(NoPatch); }
    r := ValidatePatch(show, PatchPayload(confidence, summary, targets, patch), patchable);
  }

  lemma {:induction false} ApplyFails(show: Show, items: seq<Json>, k: nat, patchable: seq<string>, files: Files)
    requires k <= |items| && ApplyAll(show, items[..k], patchable, files).Err?
    ensures ApplyAll(show, items, patchable, files) == ApplyAll(show, items[..k], patchable, files)
    decreases |items|
  {
    if k < |items| {
      assert items[..|items| - 1][..k] == items[..k];
      ApplyFails(show, items[..|items| - 1], k, patchable, files);
    } else {
      assert items[..k] == items;
    }
  }

  // ----- what an accepted edit did -----

  /** One edit: its file is cut at the only counted occurrence of the old text, and the rest stays. */
  ghost predicate Step(before: Files, e: Edit, after: Files) {
    && e.path in before && after.Keys == before.Keys
    && (forall path | path in before && path != e.path :: after[path] == before[path])
    && exists head, tail :: Splits(before[e.path], e.old_, head, tail) && after[e.path] == head + e.new_ + tail
  }

  ghost predicate Chain(states: seq<Files>, edits: seq<Edit>) {
    && |states| == |edits| + 1
    && forall i {:trigger edits[i]} | 0 <= i < |edits| :: Step(states[i], edits[i], states[i + 1])
  }

  lemma {:induction false} ApplyChains(show: Show, items: seq<Json>, patchable: seq<string>, files: Files)
      returns (states: seq<Files>)
    requires ApplyAll(show, items, patchable, files).Ok?
    ensures var (edits, working) := ApplyAll(show, items, patchable, files).value;
      Chain(states, edits) && states[0] == files && states[|edits|] == working
  {
    if items == [] {
      states := [files];
    } else {
      var (edits, working) := ApplyAll(show, items[..|items| - 1], patchable, files).value;
      var edit := EditOf(show, items[|items| - 1], patchable, working).value;
      var before := ApplyChains(show, items[..|items| - 1], patchable, files);
      states := before + [Applied(working, edit)];
      EditSteps(show, items[|items| - 1], patchable, working);
      forall i | 0 <= i < |edits|
        ensures Step(states[i], (edits + [edit])[i], states[i + 1])
      {
        assert edits[i] == (edits + [edit])[i];
      }
    }
  }

  lemma EditSteps(show: Show, item: Json, patchable: seq<string>, working: Files)
    requires EditOf(show, item, patchable, working).Ok?
    ensures var e := EditOf(show, item, patchable, working).value;
      Step(working, e, Applied(working, e)) && Applied(working, e)[e.path] != working[e.path]
  {
    var e := EditOf(show, item, patchable, working).value;
    CountOneIff(working[e.path], e.old_, e.new_);
    ReplacementChanges(working[e.path], e.old_, e.new_);
  }

  /** When nothing differs in the end, nothing is written. */
  lemma {:induction false} NoChangeNoPatch(diff: Diff, files: Files, edited: Files, targets: seq<string>)
    requires forall t | t in targets :: t in files && t in edited && files[t] == edited[t]
    ensures Patch(diff, files, edited, targets) == ""
  {
    if targets != [] {
      NoChangeNoPatch(diff, files, edited, targets[..|targets| - 1]);
    }
  }

  /** Edits that cancel each other are rejected, whatever the diff makes of equal texts. */
  lemma CancellingEditsAreRejected(show: Show, diff: Diff, payload: map<string, Json>, files: Files,
        patchable: seq<string>)
    requires Get(payload, "edits").Array?
    requires ApplyAll(show, Get(payload, "edits").elements, patchable, files).Ok?
    requires ApplyAll(show, Get(payload, "edits").elements, patchable, files).value.1 == files
    ensures var r := Proposed(show, diff, payload, files, patchable);
      r.Err? || r.value.decision != "PATCH"
  {
    hide ApplyAll, ValidatePatch, PatchPayload, Dedupe, Paths, TextOf;
    var (edits, working) := ApplyAll(show, Get(payload, "edits").elements, patchable, files).value;
    NoChangeNoPatch(diff, files, working, Dedupe(Paths(edits)));
  }

  ghost predicate ChangesOnly(before: Files, path: string, after: Files) {
    && path in before && path in after && after == before[path := after[path]]
    && after[path] != before[path]
  }

  lemma EditChangesItsFile(show: Show, item: Json, patchable: seq<string>, working: Files)
    requires EditOf(show, item, patchable, working).Ok?
    ensures var e := EditOf(show, item, patchable, working).value; ChangesOnly(working, e.path, Applied(working, e))
  {
    EditSteps(show, item, patchable, working);
    var e := EditOf(show, item, patchable, working).value;
    assert working[e.path := Applied(working, e)[e.path]] == Applied(working, e);
  }

  /** Two changes leave either nothing or exactly their files changed; a third could undo just one of two. */
  lemma TwoChanges(files: Files, p: string, middle: Files, q: string, working: Files)
    requires ChangesOnly(files, p, middle) && ChangesOnly(middle, q, working)
    ensures working == files || forall path | path in files :: path == p || path == q <==> working[path] != files[path]
  {
    if p == q && working[p] == files[p] {
      assert working == files;
    }
  }

  /** With two edits at most, the touched files are the changed ones, unless nothing changed at all. */
  lemma TouchedIsChanged(show: Show, items: seq<Json>, patchable: seq<string>, files: Files)
    requires ApplyAll(show, items, patchable, files).Ok? && 1 <= |items| <= MAX_EDITS
    ensures var (edits, working) := ApplyAll(show, items, patchable, files).value;
      working == files || forall path | path in files :: path in Paths(edits) <==> working[path] != files[path]
  {
    hide EditOf, Applied;
    var (edits, working) := ApplyAll(show, items, patchable, files).value;
    var shorter := items[..|items| - 1];
    var (first, middle) := ApplyAll(show, shorter, patchable, files).value;
    EditChangesItsFile(show, items[|items| - 1], patchable, middle);
    if |items| == 2 {
      assert shorter[..|shorter| - 1] == [] && shorter[|shorter| - 1] == items[0];
      assert ApplyAll(show, shorter[..|shorter| - 1], patchable, files) == Ok(([], files));
      EditChangesItsFile(show, items[0], patchable, files);
      TwoChanges(files, first[0].path, middle, edits[1].path, working);
      assert Paths(edits) == [first[0].path, edits[1].path];
    } else {
      assert shorter == [] && Paths(edits) == [edits[0].path];
    }
  }

  /**
   The targets of a proposal are exactly the files whose text changed, in the order in which
   they were first touched, and its patch is the diff of those files.
   */
  ghost predicate Accounts(p: Proposal, diff: Diff, files: Files, edits: seq<Edit>, edited: Files) {
    && edited.Keys == files.Keys
    && (forall t | t in p.targets :: t in files)
    && (forall path | path in files :: path in p.targets <==> edited[path] != files[path])
    && InFirstOrder(Paths(edits), p.targets)
    && p.patch == Patch(diff, files, edited, p.targets)
  }

  /**
   An accepted edit accounts for what changed; every edit replaced the one counted
   occurrence of its old text in what the edits before it had left, and all other files are
   as they were.
   */
  lemma AcceptedEdit(show: Show, diff: Diff, payload: map<string, Json>, files: Files, patchable: seq<string>)
      returns (edits: seq<Edit>, states: seq<Files>)
    requires Proposed(show, diff, payload, files, patchable).Ok?
    requires Proposed(show, diff, payload, files, patchable).value.decision == "PATCH"
    ensures Chain(states, edits) && states[0] == files
    ensures Get(payload, "edits").Array?
    ensures ApplyAll(show, Get(payload, "edits").elements, patchable, files) == Ok((edits, states[|edits|]))
    ensures Accounts(Proposed(show, diff, payload, files, patchable).value, diff, files, edits, states[|edits|])
  {
    hide ValidatePatch, EditOf, ApplyAll, Proposed, Patch, Step, Dedupe, InFirstOrder, TextOf, PayloadOf;
    var p, working := ProposedPatch(show, diff, payload, files, patchable);
    var items := Get(payload, "edits").elements;
    edits := ApplyAll(show, items, patchable, files).value.0;
    states := ApplyChains(show, items, patchable, files);
    TouchedIsChanged(show, items, patchable, files);
    DedupeIsInFirstOrder(Paths(edits));
  }

  /** Validation changes nothing in a proposal whose summary is stripped. */
  lemma AcceptedIsSame(show: Show, p: Proposal, patchable: seq<string>)
    requires ValidatePatch(show, PayloadOf(p), patchable).Ok? && Strip(p.summary) == p.summary && p.decision == "PATCH"
    ensures ValidatePatch(show, PayloadOf(p), patchable) == Ok(p) && p.confidence == "HIGH"
  {
    hide DiffPaths, Changes, SplitLines, Contains, IsSafeTestFile, Strip, SameMembers;
    assert Strs(show, Texts(p.targets)) == p.targets;
  }

  /** What an accepted proposal is made of. */
  lemma ProposedPatch(show: Show, diff: Diff, payload: map<string, Json>, files: Files, patchable: seq<string>)
      returns (p: Proposal, working: Files)
    requires Proposed(show, diff, payload, files, patchable).Ok?
    requires Proposed(show, diff, payload, files, patchable).value.decision == "PATCH"
    ensures p == Proposed(show, diff, payload, files, patchable).value
    ensures Get(payload, "edits").Array?
    ensures var items := Get(payload, "edits").elements;
      && 1 <= |items| <= MAX_EDITS && ApplyAll(show, items, patchable, files).Ok?
      && var (edits, w) := ApplyAll(show, items, patchable, files).value;
      && w == working && working != files
      && p.targets == Dedupe(Paths(edits))
      && p.patch == Patch(diff, files, working, p.targets)
      && p == Proposal("PATCH", p.confidence, p.summary, p.targets, p.patch)
      && ValidatePatch(show, PayloadOf(p), patchable) == Ok(p)
  {
    hide ApplyAll, ValidatePatch, Dedupe, Paths, TextOf, Strip, Patch;
    p := Proposed(show, diff, payload, files, patchable).value;
    var items := Get(payload, "edits").elements;
    var (edits, w) := ApplyAll(show, items, patchable, files).value;
    working := w;
    if working == files {
      NoChangeNoPatch(diff, files, working, Dedupe(Paths(edits)));
    }
    var confidence, summary := TextOf(show, payload, "confidence"), Strip(TextOf(show, payload, "summary"));
    var asked :=
      Proposal("PATCH", confidence, summary, Dedupe(Paths(edits)), Patch(diff, files, working, Dedupe(Paths(edits))));
    StripTwice(TextOf(show, payload, "summary"));
    AcceptedIsSame(show, asked, patchable);
  }
}

/**
 The contracts of the CI scripts as a caller reads them: the paths, lines and headers they mean, and
 the payloads, edits and artifacts that each of them accepts, with every key, limit and marker.
 */
module CiContract {
  import opened Common
  import opened JsonValues
  import opened TextScan
  import opened CiPatch
  import opened CiEdit
  import opened CiArtifact

  // ----- paths -----

  ghost predicate IsBlank(part: string) {
    part == "" || part == "."
  }

  /** Between blank parts, the path starts with `tests` and ends with a named Python file. */
  ghost predicate IsTestPath(parts: seq<string>, i: int, j: int) {
    && 0 <= i < j < |parts| && parts[i] == "tests"
    && |parts[j]| >= 4 && parts[j][|parts[j]| - 3..] == ".py"
    && (forall k | 0 <= k < i :: IsBlank(parts[k]))
    && (forall k | j < k < |parts| :: IsBlank(parts[k]))
    && forall k | 0 <= k < |parts| :: parts[k] != ".."
  }

  ghost predicate HasTestPath(parts: seq<string>) {
    exists i, j :: IsTestPath(parts, i, j)
  }

  /** A path that may be patched: relative, on one line, no option, below `tests`, never upwards. */
  lemma SafeTestFileIff(path: string)
    ensures IsSafeTestFile(path) <==>
      && path != "" && path[0] != '-' && path[0] != '/' && '\n' !in path && '\r' !in path
      && HasTestPath(Split(path, '/'))
  {
    hide Split, DropEmpty, HasTestPath, EndsWith;
    TestPathIff(Split(path, '/'));
  }

  lemma TestPathIff(parts: seq<string>)
    ensures HasTestPath(parts) <==>
      var kept := DropEmpty(parts);
      && ".." !in kept && |kept| >= 2 && kept[0] == "tests"
      && EndsWith(kept[|kept| - 1], ".py") && |kept[|kept| - 1]| > 3
  {
    hide DropEmpty;
    var kept := DropEmpty(parts);
    if i, j :| IsTestPath(parts, i, j) {
      EndsAreKept(parts, i, j);
      assert ".." !in parts;
    }
    if ".." !in kept && |kept| >= 2 && kept[0] == "tests"
       && EndsWith(kept[|kept| - 1], ".py") && |kept[|kept| - 1]| > 3 {
      var i, j := EndsOf(parts);
      assert ".." !in parts;
      assert IsTestPath(parts, i, j);
    }
  }

  lemma {:induction false} AllBlank(parts: seq<string>)
    requires forall k | 0 <= k < |parts| :: IsBlank(parts[k])
    ensures DropEmpty(parts) == []
  {
    if parts != [] {
      AllBlank(parts[1..]);
    }
  }

  lemma {:induction false} LastIsKept(parts: seq<string>, j: int)
    requires 0 <= j < |parts| && !IsBlank(parts[j]) && forall k | j < k < |parts| :: IsBlank(parts[k])
    ensures var r := DropEmpty(parts); |r| >= 1 && r[|r| - 1] == parts[j]
  {
    if j == 0 {
      AllBlank(parts[1..]);
    } else {
      LastIsKept(parts[1..], j - 1);
    }
  }

  /** The first and the last part that are not blank are the first and the last that are kept. */
  lemma {:induction false} EndsAreKept(parts: seq<string>, i: int, j: int)
    requires 0 <= i < j < |parts| && !IsBlank(parts[i]) && !IsBlank(parts[j])
    requires forall k | 0 <= k < i :: IsBlank(parts[k])
    requires forall k | j < k < |parts| :: IsBlank(parts[k])
    ensures var r := DropEmpty(parts); |r| >= 2 && r[0] == parts[i] && r[|r| - 1] == parts[j]
  {
    if i == 0 {
      LastIsKept(parts[1..], j - 1);
    } else {
      assert IsBlank(parts[0]);
      EndsAreKept(parts[1..], i - 1, j - 1);
    }
  }

  lemma {:induction false} LastOf(parts: seq<string>) returns (j: int)
    requires |DropEmpty(parts)| >= 1
    ensures 0 <= j < |parts| && !IsBlank(parts[j]) && parts[j] == DropEmpty(parts)[|DropEmpty(parts)| - 1]
    ensures forall k | j < k < |parts| :: IsBlank(parts[k])
  {
    if DropEmpty(parts[1..]) == [] {
      j := 0;
      forall k | 0 < k < |parts|
        ensures IsBlank(parts[k])
      {
        assert parts[k] == parts[1..][k - 1] && parts[k] in parts[1..];
        assert parts[k] !in DropEmpty(parts[1..]);
      }
    } else {
      j := LastOf(parts[1..]);
      j := j + 1;
    }
  }

  lemma {:induction false} EndsOf(parts: seq<string>) returns (i: int, j: int)
    requires |DropEmpty(parts)| >= 2
    ensures 0 <= i < j < |parts| && parts[i] == DropEmpty(parts)[0]
    ensures parts[j] == DropEmpty(parts)[|DropEmpty(parts)| - 1]
    ensures forall k | 0 <= k < i :: IsBlank(parts[k])
    ensures forall k | j < k < |parts| :: IsBlank(parts[k])
  {
    if IsBlank(parts[0]) {
      i, j := EndsOf(parts[1..]);
      i, j := i + 1, j + 1;
    } else {
      j := LastOf(parts[1..]);
      i, j := 0, j + 1;
    }
  }

  // ----- lines -----

  /** A line of a diff that adds or removes, and is not a file header. */
  lemma ChangeIff(line: string)
    ensures IsChange(line) <==>
      && |line| >= 1 && line[0] in "+-"
      && !(|line| >= 3 && line[1] == line[0] && line[2] == line[0])
  {
    assert "+++" <= line <==> |line| >= 3 && line[0] == '+' && line[1] == '+' && line[2] == '+';
    assert "---" <= line <==> |line| >= 3 && line[0] == '-' && line[1] == '-' && line[2] == '-';
  }

  /** They are counted one by one. */
  lemma {:induction false} ChangesIsCount(lines: seq<string>)
    ensures Changes(lines) == |ChangedAt(lines)|
  {
    hide IsChange;
    if lines != [] {
      var shorter := lines[..|lines| - 1];
      ChangesIsCount(shorter);
      assert ChangedAt(lines)
        == if IsChange(lines[|shorter|]) then ChangedAt(shorter) + {|shorter|} else ChangedAt(shorter);
    }
  }

  ghost function ChangedAt(lines: seq<string>): set<int> {
    set i | 0 <= i < |lines| && IsChange(lines[i])
  }

  /** The lines at `at`, in their order, are those that hold more than the prefix, and `paths` is what more. */
  ghost predicate Headers(lines: seq<string>, prefix: string, at: seq<int>, paths: seq<string>) {
    && |at| == |paths|
    && (forall k | 0 <= k < |at| :: 0 <= at[k] < |lines| && paths[k] != "" && lines[at[k]] == prefix + paths[k])
    && (forall k, m | 0 <= k < m < |at| :: at[k] < at[m])
    && forall i | 0 <= i < |lines| && IsHeader(lines[i], prefix) :: i in at
  }

  lemma {:induction false} HeaderPathsAre(lines: seq<string>, prefix: string) returns (at: seq<int>)
    ensures Headers(lines, prefix, at, HeaderPaths(lines, prefix))
  {
    hide Headers, HeadersBehind, HeaderPaths;
    if lines == [] {
      at := [];
      NoHeaders(prefix);
    } else {
      HeaderPathsStep(lines, prefix);
      var rest := HeaderPathsAre(lines[1..], prefix);
      at := seq(|rest|, k requires 0 <= k < |rest| => rest[k] + 1);
      MovedHeaders(lines, prefix, rest, at, HeaderPaths(lines[1..], prefix));
      if IsHeader(lines[0], prefix) {
        OneMoreHeader(lines, prefix, at, HeaderPaths(lines[1..], prefix));
        at := [0] + at;
      }
    }
  }

  lemma NoHeaders(prefix: string)
    ensures Headers([], prefix, [], HeaderPaths([], prefix))
  {
  }

  lemma HeaderPathsStep(lines: seq<string>, prefix: string)
    requires lines != []
    ensures HeaderPaths(lines, prefix) ==
      if IsHeader(lines[0], prefix) then [lines[0][|prefix|..]] + HeaderPaths(lines[1..], prefix)
      else HeaderPaths(lines[1..], prefix)
  {
    assert prefix <= lines[0] && |lines[0]| > |prefix| <==> IsHeader(lines[0], prefix);
  }

  ghost predicate IsHeader(line: string, prefix: string) {
    |line| > |prefix| && line[..|prefix|] == prefix
  }

  /** The headers behind the first line. */
  ghost predicate HeadersBehind(lines: seq<string>, prefix: string, at: seq<int>, paths: seq<string>) {
    && |at| == |paths|
    && (forall k | 0 <= k < |at| :: 0 < at[k] < |lines| && paths[k] != "" && lines[at[k]] == prefix + paths[k])
    && (forall k, m | 0 <= k < m < |at| :: at[k] < at[m])
    && forall i | 0 < i < |lines| && IsHeader(lines[i], prefix) :: i in at
  }

  lemma MovedHeaders(lines: seq<string>, prefix: string, rest: seq<int>, at: seq<int>, paths: seq<string>)
    requires lines != [] && Headers(lines[1..], prefix, rest, paths)
    requires |at| == |rest| && forall k | 0 <= k < |rest| :: at[k] == rest[k] + 1
    ensures HeadersBehind(lines, prefix, at, paths)
    ensures !IsHeader(lines[0], prefix) ==> Headers(lines, prefix, at, paths)
  {
    hide IsHeader;
    var behind := lines[1..];
    assert forall k | 0 <= k < |at| :: behind[rest[k]] == lines[at[k]];
    assert forall i | 0 < i < |lines| :: behind[i - 1] == lines[i];
    forall i | 0 < i < |lines| && IsHeader(lines[i], prefix)
      ensures i in at
    {
      assert IsHeader(behind[i - 1], prefix);
      var k :| 0 <= k < |rest| && rest[k] == i - 1;
      assert at[k] == i;
    }
  }

  lemma OneMoreHeader(lines: seq<string>, prefix: string, at: seq<int>, paths: seq<string>)
    requires lines != [] && HeadersBehind(lines, prefix, at, paths) && IsHeader(lines[0], prefix)
    ensures Headers(lines, prefix, [0] + at, [lines[0][|prefix|..]] + paths)
  {
    var all, named := [0] + at, [lines[0][|prefix|..]] + paths;
    forall k | 0 <= k < |all|
      ensures 0 <= all[k] < |lines| && named[k] != "" && lines[all[k]] == prefix + named[k]
    {
      if k > 0 {
        assert all[k] == at[k - 1] && named[k] == paths[k - 1];
      }
    }
    forall i | 0 <= i < |lines| && IsHeader(lines[i], prefix)
      ensures i in all
    {
      assert all[0] == 0;
    }
  }

  /** The headers of a patch name these files, before and after. */
  ghost predicate Names(patch: string, named: seq<string>) {
    && (exists from :: Headers(Split(patch, '\n'), "--- a/", from, named))
    && exists to :: Headers(Split(patch, '\n'), "+++ b/", to, named)
  }

  /** A patch has paths exactly when its headers name the same files before and after, at least one. */
  lemma DiffPathsIff(patch: string)
    ensures DiffPaths(patch).Ok? <==> exists named :: named != [] && Names(patch, named)
    ensures DiffPaths(patch).Ok? ==>
      exists named :: named != [] && Names(patch, named) && InFirstOrder(named, DiffPaths(patch).value)
  {
    hide InFirstOrder, HeaderPaths, Headers, Split;
    var lines := Split(patch, '\n');
    var from := HeaderPathsAre(lines, "--- a/");
    var to := HeaderPathsAre(lines, "+++ b/");
    var olds, news := HeaderPaths(lines, "--- a/"), HeaderPaths(lines, "+++ b/");
    DedupeIsInFirstOrder(olds);
    if named :| named != [] && Names(patch, named) {
      var from' :| Headers(lines, "--- a/", from', named);
      var to' :| Headers(lines, "+++ b/", to', named);
      SameHeaders(lines, "--- a/", from, olds, from', named);
      SameHeaders(lines, "+++ b/", to, news, to', named);
    }
    assert DiffPaths(patch).Ok? ==> Names(patch, olds);
  }

  /** The headers of a list of lines are determined by it. */
  lemma {:induction false} SameHeaders(lines: seq<string>, prefix: string, at: seq<int>, paths: seq<string>,
        at': seq<int>, paths': seq<string>)
    requires Headers(lines, prefix, at, paths) && Headers(lines, prefix, at', paths')
    ensures at == at' && paths == paths'
    decreases |at|
  {
    HeaderAt(lines, prefix, at, paths);
    HeaderAt(lines, prefix, at', paths');
    SameIncreasing(at, at');
    forall k | 0 <= k < |paths|
      ensures paths[k] == paths'[k]
    {
      assert lines[at[k]][|prefix|..] == paths[k] && lines[at[k]][|prefix|..] == paths'[k];
    }
  }

  lemma HeaderAt(lines: seq<string>, prefix: string, at: seq<int>, paths: seq<string>)
    requires Headers(lines, prefix, at, paths)
    ensures forall i :: i in at <==> 0 <= i < |lines| && IsHeader(lines[i], prefix)
  {
  }

  lemma EmptyAlike(xs: seq<int>, ys: seq<int>)
    requires forall x | x in ys :: x in xs
    ensures |xs| == 0 ==> |ys| == 0
  {
    if |ys| > 0 {
      var y := ys[0];
      assert y in ys;
    }
  }

  lemma {:induction false} SameIncreasing(xs: seq<int>, ys: seq<int>)
    requires forall k, m | 0 <= k < m < |xs| :: xs[k] < xs[m]
    requires forall k, m | 0 <= k < m < |ys| :: ys[k] < ys[m]
    requires forall x :: x in xs <==> x in ys
    ensures xs == ys
  {
    EmptyAlike(xs, ys);
    EmptyAlike(ys, xs);
    if xs != [] {
      var x, y := xs[0], ys[0];
      assert x in xs && y in ys;
      assert x in ys && y in xs;
      forall x
        ensures x in xs[1..] <==> x in ys[1..]
      {
        assert x in xs <==> x == xs[0] || x in xs[1..];
        assert x in ys <==> x == ys[0] || x in ys[1..];
      }
      SameIncreasing(xs[1..], ys[1..]);
    }
  }

  // ----- payloads -----

  /** str(value or ""): the text, or what `str` makes of a value that is not empty, zero, false or missing. */
  ghost predicate Says(show: Show, payload: map<string, Json>, key: string, t: string) {
    if key !in payload then t == ""
    else match payload[key]
         case Null => t == ""
         case Bool(b) => t == if b then show(Bool(true)) else ""
         case Number(x) => t == if x == 0.0 then "" else show(Number(x))
         case Text(s) => t == s
         case Array(xs) => t == if |xs| == 0 then "" else show(Array(xs))
         case Object(m) => t == if |m| == 0 then "" else show(Object(m))
  }

  lemma SaysIff(show: Show, payload: map<string, Json>, key: string, t: string)
    ensures TextOf(show, payload, key) == t <==> Says(show, payload, key, t)
  {
    if key in payload && payload[key].Object? {
      assert |payload[key].members| == 0 <==> payload[key].members == map[];
    }
  }

  // ----- patch payloads -----

  /** None of the words that git writes for anything but a change of text. */
  ghost predicate OnlyText(patch: string) {
    forall m | m in {"GIT binary patch", "new file mode", "deleted file mode", "old mode", "new mode", "rename from",
                     "rename to", "similarity index"} :: !Occurs(patch, m)
  }

  ghost predicate SaysOneOf(show: Show, payload: map<string, Json>, key: string, words: set<string>) {
    exists w :: w in words && Says(show, payload, key, w)
  }

  /** A summary of at most 600 characters, apart from the whitespace around it. */
  ghost predicate HasSummary(show: Show, payload: map<string, Json>) {
    exists s :: Says(show, payload, "summary", s) && 1 <= |Strip(s)| <= 600
  }

  /** One or two test files of the pull request, and a small textual patch whose headers name just them. */
  ghost predicate SmallTestPatch(patch: string, targets: seq<string>, patchable: seq<string>) {
    && 1 <= |targets| <= 2 && (forall t | t in targets :: t in patchable && IsSafeTestFile(t))
    && 1 <= |patch| <= 12000 && OnlyText(patch) && |ChangedAt(SplitLines(patch))| <= 60
    && DiffPaths(patch).Ok? && forall t :: t in DiffPaths(patch).value <==> t in targets
  }

  /** The payloads that the patch contract accepts. */
  lemma PatchAcceptedIff(show: Show, payload: map<string, Json>, patchable: seq<string>)
    ensures ValidatePatch(show, payload, patchable).Ok? <==>
      && payload.Keys == {"schema", "decision", "confidence", "summary", "target_files", "patch"}
      && payload["schema"] == Text("attention-router-ci-copilot-patch.v1.5")
      && SaysOneOf(show, payload, "confidence", {"LOW", "MEDIUM", "HIGH"}) && HasSummary(show, payload)
      && payload["target_files"].Array?
      && var targets := Strs(show, payload["target_files"].elements);
      && (if Says(show, payload, "decision", "PATCH") then
            && Says(show, payload, "confidence", "HIGH")
            && exists patch :: Says(show, payload, "patch", patch) && SmallTestPatch(patch, targets, patchable)
          else
            && SaysOneOf(show, payload, "decision", {"NEEDS_HUMAN", "INSUFFICIENT_CONTEXT"})
            && Says(show, payload, "patch", "") && |targets| == 0)
  {
    hide Says, SaysOneOf, HasSummary, SmallTestPatch, DiffPaths, Changes, SplitLines, Contains, IsSafeTestFile, Strip,
         SameMembers, TextOf, IsBoundedPatch, Strs;
    PatchTexts(show, payload, patchable);
    if payload.Keys == PATCH_KEYS && payload["target_files"].Array? {
      SmallIff(show, payload, Strs(show, payload["target_files"].elements), patchable);
      AcceptedAsSmall(show, payload, patchable);
    }
  }

  /** What they are accepted as: the texts of the payload, the summary without the whitespace around it. */
  lemma PatchAcceptedAs(show: Show, payload: map<string, Json>, patchable: seq<string>)
    requires ValidatePatch(show, payload, patchable).Ok?
    ensures var p := ValidatePatch(show, payload, patchable).value;
      && payload.Keys == PATCH_KEYS && payload["target_files"].Array?
      && Says(show, payload, "decision", p.decision) && Says(show, payload, "confidence", p.confidence)
      && Says(show, payload, "patch", p.patch) && p.targets == Strs(show, payload["target_files"].elements)
      && exists s :: Says(show, payload, "summary", s) && p.summary == Strip(s)
  {
    hide Says, DiffPaths, Changes, SplitLines, Contains, IsSafeTestFile, Strip, SameMembers, TextOf;
    var p := ValidatePatch(show, payload, patchable).value;
    SaysIff(show, payload, "decision", p.decision);
    SaysIff(show, payload, "confidence", p.confidence);
    SaysIff(show, payload, "patch", p.patch);
    SaysIff(show, payload, "summary", TextOf(show, payload, "summary"));
  }

  lemma PatchTexts(show: Show, payload: map<string, Json>, patchable: seq<string>)
    ensures SaysOneOf(show, payload, "confidence", {"LOW", "MEDIUM", "HIGH"}) <==>
      TextOf(show, payload, "confidence") in CONFIDENCES
    ensures SaysOneOf(show, payload, "decision", {"NEEDS_HUMAN", "INSUFFICIENT_CONTEXT"}) <==>
      TextOf(show, payload, "decision") in {"NEEDS_HUMAN", "INSUFFICIENT_CONTEXT"}
    ensures Says(show, payload, "confidence", "HIGH") <==> TextOf(show, payload, "confidence") == "HIGH"
    ensures Says(show, payload, "decision", "PATCH") <==> TextOf(show, payload, "decision") == "PATCH"
    ensures Says(show, payload, "patch", "") <==> TextOf(show, payload, "patch") == ""
    ensures var summary := Strip(TextOf(show, payload, "summary"));
      HasSummary(show, payload) <==> summary != "" && |summary| <= MAX_SUMMARY_CHARS
  {
    hide Says, TextOf, Strip;
    forall key, t
      ensures Says(show, payload, key, t) <==> TextOf(show, payload, key) == t
    {
      SaysIff(show, payload, key, t);
    }
  }

  /** The bounds of a patch, as the contract checks them one by one. */
  ghost predicate Small(patch: string, targets: seq<string>, patchable: seq<string>) {
    && 1 <= |targets| <= MAX_PATCH_FILES && (forall t | t in targets :: t in patchable && IsSafeTestFile(t))
    && patch != "" && |patch| <= MAX_PATCH_CHARS && (forall m | m in FORBIDDEN_MARKERS :: !Contains(patch, m))
    && DiffPaths(patch).Ok? && SameMembers(DiffPaths(patch).value, targets)
    && Changes(SplitLines(patch)) <= MAX_CHANGED_LINES
  }

  lemma SmallIff(show: Show, payload: map<string, Json>, targets: seq<string>, patchable: seq<string>)
    ensures Small(TextOf(show, payload, "patch"), targets, patchable) <==>
      exists patch :: Says(show, payload, "patch", patch) && SmallTestPatch(patch, targets, patchable)
  {
    hide Says, TextOf, IsSafeTestFile, DiffPaths, ChangedAt, Changes;
    forall patch
      ensures Says(show, payload, "patch", patch) <==> TextOf(show, payload, "patch") == patch
    {
      SaysIff(show, payload, "patch", patch);
    }
    var patch := TextOf(show, payload, "patch");
    ChangesIsCount(SplitLines(patch));
    OnlyTextIff(patch);
    assert Small(patch, targets, patchable) <==> SmallTestPatch(patch, targets, patchable);
  }

  lemma OnlyTextIff(patch: string)
    ensures OnlyText(patch) <==> forall m | m in FORBIDDEN_MARKERS :: !Contains(patch, m)
  {
    hide Occurs, Contains;
    assert forall m :: Contains(patch, m) <==> Occurs(patch, m);
  }

  lemma AcceptedAsSmall(show: Show, payload: map<string, Json>, patchable: seq<string>)
    requires payload.Keys == PATCH_KEYS && payload["target_files"].Array?
    ensures var decision, confidence, summary := TextOf(show, payload, "decision"),
        TextOf(show, payload, "confidence"), Strip(TextOf(show, payload, "summary"));
      var targets := Strs(show, payload["target_files"].elements);
      ValidatePatch(show, payload, patchable).Ok? <==>
      && payload["schema"] == Text("attention-router-ci-copilot-patch.v1.5")
      && decision in {"PATCH", "NEEDS_HUMAN", "INSUFFICIENT_CONTEXT"} && confidence in CONFIDENCES
      && summary != "" && |summary| <= MAX_SUMMARY_CHARS
      && (if decision == "PATCH" then
            confidence == "HIGH" && Small(TextOf(show, payload, "patch"), targets, patchable)
          else TextOf(show, payload, "patch") == "" && targets == [])
  {
    hide DiffPaths, Changes, SplitLines, Contains, IsSafeTestFile, Strip, SameMembers, TextOf, Strs;
  }

  // ----- structured edits -----

  /** The texts of one edit: within the budget, not alike, and the old one in one region of its file. */
  ghost predicate EditsOneRegion(e: Edit, patchable: seq<string>, working: Files) {
    && e.path in patchable && e.path in working
    && 1 <= |e.old_| <= 8000 && |e.new_| <= 8000 && e.old_ != e.new_
    && exists before, after :: Splits(working[e.path], e.old_, before, after)
  }

  lemma EditAcceptedIff(show: Show, item: Json, patchable: seq<string>, working: Files, e: Edit)
    ensures EditOf(show, item, patchable, working) == Ok(e) <==>
      && item.Object? && item.members.Keys == {"path", "old_text", "new_text"}
      && Says(show, item.members, "path", e.path)
      && item.members["old_text"] == Text(e.old_) && item.members["new_text"] == Text(e.new_)
      && EditsOneRegion(e, patchable, working)
  {
    hide Says, TextOf, Splits, Count;
    if item.Object? {
      SaysIff(show, item.members, "path", e.path);
    }
    if e.path in working && e.old_ != "" {
      CountOneIff(working[e.path], e.old_, e.new_);
    }
  }

  /** The payloads that structured edit validation accepts. */
  lemma EditPayloadAcceptedIff(show: Show, diff: Diff, payload: map<string, Json>, files: Files, patchable: seq<string>)
    ensures Proposed(show, diff, payload, files, patchable).Ok? <==>
      && payload.Keys == {"schema", "decision", "confidence", "summary", "edits"}
      && payload["schema"] == Text("attention-router-ci-copilot-structured-edit.v2.1")
      && SaysOneOf(show, payload, "confidence", {"LOW", "MEDIUM", "HIGH"}) && HasSummary(show, payload)
      && payload["edits"].Array?
      && var items := payload["edits"].elements;
      && (if Says(show, payload, "decision", "EDIT") then
            && Says(show, payload, "confidence", "HIGH") && 1 <= |items| <= 2
            && ApplyAll(show, items, patchable, files).Ok? && MakesSmallPatch(show, diff, items, files, patchable)
          else
            SaysOneOf(show, payload, "decision", {"NEEDS_HUMAN", "INSUFFICIENT_CONTEXT"}) && |items| == 0)
  {
    hide Says, SaysOneOf, HasSummary, SmallTestPatch, ValidatePatch, PatchPayload, Strip, TextOf, ApplyAll, Patch,
         Dedupe, Paths, MakesSmallPatch;
    PatchTexts(show, payload, patchable);
    SaysIff(show, payload, "decision", "EDIT");
    if payload.Keys == EDIT_KEYS && payload["edits"].Array? {
      var items := payload["edits"].elements;
      if ApplyAll(show, items, patchable, files).Ok? && Says(show, payload, "confidence", "HIGH")
         && HasSummary(show, payload) {
        StripTwice(TextOf(show, payload, "summary"));
        SmallPatchIff(show, diff, items, files, patchable, Strip(TextOf(show, payload, "summary")));
      }
    }
  }

  /** The files that the edits changed are one or two test files, and their diff is a small patch of them. */
  ghost predicate MakesSmallPatch(show: Show, diff: Diff, items: seq<Json>, files: Files, patchable: seq<string>) {
    && ApplyAll(show, items, patchable, files).Ok?
    && var (edits, working) := ApplyAll(show, items, patchable, files).value;
    && var targets := Dedupe(Paths(edits));
    && SmallTestPatch(Patch(diff, files, working, targets), targets, patchable)
  }

  lemma SmallPatchIff(show: Show, diff: Diff, items: seq<Json>, files: Files, patchable: seq<string>, summary: string)
    requires ApplyAll(show, items, patchable, files).Ok?
    requires Strip(summary) == summary && 1 <= |summary| <= MAX_SUMMARY_CHARS
    ensures var (edits, working) := ApplyAll(show, items, patchable, files).value;
      var targets := Dedupe(Paths(edits));
      var patch := Patch(diff, files, working, targets);
      MakesSmallPatch(show, diff, items, files, patchable) <==>
        patch != "" && ValidatePatch(show, PatchPayload("HIGH", summary, targets, patch), patchable).Ok?
  {
    hide ApplyAll, Patch, Dedupe, Paths, ValidatePatch, Strip;
    var (edits, working) := ApplyAll(show, items, patchable, files).value;
    var targets := Dedupe(Paths(edits));
    WrittenIff(show, Proposal("PATCH", "HIGH", summary, targets, Patch(diff, files, working, targets)), patchable);
  }

  /** A proposal with a stripped summary is accepted as it is written down exactly when its patch is small. */
  lemma WrittenIff(show: Show, p: Proposal, patchable: seq<string>)
    requires p.decision == "PATCH" && p.confidence == "HIGH"
    requires Strip(p.summary) == p.summary && 1 <= |p.summary| <= MAX_SUMMARY_CHARS
    ensures ValidatePatch(show, PayloadOf(p), patchable).Ok? <==> SmallTestPatch(p.patch, p.targets, patchable)
  {
    hide ValidatePatch, Strip, Changes, ChangedAt, SplitLines, DiffPaths, IsSafeTestFile, OnlyText, PayloadOf, Contains;
    ChangesIsCount(SplitLines(p.patch));
    OnlyTextIff(p.patch);
    if ValidatePatch(show, PayloadOf(p), patchable).Ok? {
      AcceptedIsAcceptable(show, PayloadOf(p), patchable);
      AcceptedIsSame(show, p, patchable);
    }
    assert SmallTestPatch(p.patch, p.targets, patchable) <==> Acceptable(p, patchable);
    if Acceptable(p, patchable) {
      AcceptableIsAccepted(show, p, patchable);
    }
  }

  // ----- artifacts -----

  /** int(value or 0) is `n`: a number loses its fraction, whatever its sign. */
  ghost predicate IsInt(h: Host, j: Json, n: int) {
    match j
    case Null => n == 0
    case Bool(b) => n == if b then 1 else 0
    case Number(x) => if x >= 0.0 then n as real <= x < n as real + 1.0 else n as real - 1.0 < x <= n as real
    case Text(s) => if |s| == 0 then n == 0 else h.toInt(j) == Some(n)
    case Array(xs) => if |xs| == 0 then n == 0 else h.toInt(j) == Some(n)
    case Object(m) => if |m| == 0 then n == 0 else h.toInt(j) == Some(n)
  }

  lemma IntOfIff(h: Host, j: Json, n: int)
    ensures IntOf(h, j) == Some(n) <==> IsInt(h, j, n)
  {
    if j.Object? {
      assert |j.members| == 0 <==> j.members == map[];
    }
    if j.Number? {
      var x := j.number;
      FloorIs(if x >= 0.0 then x else -x, if x >= 0.0 then n else -n);
    }
  }

  lemma FloorIs(x: real, n: int)
    ensures x.Floor == n <==> n as real <= x < n as real + 1.0
  {
  }

  /**
   The artifacts that are accepted for a run, and what they are accepted as: written for this
   repository, pull request, head and branch by a Public CI run, with a patch that the contract
   accepts and whose digest they carry.
   */
  lemma ArtifactAcceptedIff(h: Host, artifact: map<string, Json>, s: Source, changed: seq<string>, p: Proposal,
        excerpt: string)
    ensures ValidateArtifact(h, artifact, s, changed) == Ok((p, excerpt)) <==>
      && artifact.Keys == {"schema", "repo", "pr_number", "source_head", "branch", "trigger_workflow",
                           "trigger_run_id", "patch_sha256", "log_excerpt", "patch_proposal"}
      && artifact["schema"] == Text("attention-router-ci-copilot-autofix-proposal.v2")
      && artifact["repo"] == Text(s.repo) && IsInt(h, artifact["pr_number"], s.pr)
      && artifact["source_head"] == Text(s.head) && artifact["branch"] == Text(s.branch)
      && artifact["trigger_workflow"] == Text("Public CI")
      && artifact["patch_proposal"].Object?
      && ValidatePatch(h.show, artifact["patch_proposal"].members, PatchableFiles(changed)) == Ok(p)
      && p.decision == "PATCH" && artifact["patch_sha256"] == Text(h.digest(p.patch))
      && Says(h.show, artifact, "log_excerpt", excerpt) && |excerpt| <= 20000
  {
    hide ValidatePatch, PatchableFiles, Says, TextOf, IntOf, IsInt;
    SaysIff(h.show, artifact, "log_excerpt", excerpt);
    if artifact.Keys == ARTIFACT_KEYS {
      IntOfIff(h, artifact["pr_number"], s.pr);
      if artifact["patch_proposal"].Object? {
        AcceptedPatchIsHigh(h.show, artifact["patch_proposal"].members, PatchableFiles(changed));
      }
    }
  }

  lemma AcceptedPatchIsHigh(show: Show, payload: map<string, Json>, patchable: seq<string>)
    ensures var r := ValidatePatch(show, payload, patchable);
      r.Ok? && r.value.decision == "PATCH" ==> r.value.confidence == "HIGH"
  {
    hide ValidatePatch;
    if ValidatePatch(show, payload, patchable).Ok? {
      AcceptedIsAcceptable(show, payload, patchable);
    }
  }
}

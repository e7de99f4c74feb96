/** The text operations of the modelled programs: whitespace, substrings, lines and path parts. */
module TextScan {
  import opened Common

  /** The whitespace that str.strip and str.split know. */
  predicate IsSpace(c: char) {
    || c == ' ' || '\t' <= c <= '\r' || '\U{1C}' <= c <= '\U{1F}'
    || c == '\U{85}' || c == '\U{A0}' || c == '\U{1680}' || '\U{2000}' <= c <= '\U{200A}'
    || c == '\U{2028}' || c == '\U{2029}' || c == '\U{202F}' || c == '\U{205F}' || c == '\U{3000}'
  }

  function StripLeft(s: string): (r: string)
    ensures r == "" || !IsSpace(r[0])
    ensures s != "" && !IsSpace(s[0]) ==> r == s
  {
    if s != "" && IsSpace(s[0]) then StripLeft(s[1..]) else s
  }

  function StripRight(s: string): (r: string)
    ensures r == "" || !IsSpace(r[|r| - 1])
    ensures r <= s
    ensures s != "" && !IsSpace(s[|s| - 1]) ==> r == s
  {
    if s != "" && IsSpace(s[|s| - 1]) then StripRight(s[..|s| - 1]) else s
  }

  /** str.strip. */
  function Strip(s: string): (r: string) {
    StripRight(StripLeft(s))
  }

  lemma StripTwice(s: string)
    ensures Strip(Strip(s)) == Strip(s)
  {
    var r := Strip(s);
    if r != "" {
      assert r[0] == StripLeft(s)[0];
    }
  }

  /** The whitespace characters of Unicode that Python strips, and those at which it ends a line. */
  lemma SpacesAre(c: char)
    ensures IsSpace(c) <==> c in {
      '\t', '\n', '\U{0B}', '\U{0C}', '\r', '\U{1C}', '\U{1D}', '\U{1E}', '\U{1F}', ' ', '\U{85}', '\U{A0}',
      '\U{1680}', '\U{2000}', '\U{2001}', '\U{2002}', '\U{2003}', '\U{2004}',
      '\U{2005}', '\U{2006}', '\U{2007}', '\U{2008}', '\U{2009}', '\U{200A}',
      '\U{2028}', '\U{2029}', '\U{202F}', '\U{205F}', '\U{3000}'}
    ensures IsLineBreak(c) <==> c in {'\n', '\U{0B}', '\U{0C}', '\r', '\U{1C}', '\U{1D}', '\U{1E}',
      '\U{85}', '\U{2028}', '\U{2029}'}
  {
  }

  ghost predicate Blank(s: string) {
    forall k | 0 <= k < |s| :: IsSpace(s[k])
  }

  /** The text is cut between two runs of whitespace, and what is left neither starts nor ends with any. */
  lemma StripCuts(s: string) returns (left: string, right: string)
    ensures s == left + Strip(s) + right && Blank(left) && Blank(right)
    ensures Strip(s) != "" ==> !IsSpace(Strip(s)[0]) && !IsSpace(Strip(s)[|Strip(s)| - 1])
  {
    hide StripLeft, StripRight, IsSpace, Blank;
    var t := StripLeft(s);
    left := StripLeftCuts(s);
    right := StripRightCuts(t);
    assert left + (Strip(s) + right) == left + Strip(s) + right;
    if Strip(s) != "" {
      assert Strip(s)[0] == t[0];
    }
  }

  lemma {:induction false} StripLeftCuts(s: string) returns (left: string)
    ensures s == left + StripLeft(s) && Blank(left)
  {
    if s != "" && IsSpace(s[0]) {
      var behind := StripLeftCuts(s[1..]);
      left := [s[0]] + behind;
      assert s == [s[0]] + s[1..];
    } else {
      left := "";
    }
  }

  lemma {:induction false} StripRightCuts(s: string) returns (right: string)
    ensures s == StripRight(s) + right && Blank(right)
  {
    if s != "" && IsSpace(s[|s| - 1]) {
      var before := StripRightCuts(s[..|s| - 1]);
      right := before + [s[|s| - 1]];
      assert s == s[..|s| - 1] + [s[|s| - 1]];
    } else {
      right := "";
    }
  }

  // ----- substrings -----

  predicate OccursAt(text: string, pattern: string, i: nat) {
    i + |pattern| <= |text| && text[i..i + |pattern|] == pattern
  }

  ghost predicate Occurs(text: string, pattern: string) {
    exists i: nat :: OccursAt(text, pattern, i)
  }

  /** str.find: the leftmost occurrence. */
  function Find(text: string, pattern: string): (r: Option<nat>)
    ensures r.Some? ==> OccursAt(text, pattern, r.value) && forall i: nat | i < r.value :: !OccursAt(text, pattern, i)
    ensures r.None? ==> forall i: nat :: !OccursAt(text, pattern, i)
  {
    FindFrom(text, pattern, 0)
  }

  function FindFrom(text: string, pattern: string, from: nat): (r: Option<nat>)
    ensures r.Some? ==> from <= r.value && OccursAt(text, pattern, r.value)
    ensures forall i: nat | from <= i && (r.Some? ==> i < r.value) :: !OccursAt(text, pattern, i)
    decreases |text| - from
  {
    if from + |pattern| > |text| then None
    else if text[from..from + |pattern|] == pattern then Some(from)
    else FindFrom(text, pattern, from + 1)
  }

  predicate Contains(text: string, pattern: string)
    ensures Contains(text, pattern) <==> Occurs(text, pattern)
  {
    Find(text, pattern).Some?
  }

  /** str.count: occurrences that do not overlap, taken from the left. */
  function Count(text: string, pattern: string): nat
    requires pattern != ""
    decreases |text|
  {
    match Find(text, pattern)
    case None => 0
    case Some(i) => 1 + Count(text[i + |pattern|..], pattern)
  }

  /** str.replace with a limit of one. */
  function ReplaceFirst(text: string, pattern: string, by_: string): string {
    match Find(text, pattern)
    case None => text
    case Some(i) => text[..i] + by_ + text[i + |pattern|..]
  }

  /** The text is one occurrence of the pattern between two pieces: no earlier one, and no second one behind it. */
  ghost predicate Splits(text: string, pattern: string, before: string, after: string) {
    && text == before + pattern + after
    && (forall i: nat | i < |before| :: !OccursAt(text, pattern, i))
    && !Occurs(after, pattern)
  }

  /** A count of one means exactly that, and replacing puts the new text between the same pieces. */
  lemma CountOneIff(text: string, pattern: string, by_: string)
    requires pattern != ""
    ensures Count(text, pattern) == 1 <==> exists before, after :: Splits(text, pattern, before, after)
    ensures forall before, after | Splits(text, pattern, before, after) ::
      ReplaceFirst(text, pattern, by_) == before + by_ + after
  {
    var found := Find(text, pattern);
    if found.Some? {
      var i := found.value;
      var before, after := text[..i], text[i + |pattern|..];
      assert text == before + text[i..i + |pattern|] + after;
      if Count(text, pattern) == 1 {
        assert Count(after, pattern) == 0;
        assert Find(after, pattern).None?;
        assert Splits(text, pattern, before, after);
      }
    }
    forall before, after | Splits(text, pattern, before, after)
      ensures found == Some(|before|) && text[..|before|] == before && text[|before| + |pattern|..] == after
      ensures Count(text, pattern) == 1
    {
      assert text[|before|..|before| + |pattern|] == pattern;
      assert OccursAt(text, pattern, |before|);
      assert Find(after, pattern).None?;
    }
  }

  /** Replacing the one occurrence by anything else changes the text. */
  lemma ReplacementChanges(text: string, pattern: string, by_: string)
    requires pattern != "" && Count(text, pattern) == 1 && by_ != pattern
    ensures ReplaceFirst(text, pattern, by_) != text
  {
    CountOneIff(text, pattern, by_);
    var before, after :| Splits(text, pattern, before, after);
    MiddleDiffers(before, pattern, by_, after);
  }

  lemma MiddleDiffers(before: string, x: string, y: string, after: string)
    requires x != y
    ensures before + x + after != before + y + after
  {
    if |x| == |y| {
      var i :| 0 <= i < |x| && x[i] != y[i];
      assert (before + x + after)[|before| + i] != (before + y + after)[|before| + i];
    } else {
      assert |before + x + after| != |before + y + after|;
    }
  }

  /** A count of one leaves room for occurrences that overlap the first one, and for no others. */
  lemma CountOneIsUniqueUpToOverlap(text: string, pattern: string, i: nat, j: nat)
    requires pattern != "" && Count(text, pattern) == 1
    requires Find(text, pattern) == Some(i) && OccursAt(text, pattern, j)
    ensures i <= j < i + |pattern|
  {
    if j >= i + |pattern| {
      OccursInTail(text, pattern, i + |pattern|, j);
    }
  }

  lemma OccursInTail(text: string, pattern: string, from: nat, j: nat)
    requires from <= j && OccursAt(text, pattern, j)
    ensures Find(text[from..], pattern).Some?
  {
    assert text[from..][j - from..j - from + |pattern|] == text[j..j + |pattern|];
    assert OccursAt(text[from..], pattern, j - from);
  }

  /** A proper part at the start of the text is also its end. */
  ghost predicate Bordered(p: string) {
    exists k: nat :: 0 < k < |p| && IsBorder(p, k)
  }

  predicate IsBorder(p: string, k: nat) {
    k <= |p| && p[..|p| - k] == p[k..]
  }

  /** An occurrence that overlaps an earlier one shows a border. */
  lemma OverlapShowsBorder(text: string, p: string, i: nat, j: nat)
    requires OccursAt(text, p, i) && OccursAt(text, p, j) && i < j < i + |p|
    ensures IsBorder(p, j - i)
  {
    var k := j - i;
    forall m | 0 <= m < |p| - k
      ensures p[..|p| - k][m] == p[k..][m]
    {
      assert text[j..j + |p|][m] == text[i..i + |p|][k + m];
    }
  }

  /** Two copies of a bordered text, overlapping by its border. */
  lemma BorderOverlaps(p: string, k: nat)
    requires 0 < k < |p| && IsBorder(p, k)
    ensures var text := p[..k] + p;
      Count(text, p) == 1 && Find(text, p) == Some(0) && OccursAt(text, p, k)
  {
    var text := p[..k] + p;
    assert text[k..k + |p|] == p;
    assert text[..|p|] == p by {
      assert p == p[..k] + p[k..] == p[..k] + p[..|p| - k];
      assert text[..|p|] == p[..k] + p[..|p| - k];
    }
    assert text[0..|p|] == text[..|p|];
    assert OccursAt(text, p, 0);
    var rest := text[|p|..];
    assert |rest| == k;
    assert Find(rest, p).None?;
  }

  /**
   A count of one means that the pattern occurs once, in every text, exactly when the
   pattern has no border: something that can be read off the pattern alone.
   */
  lemma CountOneIsUniqueIff(p: string)
    requires p != ""
    ensures !Bordered(p) <==>
      forall text, j: nat | Count(text, p) == 1 && OccursAt(text, p, j) :: Find(text, p) == Some(j)
  {
    if k: nat :| 0 < k < |p| && IsBorder(p, k) {
      BorderOverlaps(p, k);
    } else {
      forall text, j: nat | Count(text, p) == 1 && OccursAt(text, p, j)
        ensures Find(text, p) == Some(j)
      {
        var i := Find(text, p).value;
        CountOneIsUniqueUpToOverlap(text, p, i, j);
        if i < j {
          OverlapShowsBorder(text, p, i, j);
        }
      }
    }
  }

  lemma OverlapIsNotCounted()
    ensures Count("aaa", "aa") == 1 && OccursAt("aaa", "aa", 0) && OccursAt("aaa", "aa", 1)
  {
    assert "aaa"[0..2] == "aa" && "aaa"[1..3] == "aa";
    assert "aaa"[2..] == "a";
    assert Find("aaa", "aa") == Some(0) && Find("a", "aa") == None;
  }

  // ----- lines and lists -----

  /** The pieces between separators; one piece more than there are separators. */
  function Split(s: string, separator: char): (r: seq<string>)
    ensures |r| > 0
  {
    if s == "" then [""]
    else
      var rest := Split(s[1..], separator);
      if s[0] == separator then [""] + rest else [[s[0]] + rest[0]] + rest[1..]
  }

  predicate IsLineBreak(c: char) {
    '\n' <= c <= '\r' || '\U{1C}' <= c <= '\U{1E}' || c == '\U{85}' || c == '\U{2028}' || c == '\U{2029}'
  }

  function LineLength(s: string): (n: nat)
    ensures n <= |s|
  {
    if s == "" || IsLineBreak(s[0]) then 0 else 1 + LineLength(s[1..])
  }

  /** str.splitlines: every line ends at a break, and a carriage return takes a newline with it. */
  function SplitLines(s: string): seq<string>
    decreases |s|
  {
    if s == "" then []
    else
      var n := LineLength(s);
      var width := if n == |s| then 0 else if n + 1 < |s| && s[n] == '\r' && s[n + 1] == '\n' then 2 else 1;
      [s[..n]] + SplitLines(s[n + width..])
  }

  /** The pieces with the separator between them are the text again, and hold no separator. */
  lemma {:induction false} SplitJoins(s: string, separator: char)
    ensures Joined(Split(s, separator), separator) == s
    ensures forall i | 0 <= i < |Split(s, separator)| :: separator !in Split(s, separator)[i]
  {
    if s != "" {
      SplitJoins(s[1..], separator);
      var rest := Split(s[1..], separator);
      assert s == [s[0]] + s[1..];
      if s[0] == separator {
        assert ([""] + rest)[1..] == rest;
      } else {
        OneLonger(s[0], rest, separator);
      }
    }
  }

  lemma OneLonger(c: char, pieces: seq<string>, separator: char)
    requires |pieces| > 0
    ensures Joined([[c] + pieces[0]] + pieces[1..], separator) == [c] + Joined(pieces, separator)
  {
    assert ([[c] + pieces[0]] + pieces[1..])[1..] == pieces[1..];
    if |pieces| > 1 {
      var behind := [separator] + Joined(pieces[1..], separator);
      assert ([c] + pieces[0]) + behind == [c] + (pieces[0] + behind);
    }
  }

  ghost function Joined(pieces: seq<string>, separator: char): string
    requires |pieces| > 0
  {
    if |pieces| == 1 then pieces[0] else pieces[0] + [separator] + Joined(pieces[1..], separator)
  }

  /** A line ends at a break, at a carriage return with its newline, or with the text. */
  ghost predicate Ends(line: string, end: string, rest: string) {
    && (forall c | c in line :: !IsLineBreak(c))
    && (end == "" ==> rest == "" && line != "")
    && (|end| == 1 ==> IsLineBreak(end[0]) && !(end == "\r" && |rest| > 0 && rest[0] == '\n'))
    && (|end| >= 2 ==> end == "\r\n")
  }

  /** A text starts with the line that its end closes, and goes on with the lines behind it. */
  lemma LineThenRest(line: string, end: string, rest: string)
    requires Ends(line, end, rest)
    ensures SplitLines(line + end + rest) == [line] + SplitLines(rest)
    ensures SplitLines("") == []
  {
    var s := line + end + rest;
    LineLengthTo(line, end + rest);
    assert s == line + (end + rest);
    var n := |line|;
    assert s[..n] == line && s[n + |end|..] == rest;
    assert n < |s| ==> s[n] == (end + rest)[0];
    if |end| == 1 && |rest| > 0 {
      assert s[n + 1] == rest[0];
    }
    if |end| == 2 {
      assert s[n + 1] == end[1];
    }
  }

  lemma {:induction false} LineLengthTo(line: string, behind: string)
    requires (forall c | c in line :: !IsLineBreak(c)) && (behind != "" ==> IsLineBreak(behind[0]))
    ensures LineLength(line + behind) == |line|
  {
    if line == "" {
      assert line + behind == behind;
    } else {
      assert line[0] in line && (line + behind)[1..] == line[1..] + behind;
      LineLengthTo(line[1..], behind);
    }
  }

  /** tuple(dict.fromkeys(...)): each value once, where it comes first. */
  function Dedupe(xs: seq<string>): (r: seq<string>)
    ensures forall x :: x in r <==> x in xs
    ensures NoDuplicates(r)
  {
    if xs == [] then []
    else
      var before := Dedupe(xs[..|xs| - 1]);
      if xs[|xs| - 1] in before then before else before + [xs[|xs| - 1]]
  }

  /** Where a value comes first. */
  function FirstIndex(xs: seq<string>, x: string): (i: nat)
    requires x in xs
    ensures i < |xs| && xs[i] == x && forall k | 0 <= k < i :: xs[k] != x
  {
    if xs[0] == x then 0 else 1 + FirstIndex(xs[1..], x)
  }

  lemma FirstIndexIs(xs: seq<string>, x: string, i: nat)
    requires i < |xs| && xs[i] == x && forall k | 0 <= k < i :: xs[k] != x
    ensures FirstIndex(xs, x) == i
  {
    var k := FirstIndex(xs, x);
    assert xs[k] == x;
  }

  lemma FirstIndexInPrefix(xs: seq<string>, k: nat, x: string)
    requires k <= |xs| && x in xs[..k]
    ensures FirstIndex(xs, x) == FirstIndex(xs[..k], x) < k
  {
    FirstIndexIs(xs, x, FirstIndex(xs[..k], x));
  }

  /** The order of the result is the order of first occurrences. */
  lemma {:induction false} DedupeKeepsOrder(xs: seq<string>, i: nat, j: nat)
    requires i < j < |Dedupe(xs)|
    ensures FirstIndex(xs, Dedupe(xs)[i]) < FirstIndex(xs, Dedupe(xs)[j])
    decreases |xs|
  {
    hide FirstIndex, NoDuplicates;
    var n := |xs| - 1;
    var before := Dedupe(xs[..n]);
    FirstIndexInPrefix(xs, n, before[i]);
    if j < |before| {
      DedupeKeepsOrder(xs[..n], i, j);
      FirstIndexInPrefix(xs, n, before[j]);
    } else {
      assert xs[n] !in before;
      FirstIndexIs(xs, xs[n], n);
    }
  }

  /** These are the values of a list, each once, in the order of first occurrences. */
  ghost predicate InFirstOrder(xs: seq<string>, distinct: seq<string>) {
    && NoDuplicates(distinct)
    && (forall x :: x in distinct <==> x in xs)
    && forall i, j | 0 <= i < j < |distinct| :: FirstIndex(xs, distinct[i]) < FirstIndex(xs, distinct[j])
  }

  lemma DedupeIsInFirstOrder(xs: seq<string>)
    ensures InFirstOrder(xs, Dedupe(xs))
  {
    hide Dedupe, FirstIndex;
    forall i, j | 0 <= i < j < |Dedupe(xs)|
      ensures FirstIndex(xs, Dedupe(xs)[i]) < FirstIndex(xs, Dedupe(xs)[j])
    {
      DedupeKeepsOrder(xs, i, j);
    }
  }
}

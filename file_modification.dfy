/**
 * `utils/fileModificationUtils.ts`: put a bullet `- linkText` into a note, under the
 * section headed `headingName` when there is one, otherwise at the end.
 */
module FileModification {
  import opened Wrappers
  import opened Text

  /** How `^(#+)\s+(.*)` sees a line: a heading with its level (the number of `#`s) and its second group, or not a heading. */
  datatype LineKind = Heading(level: nat, title: string) | Body

  /**
   * The line with its first `n` characters known to be `#`: more `#`s extend the run; then
   * at least one white-space character must follow a non-empty run. The greedy `\s+` takes
   * all white space, and `(.*)` the rest up to a line terminator.
   */
  function ClassifyFrom(line: string, n: nat): LineKind
    requires n <= |line|
    decreases |line| - n
  {
    if n < |line| && line[n] == '#' then ClassifyFrom(line, n + 1)
    else if 0 < n < |line| && IsSpace(line[n]) then Heading(n, RestOfLine(TrimStart(line[n..])))
    else Body
  }

  function Classify(line: string): LineKind {
    ClassifyFrom(line, 0)
  }

  /** `^(#+)\s+` matches the line with `#+` taking its first `m` characters. */
  predicate HeadingMatchAt(line: string, m: int) {
    0 < m < |line| && (forall k :: 0 <= k < m ==> line[k] == '#') && IsSpace(line[m])
  }

  /**
   * A line is classified as a heading exactly when the regular expression matches it; the
   * level is then the length of the `#` group and the title is the rest after the white space.
   */
  lemma ClassifyMatches(line: string)
    ensures Classify(line).Heading? <==> exists m :: HeadingMatchAt(line, m)
    ensures Classify(line).Heading? ==> HeadingMatchAt(line, Classify(line).level)
                                        && Classify(line).title == RestOfLine(TrimStart(line[Classify(line).level..]))
  {
    ClassifyFromMatches(line, 0);
  }

  lemma {:induction false} ClassifyFromMatches(line: string, n: nat)
    requires n <= |line| && forall k :: 0 <= k < n ==> line[k] == '#'
    ensures ClassifyFrom(line, n).Heading? <==> exists m :: n <= m && HeadingMatchAt(line, m)
    ensures ClassifyFrom(line, n).Heading? ==> HeadingMatchAt(line, ClassifyFrom(line, n).level)
                                               && ClassifyFrom(line, n).title == RestOfLine(TrimStart(line[ClassifyFrom(line, n).level..]))
    decreases |line| - n
  {
    if n < |line| && line[n] == '#' {
      ClassifyFromMatches(line, n + 1);
      assert !HeadingMatchAt(line, n);
    } else if 0 < n < |line| && IsSpace(line[n]) {
      assert HeadingMatchAt(line, n);
    } else {
      forall m | n <= m ensures !HeadingMatchAt(line, m) {
        if n < m < |line| {
          assert !(line[n] == '#');
        }
      }
    }
  }

  /** The longest prefix of `s` holding no line terminator: what `.*` matches. */
  function RestOfLine(s: string): (r: string)
    ensures |r| <= |s| && r == s[..|r|]
    ensures forall k :: 0 <= k < |r| ==> !IsLineTerminator(r[k])
    ensures |r| == |s| || IsLineTerminator(s[|r|])
  {
    if |s| == 0 || IsLineTerminator(s[0]) then "" else [s[0]] + RestOfLine(s[1..])
  }

  /** The line is a heading whose trimmed title is the trimmed heading name. */
  predicate IsTarget(line: string, headingName: string) {
    Classify(line).Heading? && Trim(Classify(line).title) == Trim(headingName)
  }

  /** The first target heading at or after `from`. */
  function FirstTarget(lines: seq<string>, headingName: string, from: nat): (r: Option<nat>)
    requires from <= |lines|
    ensures r.None? ==> forall k :: from <= k < |lines| ==> !IsTarget(lines[k], headingName)
    ensures r.Some? ==> from <= r.value < |lines| && IsTarget(lines[r.value], headingName)
                        && forall k :: from <= k < r.value ==> !IsTarget(lines[k], headingName)
    decreases |lines| - from
  {
    if from == |lines| then None
    else if IsTarget(lines[from], headingName) then Some(from)
    else FirstTarget(lines, headingName, from + 1)
  }

  /** A heading of level `level` or higher (at most `level` `#`s) closes the section. */
  predicate ClosesSection(line: string, level: nat) {
    Classify(line).Heading? && Classify(line).level <= level
  }

  /** The first line at or after `from` that closes a section of level `level`, or the line count. */
  function SectionEnd(lines: seq<string>, from: nat, level: nat): (r: nat)
    requires from <= |lines|
    ensures from <= r <= |lines|
    ensures r < |lines| ==> ClosesSection(lines[r], level)
    ensures forall k :: from <= k < r ==> !ClosesSection(lines[k], level)
    decreases |lines| - from
  {
    if from == |lines| then |lines|
    else if ClosesSection(lines[from], level) then from
    else SectionEnd(lines, from + 1, level)
  }

  /** Every character is white space, that is `line.trim() === ''`. */
  predicate Blank(line: string) {
    |line| == 0 || (IsSpace(line[0]) && Blank(line[1..]))
  }

  /** `Blank` is the same as trimming to the empty string. */
  lemma BlankIsTrimmedEmpty(line: string)
    ensures Blank(line) <==> Trim(line) == ""
  {
    BlankAllSpace(line);
    TrimEmptyIff(line);
  }

  lemma {:induction false} BlankAllSpace(line: string)
    ensures Blank(line) <==> AllSpace(line)
  {
    if |line| > 0 {
      BlankAllSpace(line[1..]);
      assert AllSpace(line) <==> IsSpace(line[0]) && AllSpace(line[1..]) by {
        assert forall k :: 0 < k < |line| ==> line[k] == line[1..][k - 1];
      }
    }
  }

  /** From line `j`, step back over blank lines, but not above line `target`. */
  function BackOverBlank(lines: seq<string>, target: nat, j: nat): (r: nat)
    requires target <= j < |lines|
    ensures target <= r <= j
    ensures r == target || !Blank(lines[r])
    ensures forall k :: r < k <= j ==> Blank(lines[k])
    decreases j
  {
    if j > target && Blank(lines[j]) then BackOverBlank(lines, target, j - 1) else j
  }

  /**
   * Where the bullet goes: right after the last non-blank line of the target section (or
   * after the heading when the section holds only blank lines); at the end when no heading
   * name is configured or no heading matches.
   */
  function InsertPosition(lines: seq<string>, headingName: string): (p: nat)
    ensures p <= |lines|
    ensures headingName != "" && FirstTarget(lines, headingName, 0).Some? ==> FirstTarget(lines, headingName, 0).value < p
  {
    if headingName == "" then |lines|
    else match FirstTarget(lines, headingName, 0)
      case None => |lines|
      case Some(t) => BackOverBlank(lines, t, SectionEnd(lines, t + 1, Classify(lines[t]).level) - 1) + 1
  }

  /** `lines.splice(k, 0, x)`. */
  function Insert(lines: seq<string>, k: nat, x: string): seq<string>
    requires k <= |lines|
  {
    lines[..k] + [x] + lines[k..]
  }

  /**
   * The lines after the bullet for `linkText` is spliced in: one line more, the bullet at the
   * insertion point, and every old line kept in order around it.
   */
  function LinesWithLink(lines: seq<string>, headingName: string, linkText: string): (r: seq<string>)
    ensures var k := InsertPosition(lines, headingName);
      && |r| == |lines| + 1
      && r[k] == "- " + linkText
      && r[..k] + r[k + 1..] == lines
  {
    var k := InsertPosition(lines, headingName);
    InsertSplits(lines, k, "- " + linkText);
    Insert(lines, k, "- " + linkText)
  }

  /** What `insertLinkUnderHeading` writes back: nothing exactly when the link text is already in the note. */
  function WrittenContent(content: string, headingName: string, linkText: string): (r: Option<string>)
    ensures r.None? <==> exists i :: OccursAt(content, linkText, i)
  {
    if Contains(content, linkText) then None
    else Some(Join(LinesWithLink(Split(content, {'\n'}), headingName, linkText), "\n"))
  }

  /**
   * `insertLinkUnderHeading` on the note's content; the vault read and write are left to the
   * caller, which writes `written` when it is present.
   */
  method InsertLinkUnderHeading(content: string, headingName: string, linkText: string) returns (written: Option<string>)
    ensures written == WrittenContent(content, headingName, linkText)
  {
    var lines := Split(content, {'\n'});
    var formattedLink := "- " + linkText;
    if Contains(content, linkText) {
      return None;
    }
    var targetLine, headingLevel := FindHeading(lines, headingName);
    if targetLine != -1 {
      var insertAt := FindSectionEnd(lines, targetLine, headingLevel);
      var lastNonEmptyLine := LastNonEmptyLine(lines, targetLine, insertAt);
      assert lastNonEmptyLine + 1 == InsertPosition(lines, headingName);
      lines := lines[..lastNonEmptyLine + 1] + [formattedLink] + lines[lastNonEmptyLine + 1..];
    } else {
      assert lines + [formattedLink] == Insert(lines, InsertPosition(lines, headingName), formattedLink);
      lines := lines + [formattedLink];
    }
    written := Some(Join(lines, "\n"));
  }

  /** Step 1: the first line that is the target heading, and its level; `-1` for both when there is none. */
  method FindHeading(lines: seq<string>, headingName: string) returns (targetLine: int, headingLevel: int)
    ensures targetLine == -1 <==> headingName == "" || FirstTarget(lines, headingName, 0).None?
    ensures targetLine != -1 ==> headingName != "" && FirstTarget(lines, headingName, 0) == Some(targetLine)
                                 && headingLevel == Classify(lines[targetLine]).level
  {
    targetLine, headingLevel := -1, -1;
    if headingName != "" {
      for i := 0 to |lines|
        invariant FirstTarget(lines, headingName, 0) == FirstTarget(lines, headingName, i)
      {
        var kind := Classify(lines[i]);
        if kind.Heading? && Trim(kind.title) == Trim(headingName) {
          targetLine := i;
          headingLevel := kind.level;
          return;
        }
      }
    }
  }

  /** Step 2: the first later heading of the same or a higher level, or the line count. */
  method FindSectionEnd(lines: seq<string>, targetLine: nat, headingLevel: nat) returns (insertAt: nat)
    requires targetLine < |lines|
    ensures insertAt == SectionEnd(lines, targetLine + 1, headingLevel)
  {
    insertAt := |lines|;
    for i := targetLine + 1 to |lines|
      invariant SectionEnd(lines, targetLine + 1, headingLevel) == SectionEnd(lines, i, headingLevel)
    {
      var kind := Classify(lines[i]);
      if kind.Heading? && kind.level <= headingLevel {
        insertAt := i;
        return;
      }
    }
  }

  /** Step 3: back up from the end of the section over blank lines, stopping at the heading. */
  method LastNonEmptyLine(lines: seq<string>, targetLine: nat, insertAt: nat) returns (lastNonEmptyLine: nat)
    requires targetLine < insertAt <= |lines|
    ensures lastNonEmptyLine == BackOverBlank(lines, targetLine, insertAt - 1)
  {
    lastNonEmptyLine := insertAt - 1;
    while lastNonEmptyLine > targetLine && Blank(lines[lastNonEmptyLine])
      invariant targetLine <= lastNonEmptyLine < insertAt
      invariant BackOverBlank(lines, targetLine, insertAt - 1) == BackOverBlank(lines, targetLine, lastNonEmptyLine)
      decreases lastNonEmptyLine
    {
      lastNonEmptyLine := lastNonEmptyLine - 1;
    }
  }

  lemma InsertSplits(lines: seq<string>, k: nat, x: string)
    requires k <= |lines|
    ensures |Insert(lines, k, x)| == |lines| + 1 && Insert(lines, k, x)[k] == x
    ensures Insert(lines, k, x)[..k] + Insert(lines, k, x)[k + 1..] == lines
  {
    var r := Insert(lines, k, x);
    assert r[..k] == lines[..k];
    assert r[k + 1..] == lines[k..];
  }

  /** Without a heading name, or without a matching heading, the bullet becomes the last line. */
  lemma LinkAppendedWithoutHeading(lines: seq<string>, headingName: string, linkText: string)
    requires headingName == "" || forall k :: 0 <= k < |lines| ==> !IsTarget(lines[k], headingName)
    ensures LinesWithLink(lines, headingName, linkText) == lines + ["- " + linkText]
  {
    if headingName != "" {
      assert FirstTarget(lines, headingName, 0).None?;
    }
  }

  /**
   * With a matching heading, the bullet goes under the first one: below the heading line,
   * not past the end of its section (the next heading of the same or a higher level), after
   * a line that is the heading or not blank, and with only blank lines between it and the
   * end of the section.
   */
  lemma LinkUnderFirstHeading(lines: seq<string>, headingName: string, linkText: string, t: nat)
    requires headingName != "" && t < |lines| && IsTarget(lines[t], headingName)
    requires forall k :: 0 <= k < t ==> !IsTarget(lines[k], headingName)
    ensures var k := InsertPosition(lines, headingName);
      var end := SectionEnd(lines, t + 1, Classify(lines[t]).level);
      && t < k <= end
      && (k - 1 == t || !Blank(lines[k - 1]))
      && (forall j :: k <= j < end ==> Blank(lines[j]))
      && (forall j :: t < j < end ==> !ClosesSection(lines[j], Classify(lines[t]).level))
  {
    FirstTargetAt(lines, headingName, t);
    var end := SectionEnd(lines, t + 1, Classify(lines[t]).level);
    var b := BackOverBlank(lines, t, end - 1);
  }

  lemma FirstTargetAt(lines: seq<string>, headingName: string, t: nat)
    requires t < |lines| && IsTarget(lines[t], headingName)
    requires forall k :: 0 <= k < t ==> !IsTarget(lines[k], headingName)
    ensures FirstTarget(lines, headingName, 0) == Some(t)
  {
  }

  /** When the link text is a single line, splitting what is written gives back exactly the new lines. */
  lemma WrittenLines(content: string, headingName: string, linkText: string)
    requires '\n' !in linkText
    requires WrittenContent(content, headingName, linkText).Some?
    ensures Split(WrittenContent(content, headingName, linkText).value, {'\n'}) == LinesWithLink(Split(content, {'\n'}), headingName, linkText)
  {
    var lines := Split(content, {'\n'});
    var r := LinesWithLink(lines, headingName, linkText);
    var k := InsertPosition(lines, headingName);
    var x := "- " + linkText;
    assert r == lines[..k] + [x] + lines[k..];
    InsertNoneIn(lines, k, x, {'\n'});
    assert WrittenContent(content, headingName, linkText).value == Join(r, "\n");
    SplitJoin(r, '\n', {'\n'});
  }

  /** Inserting a line free of the characters `cs` among lines free of them keeps every line free of them. */
  lemma InsertNoneIn(lines: seq<string>, k: nat, x: string, cs: set<char>)
    requires k <= |lines| && NoneIn(x, cs)
    requires forall i :: 0 <= i < |lines| ==> NoneIn(lines[i], cs)
    ensures var r := lines[..k] + [x] + lines[k..];
      forall i :: 0 <= i < |r| ==> NoneIn(r[i], cs)
  {
    var r := lines[..k] + [x] + lines[k..];
    forall i | 0 <= i < |r| ensures NoneIn(r[i], cs) {
      if i < k {
        assert r[i] == lines[i];
      } else if i > k {
        assert r[i] == lines[i - 1];
      }
    }
  }
}

/** `utils/stringUtils.ts`: file-name sanitising and wikilink parsing. */
module StringUtils {
  import opened Wrappers
  import opened Text
  import opened Records

  /** The nine characters a file name may not hold: `\ / : * ? " < > |`. */
  predicate Forbidden(c: char) {
    c == '\\' || c == '/' || c == ':' || c == '*' || c == '?' || c == '"' || c == '<' || c == '>' || c == '|'
  }

  /** Every forbidden character of `s` deleted, every other one kept in order. */
  function DeleteForbidden(s: string): (r: string)
    ensures |r| <= |s|
    ensures forall i :: 0 <= i < |r| ==> !Forbidden(r[i])
    ensures (forall i :: 0 <= i < |s| ==> !Forbidden(s[i])) ==> r == s
  {
    if s == [] then []
    else
      var rest := DeleteForbidden(s[1..]);
      assert (forall i :: 0 <= i < |s| ==> !Forbidden(s[i])) ==> (forall i :: 0 <= i < |s| - 1 ==> !Forbidden(s[1..][i]));
      assert [s[0]] + s[1..] == s;
      if Forbidden(s[0]) then rest else [s[0]] + rest
  }

  /** `sanitizeFileName`: `''` for an empty name, otherwise the name without its forbidden characters. */
  function SanitizeFileName(fileName: string): (r: string)
    ensures fileName == "" ==> r == ""
    ensures forall i :: 0 <= i < |r| ==> !Forbidden(r[i])
    ensures |r| <= |fileName|
  {
    if fileName == "" then "" else DeleteForbidden(fileName)
  }

  /** Sanitising distributes over concatenation, so the kept characters stay in their order. */
  lemma {:induction false} DeleteForbiddenConcat(a: string, b: string)
    ensures DeleteForbidden(a + b) == DeleteForbidden(a) + DeleteForbidden(b)
  {
    if a != [] {
      assert (a + b)[1..] == a[1..] + b;
      DeleteForbiddenConcat(a[1..], b);
    } else {
      assert a + b == b;
    }
  }

  /** Each permitted character occurs as often in the result as in the input; a forbidden one never does. */
  lemma {:induction false} SanitizeCounts(s: string, c: char)
    ensures multiset(SanitizeFileName(s))[c] == if Forbidden(c) then 0 else multiset(s)[c]
  {
    if s != [] {
      SanitizeCounts(s[1..], c);
      assert s == [s[0]] + s[1..];
      assert multiset(s) == multiset([s[0]]) + multiset(s[1..]);
      if s[1..] == [] {
        assert SanitizeFileName(s) == if Forbidden(s[0]) then [] else [s[0]];
      }
    }
  }

  lemma SanitizeIdempotent(s: string)
    ensures SanitizeFileName(SanitizeFileName(s)) == SanitizeFileName(s)
  {
  }

  /** A character the capture group `[^|\]]` accepts. */
  predicate LinkChar(c: char) {
    c != '|' && c != ']'
  }

  /** The regular expression `\[\[([^|\]]+)` can match at `i`. */
  predicate OpensAt(s: string, i: int) {
    0 <= i && i + 2 < |s| && s[i] == '[' && s[i + 1] == '[' && LinkChar(s[i + 2])
  }

  /** The first `i >= from` at which a match can start. */
  function FirstOpen(s: string, from: nat): (r: Option<nat>)
    ensures r.None? ==> forall i :: from <= i ==> !OpensAt(s, i)
    ensures r.Some? ==> from <= r.value && OpensAt(s, r.value) && forall i :: from <= i < r.value ==> !OpensAt(s, i)
    decreases |s| - from
  {
    if from + 2 >= |s| then None
    else if OpensAt(s, from) then Some(from)
    else FirstOpen(s, from + 1)
  }

  /** The longest run of link characters starting at `j` (the greedy `[^|\]]+`). */
  function RunFrom(s: string, j: nat): (r: string)
    requires j <= |s|
    ensures j + |r| <= |s| && r == s[j..j + |r|]
    ensures forall k :: 0 <= k < |r| ==> LinkChar(r[k])
    ensures j + |r| == |s| || !LinkChar(s[j + |r|])
    decreases |s| - j
  {
    if j == |s| || !LinkChar(s[j]) then ""
    else [s[j]] + RunFrom(s, j + 1)
  }

  /**
   * `parseWikilink`: `null` for a value that is not a string or holds no `[[` followed by a link
   * character; otherwise the trimmed run of link characters after the first such `[[`.
   */
  function ParseWikilink(link: Value): (r: Option<string>)
    ensures !link.Str? ==> r == None
    ensures link.Str? ==> (r.None? <==> forall i :: !OpensAt(link.s, i))
    ensures r.Some? ==> link.Str? && exists i :: OpensAt(link.s, i) && (forall j :: 0 <= j < i ==> !OpensAt(link.s, j))
                                          && r.value == Trim(RunFrom(link.s, i + 2))
    ensures r.Some? ==> '|' !in r.value && ']' !in r.value
  {
    if !link.Str? then None
    else match FirstOpen(link.s, 0)
      case None => None
      case Some(i) =>
        var run := RunFrom(link.s, i + 2);
        RunHasNoSeparator(link.s, i + 2);
        TrimKeepsCharacters(run);
        Some(Trim(run))
  }

  /** A run of link characters holds neither `|` nor `]`. */
  lemma RunHasNoSeparator(s: string, j: nat)
    requires j <= |s|
    ensures '|' !in RunFrom(s, j) && ']' !in RunFrom(s, j)
  {
    var run := RunFrom(s, j);
    assert forall k :: 0 <= k < |run| ==> LinkChar(run[k]);
  }

  /** The result never holds `|` or `]`. */
  lemma ParsedNameHasNoSeparator(link: Value)
    requires ParseWikilink(link).Some?
    ensures '|' !in ParseWikilink(link).value && ']' !in ParseWikilink(link).value
  {
  }

  lemma AliasedLinkExample()
    ensures ParseWikilink(Str("[[Note|Alias]]")) == Some("Note")
  {
    var s := "[[Note|Alias]]";
    assert FirstOpen(s, 0) == Some(0) by { assert OpensAt(s, 0); }
    AliasedLinkRun();
    TrimOfTrimmed("Note");
  }

  lemma AliasedLinkRun()
    ensures RunFrom("[[Note|Alias]]", 2) == "Note"
  {
    var s := "[[Note|Alias]]";
    assert s[6] == '|';
    assert RunFrom(s, 6) == "";
    assert RunFrom(s, 5) == "e";
    assert RunFrom(s, 4) == "te";
    assert RunFrom(s, 3) == "ote";
  }
}

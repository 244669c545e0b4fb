/** `utils/fileUtils.ts`: looking a note up by name or alias. */
module FileUtils {
  import opened Wrappers
  import opened Text
  import opened Records

  /**
   * A markdown file of the vault as `findFile` sees it: its path (which tells
   * files apart), its basename, and the `aliases` property of its cached
   * frontmatter (`None` when there is no frontmatter or no such property).
   */
  datatype NoteFile = NoteFile(path: string, basename: string, aliases: Option<Value>)

  predicate NameMatches(f: NoteFile, lowerTitle: string) {
    Lower(f.basename) == lowerTitle
  }

  /** `aliases` is an array holding an entry whose string form equals the title, ignoring ASCII case. */
  predicate AliasMatches(f: NoteFile, lowerTitle: string) {
    && f.aliases.Some?
    && f.aliases.value.List?
    && exists i :: 0 <= i < |f.aliases.value.items| && Lower(JsString(f.aliases.value.items[i])) == lowerTitle
  }

  /** The first index at or after `from` whose file has the name. */
  function FirstByName(files: seq<NoteFile>, lowerTitle: string, from: nat): (r: Option<nat>)
    requires from <= |files|
    ensures r.None? ==> forall j :: from <= j < |files| ==> !NameMatches(files[j], lowerTitle)
    ensures r.Some? ==> from <= r.value < |files| && NameMatches(files[r.value], lowerTitle)
                        && forall j :: from <= j < r.value ==> !NameMatches(files[j], lowerTitle)
    decreases |files| - from
  {
    if from == |files| then None
    else if NameMatches(files[from], lowerTitle) then Some(from)
    else FirstByName(files, lowerTitle, from + 1)
  }

  /** The first index at or after `from` whose file has the alias. */
  function FirstByAlias(files: seq<NoteFile>, lowerTitle: string, from: nat): (r: Option<nat>)
    requires from <= |files|
    ensures r.None? ==> forall j :: from <= j < |files| ==> !AliasMatches(files[j], lowerTitle)
    ensures r.Some? ==> from <= r.value < |files| && AliasMatches(files[r.value], lowerTitle)
                        && forall j :: from <= j < r.value ==> !AliasMatches(files[j], lowerTitle)
    decreases |files| - from
  {
    if from == |files| then None
    else if AliasMatches(files[from], lowerTitle) then Some(from)
    else FirstByAlias(files, lowerTitle, from + 1)
  }

  /**
   * `findFile`: the first file whose lower-cased basename is the lower-cased title; failing
   * that, the first file with a matching alias; failing that, `null`.
   */
  function FindFile(sanitizedTitle: string, files: seq<NoteFile>): (r: Option<NoteFile>)
    ensures var t := Lower(sanitizedTitle);
      (exists i :: 0 <= i < |files| && NameMatches(files[i], t)) ==>
        exists i :: 0 <= i < |files| && r == Some(files[i]) && NameMatches(files[i], t)
                    && forall j :: 0 <= j < i ==> !NameMatches(files[j], t)
    ensures var t := Lower(sanitizedTitle);
      (forall i :: 0 <= i < |files| ==> !NameMatches(files[i], t)) && (exists i :: 0 <= i < |files| && AliasMatches(files[i], t)) ==>
        exists i :: 0 <= i < |files| && r == Some(files[i]) && AliasMatches(files[i], t)
                    && forall j :: 0 <= j < i ==> !AliasMatches(files[j], t)
    ensures var t := Lower(sanitizedTitle);
      r.None? <==> forall i :: 0 <= i < |files| ==> !NameMatches(files[i], t) && !AliasMatches(files[i], t)
  {
    var t := Lower(sanitizedTitle);
    match FirstByName(files, t, 0)
    case Some(i) => Some(files[i])
    case None =>
      match FirstByAlias(files, t, 0)
      case Some(i) => Some(files[i])
      case None => None
  }

  /** A name match wins over an alias match in another file, even one that comes earlier. */
  lemma NameBeatsEarlierAlias(sanitizedTitle: string, files: seq<NoteFile>, i: nat, k: nat)
    requires k < i < |files|
    requires AliasMatches(files[k], Lower(sanitizedTitle))
    requires NameMatches(files[i], Lower(sanitizedTitle))
    requires forall j :: 0 <= j < i ==> !NameMatches(files[j], Lower(sanitizedTitle))
    requires files[k] != files[i]
    ensures FindFile(sanitizedTitle, files) == Some(files[i])
    ensures FindFile(sanitizedTitle, files) != Some(files[k])
  {
  }

  /** The lookup ignores ASCII case in the title. */
  lemma FindFileIgnoresCase(a: string, b: string, files: seq<NoteFile>)
    requires Lower(a) == Lower(b)
    ensures FindFile(a, files) == FindFile(b, files)
  {
  }
}

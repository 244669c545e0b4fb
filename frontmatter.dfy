/**
 * `getModifiedContent` (`utils/frontmatterUtils.ts`, and its copy in `main.ts`): the
 * frontmatter of a new note is the template's frontmatter with `uid` and `type` forced,
 * the reverse alias of a symmetric relation title added, and the keys re-emitted in a
 * preferred order.
 */
module Frontmatter {
  import opened Wrappers
  import opened Text
  import opened Records
  import opened Config
  import opened AddAlias

  /** A property as the template parser produces it: a string or an array of strings. */
  datatype FmValue = Scalar(s: string) | Items(items: seq<string>)

  /* ---------- the template's frontmatter block ---------- */

  /** Every character of `t[i..j]` is white space (`\s`). */
  predicate Spaces(t: string, i: nat, j: nat)
    requires i <= j <= |t|
  {
    forall m :: i <= m < j ==> IsSpace(t[m])
  }

  /** The end of the run of white space that starts at `i`. */
  function RunEnd(t: string, i: nat): (e: nat)
    requires i <= |t|
    ensures i <= e <= |t| && Spaces(t, i, e) && (e < |t| ==> !IsSpace(t[e]))
    decreases |t| - i
  {
    if i < |t| && IsSpace(t[i]) then RunEnd(t, i + 1) else i
  }

  /** The last `\n` in `t[i..j]`, if any. */
  function LastNewline(t: string, i: nat, j: nat): (r: Option<nat>)
    requires i <= j <= |t|
    ensures r.Some? ==> i <= r.value < j && t[r.value] == '\n' && forall m :: r.value < m < j ==> t[m] != '\n'
    ensures r.None? ==> forall m :: i <= m < j ==> t[m] != '\n'
    decreases j - i
  {
    if j == i then None else if t[j - 1] == '\n' then Some(j - 1) else LastNewline(t, i, j - 1)
  }

  /**
   * `^---\s*\n` can end with the `\n` at `q`: the template starts with `---`, and only white
   * space lies between it and `q`.
   */
  predicate Opening(t: string, q: nat) {
    3 <= q < |t| && t[..3] == "---" && Spaces(t, 3, q) && t[q] == '\n'
  }

  /** `\n---\s*\n` matches at `k`: `\n---`, then a run of white space that holds a `\n`. */
  predicate Closes(t: string, k: nat) {
    k + 4 <= |t| && t[k..k + 4] == "\n---" && LastNewline(t, k + 4, RunEnd(t, k + 4)).Some?
  }

  /**
   * Where the closing fence at `k` ends: the greedy `\s*` takes the whole run of white space
   * but its part after the last `\n` in it, so every blank line after the fence goes too.
   */
  function CloseEnd(t: string, k: nat): (e: nat)
    requires Closes(t, k)
    ensures k + 5 <= e <= |t| && t[e - 1] == '\n' && Spaces(t, k + 4, e)
    ensures forall m :: e <= m < RunEnd(t, k + 4) ==> t[m] != '\n'
  {
    LastNewline(t, k + 4, RunEnd(t, k + 4)).value + 1
  }

  /** The first closing fence at or after `j`: the lazy `[\s\S]*?`. */
  function FirstClose(t: string, j: nat): (r: Option<nat>)
    requires j <= |t|
    ensures r.Some? ==> j <= r.value && Closes(t, r.value) && forall k :: j <= k < r.value ==> !Closes(t, k)
    ensures r.None? ==> forall k :: j <= k ==> !Closes(t, k)
    decreases |t| - j
  {
    if Closes(t, j) then Some(j) else if j < |t| then FirstClose(t, j + 1) else None
  }

  /** A match of the frontmatter pattern: the body `t[bodyStart..bodyEnd]`, the match `t[..end]`. */
  datatype BlockMatch = BlockMatch(bodyStart: nat, bodyEnd: nat, end: nat)

  /** The shape of a match: opening fence, body, closing fence as the greedy `\s*` ends it. */
  predicate Matches(t: string, m: BlockMatch) {
    && 4 <= m.bodyStart <= m.bodyEnd && Opening(t, m.bodyStart - 1)
    && Closes(t, m.bodyEnd) && m.end == CloseEnd(t, m.bodyEnd)
  }

  /**
   * The backtracking over the opening `\s*`: the `\n`s of `t[3..p]` are tried as its end, the
   * last first, and the first one after which a closing fence follows is taken.
   */
  function OpenFrom(t: string, p: nat): (r: Option<BlockMatch>)
    requires 3 <= p <= |t| && t[..3] == "---" && Spaces(t, 3, p)
    ensures r.Some? ==> Matches(t, r.value) && r.value.bodyStart <= p
    ensures r.Some? ==> forall k :: r.value.bodyStart <= k < r.value.bodyEnd ==> !Closes(t, k)
    decreases p
  {
    if p == 3 then None
    else if t[p - 1] == '\n' && FirstClose(t, p).Some? then
      var k := FirstClose(t, p).value;
      assert Opening(t, p - 1);
      Some(BlockMatch(p, k, CloseEnd(t, k)))
    else
      assert Spaces(t, 3, p - 1);
      OpenFrom(t, p - 1)
  }

  /** No opening fence later than the one taken, and none at all when nothing is found, has a closing fence after it. */
  lemma {:induction false} OpenFromFirst(t: string, p: nat)
    requires 3 <= p <= |t| && t[..3] == "---" && Spaces(t, 3, p)
    ensures var r := OpenFrom(t, p);
      var from := if r.Some? then r.value.bodyStart else 0;
      forall q: nat, k: nat :: from <= q < p && q < k && Opening(t, q) ==> !Closes(t, k)
    decreases p
  {
    if p > 3 && !(t[p - 1] == '\n' && FirstClose(t, p).Some?) {
      OpenFromFirst(t, p - 1);
    }
  }

  /** Only the white space right after `---` can end the opening fence. */
  lemma OpeningInRun(t: string, q: nat)
    requires Opening(t, q)
    ensures q < RunEnd(t, 3)
  {
    assert IsSpace(t[q]);
  }

  /**
   * `templateContent.match(/^---\s*\n([\s\S]*?)\n---\s*\n/)`: the first match the regular
   * expression's backtracking finds, if any.
   */
  function TemplateBlock(template: string): (r: Option<BlockMatch>)
    ensures r.Some? ==> Matches(template, r.value)
  {
    if |template| < 3 || template[..3] != "---" then None
    else OpenFrom(template, RunEnd(template, 3))
  }

  /**
   * The match the pattern finds: there is one exactly when some opening fence is followed by a
   * closing one; its body is the shortest after its opening (the lazy `*?`), and its opening
   * fence is the longest that leaves a closing fence to follow (the greedy `\s*`).
   */
  lemma TemplateBlockFound(t: string)
    ensures TemplateBlock(t).None? <==> forall q: nat, k: nat :: q < k && Opening(t, q) ==> !Closes(t, k)
    ensures TemplateBlock(t).Some? ==>
      var m := TemplateBlock(t).value;
      && (forall k :: m.bodyStart <= k < m.bodyEnd ==> !Closes(t, k))
      && (forall q: nat, k: nat :: m.bodyStart <= q < k && Opening(t, q) ==> !Closes(t, k))
  {
    if |t| >= 3 && t[..3] == "---" {
      OpenFromFirst(t, RunEnd(t, 3));
      forall q: nat | Opening(t, q) ensures q < RunEnd(t, 3) {
        OpeningInRun(t, q);
      }
    }
  }

  /**
   * What the match leaves after it starts with no line break: all blank lines after the closing
   * fence are part of the match and so are replaced with it.
   */
  lemma BlankLinesConsumed(t: string)
    requires TemplateBlock(t).Some?
    ensures var m := TemplateBlock(t).value;
      forall i :: m.end <= i < |t| && Spaces(t, m.end, i + 1) ==> t[i] != '\n'
  {
    var m := TemplateBlock(t).value;
    var e := RunEnd(t, m.bodyEnd + 4);
    forall i | m.end <= i < |t| && Spaces(t, m.end, i + 1) ensures t[i] != '\n' {
      assert IsSpace(t[i]);
    }
  }

  /** The blank line after the closing fence is part of the match: `X` follows the new block directly. */
  lemma BlankLineExample()
    ensures TemplateBlock("---\na: b\n---\n\nX") == Some(BlockMatch(4, 8, 14))
  {
    var t := "---\na: b\n---\n\nX";
    assert RunEnd(t, 3) == 4;
    assert RunEnd(t, 12) == 14;
    assert LastNewline(t, 12, 14) == Some(13);
    assert Closes(t, 8);
    forall k | 4 <= k < 8 ensures !Closes(t, k) {
      assert t[k..k + 4][0] == t[k] != '\n';
    }
    assert FirstClose(t, 4) == Some(8);
  }

  /** Line breaks `\r\n` match too; the body keeps the `\r` of its last line. */
  lemma CrLfExample()
    ensures TemplateBlock("---\r\na: b\r\n---\r\nX") == Some(BlockMatch(5, 10, 16))
  {
    var t := "---\r\na: b\r\n---\r\nX";
    assert RunEnd(t, 3) == 5;
    CrLfClose();
    assert t[..3] == "---" && t[4] == '\n';
    assert OpenFrom(t, 5) == Some(BlockMatch(5, 10, 16));
  }

  /** The closing fence of the CRLF template: the first after the body's start, ending at 16. */
  lemma CrLfClose()
    ensures var t := "---\r\na: b\r\n---\r\nX";
      Closes(t, 10) && CloseEnd(t, 10) == 16 && FirstClose(t, 5) == Some(10)
  {
    var t := "---\r\na: b\r\n---\r\nX";
    assert RunEnd(t, 14) == 16;
    assert LastNewline(t, 14, 16) == Some(15);
    assert Closes(t, 10);
    forall k | 5 <= k < 10 ensures !Closes(t, k) {
      assert t[k..k + 4][0] == t[k] != '\n';
    }
    assert FirstClose(t, 5) == Some(10);
  }

  /**
   * The opening `\s*` gives back a `\n` when that lets a closing fence follow: the body is
   * then empty and starts at the first `\n`.
   */
  lemma EmptyBodyExample()
    ensures TemplateBlock("---\n\n---\n") == Some(BlockMatch(4, 4, 9))
  {
    var t := "---\n\n---\n";
    assert RunEnd(t, 3) == 5;
    assert forall k :: 5 <= k ==> !Closes(t, k);
    assert FirstClose(t, 5) == None;
    assert RunEnd(t, 8) == 9;
    assert Closes(t, 4);
  }

  /* ---------- parsing the template's lines ---------- */

  /**
   * `s.trim().replace(/^"|"$/g, '')`: one `"` dropped at each end, where present. A quoted
   * item loses its two quotes, an unquoted one is kept, and a lone `"` becomes empty.
   */
  function CleanItem(item: string): (r: string)
    ensures var s := Trim(item);
      && (|s| >= 2 && s[0] == '"' && s[|s| - 1] == '"' ==> r == s[1..|s| - 1])
      && (s == [] || (s[0] != '"' && s[|s| - 1] != '"') ==> r == s)
      && (s == "\"" ==> r == "")
  {
    Unquoted(Trim(item))
  }

  /** The `replace(/^"|"$/g, '')` on the trimmed item. */
  function Unquoted(s: string): (r: string)
    ensures |s| >= 2 && s[0] == '"' && s[|s| - 1] == '"' ==> r == s[1..|s| - 1]
    ensures s == [] || (s[0] != '"' && s[|s| - 1] != '"') ==> r == s
    ensures s == "\"" ==> r == ""
  {
    var lead := if |s| > 0 && s[0] == '"' then 1 else 0;
    var trail := if |s| > lead && s[|s| - 1] == '"' then 1 else 0;
    s[lead..|s| - trail]
  }

  function CleanItems(parts: seq<string>): seq<string> {
    seq(|parts|, i requires 0 <= i < |parts| => CleanItem(parts[i]))
  }

  /**
   * A trimmed value `[…]` becomes the list of its `,`-separated items, `[]` the empty list; any
   * other value stays a string. (A one-character value cannot both start with `[` and end with `]`.)
   */
  function ParseValue(raw: string): (v: FmValue)
    ensures var value := Trim(raw);
      && (v.Items? <==> |value| >= 2 && value[0] == '[' && value[|value| - 1] == ']')
      && (v.Scalar? ==> v.s == value)
  {
    ValueOf(Trim(raw))
  }

  /** The trimmed value read as a list or kept as a string. */
  function ValueOf(value: string): (v: FmValue)
    ensures v.Items? <==> |value| >= 2 && value[0] == '[' && value[|value| - 1] == ']'
    ensures v.Scalar? ==> v.s == value
  {
    if |value| >= 2 && value[0] == '[' && value[|value| - 1] == ']' then ListValue(value[1..|value| - 1])
    else Scalar(value)
  }

  /** The text between the brackets, as a list. */
  function ListValue(inner: string): FmValue {
    var listStr := Trim(inner);
    if listStr == "" then Items([]) else Items(CleanItems(Split(listStr, {','})))
  }

  /**
   * One line of the block: the key is the trimmed text before the first `:`, the value what
   * follows it; a line without `:` or with an empty key gives nothing.
   */
  function ParseLine(line: string): (r: Option<(string, FmValue)>)
    ensures r.Some? ==> var key := r.value.0;
      && ':' in line && key != "" && Trimmed(key) && ':' !in key
      && key == Trim(line[..IndexOf(line, ':')])
      && r.value.1 == ParseValue(line[IndexOf(line, ':') + 1..])
  {
    var colonIndex := IndexOf(line, ':');
    if colonIndex == -1 then None
    else
      var prefix := line[..colonIndex];
      var key := Trim(prefix);
      assert ':' !in key by { TrimKeepsCharacters(prefix); }
      if key == "" then None else Some((key, ParseValue(line[colonIndex + 1..])))
  }

  /** A line gives a key exactly when it holds a `:` and the text before the first one is not all white space. */
  lemma ParseLineKey(line: string)
    ensures ParseLine(line).Some? <==> ':' in line && !AllSpace(line[..IndexOf(line, ':')])
  {
    if ':' in line {
      TrimEmptyIff(line[..IndexOf(line, ':')]);
    }
  }

  /** `[]` is the empty list. */
  lemma ParseEmptyList(raw: string)
    requires Trim(raw) == "[]"
    ensures ParseValue(raw) == Items([])
  {
    assert Trim(raw)[1..1] == "";
    TrimOfTrimmed("");
  }

  /** A value without brackets is kept as a trimmed string. */
  lemma ParseScalar(raw: string)
    requires '[' !in raw
    ensures ParseValue(raw) == Scalar(Trim(raw))
  {
    TrimKeepsCharacters(raw);
    if |Trim(raw)| > 0 {
      assert Trim(raw)[0] in Trim(raw);
    }
  }

  /** A bracketed value with text inside is the list of that text's `,`-separated items, each cleaned. */
  lemma ParseList(raw: string, inner: string)
    requires Trim(raw) == "[" + inner + "]" && Trim(inner) != ""
    ensures var parts := Split(Trim(inner), {','});
      && ParseValue(raw).Items?
      && |ParseValue(raw).items| == |parts|
      && forall i :: 0 <= i < |parts| ==> ParseValue(raw).items[i] == CleanItem(parts[i])
  {
    var value := Trim(raw);
    assert value[0] == '[' && value[|value| - 1] == ']';
    assert value[1..|value| - 1] == inner;
    assert ParseValue(raw) == ValueOf(value) == ListValue(inner);
  }

  /** `frontmatterObject[key] = value` for a parsed line. */
  function ApplyLine(obj: Record<FmValue>, parsed: Option<(string, FmValue)>): Record<FmValue> {
    match parsed
    case None => obj
    case Some((key, value)) => Set(obj, key, value)
  }

  /**
   * The object after the first `n` lines, each applied as `parse` reads it. The template's
   * lines are read by `ParseLine`; the lemmas below hold for any reading of a line.
   */
  function Fold(parse: string -> Option<(string, FmValue)>, lines: seq<string>, n: nat): Record<FmValue>
    requires n <= |lines|
  {
    if n == 0 then Empty() else ApplyLine(Fold(parse, lines, n - 1), parse(lines[n - 1]))
  }

  predicate SetsKey(parse: string -> Option<(string, FmValue)>, line: string, key: string) {
    parse(line).Some? && parse(line).value.0 == key
  }

  /** Line `i` is the last of the first `n` lines that sets `key`. */
  predicate LastSetting(parse: string -> Option<(string, FmValue)>, lines: seq<string>, n: nat, key: string, i: nat)
    requires n <= |lines|
  {
    i < n && SetsKey(parse, lines[i], key) && forall j :: i < j < n ==> !SetsKey(parse, lines[j], key)
  }

  /** A later line overwrites an earlier one: the value of a key is the one its last line gives. */
  lemma {:induction false} LastLineWins(parse: string -> Option<(string, FmValue)>, lines: seq<string>, n: nat, key: string, i: nat)
    requires n <= |lines| && LastSetting(parse, lines, n, key, i)
    ensures key in Fold(parse, lines, n).vals && Fold(parse, lines, n).vals[key] == parse(lines[i]).value.1
  {
    if i < n - 1 {
      LastLineWins(parse, lines, n - 1, key, i);
    }
  }

  /** A key no line sets is not in the object. */
  lemma {:induction false} UnsetKeyAbsent(parse: string -> Option<(string, FmValue)>, lines: seq<string>, n: nat, key: string)
    requires n <= |lines| && forall j :: 0 <= j < n ==> !SetsKey(parse, lines[j], key)
    ensures key !in Fold(parse, lines, n).vals
  {
    if n > 0 {
      UnsetKeyAbsent(parse, lines, n - 1, key);
    }
  }

  /** The template's frontmatter object: empty when the template has no frontmatter block. */
  function TemplateObject(template: string): Record<FmValue> {
    match TemplateBlock(template)
    case None => Empty()
    case Some(m) => var lines := Split(template[m.bodyStart..m.bodyEnd], {'\n'}); Fold(ParseLine, lines, |lines|)
  }

  /* ---------- forced properties and the reverse alias ---------- */

  /** `frontmatterObject['aliases']` when it is an array, otherwise `[]`. */
  function AliasList(obj: Record<FmValue>): seq<string> {
    if "aliases" in obj.vals && obj.vals["aliases"].Items? then obj.vals["aliases"].items else []
  }

  /**
   * For a relation note with a symmetric title, `aliases` becomes a list holding the reverse
   * alias; no other key changes.
   */
  function WithReverseAlias(obj: Record<FmValue>, noteType: string, title: string): (r: Record<FmValue>)
    ensures forall k :: k != "aliases" ==> (k in r.vals <==> k in obj.vals)
    ensures forall k :: k != "aliases" && k in obj.vals ==> r.vals[k] == obj.vals[k]
  {
    if noteType == "relation" && title != "" then
      match ReverseAliasOf(title)
      case None => obj
      case Some(reverseAlias) => WithAliasKeeps(obj, reverseAlias); WithAlias(obj, reverseAlias)
    else obj
  }

  /** Adding an alias changes the object's `aliases` and nothing else. */
  lemma WithAliasKeeps(obj: Record<FmValue>, alias: string)
    ensures var r := WithAlias(obj, alias);
      && r.vals.Keys == obj.vals.Keys + {"aliases"}
      && forall k :: k != "aliases" && k in obj.vals ==> r.vals[k] == obj.vals[k]
  {
  }

  /** `aliases` set to its list with `alias` appended unless already there. */
  function WithAlias(obj: Record<FmValue>, alias: string): Record<FmValue> {
    var current := AliasList(obj);
    Set(obj, "aliases", Items(if alias in current then current else current + [alias]))
  }

  /**
   * The object before rendering: the parsed template object, `uid` and `type` set, the reverse
   * alias added. Whatever the template held, `uid` and `type` are the given ones; besides them
   * and `aliases`, the object has the keys and values the template set.
   */
  function Assembled(parsed: Record<FmValue>, uid: string, noteType: string, title: string): (r: Record<FmValue>)
    ensures "uid" in r.vals && r.vals["uid"] == Scalar(uid)
    ensures "type" in r.vals && r.vals["type"] == Scalar(noteType)
    ensures forall k :: k !in {"uid", "type", "aliases"} ==> (k in r.vals <==> k in parsed.vals)
    ensures forall k :: k !in {"uid", "type", "aliases"} && k in parsed.vals ==> r.vals[k] == parsed.vals[k]
  {
    var obj := Set(Set(parsed, "uid", Scalar(uid)), "type", Scalar(noteType));
    WithReverseAlias(obj, noteType, title)
  }

  /** The number of times `x` occurs in `s`. */
  function Count(s: seq<string>, x: string): nat {
    multiset(s)[x]
  }

  /**
   * `aliases` becomes a list that holds the alias, exactly once unless it was already listed
   * more often; the old list is kept in order, and a non-list value is replaced by a list.
   */
  lemma AliasAddedOnce(obj: Record<FmValue>, alias: string)
    ensures var r := WithAlias(obj, alias);
      var before := AliasList(obj);
      && "aliases" in r.vals && r.vals["aliases"].Items?
      && r.vals["aliases"].items == (if alias in before then before else before + [alias])
      && Count(r.vals["aliases"].items, alias) == (if alias in before then Count(before, alias) else 1)
  {
    var before := AliasList(obj);
    assert multiset(before + [alias]) == multiset(before) + multiset{alias};
  }

  /**
   * For a relation note whose title has a symmetric reverse alias, the assembled `aliases`
   * list is the template's own list with the reverse alias added once.
   */
  lemma ReverseAliasAddedOnce(parsed: Record<FmValue>, uid: string, noteType: string, title: string)
    requires noteType == "relation" && title != "" && ReverseAliasOf(title).Some?
    ensures var before := AliasList(parsed);
      var alias := ReverseAliasOf(title).value;
      var r := Assembled(parsed, uid, noteType, title);
      && "aliases" in r.vals && r.vals["aliases"].Items?
      && r.vals["aliases"].items == (if alias in before then before else before + [alias])
      && Count(r.vals["aliases"].items, alias) == (if alias in before then Count(before, alias) else 1)
  {
    ForcedKeepsAliases(parsed, uid, noteType);
    AliasAddedOnce(Set(Set(parsed, "uid", Scalar(uid)), "type", Scalar(noteType)), ReverseAliasOf(title).value);
  }

  /** Setting `uid` and `type` leaves the `aliases` list alone. */
  lemma ForcedKeepsAliases(parsed: Record<FmValue>, uid: string, noteType: string)
    ensures AliasList(Set(Set(parsed, "uid", Scalar(uid)), "type", Scalar(noteType))) == AliasList(parsed)
  {
  }

  /** Without a relation type, a title or a symmetric reverse alias, `aliases` is whatever the template gave. */
  lemma NoReverseAliasOtherwise(parsed: Record<FmValue>, uid: string, noteType: string, title: string)
    requires noteType != "relation" || title == "" || ReverseAliasOf(title).None?
    ensures var obj := Assembled(parsed, uid, noteType, title);
      && ("aliases" in obj.vals <==> "aliases" in parsed.vals)
      && ("aliases" in parsed.vals ==> obj.vals["aliases"] == parsed.vals["aliases"])
  {
  }

  /* ---------- rendering ---------- */

  /** `settings.parentKey.trim() || 'parent'`. */
  function ParentKeyOf(settings: Settings): string {
    var k := Trim(settings.parentKey);
    if k == "" then "parent" else k
  }

  function DesiredOrder(parentKey: string): seq<string> {
    ["uid", "aliases", "type", parentKey, "publish"]
  }

  /** The first `n` keys of `order` that the object holds, in that order (repeats included). */
  function Preferred(vals: map<string, FmValue>, order: seq<string>, n: nat): seq<string>
    requires n <= |order|
  {
    if n == 0 then [] else Preferred(vals, order, n - 1) + (if order[n - 1] in vals then [order[n - 1]] else [])
  }

  /** The first `n` of the object's keys, in insertion order, that are not in `processed`. */
  function Rest(keys: seq<string>, processed: set<string>, n: nat): (r: seq<string>)
    requires n <= |keys|
  {
    if n == 0 then [] else Rest(keys, processed, n - 1) + (if keys[n - 1] !in processed then [keys[n - 1]] else [])
  }

  /** The preferred keys the object holds, as the set `processedKeys` ends up. */
  function Processed(vals: map<string, FmValue>, order: seq<string>): set<string> {
    set k | k in order && k in vals
  }

  /** The keys in the order they are emitted: the preferred ones present, then the others in insertion order. */
  function Emission(obj: Record<FmValue>, order: seq<string>): seq<string> {
    Preferred(obj.vals, order, |order|) + Rest(obj.keys, Processed(obj.vals, order), |obj.keys|)
  }

  /** One property in YAML: `key: []`, `key:` with one `  - "item"` line per item, or `key: value`. */
  function RenderEntry(key: string, value: FmValue): string {
    match value
    case Items(items) => if items == [] then key + ": []\n" else key + ":\n" + ItemLines(items, |items|)
    case Scalar(s) => key + ": " + s + "\n"
  }

  /** The lines `  - "item"` of the first `n` items, each ended by a line break. */
  function ItemLines(items: seq<string>, n: nat): string
    requires n <= |items|
  {
    if n == 0 then "" else ItemLines(items, n - 1) + "  - \"" + items[n - 1] + "\"\n"
  }

  /** The quoted item lines, each `  - "item"`. */
  function QuotedItems(items: seq<string>): (r: seq<string>)
    ensures |r| == |items| && forall i :: 0 <= i < |items| ==> r[i] == "  - \"" + items[i] + "\""
  {
    seq(|items|, i requires 0 <= i < |items| => "  - \"" + items[i] + "\"")
  }

  /**
   * The item lines appended one by one (as `main.ts` does) are the quoted items joined with
   * line breaks plus a final one (as `utils/frontmatterUtils.ts` does).
   */
  lemma {:induction false} ItemLinesJoined(items: seq<string>, n: nat)
    requires 0 < n <= |items|
    ensures ItemLines(items, n) == Join(QuotedItems(items[..n]), "\n") + "\n"
  {
    if n > 1 {
      ItemLinesJoined(items, n - 1);
      JoinSnoc(QuotedItems(items[..n - 1]), "  - \"" + items[n - 1] + "\"", "\n");
      assert QuotedItems(items[..n]) == QuotedItems(items[..n - 1]) + ["  - \"" + items[n - 1] + "\""];
    } else {
      assert QuotedItems(items[..1]) == ["  - \"" + items[0] + "\""];
    }
  }

  lemma {:induction false} JoinSnoc(parts: seq<string>, x: string, sep: string)
    requires |parts| > 0
    ensures Join(parts + [x], sep) == Join(parts, sep) + sep + x
  {
    if |parts| == 1 {
      assert (parts + [x])[1..] == [x];
    } else {
      JoinSnoc(parts[1..], x, sep);
      assert (parts + [x])[1..] == parts[1..] + [x];
    }
  }

  /** The entry of `key`, or nothing for a key without a value. */
  function Render(vals: map<string, FmValue>, key: string): string {
    if key in vals then RenderEntry(key, vals[key]) else ""
  }

  /** The entries of `keys`, concatenated in order. */
  function RenderAll(vals: map<string, FmValue>, keys: seq<string>): string {
    if keys == [] then "" else RenderAll(vals, keys[..|keys| - 1]) + Render(vals, keys[|keys| - 1])
  }

  /** One more key appends its entry. */
  lemma RenderSnoc(vals: map<string, FmValue>, keys: seq<string>, key: string)
    ensures RenderAll(vals, keys + [key]) == RenderAll(vals, keys) + Render(vals, key)
  {
    assert (keys + [key])[..|keys|] == keys;
  }

  /** Rendering two runs of keys one after the other renders their concatenation. */
  lemma {:induction false} RenderAllConcat(vals: map<string, FmValue>, a: seq<string>, b: seq<string>)
    ensures RenderAll(vals, a + b) == RenderAll(vals, a) + RenderAll(vals, b)
  {
    if b != [] {
      RenderAllConcat(vals, a, b[..|b| - 1]);
      assert (a + b)[..|a + b| - 1] == a + b[..|b| - 1];
    } else {
      assert a + b == a;
    }
  }

  /** The text the loop over `order` appends after its first `n` keys. */
  function PreferredText(vals: map<string, FmValue>, order: seq<string>, n: nat): string
    requires n <= |order|
  {
    if n == 0 then "" else PreferredText(vals, order, n - 1) + Render(vals, order[n - 1])
  }

  /** The text the loop over the object's keys appends after its first `n` keys. */
  function RestText(vals: map<string, FmValue>, keys: seq<string>, processed: set<string>, n: nat): string
    requires n <= |keys|
  {
    if n == 0 then "" else RestText(vals, keys, processed, n - 1) + (if keys[n - 1] !in processed then Render(vals, keys[n - 1]) else "")
  }

  /** The preferred loop's text renders `Preferred`. */
  lemma {:induction false} PreferredTextRenders(vals: map<string, FmValue>, order: seq<string>, n: nat)
    requires n <= |order|
    ensures PreferredText(vals, order, n) == RenderAll(vals, Preferred(vals, order, n))
  {
    if n > 0 {
      PreferredTextRenders(vals, order, n - 1);
      if order[n - 1] in vals {
        RenderSnoc(vals, Preferred(vals, order, n - 1), order[n - 1]);
      } else {
        assert Preferred(vals, order, n) == Preferred(vals, order, n - 1);
      }
    }
  }

  /** The second loop's text renders `Rest`. */
  lemma {:induction false} RestTextRenders(vals: map<string, FmValue>, keys: seq<string>, processed: set<string>, n: nat)
    requires n <= |keys|
    ensures RestText(vals, keys, processed, n) == RenderAll(vals, Rest(keys, processed, n))
  {
    if n > 0 {
      RestTextRenders(vals, keys, processed, n - 1);
      if keys[n - 1] !in processed {
        RenderSnoc(vals, Rest(keys, processed, n - 1), keys[n - 1]);
      } else {
        assert Rest(keys, processed, n) == Rest(keys, processed, n - 1);
      }
    }
  }

  /** The text of the two loops together is the rendering of the emission order. */
  lemma EmittedText(obj: Record<FmValue>, order: seq<string>)
    ensures RenderAll(obj.vals, Emission(obj, order)) ==
      PreferredText(obj.vals, order, |order|) + RestText(obj.vals, obj.keys, Processed(obj.vals, order), |obj.keys|)
  {
    RenderAllConcat(obj.vals, Preferred(obj.vals, order, |order|), Rest(obj.keys, Processed(obj.vals, order), |obj.keys|));
    PreferredTextRenders(obj.vals, order, |order|);
    RestTextRenders(obj.vals, obj.keys, Processed(obj.vals, order), |obj.keys|);
  }

  /** The frontmatter block, `---` lines around the trimmed entries. */
  function NewBlock(content: string): string {
    "---\n" + Trim(content) + "\n---\n"
  }

  /** The object a note made from `template` gets, before it is rendered. */
  function AssembledOf(template: string, uid: string, noteType: string, title: string): Record<FmValue> {
    Assembled(TemplateObject(template), uid, noteType, title)
  }

  /** The new frontmatter block of a note made from `template`. */
  function NewBlockOf(template: string, settings: Settings, uid: string, noteType: string, title: string): string {
    var obj := AssembledOf(template, uid, noteType, title);
    NewBlock(RenderAll(obj.vals, Emission(obj, DesiredOrder(ParentKeyOf(settings)))))
  }

  /**
   * `frontmatterObject.hasOwnProperty(key)` throws a `TypeError` once the object has an own
   * property `hasOwnProperty`: a template line with that key shadows the method with a string
   * or a list, and the first key of the preferred order already calls it.
   */
  predicate Shadowed(vals: map<string, FmValue>) {
    "hasOwnProperty" in vals
  }

  /** The new block in place of the template's match, or before the template and an empty line. */
  function Replaced(template: string, block: string): string {
    match TemplateBlock(template)
    case Some(m) => block + template[m.end..]
    case None => block + "\n" + template
  }

  /**
   * What `getModifiedContent` is meant to return, `None` where it throws (the template's
   * frontmatter sets `hasOwnProperty`). Only the match of the frontmatter pattern is replaced,
   * and what the template holds after it follows the new block unchanged; a template without
   * one follows the new block and an empty line. The block is put in literally;
   * `ModifiedContentAsWritten` is what `String.prototype.replace` makes of it.
   */
  function ModifiedContent(template: string, settings: Settings, uid: string, noteType: string, title: string): (out: Option<string>)
    ensures out.None? <==> "hasOwnProperty" in TemplateObject(template).vals
    ensures out.Some? ==>
      var block := NewBlockOf(template, settings, uid, noteType, title);
      match TemplateBlock(template)
      case Some(m) => m.end <= |template| && out.value == block + template[m.end..]
      case None => out.value == block + "\n" + template
  {
    var obj := AssembledOf(template, uid, noteType, title);
    ShadowedByTemplate(TemplateObject(template), uid, noteType, title);
    if Shadowed(obj.vals) then None
    else Some(Replaced(template, NewBlockOf(template, settings, uid, noteType, title)))
  }

  /** The assembled object shadows `hasOwnProperty` exactly when the template's frontmatter does. */
  lemma ShadowedByTemplate(parsed: Record<FmValue>, uid: string, noteType: string, title: string)
    ensures Shadowed(Assembled(parsed, uid, noteType, title).vals) <==> "hasOwnProperty" in parsed.vals
  {
    assert "hasOwnProperty" !in {"uid", "type", "aliases"};
  }

  /* ---------- the replacement string, as `String.prototype.replace` reads it ---------- */

  /**
   * The replacement text `replace` puts in place of a match at the start of a string, for a
   * pattern with one capture group (section 22.1.3.19.1, GetSubstitution, of ECMAScript 2023):
   * `$$` is `$`, `$&` the match, `` $` `` the text before it (none), `$'` the text after it,
   * `$1` and `$01` the group; `$10` is the group and `0`; any other `$` stands for itself.
   */
  function Substitute(repl: string, matched: string, group: string, after: string): string
    decreases |repl|
  {
    if |repl| == 0 then ""
    else if repl[0] != '$' || |repl| == 1 then [repl[0]] + Substitute(repl[1..], matched, group, after)
    else
      var c := repl[1];
      if c == '$' then "$" + Substitute(repl[2..], matched, group, after)
      else if c == '&' then matched + Substitute(repl[2..], matched, group, after)
      else if c == '`' then Substitute(repl[2..], matched, group, after)
      else if c == '\'' then after + Substitute(repl[2..], matched, group, after)
      else if c == '1' then group + Substitute(repl[2..], matched, group, after)
      else if c == '0' && |repl| >= 3 && repl[2] == '1' then group + Substitute(repl[3..], matched, group, after)
      else "$" + Substitute(repl[1..], matched, group, after)
  }

  /** `templateContent.replace(fmRegex, newFmBlock)` as written: the block goes through `Substitute`. */
  function ReplacedAsWritten(template: string, block: string): string {
    match TemplateBlock(template)
    case Some(m) => Substitute(block, template[..m.end], template[m.bodyStart..m.bodyEnd], template[m.end..]) + template[m.end..]
    case None => block + "\n" + template
  }

  /**
   * `getModifiedContent` as written, `None` where it throws. It throws exactly where the
   * intended version does, and the two agree on every new block without `$`.
   */
  function ModifiedContentAsWritten(template: string, settings: Settings, uid: string, noteType: string, title: string): (out: Option<string>)
    ensures out.None? <==> ModifiedContent(template, settings, uid, noteType, title).None?
    ensures '$' !in NewBlockOf(template, settings, uid, noteType, title) ==>
      out == ModifiedContent(template, settings, uid, noteType, title)
  {
    var block := NewBlockOf(template, settings, uid, noteType, title);
    if Shadowed(AssembledOf(template, uid, noteType, title).vals) then None
    else if '$' !in block then
      ReplacedLiteral(template, block);
      Some(ReplacedAsWritten(template, block))
    else Some(ReplacedAsWritten(template, block))
  }

  /** A replacement string without `$` is put in as it stands. */
  lemma {:induction false} SubstituteLiteral(repl: string, matched: string, group: string, after: string)
    requires '$' !in repl
    ensures Substitute(repl, matched, group, after) == repl
    decreases |repl|
  {
    if |repl| > 0 {
      assert repl[0] in repl;
      assert forall c :: c in repl[1..] ==> c in repl;
      SubstituteLiteral(repl[1..], matched, group, after);
    }
  }

  /** A `$$` between text without `$` comes out as a single `$`. */
  lemma {:induction false} DoubleDollarCollapses(p: string, q: string, matched: string, group: string, after: string)
    requires '$' !in p && '$' !in q
    ensures Substitute(p + "$$" + q, matched, group, after) == p + "$" + q
    decreases |p|
  {
    if |p| == 0 {
      assert (p + "$$" + q)[2..] == q;
      SubstituteLiteral(q, matched, group, after);
    } else {
      assert p[0] in p;
      assert forall c :: c in p[1..] ==> c in p;
      assert (p + "$$" + q)[1..] == p[1..] + "$$" + q;
      DoubleDollarCollapses(p[1..], q, matched, group, after);
    }
  }

  /** `replace` with a block without `$` puts the block in as it stands. */
  lemma ReplacedLiteral(template: string, block: string)
    requires '$' !in block
    ensures ReplacedAsWritten(template, block) == Replaced(template, block)
  {
    if TemplateBlock(template).Some? {
      var m := TemplateBlock(template).value;
      SubstituteLiteral(block, template[..m.end], template[m.bodyStart..m.bodyEnd], template[m.end..]);
    }
  }

  /**
   * The two disagree whenever the new block holds `$$` once and no other `$`, as it does for a
   * template whose frontmatter has the line `price: $$5` (and a uid and title without `$`): the
   * note gets `price: $5`.
   */
  lemma AsWrittenDropsDollar(template: string, settings: Settings, uid: string, noteType: string, title: string, p: string, q: string)
    requires TemplateBlock(template).Some? && !Shadowed(AssembledOf(template, uid, noteType, title).vals)
    requires NewBlockOf(template, settings, uid, noteType, title) == p + "$$" + q && '$' !in p && '$' !in q
    ensures var after := template[TemplateBlock(template).value.end..];
      && ModifiedContent(template, settings, uid, noteType, title) == Some(p + "$$" + q + after)
      && ModifiedContentAsWritten(template, settings, uid, noteType, title) == Some(p + "$" + q + after)
      && ModifiedContentAsWritten(template, settings, uid, noteType, title) != ModifiedContent(template, settings, uid, noteType, title)
  {
    var block := NewBlockOf(template, settings, uid, noteType, title);
    ReplacedDropsDollar(template, block, p, q);
    assert ModifiedContent(template, settings, uid, noteType, title) == Some(Replaced(template, block));
    assert ModifiedContentAsWritten(template, settings, uid, noteType, title) == Some(ReplacedAsWritten(template, block));
  }

  /** `replace` with a block holding one `$$` and no other `$` puts in one `$` fewer. */
  lemma ReplacedDropsDollar(template: string, block: string, p: string, q: string)
    requires TemplateBlock(template).Some? && block == p + "$$" + q && '$' !in p && '$' !in q
    ensures var after := template[TemplateBlock(template).value.end..];
      && Replaced(template, block) == p + "$$" + q + after
      && ReplacedAsWritten(template, block) == p + "$" + q + after
      && ReplacedAsWritten(template, block) != Replaced(template, block)
  {
    var m := TemplateBlock(template).value;
    var after := template[m.end..];
    DoubleDollarCollapses(p, q, template[..m.end], template[m.bodyStart..m.bodyEnd], after);
    assert |p + "$" + q + after| < |p + "$$" + q + after|;
  }

  /* ---------- properties of the emission order ---------- */

  /** `Preferred` holds exactly the keys of `order` the object has. */
  lemma {:induction false} PreferredKeys(vals: map<string, FmValue>, order: seq<string>, n: nat, k: string)
    requires n <= |order|
    ensures k in Preferred(vals, order, n) <==> k in order[..n] && k in vals
  {
    if n > 0 {
      PreferredKeys(vals, order, n - 1, k);
      assert order[..n] == order[..n - 1] + [order[n - 1]];
    }
  }

  /** `Rest` holds exactly the keys outside `processed`. */
  lemma {:induction false} RestKeys(keys: seq<string>, processed: set<string>, n: nat, k: string)
    requires n <= |keys|
    ensures k in Rest(keys, processed, n) <==> k in keys[..n] && k !in processed
  {
    if n > 0 {
      RestKeys(keys, processed, n - 1, k);
      assert keys[..n] == keys[..n - 1] + [keys[n - 1]];
    }
  }

  /** Every property of the object is emitted, and nothing else is. */
  lemma EmissionCovers(obj: Record<FmValue>, order: seq<string>, k: string)
    ensures k in Emission(obj, order) <==> k in obj.vals
  {
    PreferredKeys(obj.vals, order, |order|, k);
    RestKeys(obj.keys, Processed(obj.vals, order), |obj.keys|, k);
    KeysOf(obj);
    assert order[..|order|] == order && obj.keys[..|obj.keys|] == obj.keys;
  }

  /** Each key of the object occurs as often in `Preferred` as in `order`, if the object has it. */
  lemma {:induction false} PreferredCount(vals: map<string, FmValue>, order: seq<string>, n: nat, k: string)
    requires n <= |order| && k in vals
    ensures multiset(Preferred(vals, order, n))[k] == multiset(order[..n])[k]
  {
    if n > 0 {
      PreferredCount(vals, order, n - 1, k);
      assert order[..n] == order[..n - 1] + [order[n - 1]];
    }
  }

  /** A key outside `processed` occurs in `Rest` as often as among the first `n` keys. */
  lemma {:induction false} RestCount(keys: seq<string>, processed: set<string>, n: nat, k: string)
    requires n <= |keys| && k !in processed
    ensures multiset(Rest(keys, processed, n))[k] == multiset(keys[..n])[k]
  {
    if n > 0 {
      RestCount(keys, processed, n - 1, k);
      PrefixMultiset(keys, n);
    }
  }

  /**
   * A property is emitted as many times as `order` names it when `order` names it, once
   * otherwise. With the default order and a parent key other than `uid`, `aliases`, `type`
   * and `publish`, that is exactly once.
   */
  lemma EmissionCount(obj: Record<FmValue>, order: seq<string>, k: string)
    requires k in obj.vals
    ensures multiset(Emission(obj, order))[k] == if k in order then multiset(order)[k] else 1
  {
    PreferredCount(obj.vals, order, |order|, k);
    if k !in order {
      RestCount(obj.keys, Processed(obj.vals, order), |obj.keys|, k);
    } else {
      RestKeys(obj.keys, Processed(obj.vals, order), |obj.keys|, k);
    }
    KeysOf(obj);
    DistinctCount(obj.keys, |obj.keys|, k);
    assert order[..|order|] == order && obj.keys[..|obj.keys|] == obj.keys;
  }

  /** With a parent key distinct from the four fixed names, every property is emitted exactly once. */
  lemma EmittedOnce(obj: Record<FmValue>, parentKey: string, k: string)
    requires parentKey !in {"uid", "aliases", "type", "publish"} && k in obj.vals
    ensures multiset(Emission(obj, DesiredOrder(parentKey)))[k] == 1
  {
    EmissionCount(obj, DesiredOrder(parentKey), k);
  }

  /** A parent key equal to one of the four fixed names puts that property out twice. */
  lemma ParentKeyEmittedTwice(obj: Record<FmValue>, parentKey: string)
    requires parentKey in {"uid", "aliases", "type", "publish"} && parentKey in obj.vals
    ensures multiset(Emission(obj, DesiredOrder(parentKey)))[parentKey] == 2
  {
    EmissionCount(obj, DesiredOrder(parentKey), parentKey);
  }

  /** The first preferred key the object holds is emitted first: `uid`, which every assembled object holds. */
  lemma {:induction false} FirstPreferredFirst(vals: map<string, FmValue>, order: seq<string>, n: nat)
    requires 0 < n <= |order| && order[0] in vals
    ensures |Preferred(vals, order, n)| > 0 && Preferred(vals, order, n)[0] == order[0]
  {
    if n > 1 {
      FirstPreferredFirst(vals, order, n - 1);
    }
  }

  lemma UidEmittedFirst(obj: Record<FmValue>, parentKey: string)
    requires "uid" in obj.vals
    ensures var e := Emission(obj, DesiredOrder(parentKey));
      |e| > 0 && e[0] == "uid"
  {
    FirstPreferredFirst(obj.vals, DesiredOrder(parentKey), 5);
  }
}

/**
 * `getModifiedContent` step by step, as `main.ts` writes it: parse the template's lines
 * into an object, force `uid` and `type`, add the reverse alias, then append the entries
 * to the new frontmatter text, preferred keys first. Each step is proved to build what
 * the functions of `Frontmatter` describe.
 */
module FrontmatterSynthesis {
  import opened Wrappers
  import opened Text
  import opened Records
  import opened Config
  import opened AddAlias
  import opened Frontmatter

  /**
   * The whole function: the result is the one `ModifiedContentAsWritten` describes, `None`
   * where `hasOwnProperty` throws.
   */
  method GetModifiedContent(template: string, settings: Settings, uid: string, noteType: string, title: string)
    returns (content: Option<string>)
    ensures content == ModifiedContentAsWritten(template, settings, uid, noteType, title)
  {
    var parentKey := ParentKeyOf(settings);
    var desiredOrder := DesiredOrder(parentKey);
    var frontmatterObject := AssembleObject(template, uid, noteType, title);

    var preferred := RenderPreferred(frontmatterObject.vals, desiredOrder);
    if preferred.None? {
      return None;
    }
    var (newFmContent, processedKeys) := preferred.value;
    KeysOf(frontmatterObject);
    newFmContent := RenderRest(frontmatterObject.keys, frontmatterObject.vals, processedKeys, newFmContent);
    EmittedText(frontmatterObject, desiredOrder);

    var newFmBlock := "---\n" + Trim(newFmContent) + "\n---\n";
    assert newFmBlock == NewBlockOf(template, settings, uid, noteType, title);
    var replaced := ReplaceBlock(template, newFmBlock);
    content := Some(replaced);
  }

  /** Steps 1 and 2: the template's frontmatter read into an object, `uid`, `type` and the reverse alias set. */
  method AssembleObject(template: string, uid: string, noteType: string, title: string) returns (frontmatterObject: Record<FmValue>)
    ensures frontmatterObject == AssembledOf(template, uid, noteType, title)
  {
    var fmMatch := TemplateBlock(template);
    frontmatterObject := Empty();
    if fmMatch.Some? {
      var fmContent := template[fmMatch.value.bodyStart..fmMatch.value.bodyEnd];
      frontmatterObject := ParseFrontmatter(Split(fmContent, {'\n'}));
    }
    frontmatterObject := Set(frontmatterObject, "uid", Scalar(uid));
    frontmatterObject := Set(frontmatterObject, "type", Scalar(noteType));
    frontmatterObject := AddReverseAlias(frontmatterObject, noteType, title);
  }

  /** The last line: `replace` on a template with a block, the block and an empty line before one without. */
  method ReplaceBlock(template: string, newFmBlock: string) returns (content: string)
    ensures content == ReplacedAsWritten(template, newFmBlock)
  {
    var fmMatch := TemplateBlock(template);
    if fmMatch.Some? {
      var m := fmMatch.value;
      var after := template[m.end..];
      content := Substitute(newFmBlock, template[..m.end], template[m.bodyStart..m.bodyEnd], after) + after;
    } else {
      content := newFmBlock + "\n" + template;
    }
  }

  /** The `forEach` over the block's lines. */
  method ParseFrontmatter(lines: seq<string>) returns (obj: Record<FmValue>)
    ensures obj == Fold(ParseLine, lines, |lines|)
  {
    obj := Empty();
    for i := 0 to |lines|
      invariant obj == Fold(ParseLine, lines, i)
    {
      obj := ReadLine(obj, lines[i]);
    }
  }

  /** The callback for one line: a line with a `:` and a non-empty key sets that key. */
  method ReadLine(obj: Record<FmValue>, line: string) returns (r: Record<FmValue>)
    ensures r == ApplyLine(obj, ParseLine(line))
  {
    r := obj;
    var colonIndex := IndexOf(line, ':');
    if colonIndex > -1 {
      var key := Trim(line[..colonIndex]);
      var value := ParseValue(line[colonIndex + 1..]);
      if key != "" {
        r := Set(r, key, value);
      }
    }
  }

  /** The reverse alias of a symmetric relation title joins `aliases`, a list from then on. */
  method AddReverseAlias(obj: Record<FmValue>, noteType: string, title: string) returns (r: Record<FmValue>)
    ensures r == WithReverseAlias(obj, noteType, title)
  {
    r := obj;
    if noteType == "relation" && title != "" {
      var parts := Split(title, {'-'});
      assert ReverseAliasOf(title) == ReverseFromParts(parts);
      if |parts| == 3 {
        var conceptA, relation, conceptB := Trim(parts[0]), Trim(parts[1]), Trim(parts[2]);
        if relation == "关联" || relation == "对比" {
          var reverseAlias := conceptB + "-" + relation + "-" + conceptA;
          assert ReverseAliasOf(title) == Some(reverseAlias);
          r := PushReverseAlias(r, reverseAlias);
        } else {
          assert ReverseAliasOf(title) == None;
        }
      } else {
        assert ReverseAliasOf(title) == None;
      }
    }
  }

  /** `currentAliases` (a list, or `[]`), the alias pushed unless included, written back to `aliases`. */
  method PushReverseAlias(obj: Record<FmValue>, reverseAlias: string) returns (r: Record<FmValue>)
    ensures r == WithAlias(obj, reverseAlias)
  {
    var currentAliases: seq<string>;
    if "aliases" in obj.vals && obj.vals["aliases"].Items? {
      currentAliases := obj.vals["aliases"].items;
    } else {
      currentAliases := [];
    }
    if reverseAlias !in currentAliases {
      currentAliases := currentAliases + [reverseAlias];
    }
    r := Set(obj, "aliases", Items(currentAliases));
  }

  /**
   * The `desiredOrder.forEach`: the entries of the preferred keys present, and the set of those
   * keys; `None` where the first `frontmatterObject.hasOwnProperty(key)` throws.
   */
  method RenderPreferred(vals: map<string, FmValue>, desiredOrder: seq<string>) returns (rendered: Option<(string, set<string>)>)
    ensures rendered == if Shadowed(vals) && |desiredOrder| > 0 then None
      else Some((PreferredText(vals, desiredOrder, |desiredOrder|), Processed(vals, desiredOrder)))
  {
    var newFmContent := "";
    var processedKeys := {};
    for i := 0 to |desiredOrder|
      invariant !Shadowed(vals) || i == 0
      invariant newFmContent == PreferredText(vals, desiredOrder, i)
      invariant processedKeys == set k | k in desiredOrder[..i] && k in vals
    {
      if "hasOwnProperty" in vals {
        return None;
      }
      var key := desiredOrder[i];
      assert desiredOrder[..i + 1] == desiredOrder[..i] + [key];
      if key in vals {
        var entry := RenderValue(key, vals[key]);
        newFmContent := newFmContent + entry;
        processedKeys := processedKeys + {key};
      }
    }
    assert desiredOrder[..|desiredOrder|] == desiredOrder;
    rendered := Some((newFmContent, processedKeys));
  }

  /** The `Object.keys(...).forEach`: the entries of the other keys, in insertion order, after `prefix`. */
  method RenderRest(keys: seq<string>, vals: map<string, FmValue>, processedKeys: set<string>, prefix: string) returns (newFmContent: string)
    requires forall k :: k in keys ==> k in vals
    ensures newFmContent == prefix + RestText(vals, keys, processedKeys, |keys|)
  {
    newFmContent := prefix;
    for i := 0 to |keys|
      invariant newFmContent == prefix + RestText(vals, keys, processedKeys, i)
    {
      var key := keys[i];
      if key !in processedKeys {
        var entry := RenderValue(key, vals[key]);
        newFmContent := newFmContent + entry;
      }
    }
  }

  /** One entry: `key: []`, `key:` followed by one `  - "item"` line per item, or `key: value`. */
  method RenderValue(key: string, value: FmValue) returns (entry: string)
    ensures entry == RenderEntry(key, value)
  {
    match value
    case Items(items) =>
      if |items| == 0 {
        entry := key + ": []\n";
      } else {
        entry := key + ":\n";
        for j := 0 to |items|
          invariant entry == key + ":\n" + ItemLines(items, j)
        {
          entry := entry + "  - \"" + items[j] + "\"\n";
        }
      }
    case Scalar(s) =>
      entry := key + ": " + s + "\n";
  }
}

/**
 * The parts of `main.ts` that have no counterpart in the utility and command files:
 * the link text `createOrLinkNote` puts in place of the selection, and the
 * `inheritedCount` loop of the older `inheritPropertiesFromParent`. The rest of
 * `main.ts` is the same logic as the utility files, modelled there.
 */
module Plugin {
  import opened Wrappers
  import opened Text
  import opened Records
  import opened Config
  import opened StringUtils
  import opened InheritProperties
  import opened InheritCommand

  /** The link that replaces the (trimmed) selection once the note `basename` exists. */
  function LinkText(basename: string, selection: string): (r: string)
    ensures 2 + |basename| + 2 <= |r|
    ensures r[..2 + |basename|] == "[[" + basename && r[|r| - 2..] == "]]"
    ensures basename == selection <==> |r| == 2 + |basename| + 2
    ensures basename != selection ==> r[2 + |basename|] == '|' && r[3 + |basename|..|r| - 2] == selection
  {
    if basename == selection then "[[" + basename + "]]" else "[[" + basename + "|" + selection + "]]"
  }

  /** The greedy run of link characters from `j` is any run that the text ends or a non-link character follows. */
  lemma RunFromIs(s: string, j: nat, run: string)
    requires j + |run| <= |s| && s[j..j + |run|] == run
    requires forall k :: 0 <= k < |run| ==> LinkChar(run[k])
    requires j + |run| == |s| || !LinkChar(s[j + |run|])
    ensures RunFrom(s, j) == run
  {
    var r := RunFrom(s, j);
    assert |r| == |run|;
  }

  /**
   * The link names the note: `parseWikilink` reads the basename back, whether or not the
   * selection was shown after a `|`, as long as the basename is not empty and holds no `|` or `]`.
   */
  lemma LinkTextNamesNote(basename: string, selection: string)
    requires basename != "" && forall k :: 0 <= k < |basename| ==> LinkChar(basename[k])
    ensures ParseWikilink(Str(LinkText(basename, selection))) == Some(Trim(basename))
  {
    var s := LinkText(basename, selection);
    assert s[2] == basename[0];
    assert OpensAt(s, 0);
    assert FirstOpen(s, 0) == Some(0);
    assert s[2..2 + |basename|] == basename;
    assert !LinkChar(s[2 + |basename|]);
    RunFromIs(s, 2, basename);
  }

  /**
   * The `processFrontMatter` callback of `main.ts`: every collected key is assigned onto the
   * frontmatter in order, and `inheritedCount` counts the assignments.
   */
  method AssignInherited(frontmatter: Record<Value>, propertiesToInherit: Record<Value>)
    returns (updated: Record<Value>, inheritedCount: nat)
    requires forall k :: k in propertiesToInherit.vals ==> k !in frontmatter.vals
    ensures updated == Extend(frontmatter, propertiesToInherit)
    ensures inheritedCount == |propertiesToInherit.keys|
  {
    KeysOf(propertiesToInherit);
    var keys, vals;
    keys, vals, inheritedCount := AssignKeys(frontmatter.keys, frontmatter.vals, propertiesToInherit.keys, propertiesToInherit.vals);
    assert (map k | k in propertiesToInherit.keys :: propertiesToInherit.vals[k]) == propertiesToInherit.vals;
    updated := Extend(frontmatter, propertiesToInherit);
    assert vals == updated.vals;
  }

  /** The `for ... in` loop itself, over the key order and the values of both objects. */
  method AssignKeys(keys: seq<string>, vals: map<string, Value>, newKeys: seq<string>, newVals: map<string, Value>)
    returns (keys': seq<string>, vals': map<string, Value>, inheritedCount: nat)
    requires forall k :: k in newKeys ==> k in newVals
    ensures keys' == keys + newKeys
    ensures vals' == vals + map k | k in newKeys :: newVals[k]
    ensures inheritedCount == |newKeys|
  {
    keys', vals' := keys, vals;
    inheritedCount := 0;
    for i := 0 to |newKeys|
      invariant keys' == keys + newKeys[..i]
      invariant vals' == vals + map k | k in newKeys[..i] :: newVals[k]
      invariant inheritedCount == i
    {
      var key := newKeys[i];
      assert newKeys[..i + 1] == newKeys[..i] + [key];
      vals' := vals'[key := newVals[key]];
      keys' := keys' + [key];
      inheritedCount := inheritedCount + 1;
    }
    assert newKeys[..|newKeys|] == newKeys;
  }

  /**
   * `inheritPropertiesFromParent` as `main.ts` writes it: the same collection as the command
   * file, but the count it reports is `inheritedCount`.
   */
  method InheritFromParent(current: Record<Value>, settings: Settings, resolve: string -> Option<Record<Value>>)
    returns (outcome: InheritOutcome)
    ensures outcome == Inheritance(current, settings, resolve)
  {
    var parentKey := Trim(settings.parentKey);
    var parentLinksRaw := Get(current, parentKey);
    if parentLinksRaw.PrototypeMember? {
      return NoParentLinks;
    }
    if parentLinksRaw.Undefined? || !Truthy(parentLinksRaw.value) {
      return NoParentProperty;
    }
    var parentLinks := ParentLinks(parentLinksRaw.value);
    if |parentLinks| == 0 {
      return NoParentLinks;
    }
    var full := settings.inheritanceMode == "full";
    var collected := CollectProperties(current, parentLinks, resolve, full);
    if collected.None? {
      return Failed;
    }
    var propertiesToInherit := collected.value;
    CollectEligible(current, Parents(parentLinks, resolve), full, |parentLinks|);
    assert Inheritance(current, settings, resolve) == InheritFromLinks(current, parentLinks, resolve, full);
    if |propertiesToInherit.keys| > 0 {
      var frontmatter, inheritedCount := AssignInherited(current, propertiesToInherit);
      outcome := Inherited(frontmatter, inheritedCount);
    } else {
      outcome := NothingToInherit;
    }
  }
}

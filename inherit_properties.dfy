/**
 * `commands/inheritProperties.ts` (and its copy in `main.ts`): copy into the current
 * note the frontmatter keys of its parent notes that it does not have yet.
 */
module InheritProperties {
  import opened Wrappers
  import opened Text
  import opened Records
  import opened Config
  import opened StringUtils

  /**
   * Where the lazy `.*?\]\]` that starts at `j` ends: the first `]]` at or after `j`
   * that comes before any line terminator (which `.` does not match).
   */
  function CloseFrom(s: string, j: nat): (r: Option<nat>)
    requires j <= |s|
    ensures r.Some? ==> j <= r.value && OccursAt(s, "]]", r.value)
    ensures r.Some? ==> forall k :: j <= k < r.value ==> !OccursAt(s, "]]", k) && !IsLineTerminator(s[k])
    ensures r.None? ==> forall k :: j <= k <= |s| && OccursAt(s, "]]", k) ==> exists m :: j <= m < k && IsLineTerminator(s[m])
    decreases |s| - j
  {
    if OccursAt(s, "]]", j) then Some(j)
    else if j < |s| && !IsLineTerminator(s[j]) then CloseFrom(s, j + 1)
    else None
  }

  /** A match of `\[\[.*?\]\]`: `[[`, then no line terminator and no `]]` before the final `]]`. */
  predicate IsLinkMatch(m: string) {
    && |m| >= 4
    && m[..2] == "[[" && m[|m| - 2..] == "]]"
    && (forall k :: 2 <= k < |m| - 2 ==> !IsLineTerminator(m[k]))
    && (forall k :: 2 <= k < |m| - 2 ==> !OccursAt(m, "]]", k))
  }

  /** The text from an opening `[[` at `i` to the `]]` that `CloseFrom` finds is a match. */
  lemma MatchFromOpening(s: string, i: nat, j: nat)
    requires OccursAt(s, "[[", i) && i + 2 <= j && OccursAt(s, "]]", j)
    requires forall k :: i + 2 <= k < j ==> !OccursAt(s, "]]", k) && !IsLineTerminator(s[k])
    ensures IsLinkMatch(s[i..j + 2])
  {
    var m := s[i..j + 2];
    assert m[..2] == s[i..i + 2];
    assert m[|m| - 2..] == s[j..j + 2];
    forall k | 2 <= k < |m| - 2 ensures !IsLineTerminator(m[k]) && !OccursAt(m, "]]", k) {
      assert m[k] == s[i + k];
      assert !OccursAt(s, "]]", i + k);
    }
  }

  /** A match of the pattern starts at `j`: a `[[` that a `]]` closes on the same line. */
  predicate Opens(s: string, j: nat) {
    OccursAt(s, "[[", j) && CloseFrom(s, j + 2).Some?
  }

  /** Where the match that starts at `j` ends. */
  function MatchEnd(s: string, j: nat): (e: nat)
    requires Opens(s, j)
    ensures j + 4 <= e <= |s| && IsLinkMatch(s[j..e])
  {
    var k := CloseFrom(s, j + 2).value;
    MatchFromOpening(s, j, k);
    k + 2
  }

  /**
   * `s.match(/\[\[.*?\]\]/g)` from position `i` on, with `[]` for `null`: empty exactly when
   * no match starts at or after `i`.
   */
  function LinkMatches(s: string, i: nat): (r: seq<string>)
    requires i <= |s|
    ensures forall m :: 0 <= m < |r| ==> IsLinkMatch(r[m])
    ensures r == [] <==> forall j: nat :: i <= j ==> !Opens(s, j)
    decreases |s| - i
  {
    if Opens(s, i) then
      [s[i..MatchEnd(s, i)]] + LinkMatches(s, MatchEnd(s, i))
    else if i < |s| then LinkMatches(s, i + 1)
    else
      assert forall j: nat :: i <= j ==> !OccursAt(s, "[[", j);
      []
  }

  /**
   * The matches are the leftmost ones, one after the other: the first starts at the first
   * position where a match starts, and the search goes on after its end.
   */
  lemma {:induction false} LinkMatchesLeftmost(s: string, i: nat, j: nat)
    requires i <= j <= |s| && Opens(s, j)
    requires forall k: nat :: i <= k < j ==> !Opens(s, k)
    ensures LinkMatches(s, i) == [s[j..MatchEnd(s, j)]] + LinkMatches(s, MatchEnd(s, j))
    decreases j - i
  {
    if i < j {
      assert !Opens(s, i) && i < |s|;
      assert LinkMatches(s, i) == LinkMatches(s, i + 1);
      LinkMatchesLeftmost(s, i + 1, j);
    } else {
      assert LinkMatches(s, i) == [s[j..MatchEnd(s, j)]] + LinkMatches(s, MatchEnd(s, j));
    }
  }

  /** The string items of a list, in order (see `StringItemsConcat`). */
  function StringItems(items: seq<Value>): (r: seq<string>)
    ensures |r| <= |items|
    ensures forall x :: x in r <==> Str(x) in items
  {
    if items == [] then []
    else
      var rest := StringItems(items[1..]);
      assert forall v :: v in items <==> v == items[0] || v in items[1..];
      if items[0].Str? then [items[0].s] + rest else rest
  }

  /** Taking the string items of two runs of items is taking those of each in turn: order and repetitions are kept. */
  lemma {:induction false} StringItemsConcat(a: seq<Value>, b: seq<Value>)
    ensures StringItems(a + b) == StringItems(a) + StringItems(b)
  {
    if a == [] {
      assert a + b == b;
    } else {
      var ab := a + b;
      assert ab[0] == a[0] && ab[1..] == a[1..] + b;
      StringItemsConcat(a[1..], b);
    }
  }

  /** A single item gives its string, or nothing when it is not a string. */
  lemma StringItemsOne(v: Value)
    ensures StringItems([v]) == if v.Str? then [v.s] else []
  {
    assert [v][1..] == [];
  }

  /**
   * The parent links held by the parent property: the string items of a list; every
   * `[[...]]` in a string, or the whole string when it has none; nothing otherwise.
   */
  function ParentLinks(raw: Value): (r: seq<string>)
    ensures raw.List? ==> forall x :: x in r <==> Str(x) in raw.items
    ensures raw.Str? && (forall j: nat :: !Opens(raw.s, j)) ==> r == [raw.s]
    ensures raw.Str? && (exists j: nat :: Opens(raw.s, j)) ==> r == LinkMatches(raw.s, 0) && |r| >= 1
    ensures !raw.List? && !raw.Str? ==> r == []
  {
    match raw
    case List(items) => StringItems(items)
    case Str(s) =>
      var found := LinkMatches(s, 0);
      if found == [] then [s] else found
    case _ => []
  }

  /** Both links of `[[A]], [[B]]` are found. */
  lemma TwoLinksExample()
    ensures ParentLinks(Str("[[A]], [[B]]")) == ["[[A]]", "[[B]]"]
  {
    var s := "[[A]], [[B]]";
    FirstOfTwoLinks();
    SecondOfTwoLinks();
    var found := LinkMatches(s, 0);
    assert found == ["[[A]]", "[[B]]"];
  }

  lemma FirstOfTwoLinks()
    ensures LinkMatches("[[A]], [[B]]", 0) == ["[[A]]"] + LinkMatches("[[A]], [[B]]", 5)
  {
    var s := "[[A]], [[B]]";
    assert s[0..2] == "[[" && s[3..5] == "]]" && s[2..4][0] == 'A';
    assert !OccursAt(s, "]]", 2) && !IsLineTerminator(s[2]);
    assert CloseFrom(s, 2) == CloseFrom(s, 3);
    assert OccursAt(s, "]]", 3);
    assert CloseFrom(s, 2) == Some(3);
    assert Opens(s, 0) && MatchEnd(s, 0) == 5;
    assert s[0..5] == "[[A]]";
  }

  lemma SecondOfTwoLinks()
    ensures LinkMatches("[[A]], [[B]]", 5) == ["[[B]]"]
  {
    var s := "[[A]], [[B]]";
    SecondLinkAt();
    assert !OccursAt(s, "[[", 5) by { assert s[5..7][0] == ','; }
    assert !OccursAt(s, "[[", 6) by { assert s[6..8][0] == ' '; }
    LinkMatchesLeftmost(s, 5, 7);
    assert LinkMatches(s, 12) == [];
  }

  lemma SecondLinkAt()
    ensures var s := "[[A]], [[B]]"; Opens(s, 7) && MatchEnd(s, 7) == 12 && s[7..12] == "[[B]]"
  {
    var s := "[[A]], [[B]]";
    assert s[7..9] == "[[" && s[10..12] == "]]" && s[9..11][0] == 'B';
    assert !OccursAt(s, "]]", 9) && !IsLineTerminator(s[9]);
    assert CloseFrom(s, 9) == CloseFrom(s, 10);
    assert OccursAt(s, "]]", 10);
    assert CloseFrom(s, 9) == Some(10);
  }

  /** A string without a link is taken whole. */
  lemma NoLinkExample()
    ensures ParentLinks(Str("A")) == ["A"]
  {
    assert !Opens("A", 0) && !Opens("A", 1);
  }

  /**
   * The frontmatter of the parent a link names: `parseWikilink`, skipping an empty or missing
   * name, then `resolve`, which stands for the host's link resolution followed by its
   * metadata cache (`None` for a name that resolves to no file, `{}` for a file without
   * frontmatter).
   */
  function ParentOf(link: string, resolve: string -> Option<Record<Value>>): (r: Option<Record<Value>>)
    ensures r.Some? ==> exists name :: name != "" && ParseWikilink(Str(link)) == Some(name) && resolve(name) == r
  {
    match ParseWikilink(Str(link))
    case None => None
    case Some(name) =>
      if name == "" then None
      else
        assert name != "" && ParseWikilink(Str(link)) == Some(name) && resolve(name) == resolve(name);
        resolve(name)
  }

  /** The parent frontmatter behind each link, in link order. */
  function Parents(links: seq<string>, resolve: string -> Option<Record<Value>>): (r: seq<Option<Record<Value>>>)
    ensures |r| == |links|
  {
    if links == [] then [] else [ParentOf(links[0], resolve)] + Parents(links[1..], resolve)
  }

  lemma {:induction false} ParentsAt(links: seq<string>, resolve: string -> Option<Record<Value>>, i: nat)
    requires i < |links|
    ensures Parents(links, resolve)[i] == ParentOf(links[i], resolve)
  {
    assert Parents(links, resolve) == [ParentOf(links[0], resolve)] + Parents(links[1..], resolve);
    if i > 0 {
      ParentsAt(links[1..], resolve, i - 1);
      assert links[1..][i - 1] == links[i];
    }
  }

  /** A key the current note may take over: one it lacks, other than the host's `position`. */
  predicate Eligible(current: Record<Value>, key: string) {
    key !in current.vals && key != "position"
  }

  /** What an inherited key gets: the parent's value in `full` mode, `''` otherwise. */
  function NewValue(parent: Record<Value>, key: string, full: bool): Value
    requires key in parent.vals
  {
    if full then parent.vals[key] else Str("")
  }

  /** The body of the inner loop for one key: an eligible key is set to `value`. */
  function MergeKey(acc: Record<Value>, current: Record<Value>, key: string, value: Value): Record<Value> {
    if Eligible(current, key) then Set(acc, key, value) else acc
  }

  /** For one key `k`: `MergeKey` sets it exactly when it is the visited, eligible key, and keeps it otherwise. */
  lemma MergeKeyAt(acc: Record<Value>, current: Record<Value>, key: string, value: Value, k: string)
    ensures var r := MergeKey(acc, current, key, value);
      var hit := k == key && Eligible(current, key);
      && (k in r.vals <==> k in acc.vals || hit)
      && (hit ==> r.vals[k] == value)
      && (!hit && k in acc.vals ==> r.vals[k] == acc.vals[k])
  {
  }

  /** `propertiesToInherit` after the first `n` keys of one parent have been visited. */
  function MergeParent(props: Record<Value>, current: Record<Value>, parent: Record<Value>, n: nat, full: bool): (r: Record<Value>)
    requires n <= |parent.keys|
  {
    if n == 0 then props
    else
      var key := parent.keys[n - 1];
      KeysOf(parent);
      MergeKey(MergeParent(props, current, parent, n - 1, full), current, key, NewValue(parent, key, full))
  }

  /** `key` is one of the first `n` elements of `s`. */
  predicate AmongFirst(s: seq<string>, n: nat, key: string)
    requires n <= |s|
  {
    n > 0 && (s[n - 1] == key || AmongFirst(s, n - 1, key))
  }

  lemma {:induction false} AmongFirstIff(s: seq<string>, n: nat, key: string)
    requires n <= |s|
    ensures AmongFirst(s, n, key) <==> exists j :: 0 <= j < n && s[j] == key
  {
    if n > 0 {
      AmongFirstIff(s, n - 1, key);
      if s[n - 1] == key {
        assert 0 <= n - 1 < n && s[n - 1] == key;
      }
      if exists j :: 0 <= j < n && s[j] == key {
        var j :| 0 <= j < n && s[j] == key;
        if j < n - 1 {
          assert 0 <= j < n - 1 && s[j] == key;
        }
      }
    }
  }

  /**
   * After the first `n` keys of a parent, for one key: it was added or overwritten with its new
   * value exactly when it is an eligible key among them, and otherwise kept its value.
   */
  lemma {:induction false} MergeParentAt(props: Record<Value>, current: Record<Value>, parent: Record<Value>, n: nat, full: bool, key: string)
    requires n <= |parent.keys|
    ensures var r := MergeParent(props, current, parent, n, full);
      var hit := AmongFirst(parent.keys, n, key) && Eligible(current, key);
      && (key in r.vals <==> key in props.vals || hit)
      && (hit ==> key in parent.vals && r.vals[key] == NewValue(parent, key, full))
      && (!hit && key in props.vals ==> r.vals[key] == props.vals[key])
  {
    if n > 0 {
      MergeParentAt(props, current, parent, n - 1, full, key);
      var last := parent.keys[n - 1];
      assert last in parent.vals by { KeysOf(parent); }
      MergeKeyAt(MergeParent(props, current, parent, n - 1, full), current, last, NewValue(parent, last, full), key);
    }
  }

  /** One more key of the parent visited. */
  lemma MergeParentNext(props: Record<Value>, current: Record<Value>, parent: Record<Value>, n: nat, full: bool)
    requires n < |parent.keys|
    ensures parent.keys[n] in parent.vals
    ensures var acc := MergeParent(props, current, parent, n, full);
      var key := parent.keys[n];
      MergeParent(props, current, parent, n + 1, full) == MergeKey(acc, current, key, NewValue(parent, key, full))
  {
    KeysOf(parent);
  }

  /** One more link visited. */
  lemma CollectNext(current: Record<Value>, parents: seq<Option<Record<Value>>>, full: bool, n: nat)
    requires n < |parents|
    ensures var acc := Collect(current, parents, full, n);
      Collect(current, parents, full, n + 1) == match parents[n]
        case None => acc
        case Some(parent) => MergeParent(acc, current, parent, |parent.keys|, full)
  {
  }

  /** A whole parent merged, for one key: added or overwritten when the parent has it and it is eligible, kept otherwise. */
  lemma MergeWholeParent(props: Record<Value>, current: Record<Value>, parent: Record<Value>, full: bool, key: string)
    ensures var r := MergeParent(props, current, parent, |parent.keys|, full);
      var hit := key in parent.vals && Eligible(current, key);
      && (key in r.vals <==> key in props.vals || hit)
      && (hit ==> r.vals[key] == NewValue(parent, key, full))
      && (!hit && key in props.vals ==> r.vals[key] == props.vals[key])
  {
    KeysOf(parent);
    AmongFirstIff(parent.keys, |parent.keys|, key);
    MergeParentAt(props, current, parent, |parent.keys|, full, key);
  }

  /** `propertiesToInherit` after the parents of the first `n` links have been visited. */
  function Collect(current: Record<Value>, parents: seq<Option<Record<Value>>>, full: bool, n: nat): (r: Record<Value>)
    requires n <= |parents|
  {
    if n == 0 then Empty()
    else
      var acc := Collect(current, parents, full, n - 1);
      match parents[n - 1]
      case None => acc
      case Some(parent) => MergeParent(acc, current, parent, |parent.keys|, full)
  }

  /** Every collected key is absent from the current note and is not `position`. */
  lemma CollectEligible(current: Record<Value>, parents: seq<Option<Record<Value>>>, full: bool, n: nat)
    requires n <= |parents|
    ensures forall k :: k in Collect(current, parents, full, n).vals ==> Eligible(current, k)
  {
    forall k | k in Collect(current, parents, full, n).vals ensures Eligible(current, k) {
      CollectKeys(current, parents, full, n, k);
    }
  }

  /** The parent of link `i` exists and has `key`. */
  predicate Provides(parents: seq<Option<Record<Value>>>, i: nat, key: string)
    requires i < |parents|
  {
    parents[i].Some? && key in parents[i].value.vals
  }

  /** What the command did, as its notices report it; `Failed` is the error its `catch` reports. */
  datatype InheritOutcome =
    | NoParentProperty
    | NoParentLinks
    | NothingToInherit
    | Inherited(frontmatter: Record<Value>, count: nat)
    | Failed

  /**
   * `currentFrontmatter.hasOwnProperty(key)` throws a `TypeError` when the note has an own
   * property `hasOwnProperty`: its YAML value shadows the method.
   */
  predicate Shadowed(current: Record<Value>) {
    "hasOwnProperty" in current.vals
  }

  /** The parent of link `i` exists and has a key, so the inner loop runs at least once. */
  predicate HasKeys(parents: seq<Option<Record<Value>>>, i: nat)
    requires i < |parents|
  {
    parents[i].Some? && |parents[i].value.keys| > 0
  }

  /** Some parent among those of the first `n` links has a key. */
  predicate SomeHasKeys(parents: seq<Option<Record<Value>>>, n: nat)
    requires n <= |parents|
  {
    n > 0 && (HasKeys(parents, n - 1) || SomeHasKeys(parents, n - 1))
  }

  lemma {:induction false} SomeHasKeysIff(parents: seq<Option<Record<Value>>>, n: nat)
    requires n <= |parents|
    ensures SomeHasKeys(parents, n) <==> exists i :: 0 <= i < n && HasKeys(parents, i)
  {
    if n > 0 {
      SomeHasKeysIff(parents, n - 1);
      if HasKeys(parents, n - 1) {
        assert 0 <= n - 1 < n && HasKeys(parents, n - 1);
      }
      if exists i :: 0 <= i < n && HasKeys(parents, i) {
        var i :| 0 <= i < n && HasKeys(parents, i);
        if i < n - 1 {
          assert 0 <= i < n - 1 && HasKeys(parents, i);
        }
      }
    }
  }

  /** The collection throws: the note shadows `hasOwnProperty` and some visited parent has a key. */
  predicate Throws(current: Record<Value>, parents: seq<Option<Record<Value>>>, n: nat)
    requires n <= |parents|
  {
    Shadowed(current) && SomeHasKeys(parents, n)
  }

  /** What the command does once it has the parent links. */
  function InheritFromLinks(current: Record<Value>, links: seq<string>, resolve: string -> Option<Record<Value>>, full: bool): (r: InheritOutcome)
    ensures r.NoParentLinks? <==> links == []
    ensures r.Failed? <==> links != [] && Throws(current, Parents(links, resolve), |links|)
    ensures !r.NoParentProperty?
    ensures r.Inherited? ==> r.count > 0 && forall k :: k in current.vals ==> k in r.frontmatter.vals && r.frontmatter.vals[k] == current.vals[k]
  {
    if |links| == 0 then NoParentLinks
    else if Throws(current, Parents(links, resolve), |links|) then Failed
    else Collected(current, links, resolve, full)
  }

  /** The outcome once the collection has run without throwing: the keys collected, if any, are added. */
  function Collected(current: Record<Value>, links: seq<string>, resolve: string -> Option<Record<Value>>, full: bool): (r: InheritOutcome)
    ensures r.NothingToInherit? || r.Inherited?
    ensures r.Inherited? ==> r.count > 0 && forall k :: k in current.vals ==> k in r.frontmatter.vals && r.frontmatter.vals[k] == current.vals[k]
  {
    var props := Collect(current, Parents(links, resolve), full, |links|);
    CollectEligible(current, Parents(links, resolve), full, |links|);
    if |props.keys| == 0 then NothingToInherit
    else Inherited(Extend(current, props), |props.keys|)
  }

  /**
   * `currentFrontmatter[parentKey]`: the own value, else the inherited member of
   * `Object.prototype`, which is truthy but neither an array nor a string and so holds no link.
   */
  function Inheritance(current: Record<Value>, settings: Settings, resolve: string -> Option<Record<Value>>): (r: InheritOutcome)
    ensures r.Inherited? ==> r.count > 0 && forall k :: k in current.vals ==> k in r.frontmatter.vals && r.frontmatter.vals[k] == current.vals[k]
    ensures r.Inherited? || r.NothingToInherit? || r.Failed? ==>
      var key := Trim(settings.parentKey);
      && key in current.vals && Truthy(current.vals[key])
      && r == InheritFromLinks(current, ParentLinks(current.vals[key]), resolve, settings.inheritanceMode == "full")
  {
    match Get(current, Trim(settings.parentKey))
    case Undefined => NoParentProperty
    case PrototypeMember => NoParentLinks
    case Own(parentLinksRaw) =>
      if !Truthy(parentLinksRaw) then NoParentProperty
      else InheritFromLinks(current, ParentLinks(parentLinksRaw), resolve, settings.inheritanceMode == "full")
  }

  /** One step of `Collect`, for a single key: the parent of link `n - 1` adds or overwrites it only when it has it. */
  lemma CollectStep(current: Record<Value>, parents: seq<Option<Record<Value>>>, full: bool, n: nat, key: string)
    requires 0 < n <= |parents|
    ensures var acc := Collect(current, parents, full, n - 1);
      var r := Collect(current, parents, full, n);
      && (key in r.vals <==> key in acc.vals || (Provides(parents, n - 1, key) && Eligible(current, key)))
      && (Provides(parents, n - 1, key) && Eligible(current, key) ==> r.vals[key] == NewValue(parents[n - 1].value, key, full))
      && (!Provides(parents, n - 1, key) && key in acc.vals ==> r.vals[key] == acc.vals[key])
  {
    if parents[n - 1].Some? {
      MergeWholeParent(Collect(current, parents, full, n - 1), current, parents[n - 1].value, full, key);
    }
  }

  /** Some parent among those of the first `n` links has `key`. */
  predicate SomeParentHas(parents: seq<Option<Record<Value>>>, n: nat, key: string)
    requires n <= |parents|
  {
    n > 0 && (Provides(parents, n - 1, key) || SomeParentHas(parents, n - 1, key))
  }

  lemma {:induction false} SomeParentHasIff(parents: seq<Option<Record<Value>>>, n: nat, key: string)
    requires n <= |parents|
    ensures SomeParentHas(parents, n, key) <==> exists i :: 0 <= i < n && Provides(parents, i, key)
  {
    if n > 0 {
      SomeParentHasIff(parents, n - 1, key);
      if Provides(parents, n - 1, key) {
        assert 0 <= n - 1 < n && Provides(parents, n - 1, key);
      }
      if exists i :: 0 <= i < n && Provides(parents, i, key) {
        var i :| 0 <= i < n && Provides(parents, i, key);
        if i < n - 1 {
          assert 0 <= i < n - 1 && Provides(parents, i, key);
        }
      }
    }
  }

  /** A key is collected exactly when it is eligible and the parent of some visited link has it. */
  lemma {:induction false} CollectKeys(current: Record<Value>, parents: seq<Option<Record<Value>>>, full: bool, n: nat, key: string)
    requires n <= |parents|
    ensures key in Collect(current, parents, full, n).vals <==> Eligible(current, key) && SomeParentHas(parents, n, key)
  {
    if n > 0 {
      CollectStep(current, parents, full, n, key);
      CollectKeys(current, parents, full, n - 1, key);
    }
  }

  /** In `full` mode a collected key holds the value of the last visited parent that has it; otherwise `''`. */
  lemma {:induction false} CollectLastParentWins(current: Record<Value>, parents: seq<Option<Record<Value>>>, full: bool, n: nat, key: string, i: nat)
    requires i < n <= |parents|
    requires Eligible(current, key) && Provides(parents, i, key)
    requires forall j :: i < j < n ==> !Provides(parents, j, key)
    ensures key in Collect(current, parents, full, n).vals
    ensures Collect(current, parents, full, n).vals[key] == NewValue(parents[i].value, key, full)
  {
    CollectStep(current, parents, full, n, key);
    if i < n - 1 {
      CollectLastParentWins(current, parents, full, n - 1, key, i);
      assert !Provides(parents, n - 1, key);
    } else {
      assert Provides(parents, n - 1, key);
    }
  }

  /**
   * Once the links are known: nothing happens without one, and the command fails exactly when
   * the note shadows `hasOwnProperty` and a linked parent has a key.
   */
  lemma LinksOutcome(current: Record<Value>, links: seq<string>, resolve: string -> Option<Record<Value>>, full: bool)
    ensures var res := InheritFromLinks(current, links, resolve, full);
      && (res == NoParentLinks <==> links == [])
      && (res == Failed <==> links != [] && Shadowed(current) && exists i :: 0 <= i < |links| && HasKeys(Parents(links, resolve), i))
      && res != NoParentProperty
  {
    ThrowsIff(current, links, resolve);
    assert InheritFromLinks(current, links, resolve, full) == Failed <==> links != [] && Throws(current, Parents(links, resolve), |links|);
  }

  lemma ThrowsIff(current: Record<Value>, links: seq<string>, resolve: string -> Option<Record<Value>>)
    ensures Throws(current, Parents(links, resolve), |links|) <==>
      Shadowed(current) && exists i :: 0 <= i < |links| && HasKeys(Parents(links, resolve), i)
  {
    SomeHasKeysIff(Parents(links, resolve), |links|);
  }

  /**
   * Nothing happens unless the trimmed parent key holds a truthy value with at least one link;
   * a name of `Object.prototype` the note does not have gives no link.
   */
  lemma InheritanceGivesUp(current: Record<Value>, settings: Settings, resolve: string -> Option<Record<Value>>)
    ensures var key := Trim(settings.parentKey);
      var res := Inheritance(current, settings, resolve);
      && (res == NoParentProperty <==>
            (key !in current.vals && key !in ObjectPrototypeMembers) || (key in current.vals && !Truthy(current.vals[key])))
      && (res == NoParentLinks <==>
            (key !in current.vals && key in ObjectPrototypeMembers)
            || (key in current.vals && Truthy(current.vals[key]) && ParentLinks(current.vals[key]) == []))
  {
    var key := Trim(settings.parentKey);
    if key in current.vals && Truthy(current.vals[key]) {
      LinksOutcome(current, ParentLinks(current.vals[key]), resolve, settings.inheritanceMode == "full");
    }
  }

  /** The command fails exactly when the note shadows `hasOwnProperty` and one of the parents its links name has a key. */
  lemma InheritanceFails(current: Record<Value>, settings: Settings, resolve: string -> Option<Record<Value>>)
    ensures var key := Trim(settings.parentKey);
      Inheritance(current, settings, resolve) == Failed <==>
        && key in current.vals && Truthy(current.vals[key]) && Shadowed(current)
        && var links := ParentLinks(current.vals[key]);
           exists i :: 0 <= i < |links| && HasKeys(Parents(links, resolve), i)
  {
    var key := Trim(settings.parentKey);
    var res := Inheritance(current, settings, resolve);
    if key in current.vals && Truthy(current.vals[key]) {
      var links := ParentLinks(current.vals[key]);
      assert res == InheritFromLinks(current, links, resolve, settings.inheritanceMode == "full");
      LinksOutcome(current, links, resolve, settings.inheritanceMode == "full");
    } else {
      assert res != Failed;
    }
  }

  /** The frontmatter extended with what the parents provide, for one key. */
  lemma ExtendedKeys(current: Record<Value>, parents: seq<Option<Record<Value>>>, full: bool, key: string)
    ensures forall k :: k in Collect(current, parents, full, |parents|).vals ==> k !in current.vals
    ensures var fm := Extend(current, Collect(current, parents, full, |parents|));
      && (key in current.vals ==> key in fm.vals && fm.vals[key] == current.vals[key])
      && (key !in current.vals ==>
            (key in fm.vals <==> key != "position" && exists i :: 0 <= i < |parents| && Provides(parents, i, key)))
  {
    CollectEligible(current, parents, full, |parents|);
    CollectKeys(current, parents, full, |parents|, key);
    SomeParentHasIff(parents, |parents|, key);
  }

  /** `InheritedKeys` once the parent links are known. */
  lemma LinksInheritedKeys(current: Record<Value>, links: seq<string>, resolve: string -> Option<Record<Value>>, full: bool, key: string)
    requires InheritFromLinks(current, links, resolve, full).Inherited?
    ensures var res := InheritFromLinks(current, links, resolve, full);
      var parents := Parents(links, resolve);
      && (key in current.vals ==> key in res.frontmatter.vals && res.frontmatter.vals[key] == current.vals[key])
      && (key !in current.vals ==>
            (key in res.frontmatter.vals <==> key != "position" && exists i :: 0 <= i < |parents| && Provides(parents, i, key)))
  {
    var parents := Parents(links, resolve);
    InheritedFrontmatter(current, links, resolve, full);
    ExtendedKeys(current, parents, full, key);
  }

  /** What an `Inherited` outcome writes back: the note extended with everything collected. */
  lemma InheritedFrontmatter(current: Record<Value>, links: seq<string>, resolve: string -> Option<Record<Value>>, full: bool)
    requires InheritFromLinks(current, links, resolve, full).Inherited?
    ensures var props := Collect(current, Parents(links, resolve), full, |Parents(links, resolve)|);
      && (forall k :: k in props.vals ==> k !in current.vals)
      && InheritFromLinks(current, links, resolve, full).frontmatter == Extend(current, props)
  {
    var parents := Parents(links, resolve);
    var props := Collect(current, parents, full, |links|);
    CollectEligible(current, parents, full, |links|);
    assert InheritFromLinks(current, links, resolve, full) == Collected(current, links, resolve, full);
  }

  /**
   * After inheriting, the frontmatter has the current keys with their values unchanged,
   * plus every eligible key some linked parent has.
   */
  lemma InheritedKeys(current: Record<Value>, settings: Settings, resolve: string -> Option<Record<Value>>, key: string)
    requires Inheritance(current, settings, resolve).Inherited?
    ensures var res := Inheritance(current, settings, resolve);
      var parents := Parents(ParentLinks(current.vals[Trim(settings.parentKey)]), resolve);
      && (key in current.vals ==> key in res.frontmatter.vals && res.frontmatter.vals[key] == current.vals[key])
      && (key !in current.vals ==>
            (key in res.frontmatter.vals <==> key != "position" && exists i :: 0 <= i < |parents| && Provides(parents, i, key)))
  {
    LinksInheritedKeys(current, ParentLinks(current.vals[Trim(settings.parentKey)]), resolve, settings.inheritanceMode == "full", key);
  }


  /** The reported count is the number of keys the frontmatter gained. */
  lemma InheritedCount(current: Record<Value>, settings: Settings, resolve: string -> Option<Record<Value>>)
    requires Inheritance(current, settings, resolve).Inherited?
    ensures var res := Inheritance(current, settings, resolve);
      res.count == |set k | k in res.frontmatter.vals && k !in current.vals|
  {
    var links := ParentLinks(current.vals[Trim(settings.parentKey)]);
    var full := settings.inheritanceMode == "full";
    var parents := Parents(links, resolve);
    var props := Collect(current, parents, full, |links|);
    CollectEligible(current, parents, full, |links|);
    assert Inheritance(current, settings, resolve) == Inherited(Extend(current, props), |props.keys|);
    ExtendNewKeys(current, props);
  }
}

/** The command itself: the loops of `inheritPropertiesFromParent`, proved against `Inheritance`. */
module InheritCommand {
  import opened Wrappers
  import opened Text
  import opened Records
  import opened Config
  import opened StringUtils
  import opened InheritProperties

  /**
   * The inner loop of `inheritPropertiesFromParent`: visit every key of one parent; `None`
   * where the first `currentFrontmatter.hasOwnProperty(key)` throws.
   */
  method MergeParentKeys(props: Record<Value>, current: Record<Value>, parent: Record<Value>, full: bool)
    returns (propertiesToInherit: Option<Record<Value>>)
    ensures propertiesToInherit == if Shadowed(current) && |parent.keys| > 0 then None
      else Some(MergeParent(props, current, parent, |parent.keys|, full))
  {
    var acc := props;
    for j := 0 to |parent.keys|
      invariant !Shadowed(current) || j == 0
      invariant acc == MergeParent(props, current, parent, j, full)
    {
      if "hasOwnProperty" in current.vals {
        return None;
      }
      var key := parent.keys[j];
      MergeParentNext(props, current, parent, j, full);
      if key !in current.vals && key != "position" {
        acc := Set(acc, key, if full then parent.vals[key] else Str(""));
      }
    }
    propertiesToInherit := Some(acc);
  }

  /** The body of the outer loop of `inheritPropertiesFromParent`: link `i`, where `return` is its `continue`. */
  method VisitLink(props: Record<Value>, current: Record<Value>, parentLinks: seq<string>, i: nat,
                   resolve: string -> Option<Record<Value>>, full: bool)
    returns (propertiesToInherit: Option<Record<Value>>)
    requires i < |parentLinks|
    requires props == Collect(current, Parents(parentLinks, resolve), full, i)
    ensures propertiesToInherit == if Shadowed(current) && HasKeys(Parents(parentLinks, resolve), i) then None
      else Some(Collect(current, Parents(parentLinks, resolve), full, i + 1))
  {
    ParentsAt(parentLinks, resolve, i);
    CollectNext(current, Parents(parentLinks, resolve), full, i);
    propertiesToInherit := Some(props);
    var parentNoteName := ParseWikilink(Str(parentLinks[i]));
    if parentNoteName.None? || parentNoteName.value == "" {
      return;
    }
    var parentFrontmatter := resolve(parentNoteName.value);
    if parentFrontmatter.None? {
      return;
    }
    propertiesToInherit := MergeParentKeys(props, current, parentFrontmatter.value, full);
  }

  /** The outer loop of `inheritPropertiesFromParent`: visit the parent of every link; `None` where it throws. */
  method CollectProperties(current: Record<Value>, parentLinks: seq<string>, resolve: string -> Option<Record<Value>>, full: bool)
    returns (propertiesToInherit: Option<Record<Value>>)
    ensures propertiesToInherit == if Throws(current, Parents(parentLinks, resolve), |parentLinks|) then None
      else Some(Collect(current, Parents(parentLinks, resolve), full, |parentLinks|))
  {
    ghost var parents := Parents(parentLinks, resolve);
    var acc := Empty();
    for i := 0 to |parentLinks|
      invariant !Throws(current, parents, i)
      invariant acc == Collect(current, parents, full, i)
    {
      var visited := VisitLink(acc, current, parentLinks, i, resolve, full);
      if visited.None? {
        SomeHasKeysIff(parents, |parentLinks|);
        return None;
      }
      acc := visited.value;
    }
    propertiesToInherit := Some(acc);
  }

  /**
   * `inheritPropertiesFromParent`: the current frontmatter and the settings are passed in,
   * `resolve` stands for the host's link resolution and metadata cache, and the frontmatter
   * that `Object.assign` writes back is part of the outcome.
   */
  method InheritPropertiesFromParent(current: Record<Value>, settings: Settings, resolve: string -> Option<Record<Value>>)
    returns (outcome: InheritOutcome)
    ensures outcome == Inheritance(current, settings, resolve)
  {
    var parentKey := Trim(settings.parentKey);
    var parentLinksRaw := Get(current, parentKey);
    if parentLinksRaw.PrototypeMember? {
      return NoParentLinks;
    }
    if parentLinksRaw.Undefined? || !Truthy(parentLinksRaw.value) {
      return NoParentProperty;
    }
    var parentLinks := CollectParentLinks(parentLinksRaw.value);
    outcome := InheritFromParentLinks(current, parentLinks, resolve, settings.inheritanceMode == "full");
  }

  /** `parentLinks` filled from the parent property: the string items of a list, the links of a string. */
  method CollectParentLinks(parentLinksRaw: Value) returns (parentLinks: seq<string>)
    ensures parentLinks == ParentLinks(parentLinksRaw)
  {
    parentLinks := [];
    if parentLinksRaw.List? {
      parentLinks := parentLinks + StringItems(parentLinksRaw.items);
    } else if parentLinksRaw.Str? {
      var foundLinks := LinkMatches(parentLinksRaw.s, 0);
      parentLinks := parentLinks + (if foundLinks == [] then [parentLinksRaw.s] else foundLinks);
    }
  }

  /** The rest of `inheritPropertiesFromParent`, from the check for an empty link list on. */
  method InheritFromParentLinks(current: Record<Value>, parentLinks: seq<string>, resolve: string -> Option<Record<Value>>, full: bool)
    returns (outcome: InheritOutcome)
    ensures outcome == InheritFromLinks(current, parentLinks, resolve, full)
  {
    if |parentLinks| == 0 {
      return NoParentLinks;
    }
    var collected := CollectProperties(current, parentLinks, resolve, full);
    if collected.None? {
      return Failed;
    }
    var propertiesToInherit := collected.value;
    CollectEligible(current, Parents(parentLinks, resolve), full, |parentLinks|);
    if |propertiesToInherit.keys| > 0 {
      outcome := Inherited(Extend(current, propertiesToInherit), |propertiesToInherit.keys|);
    } else {
      outcome := NothingToInherit;
    }
  }
}

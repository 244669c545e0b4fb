/**
 * `commands/addAlias.ts` (and its copy in `main.ts`): give a symmetric relation
 * note `A-rel-B` the alias `B-rel-A`, so that it is found under either order.
 */
module AddAlias {
  import opened Wrappers
  import opened Text
  import opened Records

  /** The relations that read the same in both directions: association and contrast. */
  predicate Symmetric(relation: string) {
    relation == "关联" || relation == "对比"
  }

  /** `title.split('-')`. */
  function TitleParts(title: string): (parts: seq<string>)
    ensures |parts| >= 1
  {
    Split(title, {'-'})
  }

  /**
   * The reverse alias of a relation title: defined exactly when the title has three
   * `-`-separated parts whose trimmed middle is symmetric; it is then the trimmed
   * third part, the relation and the trimmed first part, joined by `-`.
   */
  function ReverseAliasOf(title: string): Option<string> {
    ReverseFromParts(TitleParts(title))
  }

  /** The reverse alias built from the parts of a title. */
  function ReverseFromParts(parts: seq<string>): Option<string> {
    if |parts| != 3 then None
    else
      var conceptA, relation, conceptB := Trim(parts[0]), Trim(parts[1]), Trim(parts[2]);
      if !Symmetric(relation) then None
      else Some(conceptB + "-" + relation + "-" + conceptA)
  }

  lemma NoneInTrim(s: string, cs: set<char>)
    requires NoneIn(s, cs)
    ensures NoneIn(Trim(s), cs)
  {
    TrimKeepsCharacters(s);
    assert forall i :: 0 <= i < |Trim(s)| ==> Trim(s)[i] in Trim(s);
  }

  lemma {:induction false} SplitThree(a: string, b: string, c: string)
    requires NoneIn(a, {'-'}) && NoneIn(b, {'-'}) && NoneIn(c, {'-'})
    ensures TitleParts(a + "-" + b + "-" + c) == [a, b, c]
  {
    assert Join([a, b, c], "-") == a + "-" + b + "-" + c by {
      assert [a, b, c][1..] == [b, c];
      assert Join([b, c], "-") == b + "-" + c by { assert [b, c][1..] == [c]; }
    }
    SplitJoin([a, b, c], '-', {'-'});
  }

  lemma SymmetricIsPlain(relation: string)
    requires Symmetric(relation)
    ensures NoneIn(relation, {'-'}) && Trimmed(relation)
  {
    if relation == "关联" {
      assert relation[0] == '关' && relation[1] == '联' && |relation| == 2;
    } else {
      assert relation[0] == '对' && relation[1] == '比' && |relation| == 2;
    }
  }

  lemma ReverseOfTrimmedParts(a: string, relation: string, b: string)
    requires Trimmed(a) && Trimmed(b) && Symmetric(relation)
    ensures ReverseFromParts([a, relation, b]) == Some(b + "-" + relation + "-" + a)
  {
    SymmetricIsPlain(relation);
    TrimOfTrimmed(relation);
    TrimOfTrimmed(a);
    TrimOfTrimmed(b);
  }

  lemma {:induction false} ReverseOfParts(a: string, relation: string, b: string)
    requires NoneIn(a, {'-'}) && NoneIn(b, {'-'}) && Trimmed(a) && Trimmed(b)
    requires Symmetric(relation)
    ensures ReverseAliasOf(a + "-" + relation + "-" + b) == Some(b + "-" + relation + "-" + a)
  {
    SymmetricIsPlain(relation);
    SplitThree(a, relation, b);
    ReverseOfTrimmedParts(a, relation, b);
  }

  /**
   * For a normalised symmetric title `A-rel-B` the reverse alias is `B-rel-A`, and the
   * reverse alias of that is the title again.
   */
  lemma {:induction false} ReverseAliasInvolution(a: string, relation: string, b: string)
    requires NoneIn(a, {'-'}) && NoneIn(b, {'-'}) && Trimmed(a) && Trimmed(b)
    requires Symmetric(relation)
    ensures ReverseAliasOf(a + "-" + relation + "-" + b) == Some(b + "-" + relation + "-" + a)
    ensures ReverseAliasOf(b + "-" + relation + "-" + a) == Some(a + "-" + relation + "-" + b)
  {
    ReverseOfParts(a, relation, b);
    ReverseOfParts(b, relation, a);
  }

  /**
   * Whatever the title, its reverse alias is a normalised symmetric title whose own reverse
   * alias is the title with its parts trimmed.
   */
  lemma {:induction false} ReverseAliasIsRelationTitle(title: string)
    requires ReverseAliasOf(title).Some?
    ensures var p := TitleParts(title);
      var normal := Trim(p[0]) + "-" + Trim(p[1]) + "-" + Trim(p[2]);
      ReverseAliasOf(ReverseAliasOf(title).value) == Some(normal) && ReverseAliasOf(normal) == ReverseAliasOf(title)
  {
    var p := TitleParts(title);
    var a, relation, b := Trim(p[0]), Trim(p[1]), Trim(p[2]);
    assert NoneIn(a, {'-'}) by { NoneInTrim(p[0], {'-'}); }
    assert NoneIn(b, {'-'}) by { NoneInTrim(p[2], {'-'}); }
    assert ReverseAliasOf(title) == Some(b + "-" + relation + "-" + a);
    ReverseAliasInvolution(b, relation, a);
  }

  /** What the command did, as its notices report it. */
  datatype AliasOutcome =
    | NotRelationTitle
    | NotSymmetric
    | AlreadyPresent(alias: string)
    | Added(alias: string)

  datatype AliasResult = AliasResult(outcome: AliasOutcome, frontmatter: Record<Value>)

  /** `frontmatter.aliases` when it is an array, otherwise `[]`. */
  function CurrentAliases(frontmatter: Record<Value>): seq<Value> {
    if "aliases" in frontmatter.vals && frontmatter.vals["aliases"].List? then frontmatter.vals["aliases"].items else []
  }

  /** `aliases.push(alias); frontmatter.aliases = aliases`, starting from the current aliases. */
  function AppendAlias(frontmatter: Record<Value>, alias: string): (r: Record<Value>)
    ensures CurrentAliases(r) == CurrentAliases(frontmatter) + [Str(alias)]
  {
    Set(frontmatter, "aliases", List(CurrentAliases(frontmatter) + [Str(alias)]))
  }

  /** Appending the alias leaves every other property as it was. */
  lemma AppendAliasKeeps(frontmatter: Record<Value>, alias: string, k: string)
    ensures k in AppendAlias(frontmatter, alias).vals <==> k == "aliases" || k in frontmatter.vals
    ensures k != "aliases" && k in frontmatter.vals ==> AppendAlias(frontmatter, alias).vals[k] == frontmatter.vals[k]
  {
  }

  /** The effect of `addReverseAliasForCurrentNote` on the frontmatter of the note titled `title`. */
  function AliasUpdate(title: string, frontmatter: Record<Value>): (res: AliasResult)
    ensures !res.outcome.Added? ==> res.frontmatter == frontmatter
    ensures res.outcome.AlreadyPresent? || res.outcome.Added? ==> Some(res.outcome.alias) == ReverseAliasOf(title)
  {
    var parts := TitleParts(title);
    if |parts| != 3 then AliasResult(NotRelationTitle, frontmatter)
    else match ReverseAliasOf(title)
      case None => AliasResult(NotSymmetric, frontmatter)
      case Some(alias) =>
        if Str(alias) in CurrentAliases(frontmatter) then AliasResult(AlreadyPresent(alias), frontmatter)
        else AliasResult(Added(alias), AppendAlias(frontmatter, alias))
  }

  /**
   * The command gives up unless the title has three parts and a symmetric relation, and
   * it stops without a change when the reverse alias is already listed.
   */
  lemma AliasUpdateOutcome(title: string, frontmatter: Record<Value>)
    ensures var res := AliasUpdate(title, frontmatter);
      && (res.outcome.NotRelationTitle? <==> |TitleParts(title)| != 3)
      && (res.outcome.NotSymmetric? <==> |TitleParts(title)| == 3 && !Symmetric(Trim(TitleParts(title)[1])))
      && (res.outcome.AlreadyPresent? <==> ReverseAliasOf(title).Some? && Str(ReverseAliasOf(title).value) in CurrentAliases(frontmatter))
      && (res.outcome.Added? <==> ReverseAliasOf(title).Some? && Str(ReverseAliasOf(title).value) !in CurrentAliases(frontmatter))
  {
  }

  /**
   * When the alias is added, the existing aliases keep their order with the alias once
   * after them, and every other property keeps its value.
   */
  lemma AliasUpdateAppends(title: string, frontmatter: Record<Value>)
    requires AliasUpdate(title, frontmatter).outcome.Added?
    ensures var res := AliasUpdate(title, frontmatter);
      && CurrentAliases(res.frontmatter) == CurrentAliases(frontmatter) + [Str(res.outcome.alias)]
      && (forall k :: k in res.frontmatter.vals <==> k == "aliases" || k in frontmatter.vals)
      && (forall k :: k != "aliases" && k in frontmatter.vals ==> res.frontmatter.vals[k] == frontmatter.vals[k])
  {
    var res := AliasUpdate(title, frontmatter);
    assert res.frontmatter == AppendAlias(frontmatter, res.outcome.alias);
    forall k {
      AppendAliasKeeps(frontmatter, res.outcome.alias, k);
    }
  }

  /** Running the command a second time changes nothing. */
  lemma AliasUpdateIdempotent(title: string, frontmatter: Record<Value>)
    requires AliasUpdate(title, frontmatter).outcome.Added?
    ensures var once := AliasUpdate(title, frontmatter);
      AliasUpdate(title, once.frontmatter) == AliasResult(AlreadyPresent(once.outcome.alias), once.frontmatter)
  {
    var once := AliasUpdate(title, frontmatter);
    var alias := once.outcome.alias;
    assert Str(alias) in CurrentAliases(once.frontmatter) by {
      AliasUpdateAppends(title, frontmatter);
      assert CurrentAliases(once.frontmatter) == CurrentAliases(frontmatter) + [Str(alias)];
    }
    assert ReverseAliasOf(title) == Some(alias);
  }

  function Occurrences(items: seq<Value>, v: Value): nat {
    multiset(items)[v]
  }

  /** The reverse alias never ends up in the list more often than once beyond what was already there, and at least once. */
  lemma AliasAtMostOnce(title: string, frontmatter: Record<Value>)
    requires ReverseAliasOf(title).Some?
    ensures var res := AliasUpdate(title, frontmatter);
      var alias := Str(ReverseAliasOf(title).value);
      && alias in CurrentAliases(res.frontmatter)
      && Occurrences(CurrentAliases(res.frontmatter), alias) == if alias in CurrentAliases(frontmatter) then Occurrences(CurrentAliases(frontmatter), alias) else 1
  {
    var res := AliasUpdate(title, frontmatter);
    var alias := Str(ReverseAliasOf(title).value);
    if res.outcome.Added? {
      var before := CurrentAliases(frontmatter);
      assert multiset(before + [alias]) == multiset(before) + multiset{alias};
    }
  }

  /**
   * `addReverseAliasForCurrentNote` inside its `processFrontMatter` callback:
   * the frontmatter object the callback mutates is passed in and handed back.
   */
  method AddReverseAliasForCurrentNote(title: string, frontmatter: Record<Value>) returns (outcome: AliasOutcome, updated: Record<Value>)
    ensures AliasResult(outcome, updated) == AliasUpdate(title, frontmatter)
  {
    updated := frontmatter;
    var parts := TitleParts(title);
    if |parts| != 3 {
      return NotRelationTitle, updated;
    }
    var conceptA, relation, conceptB := Trim(parts[0]), Trim(parts[1]), Trim(parts[2]);
    if relation != "关联" && relation != "对比" {
      return NotSymmetric, updated;
    }
    var reverseAlias := conceptB + "-" + relation + "-" + conceptA;
    assert ReverseAliasOf(title) == Some(reverseAlias);
    outcome, updated := PushAlias(frontmatter, reverseAlias);
  }

  /** The rest of the callback: read `aliases`, stop if the alias is listed, otherwise push it and write back. */
  method PushAlias(frontmatter: Record<Value>, reverseAlias: string) returns (outcome: AliasOutcome, updated: Record<Value>)
    ensures Str(reverseAlias) in CurrentAliases(frontmatter) ==> outcome == AlreadyPresent(reverseAlias) && updated == frontmatter
    ensures Str(reverseAlias) !in CurrentAliases(frontmatter) ==> outcome == Added(reverseAlias) && updated == AppendAlias(frontmatter, reverseAlias)
  {
    updated := frontmatter;
    var aliases: seq<Value>;
    if "aliases" in updated.vals && updated.vals["aliases"].List? {
      aliases := updated.vals["aliases"].items;
    } else {
      aliases := [];
    }
    if Str(reverseAlias) in aliases {
      return AlreadyPresent(reverseAlias), updated;
    }
    aliases := aliases + [Str(reverseAlias)];
    updated := Set(updated, "aliases", List(aliases));
    outcome := Added(reverseAlias);
  }
}

/**
 * `suggester.ts`: the `@@` relation query. Typing `@@i；A_B；C` in a note offers, one
 * stage after the other, the relation types, concept notes for the head and the tail
 * lists, and finally the relation note `A_B-影响-C` to create.
 */
module Suggester {
  import opened Wrappers
  import opened Text

  /** The stage separators of `split(/;|；/)`: the ASCII and the full-width semicolon. */
  const Separators: set<char> := {';', '；'}

  /** `RELATION_TYPES`, its entries in the order `Object.entries` lists them: abbreviation, relation name. */
  const RelationTypes: seq<(string, string)> := [("i", "影响"), ("c", "对比"), ("a", "关联"), ("u", "应用")]

  /** The value of the first entry with the key, if any. */
  function Lookup(pairs: seq<(string, string)>, key: string): (r: Option<string>)
    ensures r.None? <==> forall i :: 0 <= i < |pairs| ==> pairs[i].0 != key
    ensures r.Some? ==> exists i :: 0 <= i < |pairs| && pairs[i] == (key, r.value)
  {
    if |pairs| == 0 then None
    else if pairs[0].0 == key then Some(pairs[0].1)
    else
      var r := Lookup(pairs[1..], key);
      assert forall i :: 0 < i < |pairs| ==> pairs[i] == pairs[1..][i - 1];
      r
  }

  /** `RELATION_TYPES[abbr]`, reading only the table's own entries. */
  function Relation(abbr: string): (r: Option<string>)
    ensures r.Some? <==> abbr in {"i", "c", "a", "u"}
    ensures r.Some? ==> (abbr, r.value) in RelationTypes
  {
    Lookup(RelationTypes, abbr)
  }

  /**
   * `RELATION_TYPES[abbr]` as the engine evaluates it: an object literal also inherits the
   * properties of `Object.prototype`. The only ones with an all-lower-case name, which is all a
   * lower-cased abbreviation can reach, are `constructor` (the function `Object`) and `__proto__`
   * (`Object.prototype` itself). Both are truthy; shown in a template literal they read as below.
   */
  function PrototypeRelation(abbr: string): (r: Option<string>)
    ensures Relation(abbr).Some? ==> r == Relation(abbr)
    ensures r.None? <==> abbr !in {"i", "c", "a", "u", "constructor", "__proto__"}
  {
    match Relation(abbr)
    case Some(rel) => Some(rel)
    case None =>
      if abbr == "constructor" then Some("function Object() { [native code] }")
      else if abbr == "__proto__" then Some("[object Object]")
      else None
  }

  // ---------------------------------------------------------------------------------------
  // onTrigger

  /** A cursor position; the column `ch` counts UTF-16 code units, as the editor does. */
  datatype Position = Position(line: nat, ch: nat)

  /** What `onTrigger` reports: the span from the `@@` to the cursor, and the query after the `@@`. */
  datatype TriggerInfo = TriggerInfo(start: Position, end: Position, query: string)

  /** `line.substring(0, ch)`: the text before column `ch`, all of it for a column past the end. */
  function LineBefore(line: string, ch: nat): (before: string)
    ensures before <= line && Utf16Length(before) <= ch
    ensures before == line || ch < Utf16Length(before) + Units(line[|before|])
  {
    PrefixWithin(line, ch)
  }

  /**
   * `onTrigger`: nothing when the text before the cursor holds no `@@`; otherwise the span
   * starts at the last `@@` before the cursor, its column being the code units before it, and
   * the query is all the text after it.
   */
  function OnTrigger(line: string, cursor: Position): (r: Option<TriggerInfo>)
    ensures var before := LineBefore(line, cursor.ch);
      && (r.None? <==> !Contains(before, "@@"))
      && (r.Some? ==>
            var k := |before| - |r.value.query| - 2;
            && 0 <= k
            && r.value.start == Position(cursor.line, Utf16Length(before[..k])) && r.value.end == cursor
            && OccursAt(before, "@@", k)
            && (forall i :: k < i ==> !OccursAt(before, "@@", i))
            && r.value.query == before[k + 2..])
  {
    var before := LineBefore(line, cursor.ch);
    var atat := LastIndexOf(before, "@@");
    if atat == -1 then None
    else Some(TriggerInfo(Position(cursor.line, Utf16Length(before[..atat])), cursor, before[atat + 2..]))
  }

  /** Since the `@@` found is the last one, the query never holds another. */
  lemma QueryHoldsNoTrigger(line: string, cursor: Position)
    requires OnTrigger(line, cursor).Some?
    ensures !Contains(OnTrigger(line, cursor).value.query, "@@")
  {
    var before := LineBefore(line, cursor.ch);
    var t := OnTrigger(line, cursor).value;
    NoLaterOccurrence(before, "@@", |before| - |t.query| - 2, t.query);
  }

  /**
   * The columns are code units: a character outside the Basic Multilingual Plane before the
   * `@@` counts twice, and one the cursor column only half covers is not before it.
   */
  lemma AstralColumnExample()
    ensures OnTrigger("😀@@i", Position(0, 5)) == Some(TriggerInfo(Position(0, 2), Position(0, 5), "i"))
    ensures LineBefore("😀@@i", 1) == ""
  {
    var line := "😀@@i";
    AstralPrefixes();
    assert OccursAt(line, "@@", 1) && !OccursAt(line, "@@", 2);
    assert LastIndexOf(line, "@@") == 1;
  }

  /** The code-unit prefixes of the line `😀@@i`: all five units hold it, one unit holds nothing. */
  lemma AstralPrefixes()
    ensures LineBefore("😀@@i", 5) == "😀@@i" && LineBefore("😀@@i", 1) == ""
    ensures Utf16Length("😀") == 2
  {
    var line := "😀@@i";
    assert Units(line[0]) == 2;
    assert line[1..] == "@@i" && line[2..] == "@i" && line[3..] == "i" && line[4..] == "";
    assert Utf16Length("i") == 1 + Utf16Length("");
    assert Utf16Length("@i") == 2;
    assert Utf16Length("@@i") == 3;
    assert line[..1] == "😀";
  }

  /** The text after the last occurrence of `pat` does not hold `pat`. */
  lemma NoLaterOccurrence(s: string, pat: string, start: int, rest: string)
    requires pat != [] && OccursAt(s, pat, start) && rest == s[start + |pat|..]
    requires forall i :: start < i ==> !OccursAt(s, pat, i)
    ensures forall i :: !OccursAt(rest, pat, i)
  {
    var k := start + |pat|;
    forall i | OccursAt(s[k..], pat, i) ensures OccursAt(s, pat, k + i) {
      OccursInSuffix(s, k, pat, i);
    }
  }

  // ---------------------------------------------------------------------------------------
  // parseQueryToParts

  /** A parsed query: the title of the relation note, the head concepts and the tail concepts. */
  datatype Parsed = Parsed(title: string, head: seq<string>, tail: seq<string>)

  /** Where the type token ends: at the first `;` if there is one, else at the first `；`. */
  function TypeEnd(q: string): (r: int)
    ensures -1 <= r < |q|
    ensures r == -1 <==> NoneIn(q, Separators)
    ensures 0 <= r ==> q[r] in Separators
  {
    if IndexOf(q, ';') != -1 then IndexOf(q, ';') else IndexOf(q, '；')
  }

  /** `.map(s => s.trim()).filter(Boolean)`: the trimmed pieces that are not empty, in order. */
  function Kept(pieces: seq<string>): (r: seq<string>)
    ensures |r| <= |pieces|
  {
    KeptBy(Trim, pieces)
  }

  /** The pieces mapped by `f` that are not empty, in order. */
  function KeptBy(f: string -> string, pieces: seq<string>): (r: seq<string>)
    ensures |r| <= |pieces|
  {
    if |pieces| == 0 then []
    else (if f(pieces[0]) == "" then [] else [f(pieces[0])]) + KeptBy(f, pieces[1..])
  }

  /** The concept list of one segment: `seg.split(/_/)`, trimmed, empty names dropped. */
  function Tokens(seg: string): seq<string> {
    Kept(Split(seg, {'_'}))
  }

  /** A concept name as a token list holds it: not empty, trimmed, without `_` or a separator. */
  predicate Token(w: string) {
    w != "" && Trimmed(w) && NoneIn(w, Separators + {'_'})
  }

  /**
   * The title: head names, relation, tail names. Both arms of the source's conditional build
   * the same text, so an empty tail leaves a dangling `-`.
   */
  function Title(head: seq<string>, rel: string, tail: seq<string>): (title: string)
    ensures title == Join(head, "_") + "-" + rel + "-" + Join(tail, "_")
  {
    var headStr := Join(head, "_");
    var tailStr := Join(tail, "_");
    if tailStr != "" then headStr + "-" + rel + "-" + tailStr else headStr + "-" + rel + "-"
  }

  /** What follows the type token, split into its segments. */
  function FromRest(rel: string, rest: string): (r: Option<Parsed>)
    ensures r.Some? ==> r.value.head != [] && r.value.title == Title(r.value.head, rel, r.value.tail)
  {
    FromSegments(rel, Split(rest, Separators))
  }

  /**
   * Head and tail are the tokens of the first two segments; later segments are ignored.
   * A missing second segment reads as `''`, which has no tokens (`TokensOfEmpty`).
   */
  function FromSegments(rel: string, segs: seq<string>): (r: Option<Parsed>)
    requires |segs| >= 1
    ensures r.Some? ==> r.value.head != [] && r.value.title == Title(r.value.head, rel, r.value.tail)
  {
    var head := Tokens(segs[0]);
    var tail := if |segs| > 1 then Tokens(segs[1]) else [];
    if head == [] then None else Some(Parsed(Title(head, rel, tail), head, tail))
  }

  /** `parseQueryToParts`, with the lookup of the relation name as a parameter. */
  function ParseWith(query: string, relation: string -> Option<string>): Option<Parsed> {
    ParseTrimmed(Trim(query), relation)
  }

  /** The parse of the trimmed query `q`. */
  function ParseTrimmed(q: string, relation: string -> Option<string>): Option<Parsed> {
    if q == "" then None
    else
      var semi := TypeEnd(q);
      if semi == -1 then None
      else
        match relation(Lower(Trim(q[..semi])))
        case None => None
        case Some(rel) => FromRest(rel, q[semi + 1..])
  }

  /** `parseQueryToParts`, looking relation names up in the table's own entries. */
  function ParseQueryToParts(query: string): (r: Option<Parsed>)
    ensures r.Some? ==> var q := Trim(query);
      TypeEnd(q) != -1 && Lower(Trim(q[..TypeEnd(q)])) in {"i", "c", "a", "u"}
  {
    ParseWith(query, Relation)
  }

  /** `parseQueryToParts` as written, through the prototype chain. */
  function ParseQueryToPartsAsWritten(query: string): (r: Option<Parsed>)
    ensures r != ParseQueryToParts(query) ==> InheritedToken(Trim(query)) && ParseQueryToParts(query).None?
  {
    LookupsDiffer(Trim(query));
    ParseWith(query, PrototypeRelation)
  }

  /** The two lookups parse a trimmed query differently only on an inherited type token, which the table lacks. */
  lemma LookupsDiffer(q: string)
    ensures ParseTrimmed(q, PrototypeRelation) != ParseTrimmed(q, Relation) ==>
      InheritedToken(q) && ParseTrimmed(q, Relation).None?
  {
    if q != "" && TypeEnd(q) != -1 {
      var token := Lower(Trim(q[..TypeEnd(q)]));
      if Relation(token).Some? {
        assert PrototypeRelation(token) == Relation(token);
      }
    }
  }

  /**
   * No parse for a query that is blank, that has no semicolon of either kind, or whose type
   * token names no relation.
   */
  lemma NullCases(query: string, relation: string -> Option<string>)
    ensures Trim(query) == "" ==> ParseWith(query, relation) == None
    ensures NoneIn(query, Separators) ==> ParseWith(query, relation) == None
    ensures var q := Trim(query);
      q != "" && TypeEnd(q) != -1 && relation(Lower(Trim(q[..TypeEnd(q)]))) == None ==> ParseWith(query, relation) == None
  {
    TrimKeepsCharacters(query);
  }

  /**
   * An ASCII `;` ends the type token, even when a `；` comes before it: the token is
   * everything before the first `;`, and the rest is everything after it.
   */
  lemma AsciiSemicolonEndsType(query: string, relation: string -> Option<string>, a: string, b: string)
    requires Trim(query) == a + ";" + b && ';' !in a
    ensures ParseWith(query, relation) == match relation(Lower(Trim(a))) case None => None case Some(rel) => FromRest(rel, b)
  {
    var q := Trim(query);
    assert q[..|a|] == a;
    IndexOfAt(q, ';', |a|);
    assert TypeEnd(q) == |a|;
    assert q[|a| + 1..] == b;
    assert ParseWith(query, relation) == ParseTrimmed(q, relation);
  }

  lemma NotInConcat(a: string, b: string, c: string, x: char)
    requires x !in a && x !in b && x !in c
    ensures x !in a + b + c
  {
  }

  /** The first occurrence is where the character first appears. */
  lemma IndexOfAt(s: string, c: char, k: nat)
    requires k < |s| && s[k] == c && c !in s[..k]
    ensures IndexOf(s, c) == k
  {
  }

  /** Without any ASCII `;`, the first `；` ends the type token. */
  lemma FullWidthSemicolonEndsType(query: string, relation: string -> Option<string>, a: string, b: string)
    requires Trim(query) == a + "；" + b && NoneIn(a, Separators) && ';' !in b
    ensures ParseWith(query, relation) == match relation(Lower(Trim(a))) case None => None case Some(rel) => FromRest(rel, b)
  {
    var q := Trim(query);
    assert q[..|a|] == a;
    NotInConcat(a, "；", b, ';');
    IndexOfAt(q, '；', |a|);
    assert q[|a| + 1..] == b;
  }

  /** A type token holding a `；` is no relation abbreviation (nor `constructor` or `__proto__`). */
  lemma FullWidthTokenUnknown(a: string)
    requires '；' in a
    ensures PrototypeRelation(Lower(Trim(a))) == None
  {
    TrimKeepsNonSpace(a, '；');
    LowerKeeps(Trim(a), '；');
    FullWidthNotAbbreviation(Lower(Trim(a)));
  }

  lemma FullWidthNotAbbreviation(x: string)
    requires '；' in x
    ensures PrototypeRelation(x) == None
  {
    assert forall k :: 0 <= k < |RelationTypes| ==> '；' !in RelationTypes[k].0;
  }

  /** Lower-casing keeps every character that is not an ASCII capital. */
  lemma LowerKeeps(s: string, c: char)
    requires c in s && !('A' <= c <= 'Z')
    ensures c in Lower(s)
  {
    var j :| 0 <= j < |s| && s[j] == c;
    assert Lower(s)[j] == c;
  }

  /**
   * So with an ASCII `;` anywhere, a `；` before it spoils the query: `i；A;B` has the type
   * token `i；A` and no parse.
   */
  lemma FullWidthBeforeAsciiFails(query: string, a: string, b: string)
    requires Trim(query) == a + ";" + b && ';' !in a && '；' in a
    ensures ParseQueryToParts(query) == None && ParseQueryToPartsAsWritten(query) == None
  {
    AsciiSemicolonEndsType(query, Relation, a, b);
    AsciiSemicolonEndsType(query, PrototypeRelation, a, b);
    FullWidthTokenUnknown(a);
  }

  /** Segments after the second change nothing. */
  lemma LaterSegmentsIgnored(rel: string, h: string, c: char, t: string, d: char, x: string)
    requires NoneIn(h, Separators) && NoneIn(t, Separators) && c in Separators && d in Separators
    ensures FromRest(rel, h + [c] + t + [d] + x) == FromRest(rel, h + [c] + t)
  {
    assert h + [c] + t + [d] + x == h + [c] + (t + [d] + x);
    SplitConcat(h, c, t + [d] + x, Separators);
    SplitConcat(t, d, x, Separators);
    SplitAtOne(h, c, t, Separators);
    FirstTwoSegments(rel, [h, t] + Split(x, Separators));
  }

  lemma FirstTwoSegments(rel: string, segs: seq<string>)
    requires |segs| >= 2
    ensures FromSegments(rel, segs) == FromSegments(rel, segs[..2])
  {
  }

  /** With a single segment there is no tail. */
  lemma HeadOnly(rel: string, h: string)
    requires NoneIn(h, Separators) && FromRest(rel, h).Some?
    ensures FromRest(rel, h).value.tail == []
  {
    SplitNoSeparator(h, Separators);
  }

  /** Without a tail the title ends in a dangling `-`. */
  lemma DanglingDash(head: seq<string>, rel: string)
    ensures Title(head, rel, []) == Join(head, "_") + "-" + rel + "-"
  {
    assert Join([], "_") == "";
  }

  /** The query a user types for a relation: abbreviation, head names, tail names, joined with `；` and `_`. */
  function QueryOf(abbr: string, head: seq<string>, tail: seq<string>): string {
    abbr + "；" + Join(head, "_") + "；" + Join(tail, "_")
  }

  /**
   * Round trip: a query built from an abbreviation and two lists of well-formed names parses
   * back to those lists, with the title made from them, whenever the relation is known.
   */
  lemma ParseQueryOf(relation: string -> Option<string>, abbr: string, head: seq<string>, tail: seq<string>)
    requires abbr != "" && Trimmed(abbr) && NoneIn(abbr, Separators) && Lower(abbr) == abbr
    requires head != [] && forall i :: 0 <= i < |head| ==> Token(head[i])
    requires forall i :: 0 <= i < |tail| ==> Token(tail[i])
    ensures ParseWith(QueryOf(abbr, head, tail), relation) ==
      match relation(abbr) case None => None case Some(rel) => Some(Parsed(Title(head, rel, tail), head, tail))
  {
    var h, t := Join(head, "_"), Join(tail, "_");
    QueryOfTrimmed(abbr, head, tail);
    RestHasNoAscii(head, tail);
    TrimmedQuery(abbr, h, t);
    FullWidthSemicolonEndsType(QueryOf(abbr, head, tail), relation, abbr, h + "；" + t);
    TrimOfTrimmed(abbr);
    if relation(abbr).Some? {
      FromRestOfJoined(relation(abbr).value, head, tail);
    }
  }

  /**
   * The prototype lookup lets `constructor` through as a relation abbreviation: the as-written
   * parse of a query such as `constructor；A；B` offers a note whose title holds the source
   * text of `Object`, where the own-entry lookup rejects the query.
   */
  lemma ConstructorAccepted(head: seq<string>, tail: seq<string>)
    requires head != [] && forall i :: 0 <= i < |head| ==> Token(head[i])
    requires forall i :: 0 <= i < |tail| ==> Token(tail[i])
    ensures ParseQueryToPartsAsWritten(QueryOf("constructor", head, tail))
      == Some(Parsed(Title(head, "function Object() { [native code] }", tail), head, tail))
    ensures ParseQueryToParts(QueryOf("constructor", head, tail)) == None
  {
    ConstructorAbbreviation("constructor");
    ParseQueryOf(PrototypeRelation, "constructor", head, tail);
    ParseQueryOf(Relation, "constructor", head, tail);
  }

  /** `constructor` looks like an abbreviation a user types, and only the prototype knows it. */
  lemma ConstructorAbbreviation(abbr: string)
    requires abbr == "constructor"
    ensures abbr != "" && Trimmed(abbr) && NoneIn(abbr, Separators) && Lower(abbr) == abbr
    ensures Relation(abbr) == None && PrototypeRelation(abbr) == Some("function Object() { [native code] }")
  {
  }

  /** A trimmed query is its own trimmed form. */
  lemma TrimmedQuery(abbr: string, h: string, t: string)
    requires Trimmed(abbr + "；" + h + "；" + t)
    ensures Trim(abbr + "；" + h + "；" + t) == abbr + "；" + (h + "；" + t)
  {
    TrimOfTrimmed(abbr + "；" + h + "；" + t);
    assert abbr + "；" + h + "；" + t == abbr + "；" + (h + "；" + t);
  }

  lemma RestHasNoAscii(head: seq<string>, tail: seq<string>)
    requires forall i :: 0 <= i < |head| ==> Token(head[i])
    requires forall i :: 0 <= i < |tail| ==> Token(tail[i])
    ensures ';' !in Join(head, "_") + "；" + Join(tail, "_")
  {
    JoinNoneIn(head, "_", Separators);
    JoinNoneIn(tail, "_", Separators);
    NotInConcat(Join(head, "_"), "；", Join(tail, "_"), ';');
  }

  /** The query built from well-formed parts has no white space at either end. */
  lemma QueryOfTrimmed(abbr: string, head: seq<string>, tail: seq<string>)
    requires abbr != "" && Trimmed(abbr)
    requires forall i :: 0 <= i < |tail| ==> Token(tail[i])
    ensures Trimmed(QueryOf(abbr, head, tail))
  {
    var q := QueryOf(abbr, head, tail);
    assert q[0] == abbr[0];
    if tail != [] {
      JoinLast(tail, "_");
      var t := Join(tail, "_");
      assert q[|q| - 1] == t[|t| - 1];
    }
  }

  /** The part after the type token, built from well-formed names, reads back as those names. */
  lemma FromRestOfJoined(rel: string, head: seq<string>, tail: seq<string>)
    requires head != [] && forall i :: 0 <= i < |head| ==> Token(head[i])
    requires forall i :: 0 <= i < |tail| ==> Token(tail[i])
    ensures FromRest(rel, Join(head, "_") + "；" + Join(tail, "_")) == Some(Parsed(Title(head, rel, tail), head, tail))
  {
    JoinedTokens(head);
    JoinedTokens(tail);
    SplitAtOne(Join(head, "_"), '；', Join(tail, "_"), Separators);
  }

  /** Well-formed names joined with `_` hold no separator and read back as the names. */
  lemma JoinedTokens(words: seq<string>)
    requires forall i :: 0 <= i < |words| ==> Token(words[i])
    ensures NoneIn(Join(words, "_"), Separators) && Tokens(Join(words, "_")) == words
  {
    JoinNoneIn(words, "_", Separators);
    TokensOfJoin(words);
  }

  /** A string with exactly one separator splits into the two sides. */
  lemma SplitAtOne(h: string, c: char, t: string, seps: set<char>)
    requires NoneIn(h, seps) && NoneIn(t, seps) && c in seps
    ensures Split(h + [c] + t, seps) == [h, t]
  {
    SplitConcat(h, c, t, seps);
    SplitNoSeparator(t, seps);
  }

  /** Trimming and dropping empty pieces leaves names that trimming keeps alone. */
  lemma KeptTokens(words: seq<string>)
    requires forall i :: 0 <= i < |words| ==> words[i] != "" && Trim(words[i]) == words[i]
    ensures Kept(words) == words
  {
    KeptByFixed(Trim, words);
  }

  /** Pieces that `f` keeps alone and that are not empty are all kept. */
  lemma {:induction false} KeptByFixed(f: string -> string, words: seq<string>)
    requires forall i :: 0 <= i < |words| ==> words[i] != "" && f(words[i]) == words[i]
    ensures KeptBy(f, words) == words
  {
    if |words| > 0 {
      var w := words[0];
      assert f(w) == w && w != "";
      KeptByFixed(f, words[1..]);
      assert KeptBy(f, words) == [w] + KeptBy(f, words[1..]);
      assert [w] + words[1..] == words;
    }
  }

  /** Joining names with `_` and reading the segment back gives the names. */
  lemma TokensOfJoin(words: seq<string>)
    requires forall i :: 0 <= i < |words| ==> Token(words[i])
    ensures Tokens(Join(words, "_")) == words
  {
    if |words| == 0 {
      TokensOfEmpty();
    } else {
      assert forall i :: 0 <= i < |words| ==> NoneIn(words[i], {'_'});
      SplitJoin(words, '_', {'_'});
      forall i | 0 <= i < |words| ensures Trim(words[i]) == words[i] {
        TrimOfTrimmed(words[i]);
      }
      KeptTokens(words);
    }
  }

  /** Every token is a well-formed name. */
  lemma TokensAreTokens(seg: string)
    requires NoneIn(seg, Separators)
    ensures forall i :: 0 <= i < |Tokens(seg)| ==> Token(Tokens(seg)[i])
  {
    SplitPartsNoneIn(seg, {'_'}, Separators);
    KeptNoneIn(Split(seg, {'_'}));
  }

  /** Kept pieces free of separators and `_` are tokens. */
  lemma KeptNoneIn(pieces: seq<string>)
    requires forall i :: 0 <= i < |pieces| ==> NoneIn(pieces[i], Separators + {'_'})
    ensures forall i :: 0 <= i < |Kept(pieces)| ==> Token(Kept(pieces)[i])
  {
    forall i | 0 <= i < |pieces| ensures Trim(pieces[i]) != "" ==> Token(Trim(pieces[i])) {
      TrimmedPiece(pieces[i]);
    }
    KeptByTokens(Trim, pieces);
  }

  /** When `f` makes every piece a token or empty, the kept pieces are tokens. */
  lemma {:induction false} KeptByTokens(f: string -> string, pieces: seq<string>)
    requires forall i :: 0 <= i < |pieces| ==> f(pieces[i]) != "" ==> Token(f(pieces[i]))
    ensures forall i :: 0 <= i < |KeptBy(f, pieces)| ==> Token(KeptBy(f, pieces)[i])
  {
    if |pieces| > 0 {
      var first := if f(pieces[0]) == "" then [] else [f(pieces[0])];
      var rest := KeptBy(f, pieces[1..]);
      assert KeptBy(f, pieces) == first + rest;
      KeptByTokens(f, pieces[1..]);
      assert forall i :: 0 <= i < |rest| ==> (first + rest)[|first| + i] == rest[i];
    }
  }

  /** A trimmed piece free of separators and `_` is a token unless it is empty. */
  lemma TrimmedPiece(p: string)
    requires NoneIn(p, Separators + {'_'})
    ensures Trim(p) != "" ==> Token(Trim(p))
  {
    TrimKeepsCharacters(p);
  }

  /** An empty segment has no tokens. */
  lemma TokensOfEmpty()
    ensures Tokens("") == []
  {
    assert Split("", {'_'}) == [""];
    assert Trim("") == "";
    assert Kept([""]) == [] + Kept([]);
  }

  /** `parseQueryToParts` trims the query itself, so a trimmed query parses alike. */
  lemma ParseOfTrimmed(query: string, relation: string -> Option<string>)
    ensures ParseWith(Trim(query), relation) == ParseWith(query, relation)
  {
    TrimIdempotent(query);
  }

  // ---------------------------------------------------------------------------------------
  // getSuggestions

  datatype Kind = TypeKind | ConceptKind | FinalKind

  /** A completion: what the popup shows and the text it stands for. */
  datatype Suggestion = Suggestion(kind: Kind, text: string, value: string)

  /** The `final` item, offered when the query parses (`parsed`); its value is the query. */
  function FinalItems(parsed: Option<Parsed>, q: string): (r: seq<Suggestion>)
    ensures |r| <= 1 && (|r| == 1 <==> parsed.Some?)
    ensures forall i :: 0 <= i < |r| ==> r[i].kind == FinalKind
  {
    match parsed
    case None => []
    case Some(p) => [Suggestion(FinalKind, "创建笔记: " + p.title, q)]
  }

  /** The first stage: the query has no separator. */
  predicate TypeStage(q: string) {
    |Split(q, Separators)| == 1 && IndexOf(q, '；') == -1 && IndexOf(q, ';') == -1
  }

  /** `abbr.indexOf(q) === 0 || name.indexOf(q) === 0`: the abbreviation or the name starts with `q`. */
  predicate StartsWith(e: (string, string), q: string) {
    q <= e.0 || q <= e.1
  }

  /** `pairs.filter(...)` on `StartsWith`. */
  function Matching(pairs: seq<(string, string)>, q: string): (r: seq<(string, string)>)
    ensures forall e :: e in r <==> e in pairs && StartsWith(e, q)
  {
    if |pairs| == 0 then []
    else
      var rest := Matching(pairs[1..], q);
      assert forall e :: e in pairs <==> e == pairs[0] || e in pairs[1..];
      (if StartsWith(pairs[0], q) then [pairs[0]] else []) + rest
  }

  /** The relation types offered for the lower-cased query `q`. */
  function TypePairs(q: string): seq<(string, string)> {
    var pairs := if q != "" then Matching(RelationTypes, q) else RelationTypes;
    if |pairs| == 0 then RelationTypes else pairs
  }

  function TypeItem(e: (string, string)): Suggestion {
    Suggestion(TypeKind, e.0 + ": " + e.1, e.0 + "；")
  }

  /** The items the `for` loop pushes for the first `n` pairs. */
  function TypeItems(pairs: seq<(string, string)>, n: nat): (r: seq<Suggestion>)
    requires n <= |pairs|
    ensures |r| == n && forall i :: 0 <= i < n ==> r[i] == TypeItem(pairs[i])
  {
    if n == 0 then [] else TypeItems(pairs, n - 1) + [TypeItem(pairs[n - 1])]
  }

  /** The last `_`-word of the last segment of `q`. */
  function LastWord(q: string): (w: string)
    ensures Trimmed(w) && NoneIn(w, Separators) && NoneIn(w, {'_'})
  {
    var parts := Split(q, Separators);
    FinalWord(parts[|parts| - 1])
  }

  /** `(lastPart.split(/_/).pop() || '').trim()`: the last `_`-word of a segment, trimmed. */
  function FinalWord(segment: string): (w: string)
    ensures Trimmed(w) && NoneIn(w, {'_'})
    ensures NoneIn(segment, Separators) ==> NoneIn(w, Separators)
  {
    var words := Split(segment, {'_'});
    var last := words[|words| - 1];
    TrimKeepsCharacters(last);
    if NoneIn(segment, Separators) then
      SplitPartsNoneIn(segment, {'_'}, Separators);
      Trim(last)
    else Trim(last)
  }

  /** `pool.filter(f => f.basename.toLowerCase().includes(lastWord.toLowerCase()))`. */
  function Containing(notes: seq<string>, w: string): (r: seq<string>)
    ensures |r| <= |notes|
    ensures forall n :: n in r <==> n in notes && Contains(Lower(n), Lower(w))
  {
    if |notes| == 0 then []
    else
      var rest := Containing(notes[1..], w);
      assert forall n :: n in notes <==> n == notes[0] || n in notes[1..];
      (if Contains(Lower(notes[0]), Lower(w)) then [notes[0]] else []) + rest
  }

  /**
   * The filter keeps the notes' order and repetitions: filtering a concatenation filters each
   * part in turn.
   */
  lemma {:induction false} ContainingConcat(a: seq<string>, b: seq<string>, w: string)
    ensures Containing(a + b, w) == Containing(a, w) + Containing(b, w)
  {
    if |a| == 0 {
      assert a + b == b;
    } else {
      var ab := a + b;
      var head := if Contains(Lower(a[0]), Lower(w)) then [a[0]] else [];
      assert ab[0] == a[0] && ab[1..] == a[1..] + b;
      calc {
        Containing(ab, w);
        { ContainingCons(ab, w); }
        head + Containing(a[1..] + b, w);
        { ContainingConcat(a[1..], b, w); }
        head + (Containing(a[1..], w) + Containing(b, w));
        (head + Containing(a[1..], w)) + Containing(b, w);
        { ContainingCons(a, w); }
        Containing(a, w) + Containing(b, w);
      }
    }
  }

  /** A single note is kept or dropped by itself. */
  lemma ContainingOne(n: string, w: string)
    ensures Containing([n], w) == if Contains(Lower(n), Lower(w)) then [n] else []
  {
    ContainingCons([n], w);
    assert [n][1..] == [];
  }

  /** One step of the filter. */
  lemma ContainingCons(s: seq<string>, w: string)
    requires |s| > 0
    ensures Containing(s, w) == (if Contains(Lower(s[0]), Lower(w)) then [s[0]] else []) + Containing(s[1..], w)
  {
  }

  /** `.slice(0, n)`. */
  function Take(s: seq<string>, n: nat): (r: seq<string>)
    ensures |r| == if |s| <= n then |s| else n
    ensures r == s[..|r|]
  {
    if |s| <= n then s else s[..n]
  }

  /** The notes offered for the last word `w`: at most ten notes of the vault. */
  function Candidates(notes: seq<string>, w: string): (r: seq<string>)
    ensures |r| <= 10 && forall n :: n in r ==> n in notes
  {
    var c := Containing(notes, w);
    assert forall n :: n in Take(c, 10) ==> n in c;
    assert forall n :: n in Take(notes, 10) ==> n in notes;
    if w != "" then Take(c, 10) else Take(notes, 10)
  }

  function ConceptItem(n: string): Suggestion {
    Suggestion(ConceptKind, n, n)
  }

  /** The items the `for` loop pushes for the first `n` candidates. */
  function ConceptItems(cands: seq<string>, n: nat): (r: seq<Suggestion>)
    requires n <= |cands|
    ensures |r| == n && forall i :: 0 <= i < n ==> r[i] == ConceptItem(cands[i])
  {
    if n == 0 then [] else ConceptItems(cands, n - 1) + [ConceptItem(cands[n - 1])]
  }

  /** The relation types offered while the query, split into `parts`, has no separator. */
  function TypeStageItems(parts: seq<string>): seq<Suggestion>
    requires |parts| >= 1
  {
    var pairs := TypePairs(Lower(Trim(parts[0])));
    TypeItems(pairs, |pairs|)
  }

  /** The notes offered once the query, split into `parts`, has a separator. */
  function ConceptStageItems(parts: seq<string>, notes: seq<string>): seq<Suggestion>
    requires |parts| >= 1
  {
    var cands := Candidates(notes, FinalWord(parts[|parts| - 1]));
    ConceptItems(cands, |cands|)
  }

  /** The items of the stage the query is in. */
  function StageItems(q: string, notes: seq<string>): (r: seq<Suggestion>)
    ensures forall i :: 0 <= i < |r| ==> r[i].kind == if TypeStage(q) then TypeKind else ConceptKind
  {
    var parts := Split(q, Separators);
    if TypeStage(q) then TypeStageItems(parts) else ConceptStageItems(parts, notes)
  }

  /**
   * `getSuggestions` for the query and the note basenames, the relation type being looked up
   * with `relation`: the `final` item, then the stage's items.
   */
  function Suggestions(query: string, notes: seq<string>, relation: string -> Option<string>): (r: seq<Suggestion>)
    ensures ParseWith(query, relation).Some? <==> |r| > 0 && r[0].kind == FinalKind
    ensures forall i :: 0 < i < |r| ==> r[i].kind != FinalKind
  {
    var q := Trim(query);
    ParseOfTrimmed(query, relation);
    FinalThenStage(FinalItems(ParseWith(q, relation), q), StageItems(q, notes));
    FinalItems(ParseWith(q, relation), q) + StageItems(q, notes)
  }

  /** `getSuggestions` after the note list is loaded; the lookup is the object's, prototype included. */
  method Suggest(query: string, notes: seq<string>) returns (out: seq<Suggestion>)
    ensures out == Suggestions(query, notes, PrototypeRelation)
  {
    var q := Trim(query);
    out := FinalItems(ParseQueryToPartsAsWritten(q), q);
    out := PushStage(out, q, notes);
  }

  /** The stage's items after `items`: relation types while `q` has no separator, notes after. */
  method PushStage(items: seq<Suggestion>, q: string, notes: seq<string>) returns (out: seq<Suggestion>)
    ensures out == items + StageItems(q, notes)
  {
    var parts := Split(q, Separators);
    if |parts| == 1 && IndexOf(q, '；') == -1 && IndexOf(q, ';') == -1 {
      out := PushTypeStage(items, parts);
    } else {
      out := PushConceptStage(items, parts, notes);
    }
  }

  /** The first stage: the relation types for the lower-cased query. */
  method PushTypeStage(items: seq<Suggestion>, parts: seq<string>) returns (out: seq<Suggestion>)
    requires |parts| >= 1
    ensures out == items + TypeStageItems(parts)
  {
    var pairs := TypePairs(Lower(Trim(parts[0])));
    out := PushTypes(items, pairs);
  }

  /** The second stage: the notes for the last `_`-word of the last segment. */
  method PushConceptStage(items: seq<Suggestion>, parts: seq<string>, notes: seq<string>) returns (out: seq<Suggestion>)
    requires |parts| >= 1
    ensures out == items + ConceptStageItems(parts, notes)
  {
    var lastPart := parts[|parts| - 1];
    var lastWord := FinalWord(lastPart);
    out := PushConcepts(items, Candidates(notes, lastWord));
  }

  /** The `forEach` over the matching relation types. */
  method PushTypes(items: seq<Suggestion>, pairs: seq<(string, string)>) returns (out: seq<Suggestion>)
    ensures out == items + TypeItems(pairs, |pairs|)
  {
    out := items;
    for i := 0 to |pairs|
      invariant out == items + TypeItems(pairs, i)
    {
      var (abbr, name) := pairs[i];
      out := out + [Suggestion(TypeKind, abbr + ": " + name, abbr + "；")];
    }
  }

  /** The `forEach` over the candidate notes. */
  method PushConcepts(items: seq<Suggestion>, cand: seq<string>) returns (out: seq<Suggestion>)
    ensures out == items + ConceptItems(cand, |cand|)
  {
    out := items;
    for i := 0 to |cand|
      invariant out == items + ConceptItems(cand, i)
    {
      out := out + [Suggestion(ConceptKind, cand[i], cand[i])];
    }
  }

  /** The suggester keeps the vault's note list once it has loaded it. */
  class RelationSuggester {
    var allNotes: seq<string>

    constructor ()
      ensures allNotes == []
    {
      allNotes := [];
    }

    /** `getSuggestions`: an empty note list is first loaded from the vault (`vaultNotes`). */
    method GetSuggestions(query: string, vaultNotes: seq<string>) returns (out: seq<Suggestion>)
      modifies this
      ensures allNotes == if old(allNotes) == [] then vaultNotes else old(allNotes)
      ensures out == Suggestions(query, allNotes, PrototypeRelation)
    {
      if |allNotes| == 0 {
        allNotes := vaultNotes;
      }
      out := Suggest(query, allNotes);
    }
  }

  // ---------------------------------------------------------------------------------------
  // What getSuggestions promises

  /**
   * The `final` item, first exactly when the query parses (`Suggestions`), is labelled with
   * the title and carries the trimmed query, which parses to the same parts.
   */
  lemma FinalItemFirst(query: string, notes: seq<string>, relation: string -> Option<string>)
    requires ParseWith(query, relation).Some?
    ensures var out := Suggestions(query, notes, relation);
      && out[0] == Suggestion(FinalKind, "创建笔记: " + ParseWith(query, relation).value.title, Trim(query))
      && ParseWith(out[0].value, relation) == ParseWith(query, relation)
  {
    var q := Trim(query);
    ParseOfTrimmed(query, relation);
    var fin := FinalItems(ParseWith(q, relation), q);
    assert Suggestions(query, notes, relation) == fin + StageItems(q, notes);
    assert fin == [Suggestion(FinalKind, "创建笔记: " + ParseWith(query, relation).value.title, q)];
  }

  /** The type token of the trimmed query `q`, lower-cased, names a member of the object's prototype. */
  predicate InheritedToken(q: string) {
    var semi := TypeEnd(q);
    semi != -1 && Lower(Trim(q[..semi])) in {"constructor", "__proto__"}
  }

  /**
   * The two lookups give the same suggestions exactly in the queries whose type token is not
   * an inherited name; both parse nothing for a token that is no relation at all.
   */
  lemma SuggestionsAgree(query: string, notes: seq<string>)
    requires !InheritedToken(Trim(query))
    ensures Suggestions(query, notes, PrototypeRelation) == Suggestions(query, notes, Relation)
  {
    assert ParseQueryToPartsAsWritten(query) == ParseQueryToParts(query);
    ParseOfTrimmed(query, Relation);
    ParseOfTrimmed(query, PrototypeRelation);
  }

  /** At most one `final` item followed by items of other kinds: the `final` one is first, if any. */
  lemma FinalThenStage(fin: seq<Suggestion>, stage: seq<Suggestion>)
    requires |fin| <= 1 && forall i :: 0 <= i < |fin| ==> fin[i].kind == FinalKind
    requires forall i :: 0 <= i < |stage| ==> stage[i].kind != FinalKind
    ensures var out := fin + stage;
      && (|fin| == 1 <==> |out| > 0 && out[0].kind == FinalKind)
      && (forall i :: 0 < i < |out| ==> out[i].kind != FinalKind)
      && (|fin| == 1 ==> out[0] == fin[0])
  {
    var out := fin + stage;
    assert forall i :: |fin| <= i < |out| ==> out[i] == stage[i - |fin|];
  }

  /** The first stage is exactly the one of a query without a separator. */
  lemma TypeStageIff(query: string)
    ensures TypeStage(Trim(query)) <==> NoneIn(query, Separators)
  {
    if NoneIn(query, Separators) {
      TrimmedNoneIn(query, Separators);
      TypeStageWithout(Trim(query));
    } else {
      var i :| 0 <= i < |query| && query[i] in Separators;
      TrimKeepsNonSpace(query, query[i]);
      NoTypeStageWith(Trim(query), query[i]);
    }
  }

  /** Trimming adds no character. */
  lemma TrimmedNoneIn(s: string, cs: set<char>)
    requires NoneIn(s, cs)
    ensures NoneIn(Trim(s), cs)
  {
    TrimKeepsCharacters(s);
  }

  /** A query without a separator is in the first stage. */
  lemma TypeStageWithout(q: string)
    requires NoneIn(q, Separators)
    ensures TypeStage(q)
  {
    SplitNoSeparator(q, Separators);
  }

  /** A query holding a separator is not. */
  lemma NoTypeStageWith(q: string, c: char)
    requires c in q && c in Separators
    ensures !TypeStage(q)
  {
  }

  /** Without a separator the items after the `final` one are the relation types for the lower-cased query. */
  lemma TypeStageOffers(query: string, notes: seq<string>)
    requires NoneIn(query, Separators)
    ensures var q := Trim(query);
      StageItems(q, notes) == TypeItems(TypePairs(Lower(q)), |TypePairs(Lower(q))|)
  {
    var q := Trim(query);
    TypeStageIff(query);
    TrimKeepsCharacters(query);
    SplitNoSeparator(q, Separators);
    TrimOfTrimmed(q);
  }

  /**
   * The relation types offered: those whose abbreviation or name starts with the query,
   * or the whole table when the query is empty or nothing matches.
   */
  lemma TypePairsOffered(q: string)
    ensures forall e :: e in TypePairs(q) ==> e in RelationTypes
    ensures q == "" || (forall e :: e in RelationTypes ==> !StartsWith(e, q)) ==> TypePairs(q) == RelationTypes
    ensures q != "" && (exists e :: e in RelationTypes && StartsWith(e, q)) ==>
      forall e :: e in TypePairs(q) <==> e in RelationTypes && StartsWith(e, q)
  {
    if q != "" && exists e :: e in RelationTypes && StartsWith(e, q) {
      var e :| e in RelationTypes && StartsWith(e, q);
      assert e in Matching(RelationTypes, q);
    } else if q != "" {
      var m := Matching(RelationTypes, q);
      if |m| > 0 {
        assert m[0] in m;
      }
    }
  }

  /** A relation type item shows `abbr: name` and stands for `abbr；`. */
  lemma TypeItemsOffered(pairs: seq<(string, string)>, i: nat)
    requires i < |pairs|
    ensures TypeItems(pairs, |pairs|)[i].kind == TypeKind
    ensures TypeItems(pairs, |pairs|)[i].text == pairs[i].0 + ": " + pairs[i].1
    ensures TypeItems(pairs, |pairs|)[i].value == pairs[i].0 + "；"
  {
  }

  /** With a separator the items after the `final` one are the notes for the last word. */
  lemma ConceptStageOffers(query: string, notes: seq<string>)
    requires !NoneIn(query, Separators)
    ensures var q := Trim(query);
      StageItems(q, notes) == ConceptItems(Candidates(notes, LastWord(q)), |Candidates(notes, LastWord(q))|)
  {
    TypeStageIff(query);
  }

  /**
   * The notes offered for the word `w`: with a word, notes whose lower-cased name contains
   * it, all of them when no more than ten do; without one, the first ten notes in order.
   */
  lemma CandidatesOffered(notes: seq<string>, w: string)
    ensures w != "" ==> forall n :: n in Candidates(notes, w) ==> Contains(Lower(n), Lower(w))
    ensures w != "" && |Containing(notes, w)| <= 10 ==>
      forall n :: n in notes && Contains(Lower(n), Lower(w)) ==> n in Candidates(notes, w)
    ensures w == "" ==> Candidates(notes, w) == notes[..if |notes| <= 10 then |notes| else 10]
  {
    var c := Containing(notes, w);
    var t := Take(c, 10);
    assert forall n :: n in t ==> n in c;
    var u := Take(notes, 10);
    assert forall n :: n in u ==> n in notes;
  }

  /** A note item shows the note's name and stands for it. */
  lemma ConceptItemsOffered(cands: seq<string>, i: nat)
    requires i < |cands|
    ensures ConceptItems(cands, |cands|)[i] == Suggestion(ConceptKind, cands[i], cands[i])
  {
  }

  // ---------------------------------------------------------------------------------------
  // applySuggestion

  /**
   * The query written back. A relation type replaces it. A note whose name holds no
   * separator keeps every segment but the last, and in the last one replaces its last
   * `_`-word; all separators become `；`.
   */
  function Rewritten(query: string, s: Suggestion): (r: string)
    ensures s.kind == TypeKind ==> r == s.value
    ensures s.kind != TypeKind && NoneIn(s.value, Separators) ==>
      var parts := Split(query, Separators);
      Split(r, Separators) == parts[|parts| - 1 := WithLastWord(parts[|parts| - 1], s.value)]
  {
    if s.kind == TypeKind then s.value
    else
      var parts := Split(query, Separators);
      if NoneIn(s.value, Separators) then
        RejoinedSegments(parts, s.value);
        Rejoined(parts, s.value)
      else Rejoined(parts, s.value)
  }

  /** The segments joined by `；` after the last word of the last one becomes `value`. */
  function Rejoined(parts: seq<string>, value: string): string
    requires |parts| >= 1
  {
    Join(parts[|parts| - 1 := WithLastWord(parts[|parts| - 1], value)], "；")
  }

  /** The segment with its last `_`-word replaced by `value`. */
  function WithLastWord(segment: string, value: string): string {
    var words := Split(segment, {'_'});
    Join(words[|words| - 1 := value], "_")
  }

  /** `applySuggestion`: the text that replaces the `@@` fragment and the cursor after it. */
  method ApplySuggestion(context: TriggerInfo, s: Suggestion) returns (text: string, cursor: Position)
    ensures text == "@@" + Rewritten(context.query, s)
    ensures cursor == Position(context.start.line, context.start.ch + Utf16Length(text))
  {
    var query := context.query;
    var newQuery: string;
    if s.kind == TypeKind {
      newQuery := s.value;
    } else {
      var parts := Split(query, Separators);
      var lastPart := parts[|parts| - 1];
      var words := Split(lastPart, {'_'});
      words := words[|words| - 1 := s.value];
      parts := parts[|parts| - 1 := Join(words, "_")];
      newQuery := Join(parts, "；");
    }
    var start := context.start;
    text := "@@" + newQuery;
    cursor := Position(start.line, start.ch + Utf16Length(text));
  }

  /** Taking a relation type item leaves `abbr；` as the query: the second stage begins. */
  lemma TypeRewrite(query: string, e: (string, string))
    requires NoneIn(e.0, Separators)
    ensures Rewritten(query, TypeItem(e)) == e.0 + "；"
    ensures !TypeStage(Rewritten(query, TypeItem(e)))
  {
    var r := e.0 + "；";
    assert r[|e.0|] == '；';
  }

  /** The segments of `Rejoined`: the old ones, with the new last segment. */
  lemma RejoinedSegments(parts: seq<string>, value: string)
    requires |parts| >= 1 && forall i :: 0 <= i < |parts| ==> NoneIn(parts[i], Separators)
    requires NoneIn(value, Separators)
    ensures Split(Rejoined(parts, value), Separators) == parts[|parts| - 1 := WithLastWord(parts[|parts| - 1], value)]
  {
    var last := parts[|parts| - 1];
    NewLastSegment(last, value);
    SegmentsOfJoin(parts, WithLastWord(last, value));
  }

  /** The new last segment holds no separator. */
  lemma NewLastSegment(segment: string, value: string)
    requires NoneIn(segment, Separators) && NoneIn(value, Separators)
    ensures NoneIn(WithLastWord(segment, value), Separators)
  {
    var words := Split(segment, {'_'});
    SplitPartsNoneIn(segment, {'_'}, Separators);
    JoinNoneIn(words[|words| - 1 := value], "_", Separators);
  }

  /** Joining segments without separators by `；` and splitting again gives them back. */
  lemma SegmentsOfJoin(parts: seq<string>, last: string)
    requires |parts| >= 1 && forall i :: 0 <= i < |parts| ==> NoneIn(parts[i], Separators)
    requires NoneIn(last, Separators)
    ensures Split(Join(parts[|parts| - 1 := last], "；"), Separators) == parts[|parts| - 1 := last]
  {
    var parts' := parts[|parts| - 1 := last];
    assert forall i :: 0 <= i < |parts'| ==> NoneIn(parts'[i], Separators);
    SplitJoin(parts', '；', Separators);
  }

  /** Within the last segment, a note name without `_` takes the last word's place and the other words stay. */
  lemma ConceptRewriteWords(words: seq<string>, value: string)
    requires |words| >= 1 && forall i :: 0 <= i < |words| ==> NoneIn(words[i], {'_'})
    requires NoneIn(value, {'_'})
    ensures Split(Join(words[|words| - 1 := value], "_"), {'_'}) == words[|words| - 1 := value]
  {
    var words' := words[|words| - 1 := value];
    assert forall i :: 0 <= i < |words'| ==> NoneIn(words'[i], {'_'});
    SplitJoin(words', '_', {'_'});
  }

  /**
   * Taking the same completion again on the rewritten query changes nothing: the relation
   * type comes back as `abbr；`, and the note name is already the last word of the last segment.
   */
  lemma RewriteReapplied(query: string, s: Suggestion)
    requires s.kind == TypeKind || NoneIn(s.value, Separators + {'_'})
    ensures Rewritten(Rewritten(query, s), s) == Rewritten(query, s)
  {
    if s.kind != TypeKind {
      var v := s.value;
      var parts := Split(query, Separators);
      var seg := WithLastWord(parts[|parts| - 1], v);
      var parts' := parts[|parts| - 1 := seg];
      var r := Rewritten(query, s);
      assert r == Join(parts', "；");
      NoneInSubset(v, Separators + {'_'}, Separators);
      NoneInSubset(v, Separators + {'_'}, {'_'});
      WithLastWordTwice(parts[|parts| - 1], v);
      assert parts'[|parts'| - 1 := WithLastWord(parts'[|parts'| - 1], v)] == parts';
      assert Rewritten(r, s) == Rejoined(Split(r, Separators), v);
    }
  }

  /** A string without any of `cs` holds none of a subset of `cs`. */
  lemma NoneInSubset(s: string, cs: set<char>, ds: set<char>)
    requires NoneIn(s, cs) && ds <= cs
    ensures NoneIn(s, ds)
  {
  }

  /** Replacing the last word twice with the same name is replacing it once. */
  lemma WithLastWordTwice(segment: string, value: string)
    requires NoneIn(value, {'_'})
    ensures WithLastWord(WithLastWord(segment, value), value) == WithLastWord(segment, value)
  {
    var words := Split(segment, {'_'});
    var words' := words[|words| - 1 := value];
    ConceptRewriteWords(words, value);
    assert Split(WithLastWord(segment, value), {'_'}) == words';
    assert words'[|words'| - 1 := value] == words';
  }
}

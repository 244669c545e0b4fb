# kg-helper in Dafny

A model of the core of the kg-helper Obsidian plugin. The plugin keeps a knowledge graph of
*concept* notes and *relation* notes. This project models five parts of it and proves
properties about each:

- **The `@@` relation query** (`suggester.ts`, module `Suggester`). In the editor the plugin
  reads what follows the last `@@` on the line, for example `i；A_B；C`:
  - `i` is an abbreviation from the relation table (`i`/影响, `c`/对比, `a`/关联, `u`/应用).
  - `A_B` is the head list and `C` is the tail list.
  - The query names the relation note `A_B-影响-C`.

  While the user types, `getSuggestions` first offers relation types and then vault notes
  for the word being typed. As soon as the query parses, it also offers a *final* item that
  creates the note. Accepting a completion rewrites the query (`applySuggestion`).
- **Frontmatter synthesis** for a new note, `getModifiedContent` (`utils/frontmatterUtils.ts`,
  with its copy in `main.ts`). Modules `Frontmatter` (the specification) and
  `FrontmatterSynthesis` (the step-by-step method). The function:
  - reads the template's `key: value` lines;
  - forces `uid` and `type`;
  - adds the reverse alias `B-rel-A` of a symmetric relation title;
  - writes the keys back, preferred keys first.
- **Inserting a link under a heading** (`utils/fileModificationUtils.ts`, module
  `FileModification`). It finds the heading's section, backs up over trailing blank lines and
  inserts one `- [[link]]` line.
- **The two frontmatter commands.**
  - `addReverseAliasForCurrentNote` (`commands/addAlias.ts`, module `AddAlias`) adds the
    reverse alias to the note's own frontmatter.
  - `inheritPropertiesFromParent` (`commands/inheritProperties.ts`, modules
    `InheritProperties` and `InheritCommand`) copies the keys the note lacks from its parent
    notes.
- **The small helpers.**
  - `sanitizeFileName` and `parseWikilink` (`utils/stringUtils.ts`, module `StringUtils`).
  - `findFile` (`utils/fileUtils.ts`, module `FileUtils`).
  - The parts of `main.ts` that exist only there (module `Plugin`): the link text of
    `createOrLinkNote` and the `inheritedCount` loop.

Shared modules:

- `Text` holds the JavaScript string operations the code relies on (`trim`, `split`, `join`,
  `indexOf`, `lastIndexOf`, `includes`, `toLowerCase`).
- `Records` holds frontmatter values and objects whose keys keep their insertion order.
- `Config` holds the settings the core reads.
- `Wrappers` holds `Option`.

Each imperative routine of the plugin is a method with loops. It is proved to compute a
specification function, and the properties the plugin promises are proved as lemmas about
those functions. The host is replaced by inputs:

| host call | modelled as |
|---|---|
| vault's markdown files | a sequence of basenames, or of `(path, basename, aliases)` records |
| metadata cache | the frontmatter as an argument |
| `getFirstLinkpathDest` | a function from link name to parent frontmatter |
| file contents | a string |
| editor writes | returned text and cursor |
| `moment()` uid | a parameter |

## Model

| member | source | states |
|---|---|---|
| Text.Utf16Length | suggester.ts:149 | `text.length` counts between one and two UTF-16 units per character |
| Suggester.Lookup | suggester.ts:161-162 | The relation table's lookup finds nothing exactly when no entry has the key; a hit is an entry's own name |
| Suggester.Relation | suggester.ts:15-20 | The table has a relation exactly for `i`, `c`, `a` and `u`, and it is that entry's name |
| Suggester.PrototypeRelation | suggester.ts:161-162 | `RELATION_TYPES[typeAbbr]` as written: the table's four entries, and a truthy value also for `constructor` and `__proto__`, the only lower-case names the prototype chain resolves; nothing otherwise |
| Suggester.LineBefore | suggester.ts:37 | `substring(0, cursor.ch)` with `ch` in UTF-16 units: the longest prefix of the line that fits in `ch` units, stopping before a character the column cuts in two |
| Suggester.OnTrigger | suggester.ts:36-47 | No trigger iff the text before the cursor holds no `@@`; otherwise the span starts at the last `@@` before the cursor, at the column its UTF-16 offset gives, ends at the cursor, and the query is all the text after that `@@` |
| Suggester.QueryHoldsNoTrigger | suggester.ts:38-41 | The query reported never contains `@@` |
| Suggester.AstralColumnExample | suggester.ts:37-43 | With an emoji before `@@` the span starts at column 2, the emoji's two UTF-16 units, and a column inside the emoji cuts the line before it |
| Suggester.TypeEnd | suggester.ts:157-158 | The type token ends at a separator of the query, and there is none exactly when the query has neither `;` nor `；` |
| Suggester.ParseQueryToParts | suggester.ts:153-176 | The own-entry parse gives a result only when the trimmed query has a type token, ended by a separator, whose trimmed lower-cased text is one of the four abbreviations |
| Suggester.ParseQueryToPartsAsWritten | suggester.ts:153-176 | The parse as written differs from the own-entry parse only on a type token `constructor` or `__proto__`, which the own-entry parse rejects |
| Suggester.Title | suggester.ts:171-173 | The title is the head names joined by `_`, `-`, the relation name, `-`, the tail names joined by `_` (both arms of the conditional coincide) |
| Suggester.FromRest | suggester.ts:164-175 | Every parse has a non-empty head list and the title built from head, relation and tail |
| Suggester.FromSegments | suggester.ts:165-175 | As FromRest, for the segments after the type token |
| Suggester.NullCases | suggester.ts:154-162 | No parse for a blank query, for a query without `;`/`；`, or for a type token absent from the table |
| Suggester.AsciiSemicolonEndsType | suggester.ts:157-164 | When the trimmed query has a `;`, the type token is what precedes the first `;`, whatever `；` precede it |
| Suggester.FullWidthSemicolonEndsType | suggester.ts:157-164 | Without a `;`, the type token ends at the first `；` |
| Suggester.FullWidthBeforeAsciiFails | suggester.ts:157-162 | A `；` before the first `;` stays in the type token, so the query never parses, in either lookup |
| Suggester.LaterSegmentsIgnored | suggester.ts:165-168 | A third and later segment changes nothing in the parse |
| Suggester.FirstTwoSegments | suggester.ts:165-168 | The parse depends only on the first two segments after the type token |
| Suggester.HeadOnly | suggester.ts:168-169 | With no second segment the tail list is empty |
| Suggester.DanglingDash | suggester.ts:171-173 | With an empty tail the title ends in `-` |
| Suggester.ParseQueryOf | suggester.ts:153-176 | Round trip: `abbr；A_B；C` built from well-formed names parses back to exactly those head and tail lists and their title whenever the abbreviation is known, and to nothing otherwise |
| Suggester.TokensOfJoin | suggester.ts:167-172 | Splitting on `_`, trimming and dropping empty names gives back the joined names |
| Suggester.TokensAreTokens | suggester.ts:167-168 | Every name taken from a segment is non-empty, trimmed and free of `_` and separators |
| Suggester.ParseOfTrimmed | suggester.ts:154-155 | Parsing the trimmed query is parsing the query |
| Suggester.ConstructorAbbreviation | suggester.ts:161 | `constructor` is not in the table's own entries, but the prototype chain resolves it |
| Suggester.ConstructorAccepted | suggester.ts:161-162 | The as-written lookup parses `constructor；A；B` into a note titled with the source text of `Object`; the own-entry lookup rejects it |
| Suggester.FinalItems | suggester.ts:61-64 | There is one `final` item exactly when the query parses, and none otherwise |
| Suggester.Matching | suggester.ts:71 | The relation types kept are exactly those whose abbreviation or name starts with the query |
| Suggester.TypeItems | suggester.ts:75-77 | One `type` item per kept relation type, in table order |
| Suggester.Containing | suggester.ts:87 | The notes kept are exactly those whose lower-cased basename contains the lower-cased word |
| Suggester.ContainingConcat | suggester.ts:87 | `filter` over two runs of notes is the two filtered runs in turn: vault order and repeated notes are kept |
| Suggester.ContainingOne | suggester.ts:87 | One note is kept exactly when its lower-cased basename contains the lower-cased word |
| Suggester.Take | suggester.ts:87-88 | `slice(0, n)`: the first `min(n, length)` elements |
| Suggester.ConceptItems | suggester.ts:90-92 | One `concept` item per candidate note, in order |
| Suggester.StageItems | suggester.ts:66-92 | Every stage item is a `type` item in the relation-type stage and a `concept` item in the other |
| Suggester.Suggestions | suggester.ts:55-94 | For either lookup, item 0 is `final` exactly when the query parses, and no later item is `final` |
| Suggester.SuggestionsAgree | suggester.ts:161 | Unless the type token is `constructor` or `__proto__`, the suggestions under the as-written lookup are those under the own entries |
| Suggester.Suggest | suggester.ts:55-94 | The method's `out` is the suggestion list under the as-written lookup `RELATION_TYPES[typeAbbr]` |
| Suggester.PushStage | suggester.ts:67-93 | The stage items appended after the final item, branching on the source's own stage test |
| Suggester.PushTypeStage | suggester.ts:67-78 | The type stage appends the relation-type items |
| Suggester.PushConceptStage | suggester.ts:82-92 | The concept stage appends the note items for the last word |
| Suggester.PushTypes | suggester.ts:75-77 | The `for` loop appends exactly the `type` items |
| Suggester.PushConcepts | suggester.ts:90-92 | The `for` loop appends exactly the `concept` items |
| Suggester.RelationSuggester.constructor | suggester.ts:24-29 | The suggester starts with an empty note list |
| Suggester.RelationSuggester.GetSuggestions | suggester.ts:50-95 | The note list is read from the vault only while it is empty, and the result is the suggestion list for the query and that list under the as-written lookup |
| Suggester.FinalItemFirst | suggester.ts:58-64 | When the query parses, item 0 is labelled `创建笔记: <title>`, holds the trimmed query, and that value parses to the same relation |
| Suggester.TypeStageIff | suggester.ts:55-67 | The relation-type stage is taken iff the query holds neither `;` nor `；` |
| Suggester.TypeStageOffers | suggester.ts:67-78 | Without separators the stage items are the type items of the lower-cased query |
| Suggester.TypePairsOffered | suggester.ts:68-73 | Only relation types of the table are offered: those starting with the query, or all four when the query is empty or none matches |
| Suggester.TypeItemsOffered | suggester.ts:75-76 | A type item shows `abbr: name` and stands for `abbr；` |
| Suggester.ConceptStageOffers | suggester.ts:81-92 | With a separator the stage items are the note items for the last `_`-word of the last segment |
| Suggester.LastWord | suggester.ts:82-83 | The word being completed is trimmed and holds no separator and no `_` |
| Suggester.FinalWord | suggester.ts:83 | `(lastPart.split(/_/).pop() \|\| '').trim()` is trimmed and free of `_`, and of separators when the segment is |
| Suggester.Candidates | suggester.ts:86-88 | At most ten notes, all of them from the vault |
| Suggester.CandidatesOffered | suggester.ts:82-88 | With a word, only notes containing it case-insensitively, and every such note when ten or fewer do; without one, the first ten notes |
| Suggester.ConceptItemsOffered | suggester.ts:90-91 | A concept item shows and stands for the basename |
| Suggester.ApplySuggestion | suggester.ts:130-150 | The editor text is `@@` and the rewritten query, and the cursor sits on the start line, `text.length` UTF-16 units after the start |
| Suggester.TypeRewrite | suggester.ts:135-136 | Taking a relation type leaves exactly `abbr；`, which is past the type stage |
| Suggester.Rewritten | suggester.ts:134-143 | A `type` item's value replaces the query; a note name without separators replaces the last `_`-word of the last segment, every other segment staying as split |
| Suggester.RejoinedSegments | suggester.ts:138-143 | The segments of the rewritten query are the old ones with the new last segment |
| Suggester.NewLastSegment | suggester.ts:140-142 | The new last segment holds no separator |
| Suggester.ConceptRewriteWords | suggester.ts:140-142 | Within the last segment, every word but the last is kept and the note name takes the last one's place |
| Suggester.RewriteReapplied | suggester.ts:134-143 | Taking the same completion again on the rewritten query leaves it unchanged |
| Suggester.WithLastWordTwice | suggester.ts:140-142 | Replacing the last word twice with the same name is replacing it once |
| Frontmatter.TemplateBlock | utils/frontmatterUtils.ts:19-20 | A match is an opening `---` and white space up to a `\n`, the body, and a closing `\n---` with the white space after it cut back to its last `\n` |
| Frontmatter.TemplateBlockFound | utils/frontmatterUtils.ts:19 | There is a match iff some opening fence is followed by a closing one; the body is the shortest after its opening (`*?`), and the opening `\s*` is the longest that still leaves a closing fence |
| Frontmatter.BlankLinesConsumed | utils/frontmatterUtils.ts:19 | The closing `\s*` takes every blank line after the fence: the white space that follows the match holds no line break |
| Frontmatter.BlankLineExample | utils/frontmatterUtils.ts:19 | In `---\na: b\n---\n\nX` the blank line belongs to the match, so `X` follows the new block directly |
| Frontmatter.CrLfExample | utils/frontmatterUtils.ts:19 | A template with `\r\n` line breaks matches too, its body keeping the last `\r` |
| Frontmatter.EmptyBodyExample | utils/frontmatterUtils.ts:19 | `---\n\n---\n` matches with an empty body: the opening `\s*` gives back a `\n` |
| Frontmatter.CleanItem | utils/frontmatterUtils.ts:38 | A list item is trimmed and loses one `"` at each end where present; a lone `"` becomes empty |
| Frontmatter.ParseLineKey | utils/frontmatterUtils.ts:30-40 | A line sets a key iff it has a `:` and the text before the first `:` is not blank |
| Frontmatter.ParseLine | utils/frontmatterUtils.ts:30-40 | A line that sets a key sets the trimmed, non-empty, `:`-free text before its first `:` to the value read from the rest |
| Frontmatter.ParseValue | utils/frontmatterUtils.ts:33-39 | A value becomes a list exactly when its trimmed text is `[...]`; otherwise it is the trimmed text |
| Frontmatter.ParseEmptyList | utils/frontmatterUtils.ts:36-39 | `[]` becomes the empty list |
| Frontmatter.ParseScalar | utils/frontmatterUtils.ts:33-36 | A value without `[` is kept as its trimmed text |
| Frontmatter.ParseList | utils/frontmatterUtils.ts:36-38 | `[a, b]` becomes the `,`-separated items, each cleaned |
| Frontmatter.LastLineWins | utils/frontmatterUtils.ts:29-42 | A key ends with the value of the last line that sets it |
| Frontmatter.UnsetKeyAbsent | utils/frontmatterUtils.ts:29-42 | A key no line sets is absent |
| Frontmatter.Assembled | utils/frontmatterUtils.ts:46-65 | `uid` and `type` hold the given values whatever the template had, and every key other than those and `aliases` is as the template set it; the same holds for the copy at `main.ts:350-369` |
| Frontmatter.WithReverseAlias | utils/frontmatterUtils.ts:49-65 | The reverse-alias step changes no key but `aliases` |
| Frontmatter.ForcedKeepsAliases | utils/frontmatterUtils.ts:46-47 | Forcing `uid` and `type` leaves `aliases` as parsed |
| Frontmatter.AliasAddedOnce | utils/frontmatterUtils.ts:55-62 | `aliases` becomes a list (a non-list is replaced by `[]` first) that keeps its items and holds the alias once if it was new |
| Frontmatter.ReverseAliasAddedOnce | utils/frontmatterUtils.ts:49-65 | For a relation note with a symmetric title the reverse alias is in `aliases`, appended at the end only if absent; the same holds for the copy at `main.ts:353-369` |
| Frontmatter.NoReverseAliasOtherwise | utils/frontmatterUtils.ts:49-54 | Otherwise `aliases` is exactly as parsed |
| Frontmatter.QuotedItems | utils/frontmatterUtils.ts:75 | Each list item renders as `  - "item"` |
| Frontmatter.ItemLinesJoined | main.ts:378-385 | The per-item loop of `main.ts` writes the same text as the `map`/`join` of the utility version |
| Frontmatter.PreferredKeys | utils/frontmatterUtils.ts:71-81 | The first pass emits exactly the preferred keys that are present |
| Frontmatter.RestKeys | utils/frontmatterUtils.ts:83-92 | The second pass emits exactly the other keys, in insertion order |
| Frontmatter.PreferredCount | utils/frontmatterUtils.ts:71-81 | A present key is emitted by the first pass as often as the preferred order lists it |
| Frontmatter.RestCount | utils/frontmatterUtils.ts:83-92 | A key the first pass did not emit is emitted once by the second |
| Frontmatter.EmissionCovers | utils/frontmatterUtils.ts:71-92 | Every key of the object is emitted, and nothing else |
| Frontmatter.EmissionCount | utils/frontmatterUtils.ts:71-92 | A key is emitted once, or as often as the preferred order lists it |
| Frontmatter.EmittedOnce | utils/frontmatterUtils.ts:71-92 | Each key is emitted exactly once when the parent key is not one of the other preferred keys; the same holds for the copy at `main.ts:374-409` |
| Frontmatter.ParentKeyEmittedTwice | utils/frontmatterUtils.ts:22-23 | A parent key named `uid`, `aliases`, `type` or `publish` is emitted twice |
| Frontmatter.FirstPreferredFirst | utils/frontmatterUtils.ts:71-81 | The first preferred key, if present, is emitted first |
| Frontmatter.UidEmittedFirst | utils/frontmatterUtils.ts:46-81 | `uid` is always the first key written |
| Frontmatter.PreferredTextRenders | utils/frontmatterUtils.ts:71-81 | The first pass's text is the entries of its keys, in order |
| Frontmatter.RestTextRenders | utils/frontmatterUtils.ts:83-92 | The second pass's text is the entries of its keys, in order |
| Frontmatter.EmittedText | utils/frontmatterUtils.ts:71-92 | The new frontmatter text is the entries of the emitted keys, in emission order |
| Frontmatter.ShadowedByTemplate | utils/frontmatterUtils.ts:46-72 | The object has an own `hasOwnProperty` exactly when the template sets one: `uid`, `type` and `aliases` never do |
| Frontmatter.ModifiedContent | utils/frontmatterUtils.ts:71-96 | Intended result: nothing (the throw) exactly when the template sets `hasOwnProperty`; otherwise the new block replaces the match and the text after the match follows unchanged, or, without a match, the block, `\n` and the whole template |
| Frontmatter.ModifiedContentAsWritten | utils/frontmatterUtils.ts:12-97 | As written: it throws exactly where the intended version does and agrees with it on every new block without `$` |
| Frontmatter.ReplacedLiteral | utils/frontmatterUtils.ts:96 | `replace` with a block free of `$` puts the block in literally |
| Frontmatter.SubstituteLiteral | utils/frontmatterUtils.ts:96 | A replacement without `$` is inserted verbatim |
| Frontmatter.DoubleDollarCollapses | utils/frontmatterUtils.ts:96 | `String.replace` turns a `$$` of the replacement into `$` |
| Frontmatter.AsWrittenDropsDollar | utils/frontmatterUtils.ts:96 | As written, a new block holding `$$` loses a `$`, so the result differs from the block followed by the rest of the template |
| Frontmatter.ReplacedDropsDollar | utils/frontmatterUtils.ts:96 | With a block `p$$q`, the literal replacement keeps `$$` and `replace` leaves `$`, so the two differ |
| FrontmatterSynthesis.GetModifiedContent | utils/frontmatterUtils.ts:12-97 | The method computes the as-written content, and nothing where `hasOwnProperty` throws; the same holds for the copy at `main.ts:321-418` |
| FrontmatterSynthesis.AssembleObject | utils/frontmatterUtils.ts:19-65 | Steps 1 and 2 build the object the template, `uid`, `type` and the title specify |
| FrontmatterSynthesis.ReplaceBlock | utils/frontmatterUtils.ts:96 | The last line computes `replace` with the new block as written |
| FrontmatterSynthesis.ParseFrontmatter | utils/frontmatterUtils.ts:29-42 | The `forEach` over the block's lines builds the fold of the line parser |
| FrontmatterSynthesis.ReadLine | utils/frontmatterUtils.ts:30-41 | One line sets its key, or changes nothing |
| FrontmatterSynthesis.AddReverseAlias | utils/frontmatterUtils.ts:49-65 | The reverse alias step as specified |
| FrontmatterSynthesis.PushReverseAlias | utils/frontmatterUtils.ts:55-62 | The `currentAliases` update as specified |
| FrontmatterSynthesis.RenderPreferred | utils/frontmatterUtils.ts:71-81 | Nothing (the `TypeError`) when the object has an own `hasOwnProperty` and the preferred order is not empty; otherwise the first pass's text, and `processedKeys` is the set of preferred keys present |
| FrontmatterSynthesis.RenderRest | utils/frontmatterUtils.ts:83-92 | The second pass appends the entries of the unprocessed keys |
| FrontmatterSynthesis.RenderValue | main.ts:377-388 | One entry: `key: []`, `key:` and one line per item, or `key: value` |
| FileModification.ClassifyMatches | utils/fileModificationUtils.ts:36-38 | A line is a heading iff it starts with `#`s followed by white space; its level is the count of `#`s and its title the rest of the line |
| FileModification.RestOfLine | utils/fileModificationUtils.ts:36 | `.*` takes the text up to the first line terminator |
| FileModification.FirstTarget | utils/fileModificationUtils.ts:37-43 | The first heading whose trimmed title is the trimmed heading name |
| FileModification.FirstTargetAt | utils/fileModificationUtils.ts:37-43 | The heading found is the first matching line |
| FileModification.SectionEnd | utils/fileModificationUtils.ts:49-58 | The first later heading of the same or a higher level, or the end of the lines |
| FileModification.BlankIsTrimmedEmpty | utils/fileModificationUtils.ts:62 | A line is blank iff it trims to `''` |
| FileModification.BackOverBlank | utils/fileModificationUtils.ts:61-64 | The `while` loop stops at the last non-blank line, never above the heading |
| FileModification.InsertPosition | utils/fileModificationUtils.ts:48-75 | The link's line index lies within the lines, and below the first matching heading when there is one |
| FileModification.LinesWithLink | utils/fileModificationUtils.ts:66-77 | One more line, `- linkText` at the insertion point, and the old lines in order around it |
| FileModification.WrittenContent | utils/fileModificationUtils.ts:27-29 | Nothing is written iff the content already contains the link text |
| FileModification.InsertLinkUnderHeading | utils/fileModificationUtils.ts:10-78 | The method writes the specified content, or nothing |
| FileModification.FindHeading | utils/fileModificationUtils.ts:31-45 | `targetLine` is the first matching heading and `headingLevel` its level, or -1 when there is no heading name or no match |
| FileModification.FindSectionEnd | utils/fileModificationUtils.ts:48-58 | `insertAt` is the end of the section |
| FileModification.LastNonEmptyLine | utils/fileModificationUtils.ts:61-64 | The loop computes the last non-blank line of the section |
| FileModification.InsertSplits | utils/fileModificationUtils.ts:66 | `splice(k, 0, x)` puts `x` at `k` and keeps every other line |
| FileModification.LinkAppendedWithoutHeading | utils/fileModificationUtils.ts:68-75 | Without a heading name or a matching heading the link becomes the new last line |
| FileModification.LinkUnderFirstHeading | utils/fileModificationUtils.ts:48-66 | Under the first matching heading the link goes after the section's last non-blank line, above the next heading of the same or a higher level, and below the heading itself |
| FileModification.WrittenLines | utils/fileModificationUtils.ts:77 | The text written splits back into the new lines |
| AddAlias.TitleParts | commands/addAlias.ts:15 | `split('-')` always yields at least one part |
| AddAlias.SplitThree | commands/addAlias.ts:15-17 | `a-b-c` with dash-free parts splits into exactly those three |
| AddAlias.ReverseOfParts | commands/addAlias.ts:22-29 | The reverse alias of `A-rel-B` for a symmetric relation is `B-rel-A` |
| AddAlias.ReverseAliasInvolution | commands/addAlias.ts:22-29 | The reverse of the reverse alias is the original title |
| AddAlias.ReverseAliasIsRelationTitle | commands/addAlias.ts:15-29 | A reverse alias is itself a symmetric relation title, and reversing it gives the title with trimmed parts |
| AddAlias.AppendAlias | commands/addAlias.ts:40-43 | The alias list gains the alias at the end and keeps its items |
| AddAlias.AppendAliasKeeps | commands/addAlias.ts:43 | Setting `aliases` leaves the other keys and their values unchanged |
| AddAlias.AliasUpdate | commands/addAlias.ts:14-45 | Unless the alias is added the frontmatter is unchanged, and an added or present alias is the title's reverse alias |
| AddAlias.AliasUpdateOutcome | commands/addAlias.ts:15-43 | Each of the four outcomes (not a relation title, not symmetric, already present, added) happens exactly under its condition |
| AddAlias.AliasUpdateAppends | commands/addAlias.ts:32-43 | When added, the aliases keep their order with the reverse alias at the end, and no other key changes |
| AddAlias.AliasUpdateIdempotent | commands/addAlias.ts:36-39 | Running the command again finds the alias present and changes nothing |
| AddAlias.AliasAtMostOnce | commands/addAlias.ts:36-43 | The alias is present afterwards, once if it was new, and never appended a second time |
| AddAlias.AddReverseAliasForCurrentNote | commands/addAlias.ts:13-45 | The method's outcome and frontmatter are those specified; the same holds for the copy at `main.ts:81-113` |
| AddAlias.PushAlias | commands/addAlias.ts:31-45 | The callback leaves a frontmatter holding the alias unchanged, and otherwise appends it; the same holds for the copy at `main.ts:99-113` |
| InheritProperties.CloseFrom | commands/inheritProperties.ts:30 | The lazy `.*?` stops at the first `]]` on the same line |
| InheritProperties.MatchFromOpening | commands/inheritProperties.ts:30 | A `[[` and the first `]]` after it on the line form a match |
| InheritProperties.LinkMatches | commands/inheritProperties.ts:30 | Every match of the global pattern is a `[[...]]` link on one line, and there is none exactly when no `[[` is closed by a `]]` on its line |
| InheritProperties.LinkMatchesLeftmost | commands/inheritProperties.ts:30 | The matches are the leftmost ones in turn: the first starts at the first `[[` that a `]]` closes on its line, and the search resumes after it |
| InheritProperties.TwoLinksExample | commands/inheritProperties.ts:30-31 | `[[A]], [[B]]` yields both links |
| InheritProperties.NoLinkExample | commands/inheritProperties.ts:31 | A string without a link yields itself |
| InheritProperties.StringItems | commands/inheritProperties.ts:28 | A list keeps exactly its string items |
| InheritProperties.StringItemsConcat | commands/inheritProperties.ts:28 | The string items of two runs are those of each in turn: list order and repeated links are kept |
| InheritProperties.StringItemsOne | commands/inheritProperties.ts:28 | One item gives its string, or nothing when it is not a string |
| InheritProperties.ParentOf | commands/inheritProperties.ts:41-51 | A parent is found only for a non-empty parsed name, and it is what the lookup gives for that name |
| InheritProperties.ParentLinks | commands/inheritProperties.ts:26-32 | A list yields its strings; a string yields its `[[...]]` matches when it has one, and otherwise itself; anything else yields nothing; the same holds for the copy at `main.ts:139-149` |
| InheritProperties.Parents | commands/inheritProperties.ts:40-51 | One looked-up parent per link, in order |
| InheritProperties.ParentsAt | commands/inheritProperties.ts:41-51 | The i-th parent is the resolved name of the i-th link, or none when the name is missing or not found |
| InheritProperties.MergeKeyAt | commands/inheritProperties.ts:54-55 | One key is taken iff it is absent from the current note and not `position` |
| InheritProperties.MergeParentAt | commands/inheritProperties.ts:53-57 | After some keys of a parent, each eligible one among them holds the parent's value (or `''`) |
| InheritProperties.MergeParentNext | commands/inheritProperties.ts:53-57 | The `for ... in` loop takes one key per step |
| InheritProperties.MergeWholeParent | commands/inheritProperties.ts:53-57 | After a whole parent, each of its eligible keys holds its value (or `''`) and the others are unchanged |
| InheritProperties.CollectNext | commands/inheritProperties.ts:40-58 | Each link adds its parent's keys, or nothing |
| InheritProperties.CollectStep | commands/inheritProperties.ts:40-58 | A link's parent overrides the keys it provides and keeps the rest |
| InheritProperties.CollectKeys | commands/inheritProperties.ts:40-58 | A key is collected iff it is eligible and some parent provides it |
| InheritProperties.CollectEligible | commands/inheritProperties.ts:53-54 | Every collected key is absent from the current note and not `position` |
| InheritProperties.CollectLastParentWins | commands/inheritProperties.ts:40-57 | The value of a key comes from the last parent that provides it, copied in `full` mode and `''` otherwise |
| InheritProperties.ThrowsIff | commands/inheritProperties.ts:53-54 | The loop throws exactly when the note has its own `hasOwnProperty` and some linked parent has a key |
| InheritProperties.InheritFromLinks | commands/inheritProperties.ts:34-67 | No links gives nothing; the command fails exactly when the loop throws; an `Inherited` outcome has a positive count and keeps every current key and value |
| InheritProperties.Collected | commands/inheritProperties.ts:60-67 | Nothing to inherit, or an `Inherited` outcome with a positive count that keeps every current key and value |
| InheritProperties.Inheritance | commands/inheritProperties.ts:15-67 | An `Inherited` outcome keeps every current key and value; every outcome besides the two give-ups comes from a truthy own parent property and its links |
| InheritProperties.LinksOutcome | commands/inheritProperties.ts:34-58 | Once the links are known: nothing exactly without one, and failure exactly when the note shadows `hasOwnProperty` and a parent has a key |
| InheritProperties.InheritanceGivesUp | commands/inheritProperties.ts:18-37 | No parent property exactly when the trimmed key is neither the note's nor an `Object.prototype` name, or is the note's with a falsy value; no links exactly for an `Object.prototype` name the note lacks, or when no links are extracted |
| InheritProperties.InheritanceFails | commands/inheritProperties.ts:15-58 | The command fails exactly when the parent property is truthy, the note shadows `hasOwnProperty`, and a parent its links name has a key |
| InheritProperties.ExtendedKeys | commands/inheritProperties.ts:60-62 | `Object.assign` keeps every current key and value and adds exactly the eligible keys provided by some parent |
| InheritProperties.InheritedFrontmatter | commands/inheritProperties.ts:60-62 | An `Inherited` outcome writes the note extended with the collected keys, none of which it had |
| InheritProperties.LinksInheritedKeys | commands/inheritProperties.ts:39-64 | The same for the outcome over the extracted links |
| InheritProperties.InheritedKeys | commands/inheritProperties.ts:15-64 | The same for the whole command |
| InheritProperties.InheritedCount | commands/inheritProperties.ts:60-64 | The count reported is the number of keys added |
| InheritCommand.MergeParentKeys | commands/inheritProperties.ts:53-57 | The inner loop merges one parent as specified, and gives nothing (the `TypeError`) when the note has its own `hasOwnProperty` and the parent has a key |
| InheritCommand.VisitLink | commands/inheritProperties.ts:41-57 | One link's step as specified: unparsable and unresolved links are skipped, and nothing comes back when its inner loop throws |
| InheritCommand.CollectProperties | commands/inheritProperties.ts:39-58 | The outer loop collects as specified, and gives nothing exactly when some link's inner loop throws |
| InheritCommand.InheritPropertiesFromParent | commands/inheritProperties.ts:15-67 | The command's outcome is the specified one, including the `hasOwnProperty` failure and the `Object.prototype` names as parent keys |
| InheritCommand.CollectParentLinks | commands/inheritProperties.ts:26-32 | The `push` calls fill the list of parent links as specified |
| InheritCommand.InheritFromParentLinks | commands/inheritProperties.ts:34-67 | From the empty-links check on, the outcome is the specified one, including the failure |
| Records.Set | commands/inheritProperties.ts:55 | `obj[k] = v`: the value is set, a new key goes last and an existing key keeps its place |
| Records.Get | commands/inheritProperties.ts:20 | `obj[k]`: an own property exactly when the object has the key, and a prototype member exactly for an `Object.prototype` name it lacks |
| Records.Extend | commands/inheritProperties.ts:62 | `Object.assign` with new keys: the keys follow the old ones, old values are kept and new ones copied |
| Records.ExtendNewKeys | commands/inheritProperties.ts:62-64 | The keys added are as many as the merged object lists |
| StringUtils.DeleteForbidden | utils/stringUtils.ts:8 | No forbidden character remains, nothing is added, and a clean name is unchanged |
| StringUtils.SanitizeFileName | utils/stringUtils.ts:6-9 | `''` for `''`; otherwise none of `\ / : * ? " < > \|` remains and the result is no longer than the input; the same holds for the copy at `main.ts:316-319` |
| StringUtils.DeleteForbiddenConcat | utils/stringUtils.ts:8 | Characters are deleted one by one, keeping the order of the others |
| StringUtils.SanitizeCounts | utils/stringUtils.ts:8 | Every other character is kept as many times as it occurs; forbidden ones not at all |
| StringUtils.SanitizeIdempotent | utils/stringUtils.ts:8 | Sanitizing twice is sanitizing once |
| StringUtils.FirstOpen | utils/stringUtils.ts:19 | The first `[[` followed by a character other than `\|` and `]` |
| StringUtils.RunFrom | utils/stringUtils.ts:19 | The greedy run of characters other than `\|` and `]` |
| StringUtils.ParseWikilink | utils/stringUtils.ts:17-21 | Nothing for a non-string or when no `[[` opens a name; otherwise the trimmed name after the first such `[[`; the same holds for the copy at `main.ts:310-314` |
| StringUtils.ParsedNameHasNoSeparator | utils/stringUtils.ts:19-20 | The name holds no `\|` and no `]` |
| StringUtils.AliasedLinkExample | utils/stringUtils.ts:13-20 | `[[Note\|Alias]]` gives `Note` |
| FileUtils.FirstByName | utils/fileUtils.ts:9 | The first file whose lower-cased basename is the lower-cased title |
| FileUtils.FirstByAlias | utils/fileUtils.ts:12-19 | The first file whose aliases list holds the title, case-insensitively |
| FileUtils.FindFile | utils/fileUtils.ts:6-22 | A name match first, else the first alias match (non-list aliases ignored), else nothing, exactly when neither exists; the same holds for the copy at `main.ts:284-299` |
| FileUtils.NameBeatsEarlierAlias | utils/fileUtils.ts:9-12 | A basename match wins over an alias match in an earlier file |
| FileUtils.FindFileIgnoresCase | utils/fileUtils.ts:8 | Titles equal up to case find the same file |
| Plugin.LinkText | main.ts:245 | `[[basename]]` exactly when the basename is the selection; otherwise `[[basename`, a `\|`, the selection and `]]` |
| Plugin.LinkTextNamesNote | main.ts:245 | `parseWikilink` reads the note's basename back from the link |
| Plugin.AssignKeys | main.ts:185-188 | The `for ... in` loop assigns every key in order and counts one per key |
| Plugin.AssignInherited | main.ts:184-189 | The callback's result is the `Object.assign` of the collected keys and `inheritedCount` is their number |
| Plugin.InheritFromParent | main.ts:128-193 | `main.ts`'s version has the specified outcome, including the `hasOwnProperty` failure and `Object.prototype` parent keys, with the count from `inheritedCount` |

## Left out

- Every host call is left out: reading and writing the vault, the metadata cache, `processFrontMatter`, opening leaves, the editor. They become the inputs and outputs listed above.
- `Notice` messages, `console.error`, the `try`/`catch` wrappers and the missing-active-file checks are left out. They are user-interface and logging only.
- Several interface-only parts of `suggester.ts` are left out: `onOpen`, `renderSuggestion`, `selectSuggestion`, and the `setTimeout` that triggers the popup again. `selectSuggestion` hands a final item to note creation, which is not part of this model.
- `applySuggestion`'s `replaceRange` and `setCursor` are represented by the text and the cursor they would be given.
- Suggester.RelationSuggester.GetSuggestions: notes are their basenames. The vault's file list is the `vaultNotes` argument, read only while the stored list is empty.
- `createOrLinkNote` is left out except its link text: the folder choice, the file path, `moment()` and vault creation are I/O. In `getModifiedContent` the uid is a parameter, and an absent title is `''`.
- `getTemplateContent`, `commands/createNote.ts`, `commands/quickCreate.ts`, `commands/suggestTitle.ts`, `utils/aiService.ts`, `settings.ts` and the settings tab are not part of this model. They are file I/O, network requests and interface widgets.
- Text.Lower: lower-cases ASCII letters only, not the full Unicode mapping of `toLowerCase`. The relation names are Chinese and unaffected.
- Frontmatter.TemplateBlock: the pattern `/^---\s*\n([\s\S]*?)\n---\s*\n/` is modelled by the match it yields (`Matches`, `TemplateBlockFound`), not by a regular-expression engine. `\s` is JavaScript's white space (`Text.IsSpace`), and the backtracking of both `\s*` runs and of the lazy body is part of that match.
- Records.Record: keys keep insertion order. JavaScript lists integer-like keys first in `Object.keys`, and assigning `__proto__` changes the prototype; neither behaviour is modelled. `Object.prototype` names are modelled only where the code reads them: the parent-key lookup (`Get`), the relation-type lookup `RELATION_TYPES[typeAbbr]` (`Suggester.PrototypeRelation`) and `hasOwnProperty` called on an object that has its own `hasOwnProperty` key (`Shadowed`).
- Records.Value: YAML numbers are integers. Floating-point numbers are not modelled. There is no object case, so a nested YAML map in cached frontmatter cannot be represented: `full` mode copying one, and `String(obj)` when aliases are matched, are outside the model.
- InheritProperties.ParentOf: `getFirstLinkpathDest` and the parent's cache lookup are one `resolve` function. It gives the parent's frontmatter, or nothing for a missing note.
- Plugin.AssignInherited: the `processFrontMatter` callback receives the frontmatter the metadata cache had. The model does not cover a file changed in between.
- Frontmatter.RenderEntry: the `${value || ''}` of a scalar is the value itself. The template parser only produces strings, and `''` already renders as `''`.
- The `content += …` lines of the heading-less branch (`utils/fileModificationUtils.ts:70-73`) are not modelled. Their result is never written; only `lines` is.
- Frontmatter.Substitute: only `$$` has its own lemmas (`ReplacedDropsDollar`, `AsWrittenDropsDollar`), and a block without `$` is proved to go in literally (`ReplacedLiteral`). The other `$` patterns (`` $` ``, `$'`, `$&`, `$1`) are defined in `Substitute` without their own lemmas.
- Suggester.LineBefore: a column that falls inside a surrogate pair cuts the line before that character. JavaScript would keep the lone high surrogate, which a Dafny `char` cannot hold.
- FrontmatterSynthesis.GetModifiedContent: its `None` stands for the `TypeError` that `hasOwnProperty` throws. `createOrLinkNote` catches it (`main.ts:276-279`), shows a notice and creates no note. That reporting is left out with the rest of `createOrLinkNote`.
- Behaviours of the code worth noting:
  - Concept names are separated only by `_`, not by `，` (`suggester.ts:83`, `suggester.ts:167`).
  - A query with an empty tail is still offered as a final item, its title ending in `-`.
  - A concept rewrite re-joins the segments with `；` rather than keeping the separators the user typed.

## Findings

| source | as written | input that shows it | evidently intended | confidence | as-written member | corrected member |
|---|---|---|---|---|---|---|
| utils/frontmatterUtils.ts:96 | `templateContent.replace(fmRegex, newFmBlock)` reads `$` patterns in the new block (also `main.ts:414`) | a template whose frontmatter holds `price: $$5`: the new note holds `price: $5` (`AsWrittenDropsDollar`) | the new block inserted verbatim in place of the old one (`ModifiedContent`, `ReplacedLiteral`) | not executed | Frontmatter.ModifiedContentAsWritten | Frontmatter.ModifiedContent |
| suggester.ts:161 | `RELATION_TYPES[typeAbbr]` also finds the properties every object inherits | the query `constructor；A；B`: the final item creates `A-function Object() { [native code] }-B` (`ConstructorAccepted`) | only the four abbreviations of the table are relation types (`Lookup`, `ParseQueryOf`) | not executed | Suggester.ParseQueryToPartsAsWritten | Suggester.ParseQueryToParts |

The methods that model the code follow the as-written members: `Suggest` and `GetSuggestions` use `PrototypeRelation`, and `GetModifiedContent` computes `ModifiedContentAsWritten`. The corrected members state what the code evidently intends, and `SuggestionsAgree` and `ModifiedContentAsWritten` say where the two coincide.

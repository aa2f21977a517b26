# uscode in Dafny

A model of the core of `uscode`, a tool that turns the published editions of
the United States Code into structured data, with proofs about that model.
It covers two pipelines.

**Tables of contents.** Two front ends build the same nested table of titles,
chapters, subchapters, parts and sections:

- `tasks/structure.py` reads the legacy XHTML edition (`legacy_toc.dfy`).
  Each `expcite` comment is parsed into a citation path:
  - phantom (repealed, reserved, omitted, transferred) paths are discarded;
  - appendix titles get their "a" suffix;
  - unlabelled components become headings;
  - a trailing `Sec.` component is dropped.
  
  Each `§` heading then becomes a section segment with its citation, and the
  path is merged into a forest of titles.
- `tasks/structure_xml.py` reads the USLM XML edition (`xml_toc.dfy`). It
  walks the element tree recursively:
  - it removes footnotes from headings;
  - it normalises numbers and names;
  - it drops phantom entries together with everything under them;
  - it threads a path with a `None` marker for unnumbered levels;
  - it computes citations with the per-level scoping rules;
  - it can flatten the table to titles and sections.

Both sort titles by the same numeric-then-textual key (`toc.dfy`, an
in-place insertion sort on an array).

**GPO Locator pipeline.**

- `uscode/parser.py` chops bell-coded lines into code, argument and data,
  and swaps escape sequences for the characters they stand for
  (`gpo_lines.dfy`).
- `uscode/grouper.py` regroups the lines into title, chapter and section
  documents and their sub-documents (`grouper.dfy`).
- `uscode/models.py` holds the readers of those documents (`models.dfy`),
  with the footnote patterns in `footnotes.dfy`:
  - the class registry;
  - heading numbers and names;
  - the two tables of contents;
  - a section's number, name and body lines.
- `uscode/schemes.py` classifies enumeration tokens into numbering schemes,
  gives their positions, and decides whether one could follow another
  (`schemes.dfy` for tokens, `enums.dfy` for compound enumerations such as
  `(3-a).`).
- `uscode/structure.py` nests a section's enumerated paragraphs into a tree
  (`enum_tree.dfy`). Nodes live in an arena and point to their parent by id.
  A `Parser` class holds the tree, the code map and the footnote map, and
  updates them token by token.

`common.dfy` holds the `Option`/`Result` wrappers and the Python string
operations the code relies on (`strip`, `replace`, `split`, `startswith`,
`lower`) written over `seq<char>`.

Where the code's behaviour differs from what its design suggests, the model
follows the code, except for the three defects listed under "Findings":

- `tasks/structure.py` initialises the current path once, before its loop
  over files, and never resets it between documents. The model threads the
  path from one document to the next.
- `Node.append` (uscode/structure.py:200-201) appends to the parent without
  returning, then also retries at the parent.
- `grouper.group` never emits the last open document.

Each of the three defects under "Findings" is modelled both ways. The
as-written members reproduce the source, and the corrected ones are what the
pipelines run by default:

- `GpoLines.GetLines` chops with the corrected `GpoLines.Chop`, and
  `GpoLines.GetLinesAsWritten` runs the same loop with
  `GpoLines.ChopAsWritten`.
- `EnumTree.Parser` takes the note lookup of `after_append` as a constructor
  argument: the whole footnote number, or `text[3]` as written.

## Model

| member | source | states |
|---|---|---|
| Toc.LevelNameInjective | tasks/structure_xml.py:76-80 | distinct levels print distinct level names, so an entry's level is recoverable from its output |
| Toc.ParseInt | tasks/structure.py:111 | once surrounding whitespace is stripped, `int()` succeeds exactly when the rest is a non-empty run of digits, or a `+` or `-` followed by one; the value is the run's decimal value, negated after `-` |
| Toc.ParseIntDecimal | tasks/structure.py:111 | `int(str(n))` gives back `n` |
| Toc.ParseIntNegative | tasks/structure.py:111 | `int("-" + str(n))` gives back `-n` |
| Toc.ParseIntMinus | tasks/structure.py:111 | a minus sign before a non-empty digit run gives the negated decimal value |
| Toc.StrLeTotal | tasks/structure.py:111 | Python's string order compares any two strings |
| Toc.StrLeTransitive | tasks/structure.py:111 | Python's string order is transitive |
| Toc.StrLeAntisymmetric | tasks/structure.py:111 | two strings each at most the other are equal |
| Toc.SortKey | tasks/structure.py:111 | a title has a key exactly when it has a number and that number minus its `a`s parses as an integer; the key is that integer, then the number itself |
| Toc.KeyLeTotal | tasks/structure.py:111 | the `(int, str)` tuple order compares any two keys |
| Toc.KeyLeTransitive | tasks/structure.py:111 | the tuple order is transitive |
| Toc.SortTitles | tasks/structure.py:111 | the sort succeeds exactly when every title has a key; on failure the list is unchanged; on success it is ordered by key, a permutation of the input, and stable: the titles of each key keep their relative order |
| Toc.AllKeyed | tasks/structure_xml.py:63 | reports true exactly when every element has a sort key |
| Toc.InsertionSort | tasks/structure_xml.py:63 | the array ends ordered by key, a permutation of the input, with the elements of each key in their original order |
| Toc.AdjacentSortedIsSorted | tasks/structure.py:111 | ordered neighbours make the whole sequence ordered |
| Toc.Swap | tasks/structure.py:111 | exchanges two elements, keeps all others and the multiset of elements |
| Toc.InsertOne | tasks/structure.py:111 | one insertion step extends the sorted prefix by one element, keeps the multiset, and keeps the elements of each key in order |
| Toc.WithKeyConcat | tasks/structure.py:111 | the elements of one key in two pieces put together are those of the first piece, then those of the second |
| Toc.WithKeySwap | tasks/structure.py:111 | exchanging two neighbours with different keys keeps the elements of every key in order |
| LegacyToc.LevelLabel | tasks/structure.py:132 | the level word found labels the component (word, then a space) and is one of the seven level words of the pattern |
| LegacyToc.LevelMatch | tasks/structure.py:132 | a `LEVEL NUMBER-NAME` match yields a level word, a non-empty number without a hyphen and a name, which put back together with the space and the first hyphen give the whole component |
| LegacyToc.LabelUnique | tasks/structure.py:132 | at most one level word labels a component, so the order of the alternatives does not matter |
| LegacyToc.LevelLabelOf | tasks/structure.py:132 | a component that starts with a level word and a space is recognised as that level |
| LegacyToc.LevelMatchOf | tasks/structure.py:132 | round trip: `LEVEL NUMBER-NAME` built from a level, a hyphen-free number and any name matches back to exactly those three |
| LegacyToc.LevelComponent | tasks/structure.py:139-144 | a labelled component (not a first title) becomes the segment (level, number with en-dashes replaced by hyphens, name) |
| LegacyToc.TitleAppendix | tasks/structure.py:146-150 | the appendix rewrite touches only a first title component and never changes level or citation |
| LegacyToc.AppendixReplace | tasks/structure.py:148 | `11, APPENDIX` with `, APPENDIX` replaced by `a` is `11a` |
| LegacyToc.AppendixNumberForm | tasks/structure.py:147-148 | a first title numbered `11, APPENDIX` becomes title `11a` and its name gains ` (APPENDIX)` |
| LegacyToc.AppendixNameForm | tasks/structure.py:149-150 | a title named `APPENDIX` gets an `a` after its number in first position only |
| LegacyToc.SectionAndHeadingComponents | tasks/structure.py:133-159 | a `Sec.` component is dropped exactly when it is last and raises otherwise; an unlabelled, non-phantom component is a heading with no number |
| LegacyToc.PhantomOutcome | tasks/structure.py:127-130 | exactly the `[...-REPEALED]`-style components are phantoms; a dropped `Sec.` component is always the last |
| LegacyToc.DropSectionsLast | tasks/structure.py:152-156 | only the last component can be a dropped `Sec.` entry |
| LegacyToc.KeptSegmentShape | tasks/structure.py:137-150 | a kept component carries no citation and is never a section |
| LegacyToc.Outcomes | tasks/structure.py:126-159 | one verdict per component, in order, each the component parser's verdict on that component at its position |
| LegacyToc.CollectFirstStop | tasks/structure.py:126-161 | the loop's result is decided by the first component not kept: phantom gives no path, a dropped `Sec.` gives the kept prefix, anything else raises; with none, every segment in order |
| LegacyToc.CollectPhantom | tasks/structure.py:126-130 | a returned path crossed no phantom; no path is returned exactly when a phantom comes before any raising component |
| LegacyToc.ExpcitePhantom | tasks/structure.py:122-130 | over the split components: a returned path has no phantom component, and the path is void exactly when a phantom is reached with every earlier component kept |
| LegacyToc.CollectShape | tasks/structure.py:126-161 | a returned path is the segments of the leading kept verdicts: all of them, or those before a dropped `Sec.` |
| LegacyToc.ExpcitePath | tasks/structure.py:122-161 | a returned path has one segment per kept component, in order, uncited and never a section, with at most a final `Sec.` component missing |
| LegacyToc.ParseExpciteInPlace | tasks/structure.py:122-161 | the in-place loop over the split list returns exactly the functional definition of `parse_expcite` |
| LegacyToc.RewritePath | tasks/structure.py:126-161 | rewriting the list in place, popping a last `Sec.` and stopping at a phantom, computes the fold over the verdicts |
| LegacyToc.FirstNumberEnd | tasks/structure.py:174 | the lazy `(.*?)` ends at the first position from which ` ` or `. ` follows, and at no earlier one |
| LegacyToc.SplitHeading | tasks/structure.py:174-175 | a parsed heading is the section sign, the number, ` ` or `. `, and the name |
| LegacyToc.SplitHeadingRoundTrip | tasks/structure.py:174 | round trip: a space-free number and any name, joined by ` ` or `. `, split back into that number and name |
| LegacyToc.CitationFor | tasks/structure.py:215-221 | the citation is `usc/`, the title without one leading `0`, `/`, the number |
| LegacyToc.CitationParts | tasks/structure.py:215-221 | the citation splits at `/` back into `usc`, the title and the number |
| LegacyToc.Filtered | tasks/structure.py:189-193 | under `sections_only` exactly the title and section segments survive, in order; otherwise the path is unchanged |
| LegacyToc.FilteredAppend | tasks/structure.py:180-193 | the section appended to the path is never filtered out |
| LegacyToc.InsertPathSpine | tasks/structure.py:188-197 | after insertion the path lies along the last entry at each depth |
| LegacyToc.InsertPathExtends | tasks/structure.py:188-197 | insertion removes and reorders nothing: old entries stay, only last entries gain children |
| LegacyToc.InsertPathPresent | tasks/structure.py:195 | a path already along the last entries adds nothing |
| LegacyToc.InsertPathIdempotent | tasks/structure.py:188-197 | inserting the same path twice equals inserting it once |
| LegacyToc.InsertPathCount | tasks/structure.py:188-197 | insertion adds at most one entry per segment of the path |
| LegacyToc.InsertPathAllNodes | tasks/structure.py:188-197 | a property of every inserted segment and every old entry holds of every entry after |
| LegacyToc.ParseH3Inserts | tasks/structure.py:163-197 | a placeholder heading changes nothing; any other adds its section, with its citation, below the filtered path, keeping every entry and adding at most one per segment |
| LegacyToc.ReformatAll | tasks/structure.py:200-213 | one output entry per TOC entry |
| LegacyToc.ReformatFields | tasks/structure.py:200-213 | each output entry keeps level, number and name, has a citation only if a section, and one subpart per child |
| LegacyToc.ReformatRoundTrip | tasks/structure.py:200-213 | when exactly the sections carry citations, reading the output back gives the TOC |
| LegacyToc.ExpcitePayload | tasks/structure.py:83-87 | the payload is non-empty, ends in a non-space, directly follows ` expcite:` and is followed only by whitespace; there is none exactly when the text does not start with ` expcite:` or only whitespace follows it |
| LegacyToc.TitleOfFile | tasks/structure.py:67-71 | a title read from a file name starts with a digit |
| LegacyToc.TitleOfName | tasks/structure.py:67-71 | a title read from a name without `.htm` starts with a digit |
| LegacyToc.UscDigits | tasks/structure.py:67 | the count of title digits is at most the stem length, and those last characters are digits |
| LegacyToc.TitleOfFileRoundTrip | tasks/structure.py:67-71 | round trip: the file `...usc<digits>[a].htm` gives back exactly the digits and the `a` |
| LegacyToc.TitleOfNameOf | tasks/structure.py:67-71 | a stem ending in `usc` and digits, with an optional `a`, names those digits and the `a` |
| LegacyToc.UscStem | tasks/structure.py:67 | in `...usc<digits>` exactly the given digits follow `usc` |
| LegacyToc.HeadingWithoutPath | tasks/structure.py:96-102 | a `§` heading with no pending path (none or empty) raises `h3 without path` |
| LegacyToc.HeadingClearsPath | tasks/structure.py:96-108 | other elements and headings without `§` change nothing; a processed `§` heading clears the path and keeps the TOC's entries |
| LegacyToc.ScanNodeInvariant | tasks/structure.py:80-108 | one node keeps the invariant: pending paths uncited and without sections, citations exactly on sections, only titles and sections under `sections_only` |
| LegacyToc.ScanNodesInvariant | tasks/structure.py:80-108 | a page of nodes keeps that invariant |
| LegacyToc.ScanDocsInvariant | tasks/structure.py:66-108 | all documents keep the invariant, so the final TOC survives reformatting unchanged |
| LegacyToc.ScanDocument | tasks/structure.py:80-108 | the loop over a page's nodes computes the scanning function, error included |
| LegacyToc.Run | tasks/structure.py:61-114 | a scanning error is returned as is; the sort succeeds exactly when every title has a key; the output is the reformatted, key-sorted permutation of the scanned TOC in which titles with equal keys keep their scanned order |
| XmlToc.FilterNbsp | tasks/structure_xml.py:159-162 | a text ending in a no-break or narrow no-break space loses exactly that last character; any other text is kept |
| XmlToc.HeadingElement.RemoveFootnotes | tasks/structure_xml.py:156-169 | removing the footnotes in place leaves the heading's text and children equal to the functional removal on the old ones |
| XmlToc.Untailed | tasks/structure_xml.py:163-169 | one blanked-out child per child |
| XmlToc.UntailedAppend | tasks/structure_xml.py:163-169 | blanking tails distributes over concatenation |
| XmlToc.DropNotesKeepsOthers | tasks/structure_xml.py:163-169 | removal keeps exactly the non-footnote children, in order and with their contents; only their tails change |
| XmlToc.RetailedLast | tasks/structure_xml.py:165-166 | moving a tail onto the previous child changes nothing once tails are blanked |
| XmlToc.DropNotesUnfold | tasks/structure_xml.py:163-169 | the removal is one visit to the first remaining child followed by the removal over the rest |
| XmlToc.DropNotesLeavesNoFootnote | tasks/structure_xml.py:163-169 | after removal no footnote is left among the children |
| XmlToc.MoveTail | tasks/structure_xml.py:165-166 | moving a clean tail onto the last kept child keeps tails clean and appends that tail to the string value |
| XmlToc.NextStateValue | tasks/structure_xml.py:163-169 | one visit keeps the pieces clean and the string value, less the footnote's own text |
| XmlToc.DropNotesValue | tasks/structure_xml.py:156-169 | where no piece ends in a no-break space, the heading reads after removal as before with every footnote's own text cut out and its tail kept |
| XmlToc.DropNotesNoFootnotes | tasks/structure_xml.py:163-169 | a heading without footnotes is left unchanged |
| XmlToc.NumberOfShape | tasks/structure_xml.py:77-96 | a number, when present, is non-empty, has no en dash and starts and ends with a non-space |
| XmlToc.DashesReplaced | tasks/structure_xml.py:95 | replacing en dashes leaves none and keeps the text's ends non-space |
| XmlToc.NameOf | tasks/structure_xml.py:92-94 | a name never contains a soft hyphen |
| XmlToc.Extended | tasks/structure_xml.py:107-110 | the path grows by exactly one step and keeps its old steps |
| XmlToc.StepTexts | tasks/structure_xml.py:125 | one `level/number` text per step |
| XmlToc.CitationOf | tasks/structure_xml.py:112-125 | a section or chapter fails exactly when the title step is unnumbered and is otherwise always cited; another level is cited exactly when no step of the path is unnumbered |
| XmlToc.ProcNamed | tasks/structure_xml.py:71-154 | a named, non-phantom element: the citation error, then a child error, wins; otherwise under `sections_only` a middle level contributes its children, and any other element contributes one entry with its level, number, name, citation and children |
| XmlToc.ProcNode | tasks/structure_xml.py:71-154 | the recursive method appends to the parent's list exactly what the functional definition adds, errors included |
| XmlToc.ProcChildrenInto | tasks/structure_xml.py:136-139 | the loop over the structural children appends what each child adds in turn, stopping at the first error |
| XmlToc.PrependThen | tasks/structure_xml.py:138-139 | an error in a child ends the loop; a result extends the list before the rest |
| XmlToc.AllEntriesAppend | tasks/structure_xml.py:141-154 | a property of every entry of two lists holds of their concatenation |
| XmlToc.AllEntriesOne | tasks/structure_xml.py:141-154 | an entry with the property over subparts that all have it makes a list that has it |
| XmlToc.ProcEntriesOk | tasks/structure_xml.py:71-154 | every entry produced has a citation exactly when a section or chapter or a fully numbered path, and under `sections_only` only titles and sections appear |
| XmlToc.ProcChildrenEntriesOk | tasks/structure_xml.py:136-139 | the same for the entries of a list of children |
| XmlToc.ProcAtMostOne | tasks/structure_xml.py:149-154 | without `sections_only` an element adds one entry or none |
| XmlToc.SectionsOfAppend | tasks/structure_xml.py:149-154 | the sections of a concatenation are those of each part in order |
| XmlToc.SectionsOfOne | tasks/structure_xml.py:149-151 | the sections under a non-section entry are those of its subparts |
| XmlToc.FlattenKeepsSections | tasks/structure_xml.py:149-154 | flattening loses no section: with and without `sections_only` the same errors arise and the same sections come out in the same order |
| XmlToc.ChildrenFlattenKeepsSections | tasks/structure_xml.py:136-139 | the same for a list of children |
| XmlToc.LevelNameNoSlash | tasks/structure_xml.py:76-80 | no level name contains a slash |
| XmlToc.Flat | tasks/structure_xml.py:125 | two strings, level and number, per step |
| XmlToc.StepTextsFlat | tasks/structure_xml.py:125 | joining the `level/number` texts equals joining levels and numbers alternately |
| XmlToc.SectionCitationParts | tasks/structure_xml.py:113 | a section citation splits at `/` back into `usc`, the title's number and the section's number |
| XmlToc.ChapterCitationParts | tasks/structure_xml.py:119 | a chapter citation splits back into `usc`, `title`, the title's number, `chapter` and the chapter's number |
| XmlToc.ChapterCitationJoin | tasks/structure_xml.py:119 | the chapter format is the slash-join of its five parts |
| XmlToc.PathCitationSplit | tasks/structure_xml.py:125 | another level's citation splits back into `usc` and then the levels and numbers of the path, alternating |
| XmlToc.PathCitationJoin | tasks/structure_xml.py:125 | the path citation is the slash-join of `usc` and the alternating levels and numbers |
| XmlToc.Run | tasks/structure_xml.py:52-63 | a processing error is returned as is; the sort succeeds exactly when every title has a key; the output is the key-sorted permutation of the processed titles in which titles with equal keys keep their order |
| Schemes.Letter | uscode/schemes.py:29-30 | the k-th letter is a capital in the upper alphabet and a small letter in the lower one |
| Schemes.Romans | uscode/schemes.py:34-42 | the table holds forty-nine numerals |
| Schemes.RomanCombinationEmpty | uscode/schemes.py:39-41 | only the first combination, of the two empty parts, is empty, so the filter drops exactly one |
| Schemes.RomanLetters | uscode/schemes.py:36-37 | every numeral of the table is made of i, v, x and l |
| Schemes.RomansOrder | uscode/schemes.py:34-42 | the table runs i..ix, x..xxxix, then l..lix; `xl` never appears |
| Schemes.CombinationAt | uscode/schemes.py:39-40 | the combination at `10*t + o` is the t-th tens part followed by the o-th ones part |
| Schemes.CombinationNext | uscode/schemes.py:39-40 | appending the next tens-and-ones pair extends the combinations by the next one |
| Schemes.Combinations | uscode/schemes.py:38-40 | the nested loop builds all fifty combinations, in order |
| Schemes.BuildRomans | uscode/schemes.py:34-42 | the nested loop plus the filter computes the numeral table |
| Schemes.RomansAfterFirst | uscode/schemes.py:41 | the combinations after the empty first one are the numerals |
| Schemes.LetterList | uscode/schemes.py:48-55 | every letter scheme lists twenty-six tokens |
| Schemes.SchemeList | uscode/schemes.py:47-59 | every scheme lists at least twenty-six tokens |
| Schemes.UpperRomans | uscode/schemes.py:57 | the upper roman list has forty-nine numerals |
| Schemes.DigitList | uscode/schemes.py:58 | the digits scheme lists the numbers 1 to 199 |
| Schemes.LetterListMember | uscode/schemes.py:48-55 | a text is in a letter list exactly when it repeats one letter of the list's case the list's number of times, and it sits at that letter's place |
| Schemes.FirstToken | uscode/schemes.py:72-76 | the schemes' first tokens are a, A, aa, AA, aaa, AAA, aaaa, AAAA, i, I and 1 |
| Schemes.SchemeIndex | uscode/schemes.py:47-59 | every scheme has a place in the table |
| Schemes.FirstTokensDistinct | uscode/schemes.py:80-82 | no two schemes share their first token, the module's own assertion |
| Schemes.FirstInSchemeTokens | uscode/schemes.py:221-225 | a token is first in a scheme exactly when it is one of the eleven first tokens |
| Schemes.RomanMember | uscode/schemes.py:56-57 | a numeral of a roman list is all letters, capitals exactly in the upper list |
| Schemes.RomanShortRuns | uscode/schemes.py:199-203 | no numeral of the table repeats one letter more than four times, so a roman token never reaches the multiple-letter lookup's missing key through the table |
| Schemes.RomanHeads | uscode/schemes.py:36-40 | a numeral with both a tens and a ones part changes letter where the ones part starts |
| Schemes.SchemesComplete | uscode/schemes.py:150-219 | every scheme whose list holds the token is among the token's schemes |
| Schemes.SchemesSound | uscode/schemes.py:150-219 | every scheme of a token other than digits lists it; digits is among them exactly for a run of digits |
| Schemes.IndexOf | uscode/schemes.py:240 | `list.index` gives the first place holding the token |
| Schemes.IndexOfAt | uscode/schemes.py:240 | the first place holding a text is its index |
| Schemes.LetterPosition | uscode/schemes.py:48-55 | a letter token sits at its letter's place in the alphabet |
| Schemes.DigitsPosition | uscode/schemes.py:58 | the decimal text of n sits at place n - 1 of the digits scheme |
| Schemes.Ordinality | uscode/schemes.py:227-242 | the positions are keyed by exactly the token's schemes, and each is the token's first place in that scheme's list |
| Schemes.OrdinalityOk | uscode/schemes.py:227-242 | the positions exist exactly when the schemes do and a digits token is one of the listed numbers |
| Schemes.OrdinalityOf | uscode/schemes.py:239-240 | with known schemes, the positions exist exactly when every list holds the token, and are then the `list.index` of each; otherwise `list.index` raises |
| Schemes.OrdinalityFound | uscode/schemes.py:239-242 | what the loop finds is the token's ordinality, or the `list.index` error when some list lacks the token |
| Schemes.PositionsIn | uscode/schemes.py:237-240 | the loop finds a position for every given scheme exactly when every list holds the token, and each is that list's index of it |
| Schemes.ConsecutiveStep | uscode/schemes.py:252-263 | a `consecutive` answer comes from distinct tokens whose positions are one apart in a shared scheme |
| Schemes.FirstPositions | uscode/schemes.py:262 | two first occurrences one place apart have indices one apart |
| Schemes.ConsecutiveFollows | uscode/schemes.py:252-263 | a `consecutive` answer names a scheme in which the token directly follows the other |
| Schemes.FollowsConsecutive | uscode/schemes.py:252-263 | when the token directly follows the other in some scheme, the answer is `consecutive` unless computing it raises |
| Schemes.TokenNextMeaning | uscode/schemes.py:244-264 | `equal` exactly on equal text; `consecutive` exactly when the token directly follows the other in some scheme |
| Schemes.LetterSuccessor | uscode/schemes.py:48-55 | each letter, single or repeated up to four times, is consecutive after the one before it |
| Schemes.SuccessorOk | uscode/schemes.py:244-264 | two different tokens one apart in a scheme, digits within the list, compare as `consecutive` without raising |
| Schemes.NextOk | uscode/schemes.py:244-264 | the comparison raises only when a token's schemes or positions do |
| Schemes.DigitsSuccessor | uscode/schemes.py:58 | each number up to 199 is consecutive after the one before it |
| Schemes.Token.constructor | uscode/schemes.py:123-125 | a new token holds its text and nothing cached |
| Schemes.Token.GetSchemes | uscode/schemes.py:150-219 | returns the token's schemes or the unrecognised-scheme error, caching a result and keeping the cache consistent |
| Schemes.Token.GetOrdinality | uscode/schemes.py:227-242 | returns the token's positions in its schemes or the error; a success is cached as the token's ordinality and an error leaves that cache alone; a non-empty cached ordinality is returned without computing the schemes, which otherwise are computed and cached |
| Enums.LeadingOpens | uscode/schemes.py:351-355 | the count of leading `(` stops at the first character that is not one |
| Enums.TrailingCloses | uscode/schemes.py:357-361 | the count of trailing `.` and `)` stops at the first character from the end that is neither |
| Enums.RunLength | uscode/schemes.py:298-304 | a run of one kind stops at the first character of another kind |
| Enums.Tokenize | uscode/schemes.py:366-373 | every token found is a non-empty run of one kind of character |
| Enums.StripOpens | uscode/schemes.py:351-355 | the loop moves exactly the leading `(` into the left format, failing with `IndexError` exactly when nothing else is left |
| Enums.OpensAt | uscode/schemes.py:352 | the first place that is not `(` is the count of leading `(` |
| Enums.StripCloses | uscode/schemes.py:357-361 | the loop moves exactly the trailing `.` and `)`, last first, into the right format, failing exactly when nothing else is left |
| Enums.ClosesAt | uscode/schemes.py:358 | the first place from the end that is neither `.` nor `)` is the count of trailing closers |
| Enums.NewEnum | uscode/schemes.py:306-378 | the constructor as written, with its screening and two loops, computes the functional parse |
| Enums.ParseRoundTrip | uscode/schemes.py:344-378 | round trip: left format, text and right format reversed give back the stripped input |
| Enums.ParseFormats | uscode/schemes.py:344-364 | the left format is all `(`, the right format all `.` and `)`, and the text neither starts with `(` nor ends with either |
| Enums.FormatLeftOpens | uscode/schemes.py:351-355 | the left format holds only `(` |
| Enums.FormatRightCloses | uscode/schemes.py:357-361 | the right format holds only `.` and `)` |
| Enums.TextEnds | uscode/schemes.py:350-361 | the enum's text neither starts with `(` nor ends with `.` or `)` |
| Enums.CoreEnds | uscode/schemes.py:350-361 | the same, stated for the text once stripped |
| Enums.RecognizedNoSpace | uscode/schemes.py:327-334 | a text that passes the screening has no whitespace, so stripping does nothing |
| Enums.TokenizeCovers | uscode/schemes.py:298-304 | the tokens together spell out every character a pattern matches, in order |
| Enums.MatchedRun | uscode/schemes.py:298-304 | a run of matched characters is kept whole |
| Enums.TokenizeMaximal | uscode/schemes.py:298-304 | the matches are maximal: no token continues the kind of the one before it |
| Enums.TokenizeHead | uscode/schemes.py:366-373 | in a text that starts with a matched character, the first token starts there |
| Enums.Words | uscode/schemes.py:437-438 | the words are tokens of the enum, none of them `-` |
| Enums.PlacesIn | uscode/schemes.py:493-498 | at most one place per scheme |
| Enums.EnumOrdinalityShape | uscode/schemes.py:464-500 | every entry is non-empty and keyed by a scheme of the first token; a scheme listing the whole text holds exactly its index |
| Enums.LexLessIrreflexive | uscode/schemes.py:400 | no list of places is below itself |
| Enums.LexLessTrichotomy | uscode/schemes.py:400 | exactly one of x < y, x == y, y < x holds for lists of places |
| Enums.LexLessTransitive | uscode/schemes.py:400 | list order is transitive |
| Enums.EnumLe | uscode/schemes.py:404-408 | equal text gives True; otherwise the answer is `<` |
| Enums.EnumGe | uscode/schemes.py:419-423 | equal text gives True; otherwise the answer is `>` |
| Enums.LtGtConverse | uscode/schemes.py:389-417 | a < b exactly when b > a, and both raise or neither does |
| Enums.LtIrreflexive | uscode/schemes.py:389-417 | no enum is less or greater than itself |
| Enums.NoSharedScheme | uscode/schemes.py:399-402 | enums with no shared scheme are neither less nor greater |
| Enums.Zip | uscode/schemes.py:524-525 | the pairs run to the shorter list and pair the tokens at each place |
| Enums.CouldBeNextAfter | uscode/schemes.py:508-540 | the loop that stops at the first pair that cannot follow computes the functional definition |
| Enums.NextLoopTrue | uscode/schemes.py:527-540 | the loop answers True exactly when every pair is equal or consecutive and, counting the flag, at most one is consecutive |
| Enums.EnumNextTrue | uscode/schemes.py:508-540 | an enum can follow another exactly when their texts differ, its extra words each start a scheme, and every token pair is equal or consecutive with at most one consecutive |
| GpoLines.MatchCode | uscode/parser.py:150-151 | a code is matched right after the bell character, it is one of the table's codes, and no longer code also matches there; with no match, no code starts there |
| GpoLines.ShapeOf | uscode/parser.py:120-147 | a two-digit code takes no argument; any other code's argument pattern is its table entry |
| GpoLines.DigitRun | uscode/parser.py:124-136 | the digits counted are at most the limit, are all digits and stop at a non-digit unless the limit is reached |
| GpoLines.LineRun | uscode/parser.py:146 | `.+` runs up to the first newline |
| GpoLines.MatchArg | uscode/parser.py:153-156 | a matched argument starts the text and fits the code's pattern |
| GpoLines.MatchArgNone | uscode/parser.py:153-156 | the argument pattern fails only when no prefix of the text fits it |
| GpoLines.KeyShapes | uscode/parser.py:161-201 | every escape key is one character, or three or four starting with `\xff`; four-character ones extend `\xffAE` by a digit |
| GpoLines.SpecialCharsPrefixFree | uscode/parser.py:161-201 | no escape key is a proper prefix of another |
| GpoLines.SpecialCharsHeads | uscode/parser.py:161-201 | every escape key starts with one of the escape characters |
| GpoLines.LongestKey | uscode/parser.py:203-206 | what is matched is a key of the table that starts the text |
| GpoLines.LongestKeyNone | uscode/parser.py:203-206 | when no prefix is a key, nothing is matched |
| GpoLines.LongestKeyFound | uscode/parser.py:203-206 | a key starting the text with no longer key after it is the one matched |
| GpoLines.LongestKeyLongest | uscode/parser.py:205 | what is matched is the longest key starting the text |
| GpoLines.SwapPlainThen | uscode/parser.py:208-209 | text without escape characters is kept, and the text after it is swapped on its own |
| GpoLines.SwapKeyThen | uscode/parser.py:208-209 | a key is replaced by its text whatever follows it |
| GpoLines.SwapPlainWith | uscode/parser.py:208-209 | swapping changes nothing in text without escape characters |
| GpoLines.SwapPlain | uscode/parser.py:208-209 | the same for the escape table itself |
| GpoLines.SwapSections | uscode/parser.py:208 | `\x06\x06` between plain texts becomes `§§`, the module's own example |
| GpoLines.SwapSection | uscode/parser.py:164 | `\x06` becomes `§` whatever follows |
| GpoLines.SectionEscape | uscode/parser.py:164 | `\x06` is a key whose text is `§` |
| GpoLines.SwapEscapeThen | uscode/parser.py:208-209 | any escape sequence is replaced by its text whatever follows it |
| GpoLines.SwapBreve | uscode/parser.py:191 | `\xffAE0` is one breve whatever follows it, never a shorter key |
| GpoLines.BreveEscape | uscode/parser.py:191 | `\xffAE0` is a key whose text is the breve |
| GpoLines.CodeArg | uscode/parser.py:96-98 | `codearg` succeeds exactly when there is an argument; otherwise it is the concatenation TypeError |
| GpoLines.BlankStrip | uscode/parser.py:219 | `line.strip()` is empty exactly when the line holds only whitespace |
| GpoLines.Chop | uscode/parser.py:218-244 | the corrected reading of one line: blank and code-less lines yield nothing; otherwise the longest code, the argument its pattern matches, then the swapped rest; a two-digit code takes no argument; the only error is an argument pattern that does not match |
| GpoLines.ChoppedWithoutArg | uscode/parser.py:230-244 | a code without argument is followed by the data |
| GpoLines.ChoppedWithArg | uscode/parser.py:235-244 | a code with an argument is followed by the argument, then the data |
| GpoLines.HeadThenArg | uscode/parser.py:222-242 | the code and the argument that follows it are the text after the bell character |
| GpoLines.ChopAsWritten | uscode/parser.py:218-244 | one line as written: it yields nothing exactly when the line is blank or has no code (the other cases are stated by ChopAsWrittenKeyError, ChopAsWrittenNoArg and ChopAsWrittenWithArg) |
| GpoLines.TableShapeOfCode | uscode/parser.py:120-147 | a matched code is a key of the table exactly when it is not two digits, and then the table gives it the shape the corrected reading uses |
| GpoLines.ChopAsWrittenWithArg | uscode/parser.py:230-244 | for a code that takes an argument the as-written and corrected readings agree |
| GpoLines.WithArg | uscode/parser.py:238-244 | the argument branch both readings share: an argument pattern that does not match is a `NoGroup` error, otherwise the line yields the code, the matched argument and the swapped rest after it, and never yields nothing |
| GpoLines.ChoppedWithShape | uscode/parser.py:238-244 | after a code that takes an argument, a successful chop splits the line back into bell, code, argument and swapped data |
| GpoLines.ChopAsWrittenKeyError | uscode/parser.py:233 | as written, a two-digit code is not a key of the table and the lookup raises `KeyError` with that code |
| GpoLines.ChopAsWrittenNoArg | uscode/parser.py:234-236 | as written, a code without an argument keeps the start position at 1, so the data is the swapped line after the bell, code included |
| GpoLines.DigitCodeKeyError | uscode/parser.py:141 | as written, a line whose code is two digits raises `KeyError` |
| GpoLines.DigitCodeNoArg | uscode/parser.py:141 | read as intended, a two-digit code takes no argument and the rest of the line is its data |
| GpoLines.DigitLine | uscode/parser.py:141 | a line with code `12` is not blank, matches the code `12`, and its data starts after it |
| GpoLines.ChopNoArg | uscode/parser.py:230-244 | a code without argument leaves the rest of the line, swapped, as data |
| GpoLines.KCode | uscode/parser.py:139 | `K` is matched as a code and takes no argument |
| GpoLines.DataKeepsCode | uscode/parser.py:222-242 | as written, a code without argument is left at the head of the data |
| GpoLines.DataAfterCode | uscode/parser.py:222-242 | with the start moved past the code, the data of a code without argument starts right after it |
| GpoLines.CodeArgFollowsBell | uscode/parser.py:93-98 | the code and the argument run together are the text right after the bell character |
| GpoLines.ChopAll | uscode/parser.py:215-244 | at most one locator line per input line |
| GpoLines.ChopAllAppend | uscode/parser.py:218 | chopping two pieces gives the first's lines then the second's, unless the first stops with an error |
| GpoLines.ChopAllFrom | uscode/parser.py:218-244 | every line yielded is the chopped form of some input line |
| GpoLines.ChopAllBlank | uscode/parser.py:219 | blank lines yield nothing |
| GpoLines.GetLines | uscode/parser.py:215-244 | the loop of `getlines` with the corrected chopping yields exactly the chopped lines, up to the first error |
| GpoLines.GetLinesAsWritten | uscode/parser.py:215-244 | the loop of `getlines` with the as-written chopping yields exactly those chopped lines, up to the first error |
| GpoLines.ChopAllAlike | uscode/parser.py:215-244 | a file with no line whose code takes no argument is chopped the same way as written and as corrected |
| GpoLines.ChopAllSame | uscode/parser.py:215-244 | two line choppers that agree on every line of a file chop it alike |
| GpoLines.ChopAllDigitStops | uscode/parser.py:231 | as written, the first line with a two-digit code stops the file with `KeyError` on that code |
| GpoLines.ChopAllStops | uscode/parser.py:215-244 | the first line the chopper rejects stops the file with its error |
| GpoLines.ChopLines | uscode/parser.py:218-244 | the loop with any line chopper computes the line-by-line fold |
| Grouper.DefaultWellFormed | uscode/grouper.py:96-107 | no top-level boundary of the default table is `I74` or one of its own sub-boundaries |
| Grouper.DocsMap | uscode/grouper.py:128 | every id in the sub-document dictionary has at least one sub-document |
| Grouper.DocsMapFiled | uscode/grouper.py:128 | the dictionary holds an id exactly when some sub-document is filed under it, and then all of them, in closing order |
| Grouper.Group | uscode/grouper.py:110-193 | the loop with the source's own variables returns what the functional fold over the lines returns |
| Grouper.GroupCount | uscode/grouper.py:144-193 | one document is returned per top-level boundary line: the last document is never appended |
| Grouper.GroupedStep | uscode/grouper.py:144-193 | a line that is not a top-level boundary adds no document; a boundary line appends the current document with its open sub-document closed into it |
| Grouper.SubLinesSnoc | uscode/grouper.py:154 | filing one more sub-document adds its lines at the end |
| Grouper.AllLinesSnoc | uscode/grouper.py:175 | appending one more document adds its content at the end |
| Grouper.NoSubdocsBeforeFirst | uscode/grouper.py:149-191 | while no sub-document is open the current document has none filed |
| Grouper.PlacedNewSubdoc | uscode/grouper.py:149-165 | opening a sub-document places its line after all lines placed so far |
| Grouper.PlacedNewDoc | uscode/grouper.py:167-183 | starting a document places its line after all lines placed so far |
| Grouper.PlacedInSubdoc | uscode/grouper.py:186-188 | a line added to the open sub-document comes after all lines placed so far |
| Grouper.PlacedInDoc | uscode/grouper.py:189-191 | a line added to the document comes after all lines placed so far |
| Grouper.PlacedStep | uscode/grouper.py:135-191 | one turn of the loop places its line after every line placed so far |
| Grouper.GroupKeepsLines | uscode/grouper.py:110-193 | every line is placed in exactly one list, and the lists read in order give back the input |
| Grouper.LinesWithAbsent | uscode/grouper.py:188-191 | a tuple that no line carries has no lines |
| Grouper.AppendMapsLines | uscode/grouper.py:186-191 | appending a line keeps the code map listing, for each tuple, exactly the lines that carry it, with the opening tuple's entry aliasing the whole list |
| Grouper.CodeArgsSnoc | uscode/grouper.py:188-191 | the tuples of the lines grow by the new line's tuple |
| Grouper.LinesWithSnoc | uscode/grouper.py:188-191 | the lines carrying a tuple grow by the new line exactly when it carries it |
| Grouper.SingleMapsLines | uscode/grouper.py:157-158 | a new document or sub-document's code map lists its one line under its tuple |
| Grouper.EmittedSnoc | uscode/grouper.py:174-175 | appending a well-shaped document that has an id keeps only the first document without one |
| Grouper.CloseOpenOk | uscode/grouper.py:152-154 | closing the open sub-document into the document keeps it well shaped and keeps its id |
| Grouper.StepOk | uscode/grouper.py:135-191 | one turn keeps every document and sub-document well shaped: opened by its boundary line, filed under its id, code maps in step |
| Grouper.RunOk | uscode/grouper.py:135-191 | the whole loop keeps that invariant |
| Grouper.GroupDocs | uscode/grouper.py:110-193 | only the first document returned has no id; every other starts with its boundary line, and each sub-document starts with the line it is filed under |
| Footnotes.DigitsFrom | uscode/models.py:91 | the digits counted from a place are digits and stop at the first non-digit |
| Footnotes.SpacesFrom | uscode/models.py:91 | the whitespace counted from a place is whitespace and stops at the first non-space |
| Footnotes.ReplaceOnceFront | uscode/models.py:94 | replacing once a pattern that starts the text removes exactly that front |
| Footnotes.ParseNote | uscode/models.py:87-95 | a number and text come back exactly when the bell-`N`, backslash, digits, backslash, whitespace prefix is there, and the text is split into that number and the rest after the whitespace |
| Footnotes.DigitsExact | uscode/models.py:91 | a run of digits ended by a non-digit is what is counted |
| Footnotes.SpacesExact | uscode/models.py:91 | a run of whitespace ended by a non-space is what is counted |
| Footnotes.NoteSplitsUnique | uscode/models.py:91 | the split of a footnote's text is fixed by the text |
| Footnotes.ParseNoteOf | uscode/models.py:87-95 | round trip: a footnote text built from a number, whitespace and a rest reads back as that number and rest |
| Footnotes.StripNote | uscode/structure.py:361 | `re.sub` of the same pattern removes the prefix when it is there, exactly as the parse does, and keeps the text otherwise |
| Footnotes.NoRefInside | uscode/models.py:82 | no reference starts inside another one, so the matches do not overlap |
| Footnotes.RefsFrom | uscode/models.py:82-85 | each reference reported matches the pattern at its offset, with its number, and offsets strictly increase |
| Footnotes.RefsComplete | uscode/models.py:82-85 | every reference from the starting place on is reported |
| Footnotes.FootnoteRefsExact | uscode/models.py:78-85 | the offsets reported are exactly the places where the pattern matches |
| Models.RegisteredSound | uscode/models.py:14-22 | every class found in the registry is one of the created classes and is filed under its own `applies_to` |
| Models.RegisteredComplete | uscode/models.py:14-22 | every created class that defines `applies_to` is found under it, since no two classes share a key |
| Models.Registry.constructor | uscode/models.py:16 | the registry starts empty |
| Models.Registry.Register | uscode/models.py:18-22 | a class that defines `applies_to` in its own body is filed under it; others change nothing |
| Models.Registry.GetClass | uscode/models.py:25 | `getclass` finds a class exactly for a registered key, and it is the one filed there |
| Models.DefineAll | uscode/models.py:54-224 | creating the module's classes in order fills the registry with exactly those that define `applies_to` |
| Models.GetClassFinds | uscode/models.py:14-25 | after loading, `getclass` finds a key exactly when some class defines it, and that class |
| Models.WordsFrom | uscode/models.py:109 | the `\w` characters counted from a place are word characters and stop at the first other one |
| Models.LineFrom | uscode/models.py:109 | `.` runs up to the first newline |
| Models.LongestFit | uscode/models.py:109 | greedy `(\d+)` backing off one digit at a time takes the most digits that still leave room for `.` and `.+` |
| Models.MatchBounds | uscode/models.py:109 | any match from a place takes no more digits than there are, and they fit |
| Models.MatchBuilt | uscode/models.py:109 | digits that fit give a match, the name running to the end of the line |
| Models.NoHeadNoMatch | uscode/models.py:109 | without a word and a space at a place, nothing matches there |
| Models.HeadNoFit | uscode/models.py:109 | when no count of digits fits after the head, nothing matches there |
| Models.HeadFit | uscode/models.py:109 | the longest fit gives a match, and no match from that place takes more digits |
| Models.HeadFitMatch | uscode/models.py:109 | the longest fit gives a match with that many digits |
| Models.MatchFromFit | uscode/models.py:109 | the match is the digits of the longest fit and the name after the one separator |
| Models.FitMost | uscode/models.py:109 | no match from a place takes more digits than the longest fit |
| Models.MatchFromExact | uscode/models.py:109 | the match found from a place is a match with the most digits, and nothing is found only when nothing matches there |
| Models.SearchFrom | uscode/models.py:109 | `re.search` finds the leftmost place with a match, and none before it |
| Models.TitleSearch | uscode/models.py:109-111 | nothing is found exactly when nothing matches anywhere; otherwise the groups are those of the leftmost match, with the most digits there |
| Models.MatchesAtUnique | uscode/models.py:109 | once the place and the number of digits are fixed, the match is fixed |
| Models.LaidOut | uscode/models.py:109 | word, space, number, separator and name put together are laid out as such |
| Models.MatchesAtOf | uscode/models.py:109 | a heading laid out as word, space, number, separator and name matches from its start with those groups |
| Models.MatchesAtIntro | uscode/models.py:109 | the conditions of a match at the start, one by one, give the match |
| Models.TitleSearchOf | uscode/models.py:109-111 | round trip: a heading written as word, space, number, one non-digit separator and name reads back as (number, name) |
| Models.WordsExact | uscode/models.py:109 | a run of word characters ended by another character is what is counted |
| Models.FirstLine | uscode/models.py:108 | `codemap[c].first` raises `KeyError` on a missing tuple and `IndexError` on an empty list, and is otherwise the first line |
| Models.HeadingGroups | uscode/models.py:109-114 | the groups come back exactly when the search finds them; otherwise the data-quality error names the line's data |
| Models.TitleEnumTitle | uscode/models.py:106-114 | a missing I06 tuple raises `KeyError`, an empty list `IndexError`, a failed search the data-quality error on the line's data |
| Models.ChapterEnumTitle | uscode/models.py:178-188 | the same for the first I81 line of a chapter heading |
| Models.TitleEnumTitleFails | uscode/models.py:106-114 | a title heading fails exactly when nothing in its stripped first I06 line matches |
| Models.ChapterEnumTitleFails | uscode/models.py:178-188 | a chapter heading fails exactly when nothing in its stripped first I81 line, marker removed, matches |
| Models.TitleEnumTitleOf | uscode/models.py:106-122 | a title whose first I06 line strips to a heading yields its number and name |
| Models.ChapterEnumTitleOf | uscode/models.py:178-196 | a chapter whose first I81 line strips to a heading, with or without the `\x07T2` marker, yields its number and name |
| Models.MarkedHeading | uscode/models.py:182 | the marker comes before the whole heading |
| Models.MarkerDropped | uscode/models.py:182 | removing a leading `\x07T2` leaves the heading whether the marker was there or not |
| Models.Squeeze | uscode/models.py:156 | `re.sub(r'[.\s]+', '', s)` leaves no dot and no whitespace and never lengthens the text |
| Models.SqueezeClean | uscode/models.py:156 | a text with no dot and no whitespace is left as it is |
| Models.SqueezeIdempotent | uscode/models.py:156 | squeezing twice is squeezing once |
| Models.SqueezeConcat | uscode/models.py:156 | squeezing works piece by piece |
| Models.SqueezeKeeps | uscode/models.py:156 | every character kept was in the text |
| Models.NoteItems | uscode/models.py:97-100 | one item per I28 line, each the parse of that line's data |
| Models.NoteDict | uscode/models.py:146 | the dictionary is built exactly when every I28 line is a footnote; otherwise it fails at the first line that is not |
| Models.DictOk | uscode/models.py:146 | `dict` succeeds exactly when every item is a pair |
| Models.DictErr | uscode/models.py:146 | a failure names the first item that is not a pair |
| Models.DictKeeps | uscode/models.py:146 | a key no later item carries keeps its earlier value |
| Models.DictWins | uscode/models.py:146 | the last item with a key gives that key's value |
| Models.NoteDictLast | uscode/models.py:146 | a footnote number maps to the text of the last footnote with that number |
| Models.NoteDictKeys | uscode/models.py:146 | every key of the footnote dictionary is the number of some footnote |
| Models.TitleRowClean | uscode/models.py:156-158 | a title row's chapter holds no dot or whitespace, and its name and section have no whitespace at either end |
| Models.Triples | uscode/models.py:147-160 | one row per group of three lines |
| Models.TriplesAt | uscode/models.py:149 | row k is built from lines 3k, 3k + 1 and 3k + 2 |
| Models.TriplesOf | uscode/models.py:147-160 | the loop takes three lines at a time while three remain, and builds the rows in order |
| Models.Pairs | uscode/models.py:201-208 | one row per pair of lines |
| Models.PairsAt | uscode/models.py:203 | row k is built from lines 2k and 2k + 1 |
| Models.PairsOf | uscode/models.py:201-208 | the loop takes two lines at a time while two remain, and builds the rows in order |
| Models.Drop | uscode/models.py:145 | slicing past the end is empty; otherwise the lines from that place on |
| Models.TitleTocItems | uscode/models.py:139-160 | `docs` is a `defaultdict`, so with no I93 sub-document the lookup is an empty list and `[0]` raises `IndexError`; a missing I28 entry raises `KeyError` and a line that is not a footnote fails the dictionary; otherwise the rows are the triples after the first three lines, the leftover lines dropped |
| Models.ChapterRowClean | uscode/models.py:206-207 | a chapter row's section holds no dot or whitespace, and its name has no whitespace at either end |
| Models.ChapterTocItems | uscode/models.py:198-208 | with no I70 sub-document the `defaultdict` gives an empty list and `.first` raises `IndexError`; otherwise the rows are the pairs after its first line, a leftover line dropped |
| Models.SectionEnum | uscode/models.py:226-228 | a missing or empty I80 entry raises; a line without a space fails to unpack; an enum has no whitespace at either end |
| Models.SectionEnumOf | uscode/models.py:226-228 | a line made of a code word, a space and the number gives the stripped number |
| Models.DropLead | uscode/models.py:241 | exactly the leading run of dots and whitespace is removed |
| Models.DropLeadOf | uscode/models.py:241 | a leading run of dots and whitespace before a text that does not start with one is removed |
| Models.StripClean | uscode/models.py:241 | stripping a text with no whitespace at either end keeps it |
| Models.SectionName | uscode/models.py:239-241 | with no I89 sub-document the `defaultdict` gives an empty list and `.first` raises `IndexError`, as does a first sub-document without lines (which the grouper never files); otherwise the name starts with no dot or whitespace and ends with no whitespace |
| Models.CleanName | uscode/models.py:241 | a cleaned name starts with neither a dot nor whitespace and ends with no whitespace |
| Models.StripKeepsHead | uscode/models.py:241 | stripping a text that starts with no whitespace keeps its first character |
| Models.SectionNameOf | uscode/models.py:239-241 | a name line of dots and whitespace followed by the name gives that name |
| Models.SpaceAt | uscode/models.py:258 | the first whitespace character at or after a place |
| Models.SplitOnSpace | uscode/models.py:258 | the split makes two parts exactly when the text has whitespace: the part before has none and the part after does not start with any |
| Models.GroupLength | uscode/models.py:259 | the lazy group ends at the first `)` after at least one character |
| Models.FindGroups | uscode/models.py:259 | every group found is non-empty |
| Models.Parenthesized | uscode/models.py:253-259 | enums written in parentheses start with `(` |
| Models.ParenthesizedNoSpace | uscode/models.py:258 | parenthesised plain enums contain no whitespace |
| Models.GroupLengthOf | uscode/models.py:259 | a plain group followed by `)` is read as one group whatever follows |
| Models.FindGroupsOf | uscode/models.py:259 | round trip: `findall` reads back the enums written in parentheses |
| Models.Collect | uscode/models.py:260 | the list of enums is built exactly when every parse succeeds, holding their values in order; otherwise the first error |
| Models.EnumTokens | uscode/models.py:261-274 | one token per enum |
| Models.PlainLineTokens | uscode/models.py:253-256 | an I line that does not start with `(` is one token with no enum and the whole text as body |
| Models.NestedLineTokens | uscode/models.py:257-274 | an I line of parenthesised enums, whitespace and a body yields the tokens of those enums, or the first parse error |
| Models.NestedParts | uscode/models.py:257-259 | such a line splits into the enum text and the body, and the enums are found again in that text |
| Models.SplitLineTokens | uscode/models.py:257-274 | an I line starting with `(` yields the tokens of the enums found before its first whitespace |
| Models.NestedSplit | uscode/models.py:258 | enum text without whitespace comes before the first whitespace, the body after the whole run of it |
| Models.SpaceAtExact | uscode/models.py:258 | the first whitespace found is the first one there is |
| Models.BodyByStep | uscode/models.py:249-274 | one line read gives its tokens or its error, then the rest |
| Models.BodyByAppend | uscode/models.py:249-274 | lines read one after another give their tokens one after another |
| Models.PopTokens | uscode/models.py:268-274 | the pop loop yields the tokens of the enums in order, only the last with the body and the line |
| Models.BodyLines | uscode/models.py:243-274 | unless exactly one I89 sub-document is filed (none when the key is missing, since `docs` is a `defaultdict`) the assertion fails; otherwise the tokens of its lines after the first |
| Models.SubdocsAt | uscode/grouper.py:128 | looking a key up in the sub-document `defaultdict` gives the sub-documents filed under it, and an empty list exactly when none was |
| Models.ReadBody | uscode/models.py:249-274 | the loop over the lines yields their tokens in order, up to the first line that fails |
| Models.LineStep | uscode/models.py:250-274 | one turn of the loop yields the tokens of its line, none unless the code is `I` |
| EnumTree.PyIndex | uscode/structure.py:60-66 | indexing a token list succeeds exactly for an index in `-len .. len-1`, negative ones counting from the end; otherwise `IndexError` |
| EnumTree.Stream.constructor | uscode/structure.py:36-38 | the stream holds the tokens and its cursor starts at 0 |
| EnumTree.Stream.This | uscode/structure.py:59-60 | `this()` is the token under the cursor, and fails exactly when the cursor is out of Python's index range |
| EnumTree.Stream.Ahead | uscode/structure.py:62-63 | `ahead(n)` is the token n places after the cursor, and fails exactly when that place is out of range |
| EnumTree.Stream.Behind | uscode/structure.py:65-66 | `behind(n)` is the token n places before the cursor; before the start it wraps to the end of the list as Python does |
| EnumTree.Stream.Previous | uscode/structure.py:56-57 | `previous()` is `behind(1)`, the token before the cursor once it has moved |
| EnumTree.NewNodes | uscode/structure.py:111-119 | a new node carries the token's enum and line data and no footnotes, and has a single text child exactly when the text is non-empty |
| EnumTree.AddChildOk | uscode/structure.py:136-147 | `_force_append` keeps the tree well formed (each child after its parent and pointing back to it), only adds, and keeps every parent the root or a node with an enum |
| EnumTree.AncestorExtends | uscode/structure.py:126-134 | adding nodes changes no node's chain of `parent` links |
| EnumTree.AncestorBelow | uscode/structure.py:126-134 | every ancestor of a node was created before it |
| EnumTree.ChooseChild | uscode/structure.py:162-198 | at the root a truthy enum, and anywhere a missing enum, becomes a child; a first-in-scheme enum becomes a child unless it is `i` after `h` or `I` after `H`; a nested enum that is not first becomes a child |
| EnumTree.ChooseUp | uscode/structure.py:197-209 | only an enum that is neither first in its scheme nor nested moves up the tree, never from the root when truthy, and it is also appended to the parent exactly when the node has no enum (the missing `return` at line 201) |
| EnumTree.ToJson | uscode/structure.py:103-245 | `json()` of a node has one entry per child, and a text node renders as text |
| EnumTree.ToJsonFrame | uscode/structure.py:136-245 | appending to a node leaves the JSON of every later node unchanged |
| EnumTree.ToJsonAddChild | uscode/structure.py:136-245 | after `_force_append` the node's JSON gains exactly one entry at the end, the new node's, a node holding one text node when the token has text |
| EnumTree.NoteFor | uscode/structure.py:360-363 | the footnote is found exactly when its number was recorded, else `KeyError`; the note carries the recorded offset, the number and the text without its prefix |
| EnumTree.TokenToNoteAsWritten | uscode/structure.py:353-363 | as written: the text must start with `\x07`, and the note's number is the single character `text[3]` |
| EnumTree.NoteNumber | uscode/structure.py:359-361 | the whole footnote number: every digit of the `\x07N\` prefix up to the closing backslash |
| EnumTree.TokenToNote | uscode/structure.py:353-363 | corrected: the note's number is the whole number of its prefix, and it is found among the recorded footnotes |
| EnumTree.NoteNumberFirstDigit | uscode/structure.py:359-360 | a note for a footnote with two or more digits is looked up under its first digit alone and raises `KeyError` although its footnote was recorded |
| EnumTree.NoteNumberWhole | uscode/structure.py:359-363 | with the whole number the same note finds its footnote, and its text is what follows the prefix and its whitespace |
| EnumTree.NoteNumberMisfiled | uscode/structure.py:353-363 | as written, a note for a footnote with two or more digits goes to the node that recorded the footnote numbered by its first digit, when there is one |
| EnumTree.Record | uscode/structure.py:334-337 | every reference's number maps to the token afterwards, and every other entry is the old one or the offset of a reference, the last one for a repeated number |
| EnumTree.WithNoteOk | uscode/structure.py:345 | appending a note to a node's footnotes changes nothing of the tree's shape |
| EnumTree.Parser.constructor | uscode/structure.py:252-302 | a parser starts with the root alone, its stream at the start, empty code and footnote maps, and the note lookup it was given |
| EnumTree.Parser.ForceAppend | uscode/structure.py:136-147 | `_force_append` adds one node at the end as the last child of the node, the token's node from then on, keeping the tree well formed |
| EnumTree.Parser.Append | uscode/structure.py:149-209 | `append` on a node succeeds exactly when AppendTarget finds a target, fails with its error otherwise, and makes the token a child of that target: the node itself, its parent for a sibling, or wherever the retry at the parent puts it; a child or sibling is the next arena entry, and a failed check or a missing parent changes nothing |
| EnumTree.Parser.Place | uscode/structure.py:164-209 | the chosen case carried out: the token becomes a child of AppendTarget's target, which is the node for a child, its parent for a sibling, and the parent's own target after a retry |
| EnumTree.Parser.Climb | uscode/structure.py:200-209 | the retry at the parent (after appending there first when the node had no enum) puts the token exactly where `append` on the parent puts it: under the parent's AppendTarget, failing with its error |
| EnumTree.Parser.Beside | uscode/structure.py:320-328 | an I32 or I17 line goes beside the node of the latest I13 or I12 line: `KeyError` when there was none, otherwise a new child of that node's parent |
| EnumTree.Parser.RecordRefs | uscode/structure.py:334-337 | the footnote map afterwards is the old one with each reference recorded in order |
| EnumTree.Parser.BeforeAppend | uscode/structure.py:304-337 | the code map records the token under its code; I32 and I17 are placed beside, and these are the only tokens it places; I28 is skipped; otherwise the text's footnote references are recorded and the token is left for `append` |
| EnumTree.Parser.AfterAppend | uscode/structure.py:339-345 | an I28 line's note, looked up by `text[3]` as written or by its whole number as the parser was built, is appended to the footnotes of the node that referred to it; any other line changes nothing |
| EnumTree.Parser.Attach | uscode/structure.py:273 | `append` on the current node makes the token a child of the current node's AppendTarget, and fails when there is none; every earlier token keeps its node |
| EnumTree.Parser.PlaceToken | uscode/structure.py:269-273 | every token except a footnote line gets its node, by `before_append` or by `append`; a token `before_append` leaves alone becomes a child of the current node's AppendTarget, and fails when there is none |
| EnumTree.Parser.Step | uscode/structure.py:266-279 | one token: the tree grows by the token's nodes, none for a footnote line; the current node moves to the token's node exactly when the token was placed and its enum is truthy; a token left to `append` becomes a child of the current node's AppendTarget, and fails when there is none |
| EnumTree.Parser.Parse | uscode/structure.py:260-281 | `parse` returns the root; every token that is not a footnote line has its node; the path of current nodes starts at the root and moves after each token as in one step, and each token left to `append` is a child of the AppendTarget of the current node of its step |
| EnumTree.AppendTarget | uscode/structure.py:149-209 | the node under which `append` on a node finally puts a token, by the checks of `append` and the retry at the parent; it is always the node itself or one of its ancestors |
| EnumTree.AppendTargetCases | uscode/structure.py:164-209 | a failed check is the error, a child decision targets the node, a sibling decision its parent, a missing parent is the `parent` attribute error, and every other decision (structure.py:200-201, 209) is decided again at the parent |
| EnumTree.ClimbToSibling | uscode/structure.py:203-209 | closing a nested level: a token that is not next after the current node but is next after its parent becomes a child of the grandparent |
| EnumTree.AppendTargetExtends | uscode/structure.py:260-281 | adding nodes to the tree changes no node's target, since the checks read only enums and parents |
| EnumTree.AppendedAtExtends | uscode/structure.py:260-281 | where a node was appended stays true as the tree grows |
| EnumTree.AfterKept | uscode/structure.py:275 | `after_append` keeps every token's node and where the token just placed went |
| EnumTree.MovedKept | uscode/structure.py:266-279 | later tokens keep what an earlier token's step did |
| EnumTree.StepMoved | uscode/structure.py:266-279 | one step of `parse` extends the path of current nodes by the node it moved to |

## Left out

- Network and file I/O: `download_usc` in both tasks files, the glob over files, zip archives, `json.dump` to standard output, and the debug prints. Documents arrive as values.
- XHTML and XML parsing (`lxml`): the DOM is modelled as small datatypes. Legacy nodes are comments, `h3` texts or other nodes; XML elements have a tag, a number, a heading and children.
- `html.unescape` in tasks/structure.py is a parameter (`unescape`) of the legacy scanner; HTML entity tables are not modelled.
- The command-line options of both `run` functions (debug, limit, title selection) are not modelled; `sections_only` is a parameter.
- Regular expressions are written out as predicates over ASCII: `\d` is an ASCII digit, `\w` an ASCII word character, and `re.I` is ASCII case folding. Unicode digits and letters are not modelled.
- Regex `.` is taken to match any character, where the source's `.` stops at a newline. This covers expcite components, XML headings, the `h3` pattern `§(.*?)\.? (.*)` (tasks/structure.py:174; LegacyToc.FirstNumberEnd, LegacyToc.SplitHeading) and the comment pattern `<!-- expcite:(.*\S)\s*-->` (tasks/structure.py:83; LegacyToc.ExpcitePayload). Texts with embedded newlines there are not modelled.
- LegacyToc.InsertPath: the walk of `parse_h3` down nested lists with a cursor is modelled on values, as a recursive insertion into a forest, so aliasing between the cursor and the forest is not captured.
- Python set iteration order in `Enum.get_ordinality` (uscode/schemes.py:478-497) is fixed to the order of the scheme table. In the source that order depends on string hashing, and it decides the order of the per-scheme lists that uscode/schemes.py:400 compares.
- `Enum` memoises `schemes` and `ordinality` into fields; the model recomputes them (only `Token`'s memo is a class, `Schemes.Token`). The memoising decorator in uscode/utils.py is not part of this model.
- `Stream.__iter__` raises `StopIteration` inside a generator, which later Python versions turn into a `RuntimeError`; the model iterates over the tokens and stops normally. `Stream.next` is not modelled: nothing in the core calls it.
- `Stream` wraps `map`, which cannot be indexed in Python 3; the model stores the tokens as a sequence.
- `Node._new_child` builds a subclass per node to reach the parent; the model keeps an explicit parent id per node.
- `BaseNode.filesystem_dump`, `Node.tree`, `Node.filedump` and the loggers write files or print, and are not modelled. `json()` is modelled as a `Json` datatype rather than dictionaries with a `type` key; the model's text nodes never have children.
- `Section.misc` (prints) and the `_subdoc_generator` lookups of uscode/models.py are not modelled; the readers take the document's sub-documents and code map directly.
- The `__main__` blocks of uscode/parser.py and uscode/schemes.py, and the commented-out code in uscode/schemes.py, are not modelled.
- GpoLines.GetLines: the escape table is passed in as the `swap` function, as `getlines` allows. The concrete `swap` is modelled by GpoLines.Swap with its own lemmas.
- GpoLines.GetLines: it runs the corrected chopping. The source's own behaviour is GpoLines.GetLinesAsWritten, and the two agree on files with no code that takes no argument (GpoLines.ChopAllAlike).
- GpoLines.Chop: it is the corrected reading of lines 218-244, not the source's. Two-digit codes take no argument instead of raising `KeyError`, and the data of a code without an argument starts after the code. GpoLines.ChopAsWritten is the source's reading.
- GpoLines.ChopAsWritten: its own contract states only when a line yields nothing. The other cases of the source's reading are stated beside it, for every input: GpoLines.ChopAsWrittenKeyError (two-digit codes), GpoLines.ChopAsWrittenNoArg (codes without an argument) and GpoLines.ChopAsWrittenWithArg (codes with one).
- LegacyToc.Run, XmlToc.Run, Models.DataQualityError: error texts are approximate. A title without a number raises `AttributeError` in the source (`None.replace` in the sort key, tasks/structure.py:111 and tasks/structure_xml.py:63) where the model reports the `ValueError` of a non-integer number, and the source formats the line data of a `DataQualityError` with `%r` quoting (uscode/models.py:113-114,187-188) where the model inserts it as it is. Which calls fail is exact.
- EnumTree.Parser.AfterAppend: a parser built with the whole-number lookup does not do what the source does for footnotes numbered 10 and above. The source looks notes up by `text[3]`, the lookup a parser built without it uses (EnumTree.NoteNumberFirstDigit, EnumTree.NoteNumberMisfiled).
- Toc.ParseInt: Python's `int()` also accepts underscores between digits and non-ASCII Unicode digits; the model accepts ASCII digits only.
- `NiceList` (uscode/utils.py) is not part of this model: `.first` and `.rest` are taken as `[0]` and `[1:]`, so `.first` on an empty list raises `IndexError`.

## Findings

| source | as written | input that shows it | evidently intended | confidence | as-written member | corrected member |
|---|---|---|---|---|---|---|
| uscode/parser.py:141 | the code table has the key `'\d{2}'`, a regex used as a literal dict key, so a line whose code is two digits raises `KeyError` when its argument pattern is looked up | a line `"\x07" + "12" + "rest"` | two-digit codes take no argument and the rest of the line is their data | not executed | GpoLines.DigitCodeKeyError | GpoLines.DigitCodeNoArg |
| uscode/parser.py:222-242 | for a code that takes no argument, the data start is not moved past the code, so the data begins with the code itself | a line `"\x07" + "K" + text` yields data `swap("K" + text)` | the data starts right after the code | not executed | GpoLines.DataKeepsCode | GpoLines.DataAfterCode |
| uscode/structure.py:359 | `number = text[3]` takes only the first digit of the footnote number | a footnote line starting `"\x07N\12\ "` is looked up under `"1"` and raises `KeyError` although footnote 12 was recorded | the whole number between the backslashes | not executed | EnumTree.NoteNumberFirstDigit | EnumTree.NoteNumberWhole |

# asciidoctor-pdf-lofte, modelled in Dafny

`asciidoctor-pdf-lofte.rb` extends the Asciidoctor PDF converter. It adds up to
four generated lists next to the table of contents (ToC): a list of figures
(LoF), of tables (LoT), of examples (LoE) and of listings/code (LoL). The
extension is a chain of converter classes. Each class takes over
`allocate_toc` (reserving pages) and `ink_toc` (printing) and then hands on to
its parent class. The chain also replaces:

- the entry printer `ink_toc_level`;
- the running-content page attribution (`ink_running_content`);
- the outline step `add_outline`, which writes page labels and adds the lists
  to the PDF outline.

This project models those parts and proves what they do. There is one module
per concern:

| file | module | what it models |
|---|---|---|
| `wrappers.dfy` | `Wrappers` | `Option`, standing for Ruby's `nil` |
| `rubytext.dfy` | `RubyText` | `String#to_i` (base 10: leading whitespace, a sign, the optional `0d` radix prefix, digits with single underscores) and `Integer#to_s`, as used on attributes and page numbers |
| `pagelabels.dfy` | `PageLabels` | page-number labels (roman numerals for front matter, `?` when unknown) and the outline's page-label table |
| `levels.dfy` | `Levels` | parsing of the outline's `num_levels` setting (`"n"`, `"n:m"`, `":m"`) |
| `entries.dfy` | `Entries` | `ink_toc_level`: which entries get a line, promotion of captioned blocks to level 2, recursion into child sections |
| `lists.dfy` | `Lists` | the five lists, their attributes, the blocks each collects, and when a list is suppressed |
| `allocation.dfy` | `Allocation` | a `Converter` class whose page, cursor and extent fields change as the allocation chain reserves each list's pages |
| `runningcontent.dfy` | `RunningContent` | the start-page tables for parts, chapters and sections, and the page-by-page walk that names each page's part, chapter and section |
| `outline.dfy` | `Outline` | the sections added to the document tree, for the ToC (while inking) and for the outline |

Some facts about the code, which the proofs make precise:

- Allocation order is ToC, LoF, LoT, LoE, LoL. Each `allocate_toc` calls
  `super` first, so the ToC is allocated first.
- Inking runs the other way, LoL first. Each list inserts its section at the
  same position, so the ToC's section ends up first:
  `Outline.InkTocSections`.
- Without `break_after` the lists are not on disjoint pages. A list starts
  on the page where the previous one ended (`Allocation.ListsInOrder`). The
  code, not the prose description of the layout, decides this here.
- The LoF and LoT allocators clear the examples' extent (`@loe_extent`),
  not their own, when they are suppressed (lines 238 and 384).
  `Allocation.SlipHarmless` proves this changes nothing when the chain starts
  from a fresh converter: the LoE link runs later and sets or clears its own
  field anyway.
- `add_outline` removes the sections it added only when
  `include-lists-in-toc` is non-blank. It adds them only when that attribute
  is absent, so the removal never removes anything.
  `Outline.AddOutlineSections` states the final blocks as the insertions
  alone.

## Model

| member | source | states |
|---|---|---|
| RubyText.ToIOfDecimal | asciidoctor-pdf-lofte.rb:1085-1086 | `to_i` of a number's decimal text gives back the number, whatever follows, provided it does not extend the digit run and, after a lone `0`, does not begin with `d` or `D` (which would make `0d` a radix prefix) |
| RubyText.ToIOfPrefixedDecimal | asciidoctor-pdf-lofte.rb:1085-1086 | `to_i` skips a base-10 radix prefix `0d` or `0D`: the prefixed decimal text of a number, followed by anything that does not extend the digit run, reads back as the number |
| RubyText.ToIWithoutDigits | asciidoctor-pdf-lofte.rb:43 | `to_i` of text holding no whitespace, sign or digit is 0 |
| RubyText.DecimalRoundTrip | asciidoctor-pdf-lofte.rb:1105 | reading the decimal digits `Integer#to_s` produces gives back the number |
| PageLabels.PageLabel | asciidoctor-pdf-lofte.rb:99-104 | the label is `?` exactly when the page is unknown; it is all digits exactly when the page lies after the front matter; otherwise it is a non-empty lowercase roman numeral |
| PageLabels.PageLabelReadsBack | asciidoctor-pdf-lofte.rb:99-104 | a numeric label reads back with `to_i` as the page number minus the front-matter pages |
| PageLabels.BuildPageLabels | asciidoctor-pdf-lofte.rb:1097-1106 | the label table's keys are 0 up to, not including, the larger of the front-matter count and the page count; front-matter pages are labelled i, ii, …; the following pages are labelled 1, 2, … |
| PageLabels.LabelTableMatchesPageLabel | asciidoctor-pdf-lofte.rb:1099-1106 | the outline's label for a page equals the label the ToC prints for that page |
| Levels.SplitAtFirstColon | asciidoctor-pdf-lofte.rb:1082-1086 | text with a colon is split at its first colon; an empty left part falls back to the document's `toclevels` (default 2) |
| Levels.LevelsRoundTrip | asciidoctor-pdf-lofte.rb:1083-1086 | `"n:m"` gives depth n and expand depth m |
| Levels.EmptyDepthUsesTocLevels | asciidoctor-pdf-lofte.rb:1085 | `":m"` takes the depth from `toclevels` and expands to m |
| Levels.SingleNumberSetsBoth | asciidoctor-pdf-lofte.rb:1087-1091 | a number, or text without a colon, sets depth and expand depth to the same value |
| Entries.InkTocLevel | asciidoctor-pdf-lofte.rb:36-156 | the printing loop yields exactly the lines and the updated entries of the recursive specification `Pass`, including the level-2 promotion left in the entries |
| Entries.InkEntry | asciidoctor-pdf-lofte.rb:42-155 | one entry's lines (its own, then its children's) and the entry as left after promotion equal the specification `Visit` |
| Entries.FlatPassPrintsEligible | asciidoctor-pdf-lofte.rb:42-81 | for entries without children, the lines printed are one per eligible entry, in order: not beyond its level limit, not a trailing untitled section, with a non-empty shown title and an id |
| Entries.FlatPassPromotes | asciidoctor-pdf-lofte.rb:55-75 | every titled figure, table, example or listing that is not skipped by its level is left at level 2; every other entry is left unchanged |
| Entries.PassTitlesIgnoreMode | asciidoctor-pdf-lofte.rb:45-104 | the titles printed and the entries' final state do not depend on the page destinations, the front-matter count or whether the run is a measuring run |
| Entries.PromotionHidesEntryInRealRun | asciidoctor-pdf-lofte.rb:43-59 | with `toclevels` 1, a titled level-1 figure is printed in the measuring run and skipped in the real run (Findings) |
| Entries.FixedRunsAgree | asciidoctor-pdf-lofte.rb:43-59 | when each run starts from the unpromoted entries, the measuring run and the real run print the same titles |
| Entries.RunsAgreeFromLevelTwo | asciidoctor-pdf-lofte.rb:43-75 | when every entry's level limit is at least 2, the measuring run and the real run print the same titles even with promotion persisting |
| Lists.EntriesFor | asciidoctor-pdf-lofte.rb:292-297 | the collected blocks are all of the list's kind, never more than the blocks given; they are empty exactly when no block of that kind exists; figures, examples and listings all carry a title |
| Lists.Collected | asciidoctor-pdf-lofte.rb:295 | an untitled figure, example or listing gets the empty title; a titled block or a table is left as it is |
| Lists.Captioned | asciidoctor-pdf-lofte.rb:229-234 | the kept blocks all have captions and are empty exactly when none has one |
| Lists.SuppressedIff | asciidoctor-pdf-lofte.rb:236 | a list is suppressed exactly when its title attribute is unset or empty, or no block of its kind has a caption |
| Lists.ClearedBy | asciidoctor-pdf-lofte.rb:238 | the field a suppressed list clears is its own or the examples' field, never the ToC's |
| Allocation.InkPageRange | asciidoctor-pdf-lofte.rb:355 | the inked range covers exactly the pages from the first page to the first page plus the pages advanced |
| Allocation.MeasuredCoversInk | asciidoctor-pdf-lofte.rb:305-312 | the reserved extent starts at the start position and ends on the later of the measured end and the inked end; when the inked end is later, its end cursor is the full page height, otherwise the measured end cursor |
| Allocation.Converter.AllocateList | asciidoctor-pdf-lofte.rb:300-320 | the extent returned is the measured one; afterwards the converter is on the page after the extent with a page break, or at the extent's end position without one |
| Allocation.Converter.AllocateKind | asciidoctor-pdf-lofte.rb:229-244 | a suppressed list leaves the position unchanged and clears the field `ClearedBy` names; otherwise its extent is recorded and the position moves past it |
| Allocation.Converter.AllocateAll | asciidoctor-pdf-lofte.rb:220-244 | the chain ToC, LoF, LoT, LoE, LoL leaves the converter in the state the value-level plan computes |
| Allocation.AllocatedIffNotSuppressed | asciidoctor-pdf-lofte.rb:236-243 | after the chain, a list holds an extent exactly when it is the ToC or is not suppressed |
| Allocation.SlipHarmless | asciidoctor-pdf-lofte.rb:236-239 | from a fresh converter, clearing the examples' field in place of one's own gives the same final state as clearing one's own |
| Allocation.ListsInOrder | asciidoctor-pdf-lofte.rb:313-318 | each extent ends on or after the page it starts on; the allocated lists follow the order ToC, LoF, LoT, LoE, LoL; each starts on the previous one's last page, or on the page after it with `break_after` |
| RunningContent.FirstContentPage | asciidoctor-pdf-lofte.rb:815-816 | no page is returned exactly when every page after the skipped ones is imported; otherwise the first non-imported page after them is returned, 1-based |
| RunningContent.SelectSections | asciidoctor-pdf-lofte.rb:824-825 | the sections kept are exactly those no deeper than the running-content levels, excluding the header |
| RunningContent.SelectAppend | asciidoctor-pdf-lofte.rb:825 | selecting from two consecutive runs of the document's sections is selecting from each and joining the results, so the kept sections stay in document order, each once |
| RunningContent.SelectOne | asciidoctor-pdf-lofte.rb:825 | a single section is kept exactly when it is no deeper than the running-content levels and is not the header |
| RunningContent.SelectKeepsOrder | asciidoctor-pdf-lofte.rb:825 | of two kept sections, the one earlier in the document comes earlier in the selection |
| RunningContent.IndexSections | asciidoctor-pdf-lofte.rb:824-856 | from the document's sections, the method selects those that take part and builds exactly the four tables that folding `AddSection` over that selection, in document order, builds |
| RunningContent.FirstWins | asciidoctor-pdf-lofte.rb:846-854 | the chapter table and the section table have a page exactly when a chapter (or other section) starts on it, and hold the first one that does |
| RunningContent.LastWins | asciidoctor-pdf-lofte.rb:853 | the trailing table has a page exactly when a non-chapter section starts on it, and holds the last one that does |
| RunningContent.PartTable | asciidoctor-pdf-lofte.rb:844-850 | the part table has a page exactly when a part starts on it or an appendix ends a part there; an appendix after some part marks the page with the empty text, otherwise the first part starting there is kept |
| RunningContent.LookBack | asciidoctor-pdf-lofte.rb:884-890 | the look-back finds nothing exactly when no trailing section starts in the window; otherwise it takes the one on the latest page of the window |
| RunningContent.LookBackLoop | asciidoctor-pdf-lofte.rb:885-890 | the downward loop returns what `LookBack` specifies |
| RunningContent.Advance | asciidoctor-pdf-lofte.rb:870-891 | one page's update of the carried part, chapter, section and look-back threshold equals `StepCarry` |
| RunningContent.PartIsCarried | asciidoctor-pdf-lofte.rb:892 | every page, list page or not, names the part carried to it |
| RunningContent.FirstCovering | asciidoctor-pdf-lofte.rb:893-930 | the list chosen covers the page and no list earlier in the order does; none is chosen exactly when no list covers it |
| RunningContent.Walk | asciidoctor-pdf-lofte.rb:869-946 | the three page tables have exactly the pages 1 to the page count, and each page's entries are the attribution `PageInfoAt` specifies, even though a list's range is dropped once its last page is passed |
| RunningContent.DroppingRangesIsRedundant | asciidoctor-pdf-lofte.rb:901 | dropping a list's range after its last page changes no later page's attribution |
| RunningContent.PartStartClears | asciidoctor-pdf-lofte.rb:870-874 | on a page where a part starts, the part becomes that part; the chapter is cleared unless one starts there too; the section is cleared unless one starts there |
| RunningContent.ChapterStartClears | asciidoctor-pdf-lofte.rb:875-878 | on a page where a chapter starts, the chapter becomes it and the section is cleared unless one starts there too |
| RunningContent.ListPagesNamedAfterList | asciidoctor-pdf-lofte.rb:893-938 | in a book, a page of a list is named after the list's title with no section; in an article, its section is the section starting there or else the list's title |
| RunningContent.BeforeFirstChapter | asciidoctor-pdf-lofte.rb:939-941 | in a book, before any chapter or part, a page outside the lists is named after the document title before the body starts and after the preface title (default "Preface") from there |
| RunningContent.ArticleSections | asciidoctor-pdf-lofte.rb:879-891 | in an article, a page's section is the one starting on it, or else the one that started last on the latest earlier page |
| Outline.InsertIndex | asciidoctor-pdf-lofte.rb:162-176 | the ToC's section goes right after the macro's parent section (its first occurrence) when the ToC is placed by the macro inside a section; otherwise it goes first |
| Outline.InsertIndexStable | asciidoctor-pdf-lofte.rb:166 | after a section is inserted at that position, computing the position again gives the same position |
| Outline.Container.Insert | asciidoctor-pdf-lofte.rb:183 | the block goes in at the position; the blocks before and after keep their order |
| Outline.Container.Remove | asciidoctor-pdf-lofte.rb:1144-1150 | removing nil changes nothing; removing a section deletes every occurrence of it and keeps the rest in order |
| Outline.RemoveUndoesInsert | asciidoctor-pdf-lofte.rb:1144-1150 | removing a section that was not there before its insertion restores the blocks |
| Outline.InkListSection | asciidoctor-pdf-lofte.rb:247-271 | with `include-lists-in-toc` set and an extent held, the list's section, carrying its `_lof`-style id, goes in at the ToC's position; that position does not move |
| Outline.InkTocSections | asciidoctor-pdf-lofte.rb:187-209 | after the ink chain, the ToC's and the lists' sections sit together at the ToC's position |
| Outline.OrderedSectionsFacts | asciidoctor-pdf-lofte.rb:274-287 | those sections are in the order ToC, LoF, LoT, LoE, LoL, each with its list's id, one for every list holding an extent; there are none without `include-lists-in-toc` |
| Outline.AddListSection | asciidoctor-pdf-lofte.rb:1119-1130 | a list's outline section is added at its fixed position exactly when the list holds an extent and has a non-blank title |
| Outline.AddOutlineSections | asciidoctor-pdf-lofte.rb:1109-1151 | the document ends with exactly the as-written insertions, and nothing is removed; the ToC's outline section goes into the macro's grandparent section when the ToC is placed inside a nested section |
| Outline.AddListSectionAt | asciidoctor-pdf-lofte.rb:1160-1168 | corrected: a list's outline section goes in at the given position exactly when the list holds an extent and has a non-blank title, and the next position moves past it |
| Outline.AddOutlineSectionsCorrected | asciidoctor-pdf-lofte.rb:1109-1130 | corrected: the document ends as `OutlineCorrected` says, with the lists' sections at consecutive positions after the ToC's; the grandparent section changes as in `AddOutlineSections` |
| Outline.FixedIndicesSplitLists | asciidoctor-pdf-lofte.rb:1170-1177 | with two chapters, a ToC and only a list of tables, the fixed position 2 puts the tables' section after the first chapter; consecutive positions put it next to the ToC (Findings) |
| Outline.CorrectedKeepsListsTogether | asciidoctor-pdf-lofte.rb:1109-1130 | with consecutive positions, the lists' outline sections always fit, sit together directly after the ToC's section (or first, when the document has none) and come in the order LoF, LoT, LoE, LoL |
| Outline.FixedIndicesAgreeWhenAllListed | asciidoctor-pdf-lofte.rb:1160-1197 | when the ToC's section is first and all four lists have sections, the fixed positions 1 to 4 give the same result as consecutive positions |

## Left out

- Layout and typesetting are not modelled: fonts, themes, fragment positions and dot leaders. This includes the `break unless start_dots` exit at line 126, taken when the title laid out no fragment. A run's page count and end cursor enter the model as a measured `DryRun` value.
- The measuring run itself (`dry_run`) is given as a function from list to its measured `DryRun`. How the layout engine computes these numbers is not part of this model.
- `transform_text` and the `SectionInfoByPage` title styles are left out. So is everything in `ink_running_content` after the page walk (from line 948 on): the document attributes it sets (document title, page count, and per page the layout, the page number and the part, chapter and section titles taken from the walk's tables), the `repeat` stamping, `disable_on_pages`, and the image and folio placement. The page number it sets follows the same rule as `PageLabels.PageLabel`.
- Storing the page-label table in the PDF catalog (line 1153), the page modes (lines 1154-1156), `outline.define` and `add_outline_level` are left out. They write PDF objects, not document state. `PageLabels.BuildPageLabels` models the table itself.
- PageLabels.Roman: the roman numerals come from the host library's `RomanNumeral`, which is not part of this model. They are modelled as the usual greedy lowercase subtractive form.
- Base-converter methods (`allocate_toc`, `ink_toc`, `insert_toc_section`, `get_entries_for_toc`, `dest_top`) are not part of this model. The ToC's own allocation runs through the same `AllocateList` as the lists. The outline's ToC section uses the placement rule of `insert_toc_into_toc_section` without the id.
- Outline.AddOutlineSections: Ruby's `Array#insert` past the end pads with `nil`. The model requires every fixed position to be within the document's blocks (`OutlineAsWritten` is `Some`), so the padded documents are not modelled.
- Outline.InsertIndex: the model requires the macro's parent section to be among its parent's blocks. It also takes the first section's level as an input, so documents without sections, where `doc.sections[0].level` raises, are not modelled.
- `get_entries_for_*` writes `title ||= ''` into the document's own blocks. The model applies this to the collected entries only. The mutation's persistence into later uses of the document is not modelled, except for the entry-level promotion (Findings).
- RunningContent.PageStartOf: `pdf-page-start` is taken as the integer page number the converter records when it inks a heading. A text value in that attribute, which `to_i` would parse, is not modelled.
- Entries.LineFor: the printed page label depends on `get_dest` and the PDF page list. These are modelled as a map from anchor to page number.
- The diagnostic `p "CAUTION: …"` at line 79 is output only and is left out.

## Findings

| source | as written | input that shows it | evidently intended | confidence | as-written member | corrected member |
|---|---|---|---|---|---|---|
| asciidoctor-pdf-lofte.rb:55-56 | promoting a captioned block to level 2 writes into the document node, so the promotion made in the measuring run is still there in the real run, where the level test at line 43 then skips the entry | `toclevels` 1 and a level-1 figure titled "Chart" with caption "Figure 1. ": the measuring run prints "Figure 1. Chart", the real run prints nothing | both runs print the same entries, so the reserved pages match what is printed | not executed | Entries.PromotionHidesEntryInRealRun | Entries.FixedRunsAgree |
| asciidoctor-pdf-lofte.rb:1163-1193 | each list's outline section goes to a fixed position 1 to 4 in the document, whatever comes before it | two top-level chapters, a ToC titled "Contents" and only a list of tables titled "Tables": the outline reads Contents, chapter 1, Tables, chapter 2 | the lists' sections follow the ToC's section directly, in order, as they do when the lists join the ToC | not executed | Outline.FixedIndicesSplitLists | Outline.CorrectedKeepsListsTogether |

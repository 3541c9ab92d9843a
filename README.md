# Persona-driven document analysis: structure inference and ranking

This project models, in Dafny, the two engines at the centre of a
persona-driven PDF analyser and proves what they promise.

**Structure inference** (`app/document_parser.py`). It works on the text
spans of each page of a PDF. Each span carries its text, font size, bold
flag, page and bounding box.

- **Merge** (`merge_heading_spans`). Each page's spans are merged into
  logical lines by a greedy two-cursor scan.
- **Thresholds.** The histogram of line sizes gives four size bands: title,
  H1, H2 and H3.
- **Title.** The title is taken from the first suitable line of the first
  page, then cleaned.
- **Filter.** A rule chain (`is_likely_non_heading`) rejects lines that
  cannot be headings.
- **Classify.** The remaining lines are classified by a numbered path and a
  bold path, and de-duplicated by (text, page, level).
- **Hierarchy.** The candidates, in position order, go through a hierarchy
  pass that keeps "last H1/H2/H3" anchors and promotes or drops candidates.
  The outline is then de-duplicated.
- **Sections** (`extract_structured_sections`). The title and outline become
  section markers, sorted by position and kept once per text. Each marker
  collects the body spans of its window into a section, which is emitted for
  the title or when it has at least ten words.

**Ranking and snippets** (`app/main.py`).

- **Keywords.** The persona's query text gives keywords: lower-cased word
  runs that are not stopwords and are longer than two characters.
- **Score.** A section's score is the total number of keyword occurrences
  in its lower-cased text.
- **Rank.** Sections are ranked with a stable descending sort and numbered
  from 1.
- **Snippets.** `analyze` keeps the sentences that mention a keyword, or
  falls back to the text cut to 500 characters.

Each loop of the source is a `method` whose postcondition equals a
specification function. The properties are proved as lemmas about those
functions. The Python library calls the source relies on are modelled as
functions:

- `sorted` and `list.sort` as a stable insertion sort (`Seqs.Sort`);
- regular expressions as character predicates (`Patterns`, `Keywords`,
  `SubSections.Sentences`);
- `str.split`, `str.strip`, `str.lower`, `str.count` and `in` in `Text`.

Sizes and coordinates are `real`. Pages are 0-based. Characters are treated
as ASCII, for `\s`, `\d`, `\w` and for lower-casing.

Modules (one file each):

- `wrappers.dfy`, `text.dfy`, `seqs.dfy`, `layout.dfy`, `patterns.dfy`: shared helpers and data types.
- `merge.dfy`: the span merge.
- `thresholds.dfy`: the size bands.
- `title.dfy`: title detection and cleaning.
- `filter.dfy`: the non-heading rule chain.
- `classify.dfy`: the classifier.
- `hierarchy.dfy`: the hierarchy pass and outline de-duplication.
- `headings.dfy`: `identify_headings` as a whole.
- `sections.dfy`: section slicing.
- `keywords.dfy`: keyword extraction.
- `relevance.dfy`: scoring and ranking.
- `subsections.dfy`: `analyze`.

The size bands are not strictly ordered. The single adjustment pass at
`app/document_parser.py:179-181` does not guarantee h1 > h2. For example,
the relevant sizes 22, 17.2, 16.0 and 15.9 end with h2 = 17.4 above
h1 = 17.2. The model follows the code: it proves the ordering the code does
give (`Thresholds.BandMargins`) and this counterexample
(`Thresholds.H2AboveH1`, `Thresholds.H2AboveH1Sizes`).

## Model

| member | source | states |
|---|---|---|
| Text.Lower | app/main.py:27 | lower-casing keeps the length and lower-cases each character on its own |
| Text.StripSlice | app/document_parser.py:119 | strip returns one contiguous slice: all whitespace before and after it goes, and the slice neither starts nor ends with whitespace |
| Text.WordCountStrip | app/document_parser.py:566 | stripping a text never changes its number of words |
| Text.EndsSentenceStrip | app/document_parser.py:85 | `[.!?]$` on the stripped text holds exactly when the last non-whitespace character is sentence punctuation |
| Text.CountPositiveIff | app/main.py:47 | `text.count(kw)` is positive exactly when `kw in text` |
| Text.CountBound | app/main.py:47 | non-overlapping occurrences of a non-empty pattern together never need more room than the text has |
| Seqs.Sort | app/main.py:61 | the library sort returns a permutation of its input of the same length |
| Seqs.SortSorted | app/document_parser.py:355 | under a total preorder, every pair of the sorted list is in order |
| Seqs.SortStable | app/main.py:61 | the sort is stable: the elements that rank equal to any x appear in their input order |
| Seqs.DedupBy | app/document_parser.py:416-422 | the seen-set loop keeps at most one element per key, keeps every key, and keeps only input elements |
| Seqs.AddUnseen | app/document_parser.py:419-422 | one seen-set iteration extends the de-duplicated prefix and keeps the seen set equal to its key set |
| Seqs.DedupKeepsFirst | app/document_parser.py:503-506 | the first element with a given key survives de-duplication |
| Seqs.DedupOnlyFirst | app/document_parser.py:503-506 | every survivor is the first element with its key |
| Seqs.DedupSorted | app/document_parser.py:499-507 | de-duplicating a sorted list keeps it sorted |
| Patterns.NumberPrefixLength | app/document_parser.py:305 | the `\d+(?:\.\d+)*` prefix starts with a digit, holds only digits and dots, and is not followed by a digit |
| Patterns.MatchNumbered | app/document_parser.py:305-308 | a match has a digit-led prefix of digits and dots followed by whitespace; no match means no whitespace follows the longest prefix or only whitespace does |
| Merge.ContinuesRun | app/document_parser.py:88-108 | the merge decision is exactly the conjunction of the five criteria against the run's first size and x0, its last span and its bold flag so far |
| Merge.ScanRun | app/document_parser.py:71-117 | the inner cursor stops at the run's end and produces the line of that run: joined text, bold flag and bounding box |
| Merge.MergeHeadingSpans | app/document_parser.py:68-130 | the outer loop returns the lines of the runs of the page, one after another |
| Merge.RunsTile | app/document_parser.py:69-129 | the runs are non-empty, contiguous and in page order, and cover the whole page, so the scan always advances and an empty page gives no lines |
| Merge.LinesAreRuns | app/document_parser.py:118-129 | there is exactly one merged line per run, so never more lines than spans |
| Merge.RunEndJustified | app/document_parser.py:80-114 | every absorbed span passed the sentence-end check and the criteria at its turn |
| Merge.RunEndMaximal | app/document_parser.py:85-116 | the span after a run (if any) fails the sentence-end check or the criteria |
| Merge.RunBoldIsFirst | app/document_parser.py:102-103 | a non-bold span never absorbs the next one, so a run's bold flag is its first span's |
| Merge.RunAbsorbed | app/document_parser.py:85-94 | each absorbed span followed a text with no sentence end, has a size within 0.5 of the first span's, and starts below the previous span by less than 1.5 line heights |
| Merge.MaxX1Bounds | app/document_parser.py:110 | the merged x1 is the largest x1 of the run and is attained |
| Merge.MaxY1Bounds | app/document_parser.py:111 | the merged y1 is the largest y1 of the run and is attained |
| Merge.MergedLineShape | app/document_parser.py:118-127 | a merged line has its first span's bold flag, size, x0 and y0, the run's maximum x1 and y1, and its last span's page |
| Thresholds.CollectSizes | app/document_parser.py:153-156 | the nested loops collect every line's size, page by page, in order |
| Thresholds.RelevantSizes | app/document_parser.py:162-164 | the relevant sizes are strictly decreasing and are exactly the sizes of at least 10 points seen more than once |
| Thresholds.Floors | app/document_parser.py:173-176 | the floors raise each band to at least 20, 16, 13 and 11 and never lower one |
| Thresholds.Adjust | app/document_parser.py:179-181 | after the pass each band lies above the old band below it by more than 2, 1 and 1 point; no band goes down and h3 stays |
| Thresholds.InferBands | app/document_parser.py:162-181 | the inferred bands respect the floors, and h2 exceeds h3 by more than a point |
| Thresholds.SeedsOrdered | app/document_parser.py:167-170 | seeds taken from decreasing sizes of at least 10 points never increase and stay positive |
| Thresholds.BandMargins | app/document_parser.py:164-181 | title > h1 + 0.5, h2 > h3 + 1.0, and h2 <= h1 + 1.5 |
| Thresholds.H2AboveH1 | app/document_parser.py:167-181 | relevant sizes 22, 17.2, 16.0 and 15.9 end with bands (22, 17.2, 17.4, 15.9), so h2 > h1 |
| Thresholds.H2AboveH1Sizes | app/document_parser.py:162-181 | a concrete histogram yields exactly those relevant sizes, and its inferred h2 exceeds h1 |
| Thresholds.UniqueDecreasing | app/document_parser.py:164 | two strictly decreasing lists with the same elements are equal, which pins down `sorted(set, reverse=True)` |
| Title.CenteredByLeftEdge | app/document_parser.py:192-195 | for a positive x1 the centring test reduces to abs(x0) < 200 |
| Title.NoBoilerplateUnchanged | app/document_parser.py:201 | a title without the boilerplate is left unchanged by the substitution |
| Title.FirstPhrase | app/document_parser.py:204 | the search returns the leftmost index where a trailing phrase starts, and no phrase starts before it |
| Title.CutAtPhraseIsCutAtFirst | app/document_parser.py:204-207 | cutting at the match start (which includes the whitespace before the phrase) then stripping equals cutting at the phrase itself |
| Title.CutRemovesPhrases | app/document_parser.py:204-207 | after the cut the text contains none of the phrases |
| Title.CleanTitle | app/document_parser.py:199-210 | a cleaned title is empty or has at least three words |
| Title.CleanTitleHasNoPhrase | app/document_parser.py:199-210 | a cleaned title contains none of the trailing phrases |
| Title.FirstTitleLine | app/document_parser.py:186-198 | the search returns the first line meeting the title conditions, and none before it meets them |
| Title.DetectTitle | app/document_parser.py:184-211 | the scan stops at the first title line and returns its cleaned text, or "" without one |
| Title.TitleShape | app/document_parser.py:184-211 | the title is empty or has at least three words, and a non-empty one is the cleaned text of the first title line; a later line is never tried |
| Filter.NeighborsBeforeAfter | app/document_parser.py:265-273 | the neighbour count is at least one exactly when the previous or next line is column-like |
| Filter.CountColumnNeighbors | app/document_parser.py:266-272 | the offset loop counts the column-like neighbours at offsets -1 and 1 that exist |
| Filter.FollowsSentence | app/document_parser.py:253-260 | rule 7 as coded: the previous line ends a sentence, this line is no bold step up by more than 0.5, it is aligned within 10 and the gap is below the default 12 |
| Filter.IsLikelyNonHeading | app/document_parser.py:214-276 | the early-return chain rejects exactly when one of the eight rules holds |
| Filter.Survivor | app/document_parser.py:221-249 | any line that passes has 4+ characters or opens with digits and a dot, at most 30 words, is not "Page N of M" nor a bare integer, and is not bold more than 2 points below h3 |
| Filter.PlainSurvivor | app/document_parser.py:262-274 | a non-bold line that passes is at least h3 + 1 in size, or has 10+ words, or has no column-like neighbour |
| Classify.NumberedLevel | app/document_parser.py:313-321 | the numbered path never gives H0 |
| Classify.BoldLevel | app/document_parser.py:327-340 | the bold path never gives H0 |
| Classify.NumberedHeading | app/document_parser.py:305-324 | an accepted numbered line has a heading level and non-empty text |
| Classify.ClassifyLine | app/document_parser.py:302-340 | a classified line has a heading level and non-empty text |
| Classify.PlainNeedsNumber | app/document_parser.py:311-324 | a non-bold line is classified only through a number with at most two dots, at most a point below h3, and its text becomes `prefix + " " + rest` |
| Classify.UnnumberedNeedsBold | app/document_parser.py:326-340 | an unnumbered line gets a level only if it is bold, and keeps its text |
| Classify.NumberedNormalised | app/document_parser.py:323-324 | a line accepted by the numbered path carries its level with the text normalised to `prefix + " " + rest` |
| Classify.NumberedLevelNear | app/document_parser.py:313-321 | the numbered path never picks a level whose band is more than 1.5 above the size |
| Classify.BoldLevelNear | app/document_parser.py:327-340 | the bold path never picks a level whose band is more than 1.5 above the size |
| Classify.LevelNearBand | app/document_parser.py:302-340 | every classified line is at most 1.5 points below its level's band |
| Classify.LineCandidate | app/document_parser.py:284-341 | a line's candidate has a heading level, non-empty text and the line's page |
| Classify.PageCandidates | app/document_parser.py:283-341 | a page's candidates all have heading levels and non-empty texts |
| Classify.AllCandidates | app/document_parser.py:282-341 | the candidates of all pages all have heading levels and non-empty texts |
| Classify.ClassifyAt | app/document_parser.py:284-341 | the per-line code (empty skip, title skip, filter, numbered path, bold path) computes the line's candidate |
| Classify.ConsiderLine | app/document_parser.py:342-352 | one inner iteration extends the de-duplicated list by the line's candidate if its (text, page, level) is new, keeping the seen set |
| Classify.CollectPage | app/document_parser.py:283-352 | the inner loop de-duplicates the page's candidates onto the list so far |
| Classify.CollectCandidates | app/document_parser.py:279-352 | the loops return the de-duplicated candidates of all pages, and no (text, page, level) repeats |
| Hierarchy.Place | app/document_parser.py:364-414 | one body iteration (repeat check, per-level rules, anchor updates) is one step of the pass |
| Hierarchy.EnforceHierarchy | app/document_parser.py:358-414 | the loop returns the outline of the pass over all candidates |
| Hierarchy.StepInv | app/document_parser.py:379-411 | each step keeps the anchor invariant relating the anchors to the outline |
| Hierarchy.RunInv | app/document_parser.py:364-414 | the invariant holds after any number of candidates |
| Hierarchy.NestedFirst | app/document_parser.py:393-411 | a nested outline starts with an H1 |
| Hierarchy.NestedAt | app/document_parser.py:387-411 | each entry of a nested outline is no H0, an H2 has an earlier H1, and an H3 has an earlier H2 with no H1 in between |
| Hierarchy.OutlineNested | app/document_parser.py:364-414 | before de-duplication the first entry is an H1, no entry is H0, every H2 follows some H1, and every H3 follows an H2 with no H1 between |
| Hierarchy.StepExtends | app/document_parser.py:413-414 | a step only appends, so entries are never removed or changed |
| Hierarchy.OutlineNonEmpty | app/document_parser.py:393-411 | a non-empty candidate list (first not H0) gives a non-empty outline: the first candidate is always taken |
| Hierarchy.DecideRaises | app/document_parser.py:381-411 | an accepted candidate keeps its level or is promoted to a higher one |
| Hierarchy.OutlineIsSubsequence | app/document_parser.py:364-414 | the outline is an order-preserving subsequence of the candidates, each entry with its candidate's text and page |
| Hierarchy.OutlinePagesOrdered | app/document_parser.py:355-414 | candidates in page order give an outline in page order |
| Hierarchy.H1TrailCount | app/document_parser.py:381-384 | there is one H1 anchor per H1 entry of the outline |
| Hierarchy.H1TrailLast | app/document_parser.py:381-384 | the H1 anchor is the last anchor of the trail, or none |
| Hierarchy.H1AnchorsIncrease | app/document_parser.py:381-384 | successive H1 anchors are strictly increasing in (page, y0) |
| Hierarchy.DedupOutline | app/document_parser.py:416-422 | the second loop keeps the first entry of each (text, page, level), so no triple repeats |
| Hierarchy.DedupKeepsLevel | app/document_parser.py:416-422 | de-duplication keeps at least one entry of every level present |
| Hierarchy.DedupSupported | app/document_parser.py:416-422 | after de-duplication every H2 has an earlier H1, every H3 an earlier H2, and the first entry is still an H1 |
| Headings.ByPositionPreorder | app/document_parser.py:355 | the (page, y0, x0) key is a total preorder |
| Headings.MergedPages | app/document_parser.py:141 | every page is merged on its own |
| Headings.MergeAll | app/document_parser.py:141 | the comprehension merges every page |
| Headings.IdentifyHeadings | app/document_parser.py:132-431 | the stages in order (merge, sizes, bands, title, candidates, sort, hierarchy, de-duplication) compute the title and outline |
| Headings.NoLinesNoOutline | app/document_parser.py:137-159 | input without any span gives the empty title and an empty outline |
| Headings.SortedCandidatesShape | app/document_parser.py:354-355 | the sorted candidates are a permutation of the collected ones, in position order, none H0 or empty |
| Headings.RunPagesSorted | app/document_parser.py:355-414 | the pass over sorted candidates gives an outline in page order |
| Headings.FinishWellFormed | app/document_parser.py:358-422 | for sorted candidates, hierarchy then de-duplication gives a well-formed outline |
| Headings.OutlineWellFormed | app/document_parser.py:132-431 | the returned outline starts with an H1, every H2 has an earlier H1 and every H3 an earlier H2, pages never go back, and no (text, page, level) repeats |
| Headings.FinishNotEmpty | app/document_parser.py:358-422 | a non-empty candidate list gives a non-empty final outline |
| Headings.OutlineNotEmpty | app/document_parser.py:358-422 | once one line survives the classifier, the returned outline is not empty |
| Headings.OutlineTitle | app/document_parser.py:183-211 | the returned title is empty or has at least three words, and a non-empty one needs a first page with lines |
| Sections.FirstOnPage | app/document_parser.py:473-479 | the page search returns a matching span with no match before it on the page, or none exactly when no span matches |
| Sections.FirstInPages | app/document_parser.py:449-463 | the search over pages returns the first match of a page no earlier page of which has a match, or none exactly when no span of any page matches |
| Sections.FindOnPage | app/document_parser.py:450-461 | the inner search loop computes the first match of the page |
| Sections.FindSpan | app/document_parser.py:449-463 | the nested loops with their break flags compute the first match of the document |
| Sections.HeadingMarkers | app/document_parser.py:470-497 | there is one marker per outline entry, in outline order |
| Sections.HeadingMarkerAt | app/document_parser.py:470-497 | a heading marker keeps the entry's text, page and level; its y0 is that of the first matching span in page-then-span order, or 0 when no span matches |
| Sections.TitleMarkerAt | app/document_parser.py:446-466 | the title marker has the title's text and level H0, and the page and y0 of the first matching span in page-then-span order, or page 0 and y0 0 when no span matches |
| Sections.PlaceHeading | app/document_parser.py:470-497 | one outline iteration builds the entry's marker at the y0 the search finds, or 0 |
| Sections.OutlineMarkers | app/document_parser.py:470-497 | the outline loop appends one marker per entry |
| Sections.BuildMarkers | app/document_parser.py:446-497 | the title's marker comes first when there is a title, then the outline's markers |
| Sections.DedupMarkers | app/document_parser.py:501-507 | the seen_texts loop keeps the first marker of each text |
| Sections.MarkerLePreorder | app/document_parser.py:499 | the (page, y0) key is a total preorder |
| Sections.OrderedMarkers | app/document_parser.py:499-507 | the markers are built, sorted by (page, y0), then de-duplicated by text |
| Sections.MarkersSortedUnique | app/document_parser.py:499-507 | the markers are in (page, y0) order, have distinct texts, keep every text, and each is the first of its text in sorted order |
| Sections.HeadingTextIn | app/document_parser.py:545-549 | the loop over the outline finds a heading with the same stripped text exactly when one exists |
| Sections.KeepsSpan | app/document_parser.py:539-558 | the five tests on one span decide the keep test |
| Sections.AddPart | app/document_parser.py:538-559 | one span iteration appends the stripped text exactly when the span is kept |
| Sections.GatherPage | app/document_parser.py:538-559 | the span loop collects the stripped texts of the kept spans of a page, in order |
| Sections.MarkerWindow | app/document_parser.py:515-527 | the window ends on the marker's page (at the next marker's y0, or the page bottom) when another marker follows, and else at the end of the document |
| Sections.GatherWindow | app/document_parser.py:532-559 | the page loop collects the kept texts of the window's pages, skipping page numbers at or beyond the number of span lists |
| Sections.GatherSection | app/document_parser.py:510-573 | one marker's content is joined and stripped, and a section is emitted for H0 or ten or more words |
| Sections.AddSection | app/document_parser.py:510-573 | one marker iteration appends that marker's section when it is emitted |
| Sections.LoadFails | app/document_parser.py:515 | a marker on a page the document lacks makes the whole extraction fail |
| Sections.SliceSections | app/document_parser.py:510-575 | the marker loop returns the sections of all markers in order, or the failure when a marker's page cannot be loaded |
| Sections.ExtractSections | app/document_parser.py:446-575 | the slicing stage computes the sections of the ordered markers |
| Sections.PagePartsKept | app/document_parser.py:538-559 | every text collected from a page is the stripped text of a span of that page that passes the keep test |
| Sections.WindowPartsKept | app/document_parser.py:532-559 | every text of a window comes from a kept span of one of its pages |
| Sections.ContentFromWindow | app/document_parser.py:532-559 | every content text is the stripped text of a span on a window page that the keep test accepts |
| Sections.KeptSpan | app/document_parser.py:539-558 | a kept span is at or below the marker, differs from the marker's text and every outline heading, is no footer and no fragment |
| Sections.PagePartsComplete | app/document_parser.py:538-559 | every span of the page that passes the keep test has its stripped text collected |
| Sections.WindowPartsComplete | app/document_parser.py:532-559 | every kept span of a window page has its stripped text collected |
| Sections.ContentExact | app/document_parser.py:532-559 | a text is in a marker's content exactly when it is the stripped text of a span on a window page that the keep test accepts |
| Sections.ContentSound | app/document_parser.py:532-559 | every content text is from a window span at or below the marker that is neither the marker's nor any heading's text, nor a page number or running header, nor a fragment |
| Sections.NotLastStaysOnPage | app/document_parser.py:519-541 | a marker with a successor collects only from its own page, at or below its y0 and above the next marker (same page) or the page bottom |
| Sections.SectionEmitted | app/document_parser.py:564-573 | a section is emitted exactly for H0 or ten or more words, with the marker's text and level and page_number = page + 1 |
| Sections.SectionsFromMarkers | app/document_parser.py:566-573 | every section carries the text and page + 1 of one of the markers |
| Sections.SectionTitlesDistinct | app/document_parser.py:501-573 | markers with distinct texts give sections with distinct titles |
| Sections.ExtractTitlesDistinct | app/document_parser.py:499-573 | the sections of a document that loads have pairwise distinct titles |
| Keywords.WordEnd | app/main.py:27 | the run of word characters from i ends at the first non-word character |
| Keywords.TokensAreRuns | app/main.py:27 | every token is a maximal run of word characters |
| Keywords.RunsAreTokens | app/main.py:27 | every maximal run of word characters is a token |
| Keywords.TokensExact | app/main.py:27 | the tokens are exactly the texts of the maximal word runs, which is what `\b\w+\b` finds |
| Keywords.KeepKeywordsCount | app/main.py:29 | the comprehension keeps every occurrence of a keyword and no occurrence of any other word |
| Keywords.KeepKeywordsAppend | app/main.py:29 | the comprehension keeps order: filtering a concatenation gives the concatenation of the filtered parts |
| Keywords.KeywordCount | app/main.py:27-29 | a word is a keyword exactly when it is a token of the lower-cased text, not a stopword and longer than two characters, and it appears as often as among the tokens |
| Keywords.KeywordsLowercase | app/main.py:27-29 | every keyword has at least three characters, all word characters and none upper-case |
| Keywords.TokensInOrder | app/main.py:27 | the j-th token is the text of the j-th maximal word run, the runs go strictly left to right, and no maximal run is missed, so each run gives one token in text order |
| Keywords.TokensShift | app/main.py:27 | tokenising the tail of a concatenation from inside its second part tokenises that part |
| Keywords.TokensSplit | app/main.py:17 | a non-word character between two texts separates their tokens |
| Keywords.QueryKeywordsSplit | app/main.py:17-18 | the query's keywords are the role's, then the description's, then the job's |
| Relevance.CalculateRelevance | app/main.py:39-49 | the accumulator loop returns the sum over the keywords of their counts in the lower-cased text |
| Relevance.ScorePositive | app/main.py:43-49 | a score is positive exactly when some keyword occurs in the lower-cased text |
| Relevance.ScoreAppend | app/main.py:46-47 | scores add up over a split of the keyword list |
| Relevance.ScoreBound | app/main.py:46-47 | with no empty keyword the score is at most the number of keywords times the text length |
| Relevance.ScoreIgnoresCase | app/main.py:44 | the score does not depend on the case of the text |
| Relevance.ByScorePreorder | app/main.py:61 | "scores at least as much" is a total preorder |
| Relevance.ScoreAll | app/main.py:55-58 | there is one scored record per section |
| Relevance.RankFrom | app/main.py:64-67 | there is one ranked record per sorted record |
| Relevance.ScoreSections | app/main.py:55-58 | the first loop pairs every section with its score, in input order |
| Relevance.AssignRanks | app/main.py:64-67 | the rank loop numbers the sorted records from 1 and drops the score |
| Relevance.RankSections | app/main.py:51-68 | rank_sections computes the ranking |
| Relevance.RankedSectionsAre | app/main.py:64-67 | numbering does not change the sections or their order |
| Relevance.ScoreAllSections | app/main.py:55-58 | scoring does not change the sections or their order |
| Relevance.SortedConsistent | app/main.py:61 | after sorting every record still carries its own section's score |
| Relevance.RankingAt | app/main.py:61-66 | the i-th ranked entry is the i-th sorted record with rank i + 1 |
| Relevance.RankingRanks | app/main.py:63-66 | there are as many ranked entries as sections, with ranks exactly 1..n in order |
| Relevance.RankingPermutation | app/main.py:51-68 | the ranked sections are a permutation of the input sections |
| Relevance.RankingOrdered | app/main.py:61 | ranks follow the scores: an earlier entry never scores less than a later one |
| Relevance.ClassWithScore | app/main.py:61 | the records that tie with x under the sort key are, as sections, those that score the same |
| Relevance.RankingStable | app/main.py:61 | for every score, the sections with that score come out in their input order |
| SubSections.SpaceEnd | app/main.py:85 | the whitespace run from i ends at the first non-whitespace character |
| SubSections.FirstPiece | app/main.py:85 | the first piece is how the text begins |
| SubSections.PiecesInText | app/main.py:85 | every piece occurs in the text |
| SubSections.PiecesEnd | app/main.py:85 | every piece but the last ends with sentence punctuation |
| SubSections.PiecesNoSplit | app/main.py:85 | no piece contains a separator |
| SubSections.PiecesStart | app/main.py:85 | a piece after a separator is empty or starts with a non-whitespace character |
| SubSections.LastPiece | app/main.py:85 | the last piece is how the text ends |
| SubSections.SentencesShape | app/main.py:85 | the split gives at least one sentence; the first is a prefix and the last a suffix of the text; each occurs in the text with no separator inside; all but the last end in punctuation; and none after the first starts with whitespace |
| SubSections.PiecesRebuild | app/main.py:85 | one gap fewer than pieces, every gap a non-empty whitespace run, and the pieces with the gaps between them give back the text |
| SubSections.SentencesRebuild | app/main.py:85 | the sentences with the dropped whitespace runs between them give back the text, so only separator whitespace is lost |
| SubSections.AnyKeyword | app/main.py:88 | the early-exit search is true exactly when some keyword occurs in the lower-cased sentence |
| SubSections.CollectSnippets | app/main.py:87-89 | the sentence loop collects the stripped sentences that contain a keyword, in order |
| SubSections.Analyze | app/main.py:78-99 | analyze computes the refinement of the section |
| SubSections.SnippetsExact | app/main.py:87-89 | a snippet is exactly a stripped sentence containing a keyword in its lower-cased form |
| SubSections.SnippetsAppend | app/main.py:87-89 | snippets keep sentence order: a split of the sentences splits the snippets |
| SubSections.RefinementShape | app/main.py:92-99 | document, page number and title pass through; with snippets each shows in the refined text; without, the text is kept up to 500 characters and otherwise cut to 500 plus "..." |
| SubSections.NoKeywordNoSnippet | app/main.py:88-92 | a text in which no keyword occurs gives no snippet |
| SubSections.ZeroScoreFallback | app/main.py:92 | a section that scores zero gets the fallback text |

## Left out

- Text extraction from PDF (`extract_text_with_metadata`: PyMuPDF decoding, font-flag bits, font-name sniffing) is not modelled. The per-page span lists are the model's input.
- Opening the document and `page_count` are not modelled, nor closing it. `doc.load_page(p).rect.y1` becomes the `bottoms` parameter (one bottom edge per loadable page). A page it lacks makes `load_page` raise; the generic `except Exception` handler prints the error and re-raises it, so the extraction fails; that failure is modelled as `None` from `Sections.Extract`. The last marker's "infinite" end bound is an absent bound.
- The `fitz.FileNotFoundError` handler (which returns `[]` for a missing file) is not modelled, since opening the file is not; the `print` calls of both handlers are left out. Commented-out debug prints are left out too.
- `run_solution` (directory listing, JSON reading and writing, timestamps, top-N capping) is not modelled.
- `PersonaAnalyzer.__init__` is modelled as `Keywords.QueryKeywords` over the role, description and job strings. The persona dict's `.get` defaults are not modelled: a missing key is passed as "".
- Floating-point numbers are not modelled. Sizes and coordinates are `real`, taken as already rounded, so `round(size, 1)` and `round(span["size"], 2)` are left out. The score is a `nat`, since it only ever adds integer counts to `0.0`.
- Python's Unicode character classes and case mapping are not modelled. `\s`, `\d`, `\w` and `str.lower()` are modelled on ASCII.
- Python regular expressions are not modelled in general. Each pattern the core uses is a hand-written predicate, which agrees with the pattern on ASCII text.
- Title.RemoveBoilerplate: its contract states only that the text does not grow (plus `Title.NoBoilerplateUnchanged`); the exact match positions of the boilerplate pattern are not proved.
- Merged lines carry no `line_height`, so rule 7 of `is_likely_non_heading` always uses the default of 12. The model does the same.
- `is_likely_non_heading` takes h1 and h2 sizes that it never reads. `Filter.NonHeading` takes only the h3 size.
- `rank_sections` adds `importance_rank` to each scored dict and deletes `score` from it in place. Those dicts are fresh copies (`{**section, "score": score}`) that nothing else shares, so the model's new `Ranked` values are equivalent; the caller's section dicts are never changed.
- Generic filename handling (`os.path.basename`) is not modelled. The document name is a parameter.

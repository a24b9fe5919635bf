# Furigana placement and adaptive-visibility rendering

A Dafny model of the furigana pipeline of the storybook reader
(`reader/app.js`). Given a sentence's Japanese text and its list of
(surface, reading) annotations, the reader:

- finds each annotation's span in the text with a cursor that only moves
  forward, so that a repeated surface (木 in 木、木。) matches its next
  occurrence;
- splits each annotation into the kanji stem that carries the reading and the
  trailing kana (okurigana) that is already written out;
- in AUTO mode, shows a reading only while its surface has been seen fewer
  than five times. The count starts from a table computed from the chapters
  numbered below the open one, and grows by one for each surface the chapter
  renders.

The model is functional. Text is `seq<char>`, with one `char` per UTF-16 code
unit, as JavaScript indexes strings. A sentence renders to a list of
`Plain(text)` and `Ruby(stem, reading, visible, oku)` fragments instead of an
HTML string. The exposure table is a `map<string, nat>` that is passed in and
returned rather than kept in a global.

Modules, one per file:

- `Text` (text.dfy): kana test, `endsWith`, `indexOf`.
- `Okurigana` (okurigana.dfy): `splitOkurigana`.
- `Story` (story.dfy): annotations, sentences, chapters, the loaded library.
- `Placement` (placement.dfy): the placement loop and the sort by start.
- `Exposure` (exposure.dfy): exposure counters and `computePriorExposures`.
- `Furigana` (furigana.dfy): display modes, the render loop, per-chapter
  rendering.
- `Scenarios` (scenarios.dfy): whole sentences rendered end to end.

Where the source's own comments promise more or less than its code does, the
model follows the code:

- The comment on `computePriorExposures` (reader/app.js:163) speaks of kanji
  surfaces, but line 176 counts every annotation surface, including surfaces
  made only of kana.
- The comment in `openChapter` (reader/app.js:322-323) promises a reset of
  the exposure counts on every chapter view. `renderReader` reseeds them only
  in AUTO mode (reader/app.js:396-398). In ON and OFF mode the stale table is
  kept but never read (`RenderReaderDeterministic`).
- A zero-length surface is found at the cursor, as `indexOf("")` is. Its
  zero-width placement can therefore sit at offset `|text|`.

## Model

| member | source | states |
|---|---|---|
| Text.IndexOf | reader/app.js:197 | `indexOf(surface, from)` gives the first offset at or after `from` (clamped to the text length) where the surface occurs. None means it occurs nowhere from there on. |
| Okurigana.TrailingKana | reader/app.js:135-140 | The count is the length of the maximal run of U+3040–U+30FF characters at the end of the surface. Every character in the run is kana, and the one before it is not. |
| Okurigana.SplitOkurigana | reader/app.js:134-160 | In every branch `stem + oku == surface`. A split happens iff the trailing kana run is non-empty, is not the whole surface, and ends the reading. A split also gives `reading + oku == reading input`, an all-kana `oku`, and a non-empty stem ending in a non-kana. Otherwise the input comes back whole with empty okurigana. |
| Okurigana.SplitMatsu | reader/app.js:126 | 待つ/まつ splits into 待, ま, つ. |
| Okurigana.SplitSukoshi | reader/app.js:127 | 少し/すこし splits into 少, すこ, し. |
| Okurigana.SplitBoushi | reader/app.js:128 | 帽子/ぼうし has no trailing kana and stays whole. |
| Okurigana.SplitSoundChange | reader/app.js:149-159 | 走る/はしつ stays whole because the reading does not end with る. |
| Okurigana.SplitAllKana | reader/app.js:142-145 | A surface made only of kana (ある) is never split. |
| Placement.LocateFrom | reader/app.js:194-207 | The loop makes at most one placement per annotation. Each placement spans exactly its surface, inside the text, at or after the starting cursor. The placements never overlap and come left to right. |
| Placement.InsertByStart | reader/app.js:208 | Inserting into a start-sorted list keeps it sorted and adds exactly that one element. |
| Placement.SortByStart | reader/app.js:208 | The sort returns a permutation of its input, sorted by start. |
| Placement.SortKeepsSorted | reader/app.js:208 | The stable sort returns a list already in start order unchanged. |
| Placement.Locate | reader/app.js:191-208 | The sorted placements equal the loop's own output, so the sort never reorders. They are in bounds, genuine, disjoint, and at most one per annotation. |
| Placement.PlaceAnnotations | reader/app.js:194-208 | The imperative `searchPos` loop followed by the sort computes exactly `Locate`. |
| Placement.LocateTakesNextOccurrence | reader/app.js:195-206 | No placement's surface occurs between the previous placement's end (or the cursor) and the placement's start. Each placement is at the next occurrence, never an earlier one. |
| Placement.LocateKeepsAnnotationOrder | reader/app.js:196-206 | The placements' (surface, reading) pairs form a subsequence of the annotation list: in list order, each annotation used at most once. |
| Placement.LocateDropsUnmatched | reader/app.js:197-206 | An annotation whose surface does not occur at or after the cursor produces no placement and leaves the cursor unchanged. |
| Placement.LocatePlacesMatched | reader/app.js:197-205 | An annotation whose surface occurs at or after the cursor is placed at the first such occurrence, and the cursor moves to that occurrence's end. |
| Placement.RepeatedSurfaceExample | reader/app.js:191-193 | In 木、木。 two annotations for 木 are placed at [0, 1) and [2, 3). |
| Story.SentenceSurfacesMembers | reader/app.js:174-176 | A surface is among a chapter's counted surfaces exactly when some annotation of some sentence has it. |
| Exposure.RecordExposure | reader/app.js:223-225 | A sighting returns the surface's previous count (0 if absent) and raises that count by one. Every other count is unchanged, and the key set gains only that surface. |
| Exposure.TallyCount | reader/app.js:174-178 | Counting a list of surfaces raises each surface's count by the number of times it occurs in the list. |
| Exposure.TallyKeys | reader/app.js:174-178 | Counting a list adds exactly the list's surfaces as keys. |
| Exposure.TallyAppend | reader/app.js:170-179 | Counting two lists one after the other is counting their concatenation. |
| Exposure.PriorFrom | reader/app.js:170-179 | The chapter loop with `break` and `continue` only ever raises counts: every surface's count is at least its count in the table it starts from. |
| Exposure.PriorExposures | reader/app.js:168-181 | With an empty chapter list, or a target at or below the first listed chapter, the snapshot is the empty table. |
| Exposure.PriorFromAscending | reader/app.js:107 | Given the ascending list that `loadAllChapters` sorts, the early `break` is the same as keeping only chapters numbered below the target. |
| Exposure.PriorExposuresCount | reader/app.js:168-181 | Given an ascending list, each surface's count is its number of annotations in loaded chapters numbered below the target. There are no other keys. |
| Exposure.PriorExposuresOnlyEarlier | reader/app.js:170-173 | Two libraries with the same chapter list that agree on chapters below the target give the same snapshot. Later chapters are never read. |
| Furigana.ModeIndex | reader/app.js:510 | The index is the mode's position in `FURIGANA_MODES`. |
| Furigana.CycleMode | reader/app.js:509-511 | The toggle always changes the mode. |
| Furigana.CyclePeriod | reader/app.js:17 | The toggle goes AUTO→ON→OFF→AUTO: period exactly three. |
| Furigana.RenderRuns | reader/app.js:211-242 | The render loop never drops a surface from the table. Outside AUTO it leaves the table exactly as it was. |
| Furigana.RunsReconstruct | reader/app.js:211-242 | The render loop's plain runs, and the stem and okurigana of its ruby runs, spell the text from the loop's start offset, in order. |
| Furigana.RunsRubies | reader/app.js:214-235 | The loop emits exactly one ruby run per placement, in order, carrying the placement's split. Each run is visible iff the mode shows it: always outside AUTO, and in AUTO iff the count seen before it is below 5. That count is the table's count plus the surface's earlier sightings in the sentence. |
| Furigana.RunsPositions | reader/app.js:214-235 | The `k`-th ruby run is placement `k`'s run, carrying its split. Everything before it spells the text from the loop's start up to that placement's start. So each reading sits over the placement's own span: the text before a placement is emitted first, then its ruby. |
| Furigana.RunsExposures | reader/app.js:220-226 | In AUTO the loop records one sighting per placement, in order. Outside AUTO the table is unchanged. |
| Furigana.RunsIgnoreTable | reader/app.js:220-226 | Outside AUTO the loop's output does not depend on the exposure table. |
| Furigana.RenderSentence | reader/app.js:183-243 | In every mode the rendered fragments spell the sentence's text exactly. |
| Furigana.RenderBare | reader/app.js:187-189 | In OFF mode, or with no readings, the output is the bare text as one plain run, with no ruby and the table untouched. |
| Furigana.RenderVisibility | reader/app.js:220-232 | There is one ruby run per placement, in order. In ON mode each is visible. In AUTO mode each is visible iff its surface's count (table plus earlier sightings in the sentence) is below `FURIGANA_FADE_THRESHOLD` = 5. |
| Furigana.RenderPositions | reader/app.js:211-242 | In every mode, each placement's ruby run is the `k`-th ruby run of the sentence. It is preceded by exactly the sentence text before the placement's start, so a repeated surface carries its reading over the occurrence the placement loop chose. |
| Furigana.RenderCounts | reader/app.js:220-226 | In AUTO each surface's count rises by its number of placements in the sentence and no other count changes. ON and OFF leave the table as it was. |
| Furigana.RenderSentences | reader/app.js:432-438 | A chapter renders exactly one fragment list per sentence. The table passes from each sentence to the next; `SentencesExposures` and `SentencesFromSeed` state how. |
| Furigana.SentenceExposures | reader/app.js:183-243 | The table a sentence leaves: in AUTO, the starting table with one sighting per placement, in order. In every other case, including OFF and a sentence without readings, it is unchanged. |
| Furigana.SentencesExposures | reader/app.js:432-438 | The table after a chapter: in AUTO, the starting table with one sighting per placement of every sentence, in sentence order. Otherwise it is unchanged. |
| Furigana.SentencesFromSeed | reader/app.js:432-438 | Sentence `i` renders exactly as it would alone from the starting table. In AUTO that table has the placements of sentences `0..i-1` recorded on top. |
| Furigana.RenderReader | reader/app.js:391-398 | One fragment list per sentence. In AUTO, sentence `i` renders from the earlier-chapter snapshot plus the placements of the sentences before it. Outside AUTO, the chapter renders as from an empty table, whatever live table it is handed. |
| Furigana.ChapterVisibility | reader/app.js:396-398 | Given the ascending chapter list, the AUTO rule over a chapter: placement `k` of sentence `i` shows its reading iff its surface's earlier occurrences number fewer than 5 in total. Those occurrences are its annotations in earlier chapters, its placements in earlier sentences and its placements earlier in the same sentence. |
| Furigana.SentencesReconstruct | reader/app.js:432-438 | Each sentence of the chapter renders to fragments that spell its text. |
| Furigana.RenderReaderDeterministic | reader/app.js:396-398 | A chapter's output depends only on the library, the chapter and the mode. It never depends on the live table left by an earlier rendering. |
| Scenarios.SchoolScenario | reader/app.js:183-243 | In ON mode, 今日は学校に行く。 with 今日/きょう, 学校/がっこう, 行く/いく renders as ruby 今日, plain は, ruby 学校, plain に, ruby 行 (reading い, okurigana く), plain 。. |
| Scenarios.FadeScenario | reader/app.js:220-226 | In AUTO, 木、木。 with 木 seen four times shows the first reading and hides the second, and leaves 木 at six. |

## Left out

- Data loading (`loadManifest`, `loadChapter`, `loadAllChapters`) is asynchronous `fetch` I/O. The loaded result is the `Library` value. The sort at line 107 appears as the `Ascending` precondition of the lemmas that need it.
- Settings persistence (`loadSettings`, `saveSettings`) is `localStorage` I/O. The mode is always one of the three `Mode` values, which is what the `includes` check in `loadSettings` guarantees.
- `escapeHtml` uses the DOM. The output is fragments, and escaping each run is left to the consumer.
- Audio playback, image fallback, landing and reader DOM building, navigation and history, the vocabulary panel, keyboard handling, `init` and hash parsing are DOM and event wiring with no furigana logic.
- Scroll progress uses layout queries and floating-point percentages.
- `KANJI_RE` is never used.
- Exposure.RecordExposure and Exposure.PriorExposures: the table is a true map. The source uses a plain object both in the render loop (reader/app.js:223-225) and in `computePriorExposures` (reader/app.js:176). A surface that names an `Object.prototype` member (such as `constructor`) would read an inherited value there instead of 0. Annotation surfaces are Japanese words, so this never arises in practice.
- Placement.SortByStart: this is a stable insertion sort by start. It matches JavaScript's stable `Array.prototype.sort` with the comparator `a.start - b.start`. Only its behaviour is modelled, not the engine's algorithm.
- Characters outside the Basic Multilingual Plane are two UTF-16 code units in the source. The model only treats one `char` as one code unit, and does not model surrogate pairs.

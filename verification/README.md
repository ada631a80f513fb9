# Orienta checklist evaluation, modelled in Dafny

Orienta is a web application in which an academic advisor evaluates a
student's research project against a fixed checklist. The checklist has nine
sections and 54 yes/no questions. Evaluating works like this:

- The advisor answers every question on the evaluation page. Each "no"
  answer needs an observation.
- The advisor saves the answers as a draft and finalizes it.
- Finalizing scores the evaluation and stores a *ponderation*. A ponderation
  is the score, a tier (`bom`, `atencao` or `critico`) and one row per "no"
  answer.
- An AI model writes a tip for each stored "no" row. When a request fails, a
  fixed fallback tip is written instead.
- A public page shows the ponderation: every catalog item, with the "no"
  items' observations and tips.

This project models that core:

- the checklist catalog;
- the student, evaluation, ponderation and tip handlers over an in-memory
  store;
- the evaluation page's form logic;
- the small pieces of view logic on the ponderation page, on the answer
  radio group and on the dashboard.

## Modules

- `Wrappers`: `Option` and `Result`.
- `Js`: the JavaScript built-ins the code relies on, stated over exact
  values:
  - `findIndex`/`find`;
  - `[...new Set(xs)]`;
  - `filter`/`map`;
  - `trim` with JavaScript's whitespace set;
  - `Math.round` of a quotient, computed exactly as the integer nearest to
    n/d with halves rounding up.
- `ChecklistData`: the catalog.
  - It holds the 54 questions verbatim. Long texts are written as
    concatenations of shorter literals, which gives the same value.
  - It holds the section heads (id and title) and `TOTAL_ITEMS`.
  - It has the lookups by id, and the flattening into (section id, item id)
    keys.
  - It proves the identity facts every lookup relies on: section ids are
    distinct, item ids are distinct across the catalog, and no id contains
    the `:` used in lookup keys.
- `Schema`: the records and the store.
  - `Schema.Store` is a class. Its keyed tables are maps. The ponderation
    items and the tips are sequences in insertion order.
  - Ids come from a counter.
  - Its invariant `Valid` says three things. Ids are below the counter.
    Item-row ids are unique. Every foreign key names an existing row.
- `Evaluations`: the draft handlers, the finalize validation, the score and
  tier, and the finalize writes.
- `AiTips`: the prompt, and the per-item tip generation as a sequential loop.
  The model's reply is an oracle parameter.
- `Ponderations`: the detail view, which merges the stored "no" rows and
  their first tips into the full catalog, and the regenerate handler.
- `Students`: list with pagination, create, partial update, and delete with
  the schema's cascades.
- `Avaliacoes`: the evaluation page.
  - The form rows are built from the catalog and patched one item at a time.
  - It computes the progress figures.
  - It runs the checks before finalizing.
  - It handles section navigation.
  - The class `EvaluationForm` holds the page state that the save and
    finalize handlers update.
- `PonderacaoDetalhe`: the public page's status label, the per-section
  counts, the sections shown open, and the panels shown per item.
- `ChecklistItemView`: the tri-state answer to radio-value mapping and back,
  and the observation box.
- `RecentPonderacoes`: the dashboard's percentage of "yes" answers.

## What the regenerate and finalize code does

- **Regenerating tips.** Two comments in the regenerate handler say the run
  skips items that already have a tip (src/api/ponderations.ts:143 and :156).
  - `generateAiTipsForPonderation` (src/lib/ai-tips.ts:79-106) has no such
    filter. It sends one request per stored item, in order, and writes one
    tip for each.
  - The model follows the code. `AiTips.RunDoesNotSkipTippedItems` proves
    that a run adds a tip to every item, including items that already have
    one.
- **Finalizing.** The finalize handler never calls the tip generator. The
  model's `Finalize` does not call it either.

## Model

| member | source | states |
|---|---|---|
| Js.FindIndex | src/routes/avaliacoes.tsx:221 | -1 exactly when no element satisfies the predicate; otherwise the first index whose element does |
| Js.Find | src/api/evaluations.ts:192-193 | nothing exactly when no element satisfies the predicate; otherwise the first element that does |
| Js.Dedup | src/api/evaluations.ts:150 | every value of the input once and nothing else, ordered by first occurrence in the input |
| Js.TrimEmptyIffBlank | src/api/evaluations.ts:147 | `s.trim() === ""` holds exactly when every character of `s` is JavaScript whitespace |
| Js.Round | src/api/evaluations.ts:166 | the result is the integer nearest to n/d, with halves rounding up |
| Js.Percent | src/api/evaluations.ts:166 | the result is the integer nearest to 100·n/d, with halves rounding up |
| Js.RoundMonotone | src/api/evaluations.ts:166 | a larger numerator never rounds to a smaller integer |
| Js.PercentBounds | src/routes/avaliacoes.tsx:83 | a share of n out of d (0 ≤ n ≤ d) is between 0 and 100; it is 0 when n is 0 and 100 when n is d |
| Js.FilterCount | src/api/evaluations.ts:135 | a filter keeps one element for each position whose element satisfies the predicate |
| Js.Filter | src/api/evaluations.ts:135 | the result keeps exactly the elements that satisfy the predicate, and is never longer than the input |
| Js.Map | src/routes/avaliacoes.tsx:62 | the result has the input's length, and element k is the function applied to input element k |
| ChecklistData.CatalogShape | src/lib/checklist-data.ts:14-350 | nine sections of 6, 6, 6, 7, 7, 5, 6, 5 and 6 items; `TOTAL_ITEMS`, the sum of the section sizes, is 54 |
| ChecklistData.IntroducaoKeyed | src/lib/checklist-data.ts:15-51 | the section id has no `:`; its item ids start with `in`, contain no `:` and are distinct |
| ChecklistData.JustificativaKeyed | src/lib/checklist-data.ts:52-88 | the section id has no `:`; its item ids start with `ju`, contain no `:` and are distinct |
| ChecklistData.ObjetivosKeyed | src/lib/checklist-data.ts:89-125 | the section id has no `:`; its item ids start with `ob`, contain no `:` and are distinct |
| ChecklistData.FundamentacaoKeyed | src/lib/checklist-data.ts:126-167 | the section id has no `:`; its item ids start with `fu`, contain no `:` and are distinct |
| ChecklistData.MetodologiaKeyed | src/lib/checklist-data.ts:168-209 | the section id has no `:`; its item ids start with `me`, contain no `:` and are distinct |
| ChecklistData.CronogramaKeyed | src/lib/checklist-data.ts:210-241 | the section id has no `:`; its item ids start with `cr`, contain no `:` and are distinct |
| ChecklistData.ReferenciasKeyed | src/lib/checklist-data.ts:242-278 | the section id has no `:`; its item ids start with `re`, contain no `:` and are distinct |
| ChecklistData.CoerenciaKeyed | src/lib/checklist-data.ts:279-310 | the section id has no `:`; its item ids start with `co`, contain no `:` and are distinct |
| ChecklistData.EscritaKeyed | src/lib/checklist-data.ts:311-347 | the section id has no `:`; its item ids start with `es`, contain no `:` and are distinct |
| ChecklistData.SectionKeyedAt | src/lib/checklist-data.ts:14-348 | section k's item ids carry section k's two-character tag, contain no `:` and are distinct |
| ChecklistData.TaggedSectionsDistinct | src/lib/checklist-data.ts:14-348 | sections whose item ids carry different tags, and are distinct within each section, have distinct item ids overall and no `:` |
| ChecklistData.SectionIdsAreDistinct | src/lib/checklist-data.ts:14-348 | no two sections share an id |
| ChecklistData.ItemIdsAreDistinct | src/lib/checklist-data.ts:14-348 | no two catalog positions share an item id, and no section or item id contains `:` |
| ChecklistData.LookupFindsSection | src/api/evaluations.ts:192 | looking up section k's id finds section k |
| ChecklistData.LookupFindsPosition | src/api/evaluations.ts:192-198 | looking up the ids of catalog position (k, i) finds that section, that item and its question |
| ChecklistData.HeadsOfCatalog | src/lib/checklist-data.ts:14-348 | the section heads list, in order, each section's id and title |
| ChecklistData.HeadIdsDistinct | src/lib/checklist-data.ts:14-348 | no two section heads share an id |
| ChecklistData.TitleInNone | src/routes/avaliacoes.tsx:146 | the title scan finds nothing exactly when no head has the id |
| ChecklistData.TitleInUnique | src/routes/avaliacoes.tsx:146 | when only head k has the id, the scan yields head k's title |
| ChecklistData.FindTitleFacts | src/api/evaluations.ts:152 | the title found for an id is the title of the section with that id; nothing is found exactly when no section has it |
| ChecklistData.FindQuestionIffCatalogKey | src/api/evaluations.ts:192-193 | a question is found exactly when (section id, item id) names a catalog item |
| ChecklistData.SectionKeys | src/routes/avaliacoes.tsx:37-42 | one key per item of the section, in item order, each made of the section id and the item id |
| ChecklistData.FlattenAt | src/routes/avaliacoes.tsx:36-43 | item i of section k sits in the flattened list after all items of the earlier sections |
| ChecklistData.FlattenLength | src/routes/avaliacoes.tsx:36-43 | the flattened list has as many keys as the sections have items |
| ChecklistData.FlattenMember | src/routes/avaliacoes.tsx:36-43 | a key is in the flattened list exactly when some catalog position carries it |
| ChecklistData.FlattenDistinct | src/routes/avaliacoes.tsx:36-43 | distinct item ids give distinct flattened keys |
| ChecklistData.CatalogKeysFacts | src/lib/checklist-data.ts:350 | the catalog has 54 keys, all distinct, and a key is among them exactly when it names a catalog item |
| Schema.FilterKeepsIdsDistinct | src/lib/db/opc-schema.ts:59-67 | keeping some of the item rows keeps their ids unique |
| Schema.ItemIdsPrefixStep | src/lib/db/opc-schema.ts:59-67 | the ids of a prefix one row longer are the prefix's ids plus that row's id |
| Schema.ItemIdsGrow | src/lib/db/opc-schema.ts:59-67 | appending item rows keeps every id already present |
| Schema.AddTipConsistent | src/lib/db/opc-schema.ts:69-77 | a tip for a stored item, under the next id, keeps the store consistent |
| Schema.Store.constructor | src/lib/db/opc-schema.ts:27-77 | an empty store is consistent |
| Evaluations.Validate | src/api/evaluations.ts:132-176 | passes exactly when at least `TOTAL_ITEMS` entries are answered and every "no" carries a non-blank observation. Too few answers reports the answered count. Otherwise a missing observation reports each offending section once, in the order the payload first names it, with its title or its id. A pass carries the yes and no counts, the rounded score and its tier |
| Evaluations.QuestionOfCatalog | src/api/evaluations.ts:192-198 | a row's question is the catalog question of its key, or the item id when the key names no catalog item |
| Evaluations.NoRows | src/api/evaluations.ts:189-202 | one row per "no" entry, with consecutive ids, under the ponderation, answered "no" |
| Evaluations.NoRowsFollowPayload | src/api/evaluations.ts:189-202 | row k is the k-th "no" entry in payload order, with its keys, its catalog question and its observation |
| Evaluations.ScoreNeverTies | src/api/evaluations.ts:166 | 100·p/54 is never exactly halfway between two integers, so exact rounding agrees with `Math.round` on the quotient |
| Evaluations.ScoreMonotone | src/api/evaluations.ts:166 | more "yes" answers never give a lower score |
| Evaluations.ScoreBounds | src/api/evaluations.ts:166 | for 0..54 "yes" answers the score is in 0..100; it is 0 only for none and 100 only for all 54 |
| Evaluations.WorkedBoundaries | src/api/evaluations.ts:166-176 | 38 yes answers score 70 (`bom`), 37 score 69 (`atencao`), 22 score 41 (`atencao`), 21 score 39 (`critico`), 40 score 74 (`bom`) |
| Evaluations.TierThresholds | src/api/evaluations.ts:166-176 | the tier is `bom` exactly from 38 "yes" answers, `atencao` exactly from 22 to 37, and `critico` exactly up to 21 |
| Evaluations.YesNoAnswered | src/api/evaluations.ts:164-165 | "yes" entries plus "no" entries are the answered entries |
| Evaluations.CatalogPayloadSize | src/api/evaluations.ts:134-136 | a payload naming each catalog item at most once has at most 54 entries; with exactly 54 it names every catalog item |
| Evaluations.CompletePayloadScore | src/api/evaluations.ts:134-166 | for such a payload, passing validation means all 54 items are answered once, yes plus no is 54, and the score is in 0..100 |
| Evaluations.DuplicatePayloadOverflow | src/api/evaluations.ts:135-166 | validation counts entries, not catalog items: 55 copies of one "yes" entry pass and score 102 (`bom`) |
| Evaluations.CreateDraft | src/api/evaluations.ts:59-86 | a missing student id and an unknown student are errors that write nothing; otherwise a new draft holds the given entries (none when absent) under the next id, and nothing else changes |
| Evaluations.UpdateDraft | src/api/evaluations.ts:89-113 | an unknown id and a finalized evaluation are errors that write nothing; otherwise the draft's entries are replaced wholesale and nothing else changes |
| Evaluations.FinalizeConsistent | src/api/evaluations.ts:179-218 | the finalize writes keep the store's tables consistent |
| Evaluations.CommitFinalize | src/api/evaluations.ts:179-218 | the ponderation goes under the next id and the item rows after it; the evaluation becomes finalized and its student goes in review; tips are untouched |
| Evaluations.Finalize | src/api/evaluations.ts:116-229 | checks in order: not found, already finalized, then validation. Any failure writes nothing. A draft that passes validation always succeeds. On success it stores the ponderation with the validation's score and tier, one row per "no" entry, the finalized evaluation and the student in review, and returns the summary |
| AiTips.Interleave | src/lib/ai-tips.ts:17-34 | text pieces and fields joined in order; each is found verbatim at its offset |
| AiTips.PromptHoldsFields | src/lib/ai-tips.ts:17-34 | the prompt holds the section title, the question and the observation verbatim, at fixed offsets, in that order |
| AiTips.Replies | src/lib/ai-tips.ts:101-103 | the k-th reply of a run is the model's answer to the k-th item's prompt |
| AiTips.RunTips | src/lib/ai-tips.ts:59-76 | one tip per item in order, with consecutive ids: the parsed tip on a reply, the fixed fallback on a failure |
| AiTips.GenerateTipForItem | src/lib/ai-tips.ts:36-77 | appends exactly the item's tip (parsed or fallback) under the next id and changes nothing else |
| AiTips.ItemsOfAreStored | src/lib/ai-tips.ts:82-91 | every item selected for a ponderation is a stored row |
| AiTips.GenerateTipsInOrder | src/lib/ai-tips.ts:100-103 | the tips of the run are appended in item order; the other tables are unchanged |
| AiTips.GenerateAiTipsForPonderation | src/lib/ai-tips.ts:79-106 | the ponderation's stored items, in table order, each get their tip; no items means no change |
| AiTips.RunAddsOnePerItem | src/lib/ai-tips.ts:101-103 | for items with distinct ids, a run adds exactly one tip to each item and none to any other item |
| AiTips.RunDoesNotSkipTippedItems | src/api/ponderations.ts:156-159 | regenerating adds one more tip to every item of the ponderation, including items that already have one |
| Ponderations.KeyInjective | src/api/ponderations.ts:100 | for colon-free ids, the key `sid:iid` determines both ids |
| Ponderations.KeyMapLookup | src/api/ponderations.ts:100 | the key map holds a key exactly when some row is for that item, and then it holds the last such row |
| Ponderations.FirstTip | src/api/ponderations.ts:84-88 | nothing exactly when the item has no tip; otherwise the item's first stored tip |
| Ponderations.TipsByItemId | src/api/ponderations.ts:81-97 | maps exactly the listed items that have a tip, each to its first tip |
| Ponderations.TipsByItemIdStep | src/api/ponderations.ts:83-97 | one more item adds that item's first tip, if any, and changes nothing else |
| Ponderations.CollectTips | src/api/ponderations.ts:81-97 | the loop builds exactly the map `TipsByItemId` describes |
| Ponderations.DetailItemMerged | src/api/ponderations.ts:105-128 | a catalog item is "no" exactly when a row is for it, and then it has the last such row's id, observation and tip; otherwise it is "yes" with the synthetic id and no observation or tip |
| Ponderations.DetailSectionsMerge | src/api/ponderations.ts:102-129 | every section in order with exactly its items in order, each merged as above |
| Ponderations.CatalogDetailMerge | src/api/ponderations.ts:99-129 | the merge over the real catalog: all 54 items, grouped by section |
| Ponderations.DetailTipIsFirstTip | src/api/ponderations.ts:115 | a row's tip in the detail is its first stored tip |
| Ponderations.GetDetail | src/api/ponderations.ts:40-141 | not found exactly for an unknown ponderation; otherwise the score, tier and student fields (with fallbacks when the student is gone) and the merged catalog sections |
| Ponderations.RegenerateTips | src/api/ponderations.ts:144-162 | not found for an unknown ponderation, with nothing written; otherwise one tip per item of the ponderation is appended and the acknowledgement returned |
| Students.ClampPage | src/api/students.ts:13 | the page is at least 1: the request when it is at least 1, 1 below that, and 1 when absent |
| Students.ClampLimit | src/api/students.ts:14 | the limit is between 1 and 100: the request when in range, the nearer bound outside it, and 20 when absent |
| Students.Offset | src/api/students.ts:15 | the offset is a multiple of the limit, namely page − 1 pages |
| Students.TotalPages | src/api/students.ts:49 | the smallest page count that covers the total |
| Students.PageRows | src/api/students.ts:27-34 | at most `limit` rows, taken in order from the offset; none past the end; a full page when enough rows remain, and otherwise every row from the offset on |
| Students.ListStudents | src/api/students.ts:9-52 | the page and limit are `ClampPage` and `ClampLimit` of the query. The total is the row count, and the page count is `TotalPages` of it. The data is the `PageRows` window at `Offset` of that page |
| Students.RowOnItsPage | src/api/students.ts:13-34 | row n is listed on page n / limit + 1, at position n mod limit |
| Students.PagePastTheEndIsEmpty | src/api/students.ts:27-49 | a page past the last page lists no rows |
| Students.NewRow | src/api/students.ts:66-81 | a row exactly when the five required fields are present and non-empty, holding the given fields, absent phone and notes as null, and status active |
| Students.CreateStudent | src/api/students.ts:55-84 | missing required fields write nothing; otherwise the new row goes under the next id and nothing else changes |
| Students.Patch | src/api/students.ts:100-111 | each given field replaces the row's, each absent field keeps it |
| Students.NoChangeIsIdentity | src/api/students.ts:100-111 | an empty patch changes nothing |
| Students.PatchIdempotent | src/api/students.ts:100-111 | applying a patch twice is applying it once |
| Students.PatchesCompose | src/api/students.ts:100-111 | two patches in a row are one patch in which the second one's fields win |
| Students.UpdateStudent | src/api/students.ts:87-120 | an unknown id is not found and writes nothing; otherwise the row is patched and nothing else changes |
| Students.EvaluationsNotOf | src/lib/db/opc-schema.ts:44 | keeps exactly the evaluations of other students, unchanged |
| Students.PonderationsNotOf | src/lib/db/opc-schema.ts:53 | keeps exactly the ponderations of other students, unchanged |
| Students.DeleteConsistent | src/lib/db/opc-schema.ts:44-71 | deleting a student with the cascades keeps the store consistent |
| Students.CascadeRemovesExactlyTheStudentsRows | src/lib/db/opc-schema.ts:44-71 | the cascade leaves no evaluation or ponderation of the student, no item of a removed ponderation, and no tip of a removed item |
| Students.DeleteStudent | src/api/students.ts:123-136 | an unknown id is not found and writes nothing; otherwise the student and everything cascading from it are removed |
| Avaliacoes.BuildInitialItems | src/routes/avaliacoes.tsx:35-44 | one row per catalog item in catalog order, unanswered, with an empty observation |
| Avaliacoes.InitialItemsCoverCatalog | src/routes/avaliacoes.tsx:35-44 | the initial rows number `TOTAL_ITEMS`, name each catalog item once, and name nothing else |
| Avaliacoes.UpdateItems | src/routes/avaliacoes.tsx:60-66 | the patch is merged into exactly the rows with the given keys; the other rows keep their values; length and order are kept |
| Avaliacoes.UpdateIdempotent | src/routes/avaliacoes.tsx:60-66 | applying the same patch twice is applying it once |
| Avaliacoes.UpdateKeepsKeys | src/routes/avaliacoes.tsx:60-66 | a patch without ids keeps every row's key |
| Avaliacoes.UpdateReachesOneRow | src/routes/avaliacoes.tsx:60-66 | with distinct keys, a patch changes the one row for its key and no other |
| Avaliacoes.SectionProgressOf | src/routes/avaliacoes.tsx:73-86 | `total` counts the section's rows and `answered` its answered rows; the rest are the unanswered rows. `pendingObservations` counts its "no" rows whose observation trims to "". All rows are answered exactly when answered = total, and none exactly when answered = 0. The percent is undefined for an empty section. Otherwise it is 100·answered/total rounded to the nearest integer with halves up, in 0..100, 0 for none and 100 for all |
| Avaliacoes.ProgressOf | src/routes/avaliacoes.tsx:69-89 | `answered` counts the rows with an answer, and the other rows are exactly the unanswered ones. `totalPercent` is 100·answered/`TOTAL_ITEMS` rounded to the nearest integer with halves up. There is one entry per section, in catalog order |
| Avaliacoes.ProgressBounds | src/routes/avaliacoes.tsx:70-71 | for rows that follow the catalog the overall percent is in 0..100, and is 100 exactly when every row is answered |
| Avaliacoes.ProgressFollowsCatalog | src/routes/avaliacoes.tsx:73 | the progress entries carry the catalog's section ids in catalog order |
| Avaliacoes.SectionsOfReports | src/routes/avaliacoes.tsx:144-146 | the reported sections are exactly the sections of the offending rows, once each, with their titles |
| Avaliacoes.ClientValidate | src/routes/avaliacoes.tsx:135-162 | no student comes first. Then come unanswered rows, reported by section. Then come "no" rows without an observation, reported by section. Each outcome holds exactly when its condition holds and the earlier ones do not |
| Avaliacoes.Payload | src/routes/avaliacoes.tsx:98 | the entries sent carry each row's keys and answer, and its observation as a string |
| Avaliacoes.ClientReadyMeansServerAccepts | src/routes/avaliacoes.tsx:141-162 | at least 54 rows that pass the page's checks also pass the finalize handler's validation |
| Avaliacoes.Navigate | src/routes/avaliacoes.tsx:220-226 | either the open sections are unchanged, or only one catalog section is open |
| Avaliacoes.NavigateFromSection | src/routes/avaliacoes.tsx:220-226 | from section k, next opens k + 1 and previous opens k − 1; past either end nothing changes |
| Avaliacoes.NavigateFromUnknownId | src/routes/avaliacoes.tsx:221-223 | from an id that names no section, next opens the first section and previous does nothing |
| Avaliacoes.EvaluationForm.constructor | src/routes/avaliacoes.tsx:50-57 | the catalog's rows, no saved evaluation, the first section open, and the preselected student |
| Avaliacoes.EvaluationForm.UpdateItem | src/routes/avaliacoes.tsx:60-66 | the rows become the patched rows; the rest of the state is unchanged; rows that follow the catalog still do after a patch without ids |
| Avaliacoes.EvaluationForm.NavigateSection | src/routes/avaliacoes.tsx:220-226 | the open sections become the navigated ones; nothing else changes |
| Avaliacoes.EvaluationForm.HandleSaveDraft | src/routes/avaliacoes.tsx:91-133 | with a student but no saved evaluation, the id the POST returns is recorded; nothing else changes |
| Avaliacoes.EvaluationForm.HandleFinalize | src/routes/avaliacoes.tsx:135-218 | a failed check changes nothing, and so does a failed first save. A failed finalize keeps the rows and the saved id. Success resets the form to its first state |
| PonderacaoDetalhe.StatusLabel | src/routes/ponderacao-detalhe.tsx:19-23 | `bom`, `atencao` and `critico` get their labels; any other value is shown as is |
| PonderacaoDetalhe.StatusLabelsDistinct | src/routes/ponderacao-detalhe.tsx:41 | every stored tier has its own label, different from its raw value |
| PonderacaoDetalhe.SimNaoSplit | src/routes/ponderacao-detalhe.tsx:67-68 | every item counts once, as "sim" or "não"; no "não" means every item is "sim" |
| PonderacaoDetalhe.HeaderOf | src/routes/ponderacao-detalhe.tsx:67-69 | `simCount` counts the "sim" items and `naoCount` the "não" items, and together they are all of them. "Tudo OK" shows exactly when there is no "não" |
| PonderacaoDetalhe.DefaultOpen | src/routes/ponderacao-detalhe.tsx:61-65 | exactly the ids of the sections with a "não" item |
| PonderacaoDetalhe.DefaultOpenAppend | src/routes/ponderacao-detalhe.tsx:61-65 | section order is kept: the open sections of a concatenation are those of each part, in turn |
| PonderacaoDetalhe.OpenIffNotAllSim | src/routes/ponderacao-detalhe.tsx:61-69 | a section starts open exactly when it shows no "Tudo OK" badge |
| PonderacaoDetalhe.PanelsOf | src/routes/ponderacao-detalhe.tsx:103-147 | a "não" item shows exactly one of the tip card and the processing note; a "sim" item shows neither, nor an observation. The fallback badge shows exactly for a fallback tip, and the example only inside a tip |
| ChecklistItemView.RadioValue | src/components/checklist-item.tsx:21 | "" exactly when unanswered, "sim" exactly for yes, "nao" exactly for no |
| ChecklistItemView.DecodeRadio | src/components/checklist-item.tsx:29 | yes exactly for "sim"; every other value is no |
| ChecklistItemView.RadioRoundTrip | src/components/checklist-item.tsx:21-29 | decoding the radio value of a given answer yields that answer |
| ChecklistItemView.DecodeThenEncode | src/components/checklist-item.tsx:21-29 | re-encoding a decoded value gives "sim" or "nao", and gives back "sim" and "nao" themselves |
| ChecklistItemView.ExpandedIffNao | src/components/checklist-item.tsx:49 | the observation box is expanded exactly when the answer is no |
| RecentPonderacoes.Pct | src/components/recent-ponderacoes.tsx:28-29 | in 0..100. It is 0 with no answers and 0 with no "yes". It is 100 with "yes" answers and no "no". Otherwise it is the "yes" share rounded with halves up |
| RecentPonderacoes.PctMonotone | src/components/recent-ponderacoes.tsx:29 | turning a "no" into a "yes" never lowers the percentage |

## Left out

- The AI call itself: the HTTP request, the `JSON.parse` of the answer, and
  the model's text. These are the oracle parameter `ask`. A failure of the
  request, of the parse or of the first insert is one `Failed` reply. Log
  lines are not modelled.
- Asynchrony: every `await` runs in sequence.
  - `Promise.all` in the student list is two independent reads.
  - The fire-and-forget run of the regenerate handler is modelled as
    finishing before the acknowledgement, and its failure handler is left
    out.
- SQL: search filtering, sort column and order, and the unspecified order of
  rows.
  - The student list takes its rows, already filtered and ordered, as a
    parameter.
  - Item and tip tables keep insertion order.
  - Ids come from a counter rather than `createId`.
  - Database failures, and the errors drizzle raises for an empty update or
    a `null` in a required column, are not modelled.
- The GET handlers that only read a list of evaluations, and everything
  about authentication, public tokens, timestamps and date formatting.
- `Number()` of a non-numeric page or limit, which gives `NaN`. Page and
  limit are modelled as integers when present.
- Floating point. `Math.round` of a quotient is computed exactly.
  - `Evaluations.ScoreNeverTies` shows that no tie arises for the score.
  - The section percent, the overall progress and the dashboard percentage
    are not shown to be tie-free.
- The catalog's section descriptions and item hints, which no modelled code
  reads.
- Evaluations.Validate: only the entries and the outcome are modelled. The
  error texts built with `join(", ")` are reduced to the section ids and
  titles they list.
- Avaliacoes.ClientValidate: the toast texts are reduced to the section ids
  and titles they list.
- Avaliacoes.EvaluationForm.HandleSaveDraft and
  Avaliacoes.EvaluationForm.HandleFinalize: the requests are outcomes passed
  in. The page code is left out: the `saving`/`finalizing` flags, the
  toasts, and connection errors caught by `catch`. The result of the PUT
  before finalizing is not read, and it is not modelled.
- Avaliacoes.EvaluationForm.NavigateSection: the scrolling after navigation
  is left out.
- The rendering around the modelled view logic: markup, icons, badge
  variants and the student selector.

# AIStudyCompanion pipeline: a Dafny model

This project models the question-and-summary pipeline of the study
companion service (`AIService` in `server/services/aiService.ts`). It also
models three small pieces around it:

- the in-memory study-guide store (`MemStorage` in `server/storage.ts`);
- the question-type toggle of the selector component;
- the preview-question rule of the results view.

The service turns the extracted text of a PDF into two things:

- **A summary.** The text is normalised and cut into 800-word chunks. Of
  the first five chunks, each one of 50 or more characters is sent to a
  summarization model; a failed call or an empty answer adds nothing. The
  condensations are joined with `". "`, and a short summary is extended
  once.
- **Question banks of six types.** They are theoretical, application,
  numerical, multiple choice, fill-in-the-blank and true/false. Each is
  built by a loop that fills a list of question records from chunks or
  sentences, using fixed templates and fallbacks.

## How the model is built

**Hosted models.** The two hosted models (summarization and text
generation) are an `Oracle`. It is a function from the loop index of the
call and the prompt to a `Reply`: either `Generated(text)` or
`Unavailable` (the call threw). Nothing is assumed about what the models
answer.

**Randomness.** Each `Math.random()` draw becomes a parameter:

- `offset: nat -> Offset` for the fill-in-the-blank offset in 0..2;
- `coin: nat -> bool` for the true/false verdict;
- a `Letter` (0..3) for the answer of `parseMCQ`.

**The loops.** The generators, `splitTextIntoChunks` and `generateSummary`
are written in the source as loops that push onto a local array, so they
are methods with loops here. Each loop is proved equal to a specification
function, and the properties are proved about those functions:

- `Batches.Batch`: every item needs a model call, and one failed call
  rejects the whole batch.
- `Batches.Collect`: a failed call is replaced by a fallback item.
- `Batches.Map`: no call at all.
- `Batches.Flatten`: each input gives zero or more items.

These are fed by `RoundRobin` (item `i` takes chunk `i % #chunks`),
`Repeat` and `WithDraws` (input `i` paired with random draw `i`).

**The store.** `MemStorage` is a class whose `studyGuides` map and
`currentId` counter are updated in place.

**Pure code.** The parsing helpers, the toggle and the preview rule are
functions.

**Strings.** Strings are `seq<char>`. `split`, `join`, `trim`,
`substring` and friends are spelled out in module `Text`. The two regular
expressions of `parseQuestionAnswer` are modelled as explicit splitting
functions in module `Parsing`:

- the marker alternation `Question:|Answer:|Q:|A:|\n`, whose alternatives
  are tried in order at each position;
- the character class `[.!?]`.

## Behaviour worth knowing

- **Summary failures.** `generateSummary` throws one error for a text that
  is too short (aiService.ts:11) and another when no condensation
  succeeded (aiService.ts:46), but its outer `catch` (aiService.ts:78-80)
  replaces both with one message, "Failed to generate summary. Please try
  again.".
- **Failures in three generators.** In the application, numerical and
  true/false generators a failed model call is not replaced by a fallback
  item. It aborts the whole type, which `generateQuestions` re-throws as
  "Failed to generate <type> questions. Please try again.". Only the
  theoretical generator has a per-item fallback.
- **Fewer than `count` records.** The application and true/false
  generators stop at the last chunk, so they return min(count, #chunks)
  records, not `count`.
- **True/false content.** The statement is the model's reply, trimmed, and
  the verdict is a fair coin drawn on its own; the statement is not
  changed to match the verdict.
- **Numerical prompt.** The numerical prompt is sent whatever the text
  holds; nothing checks it for numbers.
- **Chunk rejoining.** Joining the chunks with spaces gives back the
  space-separated, non-blank tokens joined with single spaces, not the
  input itself.

## Model

| member | source | states |
|---|---|---|
| Text.Trim | server/services/aiService.ts:308 | the result is the stretch of the string between its leading and trailing white space, both of which are blank; it neither starts nor ends with white space, and is empty exactly for a blank string |
| Text.Tokens | server/services/aiService.ts:357 | `split(c).filter(x => x.trim())` keeps exactly the non-blank pieces between separators: each kept one is such a piece, and every such piece is kept |
| Text.SplitRebuild | server/services/aiService.ts:312 | splitting on a character class loses only the separators: the pieces with the separators they were cut at put back between them give the string back |
| Text.SplitSpacedJoin | server/services/aiService.ts:137 | a `". "`-join of segments without `.` splits back on `.` into the same segments, each after the first behind one space |
| Chunker.Words | server/services/aiService.ts:291 | the words are exactly the non-blank pieces of the text between single spaces: each kept word is such a piece, non-blank and space-free, and every such piece is kept |
| Chunker.ChunkWords | server/services/aiService.ts:294-299 | there is no run exactly when there is no word |
| Chunker.Chunks | server/services/aiService.ts:290-302 | the chunk list is never empty |
| Chunker.SplitTextIntoChunks | server/services/aiService.ts:290-302 | the `i += chunkSize` loop returns `Chunks(text, chunkSize)`: the runs of `chunkSize` words joined by spaces, or `[text]` when there is no word; the `trim()` guard never skips a run |
| Chunker.StartIsProduct | server/services/aiService.ts:294 | after k steps of `i += size` the index is `k * size` |
| Chunker.ChunkWordsAt | server/services/aiService.ts:294-295 | chunk k is the space-join of words `k*size` up to `min((k+1)*size, #words)`, and its first word exists |
| Chunker.ChunkCount | server/services/aiService.ts:294-299 | the number n of chunks satisfies `(n-1)*size < #words <= n*size`, i.e. n = ceil(#words / size) |
| Chunker.ChunkJoin | server/services/aiService.ts:294-299 | joining the chunks with spaces equals joining the words with spaces: no word is lost, duplicated or reordered |
| Chunker.ChunkWordCount | server/services/aiService.ts:294-297 | chunk k splits back on spaces into exactly its run of words, has 1 to `size` words, and exactly `size` unless it is the last |
| Chunker.RunOf | server/services/aiService.ts:295 | run k of the words has at most `size` words |
| Chunker.ChunksShape | server/services/aiService.ts:291-301 | a text without words gives exactly `[text]`; otherwise ceil(#words/size) chunks whose space-join is the words' space-join |
| Chunker.ChunkRuns | server/services/aiService.ts:291-299 | chunk k of a text with words is run k of its words, with 1 to `size` words, exactly `size` unless last |
| Summary.CleanText | server/services/aiService.ts:9 | cleaning changes only white space: the other characters of the text stay, all of them, in order |
| Summary.CleanTextShape | server/services/aiService.ts:9 | the cleaned text has single spaces as its only white space, no two in a row, and none at either end |
| Summary.Excerpt | server/services/aiService.ts:28 | the excerpt sent for a chunk is a prefix of it of 50 to 1000 characters |
| Summary.Condensed | server/services/aiService.ts:22-42 | a chunk adds at most one non-empty condensation; it adds one exactly when it has 50 or more characters and the model answers its excerpt with non-empty text, and then that text |
| Summary.Condensations | server/services/aiService.ts:21-43 | the first n chunks give at most n condensations, all non-empty |
| Summary.CondensationsAnswer | server/services/aiService.ts:21-38 | each condensation is the non-empty answer of the summarization model on the excerpt of one of the first n chunks, a chunk of 50 or more characters |
| Summary.CondensationsPrefix | server/services/aiService.ts:21-38 | condensations keep chunk order: those of the first i chunks begin those of the first n |
| Summary.CondensesCollected | server/services/aiService.ts:23-38 | a chunk of 50 or more characters with a non-empty answer leaves a condensation |
| Summary.CondensationsEmpty | server/services/aiService.ts:21-45 | no condensation is collected exactly when none of the first n chunks has 50 or more characters and a non-empty answer |
| Summary.SummaryChunks | server/services/aiService.ts:15-16 | the summary works on at least one chunk |
| Summary.SummaryCondensations | server/services/aiService.ts:21 | at most five condensations are collected |
| Summary.ExpansionPrompt | server/services/aiService.ts:55 | the expansion prompt starts with the fixed request, and what follows it is a prefix of the summary of at most 500 characters |
| Summary.Expand | server/services/aiService.ts:53-74 | the expanded summary always begins with the summary it extends (`ExpandShape` gives what is appended) |
| Summary.Finish | server/services/aiService.ts:45-47 | the summary fails exactly when no condensation succeeded |
| Summary.SummaryOf | server/services/aiService.ts:6-82 | every failure carries "Failed to generate summary. Please try again."; it fails exactly when the cleaned text is under 100 characters or no condensation succeeded |
| Summary.CondenseChunks | server/services/aiService.ts:21-43 | the loop collects `Condensations` of the first min(#chunks, 5) chunks, in order |
| Summary.GenerateSummary | server/services/aiService.ts:6-82 | the method resolves or rejects exactly as `SummaryOf` |
| Summary.ExpandShape | server/services/aiService.ts:53-74 | the expansion starts with the summary; at 500 words or more it is the summary; below, a failed call appends ". " and the filler paragraph, a non-empty answer appends ". " and the answer, an empty answer leaves the summary; whatever is appended adds its words |
| Summary.SummaryShape | server/services/aiService.ts:45-77 | a successful summary is non-empty and starts with the condensations joined by ". "; below 500 words it gains ". " and the filler paragraph on a failed call, ". " and the answer on a non-empty answer, nothing on an empty one; at 500 words or more nothing |
| Summary.SummaryFails | server/services/aiService.ts:10-47 | the summary is rejected exactly when the cleaned text has fewer than 100 characters or none of the first five chunks has 50 or more characters and a non-empty answer |
| Summary.OnlyLeadingChunksConsulted | server/services/aiService.ts:21-34 | two summarization models that agree on the excerpts of the first n chunks of 50 or more characters give the same condensations |
| Summary.SummaryConsultsLeadingChunks | server/services/aiService.ts:15-43 | the summary depends on the summarization model only through the excerpts of the first five chunks |
| Parsing.PiecesFrom | server/services/aiService.ts:305 | splitting on the markers gives at least one piece, none containing a marker |
| Parsing.MatchedFrom | server/services/aiService.ts:305 | the text the split cuts at, in order, each one of the four markers or a newline |
| Parsing.MarkerSplitRebuild | server/services/aiService.ts:305 | the marker-free pieces with the matched markers put back between them give the response back: the split loses nothing but the markers |
| Parsing.MarkerParts | server/services/aiService.ts:305 | the kept parts are exactly the non-blank marker pieces: each part is one of the pieces, marker-free and non-blank, and every non-blank piece is kept |
| Parsing.SentenceParts | server/services/aiService.ts:312 | the kept sentences are exactly the non-blank pieces between `.`, `!` and `?`: each is such a piece, free of terminators and non-blank, and every non-blank piece is kept |
| Parsing.MarkerQA | server/services/aiService.ts:307-309 | the first two marker pieces, trimmed, are non-empty and marker-free |
| Parsing.SentenceQA | server/services/aiService.ts:313-315 | the question is the trimmed first sentence plus "?", free of terminators before it; the answer is the rest joined by ". ", trimmed |
| Parsing.HalvesQA | server/services/aiService.ts:317 | the two halves concatenate to the response and the first has floor(len/2) characters |
| Parsing.ParseQuestionAnswer | server/services/aiService.ts:304-318 | the marker rule when it finds two parts, else the sentence rule when it finds two sentences, else the halves |
| Parsing.Concepts | server/services/aiService.ts:321 | at most four `.`-segments of the context, each longer than 10 characters trimmed; none exactly when no segment qualifies |
| Parsing.FirstConcept | server/services/aiService.ts:321 | the first concept, when there is one, is the first qualifying `.`-segment |
| Parsing.CorrectConcept | server/services/aiService.ts:322 | the key statement when no segment qualifies, otherwise the first qualifying segment, trimmed |
| Parsing.CreateMCQFromContent | server/services/aiService.ts:320-339 | four options labelled A) to D), answer A, an explanation naming A, and option A quoting at most 80 characters of the concept followed by "..." |
| Parsing.CreateDefaultMCQ | server/services/aiService.ts:341-353 | four options labelled A) to D), answer A and an explanation naming A |
| Parsing.QuestionOf | server/services/aiService.ts:363-364 | the first line with "?" or "which", or the default question when there is none |
| Parsing.OptionsOf | server/services/aiService.ts:367-379 | exactly four options: the first four option lines when there are four, else the four labelled defaults |
| Parsing.ParseMCQ | server/services/aiService.ts:355-390 | four options, the picked letter A to D as answer, an explanation naming it, and the question and options of the rules above, taken from the non-blank lines of the response |
| Batches.Batch | server/services/aiService.ts:165-183 | a batch is rejected exactly when some call fails; otherwise it has one item per input, item i made from input i and reply i |
| Batches.Collect | server/services/aiService.ts:114-156 | one item per input, item i made from input i and reply i, whatever the reply |
| Batches.Map | server/services/aiService.ts:217-231 | one item per input, item i made from input i |
| Batches.Flatten | server/services/aiService.ts:240-257 | the items are exactly those the inputs give: every item comes from some input and every item of every input is there; at most as many as inputs when each gives at most one |
| Batches.RoundRobin | server/services/aiService.ts:114-116 | `count` inputs, input i being chunk `i % #chunks` |
| Batches.Repeat | server/services/aiService.ts:191-194 | `count` copies of the same input |
| Batches.WithDraws | server/services/aiService.ts:266-278 | the first n chunks, chunk i paired with random draw i |
| Questions.AsQuestion | server/services/aiService.ts:146 | the result ends in "?", starts with the input, and is at most one character longer; it is unchanged when it already ends in "?" |
| Questions.KeyPhrases | server/services/aiService.ts:137 | the key phrases begin with the first `.`-segment of the chunk |
| Questions.KeyPhrasesSplit | server/services/aiService.ts:137 | the key phrases split back on `.` into the first three segments of the chunk (fewer when it has fewer), each after the first behind the space of the `". "` join |
| Questions.TheoreticalAnswer | server/services/aiService.ts:133-139 | the answer quotes the first three `.`-segments exactly when the chunk is longer than 100 characters |
| Questions.TheoreticalItem | server/services/aiService.ts:118-155 | a theoretical question ends in "?" and has at least 10 characters; the reply is used when it has 10 or more characters trimmed, else the fixed question; a failed call gives the fixed pair |
| Questions.GenerateTheoreticalQuestions | server/services/aiService.ts:110-159 | exactly `count` items, item i from chunk `i % #chunks` of the 400-word chunks and call i |
| Questions.ParsedItem | server/services/aiService.ts:176-182 | the parsed question and answer, each replaced by its fallback when empty, so neither is empty |
| Questions.ApplicationItem | server/services/aiService.ts:176-182 | the parsed question and answer of the reply, each replaced by the fixed application fallback when empty; no options or explanation |
| Questions.GenerateApplicationQuestions | server/services/aiService.ts:161-186 | the loop gives `Batch` over the first min(count, #chunks) 500-word chunks: rejected on the first failed call |
| Questions.NumericalItem | server/services/aiService.ts:201-207 | the parsed question and answer of the reply, each replaced by the fixed numerical fallback when empty; no options or explanation |
| Questions.GenerateNumericalQuestions | server/services/aiService.ts:188-211 | the loop gives `Batch` over `count` copies of the text: rejected on the first failed call |
| Questions.KeyStatement | server/services/aiService.ts:223 | the first `.`-segment of 21 to 99 characters, trimmed, or the first 100 characters of the chunk when there is none or it trims to nothing; at most 100 characters, non-empty for a non-empty chunk |
| Questions.ContentMCQ | server/services/aiService.ts:223-226 | the MCQ of a chunk is well formed, labelled A) to D), with answer A and the fixed question; option A quotes the first 80 characters of the chunk's concept, or of its key statement, followed by "..." |
| Questions.GenerateMCQQuestions | server/services/aiService.ts:213-234 | exactly `count` MCQs, item i made from chunk `i % #chunks` of the 300-word chunks |
| Questions.Sentences | server/services/aiService.ts:238 | the sentences are exactly the `.`-segments of the text longer than 20 characters once trimmed: each is such a segment and every such segment is there |
| Questions.BlankIndex | server/services/aiService.ts:246 | floor(n/3) + r with r in 0..2 is a valid word index when n > 5 |
| Questions.FillBlankItem | server/services/aiService.ts:246-255 | the question is "Fill in the blank: " plus the words with exactly the blank position replaced by "______"; the answer is the word there |
| Questions.BlankFor | server/services/aiService.ts:241-256 | a sentence gives one question exactly when its trimmed form has more than five words, and then it is the blank question of those words with the drawn offset; none otherwise |
| Questions.FillBlankQuestionsAre | server/services/aiService.ts:240-257 | every question of the loop is the blank question of one of its first n sentences, a sentence of more than five words, with that round's offset |
| Questions.BlankSentences | server/services/aiService.ts:240-257 | the loop gives `Flatten` over the first min(count, #sentences) sentences paired with their offsets |
| Questions.GenerateFillBlankQuestions | server/services/aiService.ts:236-260 | the same over the `.`-sentences longer than 20 characters trimmed |
| Questions.FillBlankCount | server/services/aiService.ts:238-257 | at most min(count, #sentences) questions |
| Questions.FillBlankRoundTrip | server/services/aiService.ts:246-254 | putting the answer back at the blank gives the trimmed sentence; the answer is one word |
| Questions.TrueFalseItem | server/services/aiService.ts:277-284 | "True or False: " plus the trimmed statement; the answer is "True" exactly when the coin says so, and the explanation names the same verdict in lower case |
| Questions.GenerateTrueFalseQuestions | server/services/aiService.ts:262-288 | the loop gives `Batch` over the first min(count, #chunks) 300-word chunks paired with their coins: rejected on the first failed call |
| Dispatch.FailureMessageShape | server/services/aiService.ts:106 | the failure message is the type between "Failed to generate " and " questions. Please try again.", so the type can be read back from it |
| Dispatch.FailureMessageInjective | server/services/aiService.ts:106 | different types give different failure messages |
| Dispatch.OrFail | server/services/aiService.ts:104-106 | a generator's rejection becomes the failure message of the type; a success is passed on unchanged |
| Dispatch.QuestionsOf | server/services/aiService.ts:84-108 | every failure carries the type's message, and any type outside the six ids fails |
| Dispatch.GenerateQuestions | server/services/aiService.ts:84-108 | the dispatcher resolves or rejects exactly as `QuestionsOf` |
| Dispatch.AlwaysSucceeding | server/services/aiService.ts:88-96 | theoretical and MCQ requests always succeed with exactly `count` questions; every MCQ is well formed with answer A |
| Dispatch.BatchSizes | server/services/aiService.ts:88-100 | a successful numerical request has `count` questions, and a successful application or true/false request has min(count, #chunks) |
| Dispatch.TrueFalseAnswers | server/services/aiService.ts:278-283 | every true/false answer is "True" or "False", the coin of its round, and the explanation names the same verdict |
| Dispatch.FillBlanksBound | server/services/aiService.ts:238-257 | a fill-in-the-blank request always succeeds, with at most min(count, #sentences) questions |
| Storage.StoredPath | server/storage.ts:25 | a missing or empty path is stored as null; any other path is kept |
| Storage.MemStorage.constructor | server/storage.ts:12-15 | a new store is empty and will issue id 1 first |
| Storage.MemStorage.CreateStudyGuide | server/storage.ts:17-30 | the record gets the current id, which was unused; the counter moves up by one; the record carries every field of the input; the map gains exactly that entry and every other entry is unchanged; the id invariant is kept |
| Storage.MemStorage.GetStudyGuide | server/storage.ts:32-34 | the record stored under the id, or undefined exactly when there is none, which includes every id not yet issued; a found record carries its id |
| Storage.FreshStore | server/storage.ts:12-34 | a fresh store gives ids 1 and 2 to its first two records, hands each back under its id, and has nothing under id 3 |
| TypeSelector.Without | client/src/components/QuestionTypeSelector.tsx:50 | the type is gone and every other type keeps its membership |
| TypeSelector.WithoutOrder | client/src/components/QuestionTypeSelector.tsx:50 | removal goes element by element and keeps the order of what stays |
| TypeSelector.HandleTypeToggle | client/src/components/QuestionTypeSelector.tsx:46-54 | nothing is reported exactly when disabled; a present type is removed everywhere; an absent type is appended at the end |
| TypeSelector.ToggleFlips | client/src/components/QuestionTypeSelector.tsx:49-53 | a click flips the membership of the clicked type and keeps every other type's membership |
| TypeSelector.ToggleTwice | client/src/components/QuestionTypeSelector.tsx:49-51 | two clicks on an absent type give the selection back exactly; on a present type they move it, once, to the end |
| TypeSelector.WithoutAbsent | client/src/components/QuestionTypeSelector.tsx:50 | removing a type that is not there changes nothing |
| ResultsView.FirstSectionQuestion | client/src/components/ResultsSection.tsx:48-52 | the first question of the first section when it has one, else none |
| ResultsView.GetSampleQuestion | client/src/components/ResultsSection.tsx:41-53 | the first question of the first "mcq" section when it has one; otherwise, and when there is no "mcq" section, the fallback |
| ResultsView.SampleIsAFirstQuestion | client/src/components/ResultsSection.tsx:42-52 | a preview is always the first question of some section, and an empty guide has none |
| ResultsView.NoPreviewFromLaterSections | client/src/components/ResultsSection.tsx:48-52 | with an empty first section and no usable "mcq" section there is no preview, even when later sections have questions; an empty first "mcq" section is not skipped |

## Left out

- The hosted models (`hf.summarization`, `hf.textGeneration`). They are the oracles described above. Model names and sampling parameters are not passed to them, and the model makes no claim about what they answer.
- A reply whose text field is undefined is not modelled: every reply is text or a failure. In the source the theoretical generator reads an undefined text as "", the other generators would throw, and the summary would skip it.
- `Math.random()` itself. Each draw is a parameter: the fill-in-the-blank offset, the true/false coin, and the `parseMCQ` letter.
- `async`/`await` and the concurrent requests for several question types. Each call is modelled on its own, sequentially.
- `console.log` and `console.error` logging.
- Counts are integers. Fractional counts are not modelled, and the default count of 7 is left to the caller.
- Chunker.SplitTextIntoChunks: requires a chunk size above zero. The source would loop for ever on 0, and every caller passes 300, 400, 500 or 800.
- Text.IsSpace: the white space that `\s` and `trim` recognise is a fixed list of characters. Unicode properties, UTF-16 code units and full regular-expression semantics are not modelled. String lengths count characters.
- The `createDefaultMCQ` fallback of `generateMCQQuestions` is never taken: nothing inside its `try` can throw on strings. `Parsing.CreateDefaultMCQ` is modelled on its own.
- `parseMCQ` is never called by the service. It is modelled on its own.
- Storage: the `Promise` wrappers and the `as any` casts are not modelled. Ids are unbounded integers, so the precision limit of JavaScript numbers is not modelled.
- The store's `interface IStorage` is not modelled; only `MemStorage` is.

# Wiki provenance validator, modelled in Dafny

`WikiProvenance` is a Guardrails validator. It checks that a language-model response is supported by the Wikipedia page on a topic the user fixes in advance.

When it is built, it does three things:
- It searches Wikipedia for the topic and settles on a page. Disambiguation takes the first option, and missing pages are skipped.
- It cuts the page text into paragraph chunks.
- It stores the chunks, numbered `"0"` to `"n-1"`, in a vector collection named after the topic's hash.

To validate a response, it works in one of two modes:
- **Sentence mode** splits the response into sentences. For each sentence it retrieves the three closest chunks and asks a judge model, through a fixed prompt, whether they support the claim. The judge must answer "yes" or "no" once whitespace and case are ignored. Unsupported sentences make the result a failure: the message lists them, and the fix value is the supported sentences.
- **Full mode** asks the judge once about the whole response.

## Modules

The model is seven Dafny modules:
- `Base`: the errors, and `Result`/`Option`.
- `Text`: Python's `strip`, `startswith`, `count`, `split`, `join`, `lower` and decimal rendering.
- `Chunking`: `get_page_chunks` and `join_single_sentence_chunks`.
- `Indexing`: the collection, its name and ids, and query-result handling.
- `Fetching`: `get_wiki_page`.
- `Judging`: `get_prompt` and reply normalisation.
- `Provenance`: the `validate_*` methods and the `WikiProvenance` class.

## How behaviour is modelled

**Foreign services.** Every service the validator calls but does not implement is a parameter: Wikipedia search and fetch, the Chroma similarity query, the LiteLLM completion, the nltk sentence tokenizer, and Python's string hash. The parameters are gathered in `Provenance.Services`.

**Errors.** Python exceptions become `Err` values of `Base.Result`. A page fetch returns `Found`, `Ambiguous` (a disambiguation error with its options) or `NotFound` (a page error).

**Loops.** The source's three loops are Dafny methods with loop invariants. Each is proved equal to a specification function:
- `Chunking.JoinSingleSentenceChunks` against the left fold `Chunking.Run`.
- `Fetching.GetWikiPage` against `Fetching.FirstPage`.
- `Provenance.ValidateSentences` against `Provenance.SentenceValidation`.

**Reference definitions.** The fold `Run` is proved equal to an independent description, `Chunking.Grouped`. There, each chunk is one *group*: a line together with all the single-period lines after it, up to the next multi-period line. The content and shape lemmas about chunks (`ParagraphsAreGroups`, `ChunkShape`) are proved from that description. The chunk count (`ParagraphCount`) is proved on the fold itself.

**Objects.** Objects whose state changes are classes:
- `Indexing.Collection` has `ids` and `documents` fields.
- `Provenance.WikiProvenance` has the configuration, the fetched page and its collection.

## Behaviour the code has that is easy to miss

The model follows the code in each case.

- **Multi-period lines.** A line with two or more periods does not stand alone. It becomes the running paragraph, so the single-period lines after it are appended to it. The docstring of `join_single_sentence_chunks` (validator/main.py:100-107) speaks only of joining consecutive single-sentence chunks. See `Chunking.MultiSentenceLineAbsorbsFollowing` and the `Grouped` description.
- **Indented headings.** The heading test is `startswith("==")` on the unstripped line, so a heading with leading whitespace is kept as a content line (`Chunking.IndentedHeadingKept`). It is then treated like any other line. When it is the first kept line of the page, or when it has two or more periods, it opens a chunk that starts with `==` (`Chunking.IndentedHeadingChunk` covers a page whose only kept line is such a heading). Otherwise it is appended to the running paragraph: `["Intro.", " == H =="]` becomes the one chunk `"Intro.  == H =="`. The `"==="` test is redundant (`Chunking.HeadingTestSubsumed`).
- **Empty query results.** `get_closest_chunks` only tests whether the *outer* result list is empty. Its first inner list, even an empty one, is passed on as the contexts (`Indexing.EmptyFirstListPassesThrough`). No error is raised for a query that matched no paragraph.
- **Empty response in sentence mode.** A response with no sentences gives a plain pass, with no fix value (`Provenance.NoSentencesPass`).
- **Unsupported-method message.** This message has no space between its two sentences ("…is not supported.Please use…"). `Base.ErrorMessage` keeps it as written.

## Model

| member | source | states |
|---|---|---|
| Base.FilterSound | validator/main.py:142-148 | every element a filter keeps satisfies the test |
| Base.FilterComplete | validator/main.py:142-148 | every element that satisfies the test is kept |
| Base.FilterOrdered | validator/main.py:142-148 | the kept elements are a subsequence of the input, in the input's order, so there are at most as many as in the input |
| Base.FilterCounts | validator/main.py:142-148 | every occurrence of an element that satisfies the test is kept, and no occurrence of any other element |
| Base.SubsequenceCounts | validator/main.py:142-148 | a subsequence holds no element more often than the whole |
| Base.FilterMeaning | validator/main.py:142-148 | filtering keeps only elements satisfying the test, keeps every occurrence of those that do, in the original order |
| Base.FilterUnique | validator/main.py:142-148 | an order-preserving selection of elements that satisfy the test and that keeps every occurrence of them is the filter, so these properties determine it |
| Base.FilterPartition | validator/main.py:261-269 | a test and its negation split a list into two parts that together hold every element exactly as often |
| Base.FilterKeepsAll | validator/main.py:142-148 | filtering returns the list unchanged exactly when every element passes |
| Base.ErrorMessage | validator/main.py:93-96 | the page-not-found message names the topic verbatim, followed by a period; the unsupported-method message (main.py:310-313) names the method; every message is non-empty; the texts of main.py:188-190, 247 and 251 are kept as written |
| Text.StripSplit | validator/main.py:119 | `strip()` only removes whitespace: the text is blank padding around its stripped part |
| Text.StripShape | validator/main.py:147 | the stripped text has no whitespace at either end and is empty exactly when the text is blank |
| Text.StripOfPadded | validator/main.py:119 | stripping a stripped text surrounded by any whitespace gives back that text |
| Text.StripIgnoresPadding | validator/main.py:245 | stripping ignores extra whitespace put around the text |
| Text.JoinSplit | validator/main.py:139 | joining the pieces of `split("\n")` with the separator gives back the text |
| Text.SplitJoin | validator/main.py:220 | splitting a join of separator-free pieces gives back the pieces |
| Text.LowerStrip | validator/main.py:245 | lowering commutes with stripping |
| Text.ParseNatToString | validator/main.py:168 | the decimal rendering `f"{i}"` reads back as `i` |
| Text.IntToStringInjective | validator/main.py:61 | distinct integers have distinct renderings `str(i)` |
| Chunking.HeadingTestSubsumed | validator/main.py:145-147 | a line is kept exactly when it does not start with `==` and is not blank; the `===` test adds nothing |
| Chunking.CleanLines | validator/main.py:142-148 | the kept lines are, in order, every occurrence of the lines not starting with `==` and not blank, and nothing else |
| Chunking.CleanLinesDetermined | validator/main.py:142-148 | any order-preserving selection of content lines that keeps every occurrence of each is the cleaned page |
| Chunking.IndentedHeadingKept | validator/main.py:145-147 | a heading behind leading whitespace is kept as a content line |
| Chunking.IndentedHeadingChunk | validator/main.py:139-151 | a page whose only kept line is an indented heading yields the heading, marker included, as its one chunk |
| Chunking.IndentedOpening | validator/main.py:113-122 | an indented heading line, whatever its period count, opens a paragraph whose stripped text is the heading |
| Chunking.JoinSingleSentenceChunks | validator/main.py:99-127 | the loop's output is the fold `Paragraphs`: flushes on multi-period lines, appends single-period lines after a space, flushes the last paragraph |
| Chunking.RunSingles | validator/main.py:113-114 | single-period lines are each appended to the running paragraph after one space |
| Chunking.RunPrefix | validator/main.py:118-119 | chunks emitted later do not depend on those already emitted |
| Chunking.RunFromParagraph | validator/main.py:111-126 | from a non-empty paragraph, the loop emits it extended by the next single-period lines, then one chunk per later group |
| Chunking.ParagraphsAreGroups | validator/main.py:109-127 | the chunks are exactly the stripped texts of the line groups, in order |
| Chunking.ParagraphCount | validator/main.py:109-127 | there is one chunk per multi-period line, plus one when the first line has at most one period |
| Chunking.ChunkShape | validator/main.py:119-126 | every chunk is stripped; non-blank lines give no empty chunk; lines without line breaks give chunks without them |
| Chunking.NoLinesNoChunks | validator/main.py:109-127 | no lines give no chunks |
| Chunking.SingleLineParagraph | validator/main.py:109-126 | a single line becomes one stripped chunk, with a space put before it when it has at most one period |
| Chunking.MultiSentenceLineAbsorbsFollowing | validator/main.py:113-122 | a single-period line after a multi-period line is appended to it, not emitted apart |
| Chunking.GetPageChunks | validator/main.py:129-152 | the page chunks are the merged paragraphs of the cleaned lines of the page text split on line breaks |
| Chunking.PageChunkShape | validator/main.py:129-152 | every page chunk is stripped, non-empty and free of line breaks |
| Chunking.EmptyPageNoChunks | validator/main.py:139-151 | an empty page yields no chunks |
| Indexing.CollectionNameInjective | validator/main.py:61 | distinct topic hashes give distinct collection names |
| Indexing.ChunkIds | validator/main.py:168 | there is one id per chunk |
| Indexing.ChunkIdsAreIndices | validator/main.py:168 | the id of each chunk reads back as its position |
| Indexing.ChunkIdsDistinct | validator/main.py:168 | no two chunks share an id |
| Indexing.ChunkIdsPrefix | validator/main.py:168 | ids depend only on the position |
| Indexing.Collection.constructor | validator/main.py:59-62 | a new collection is empty |
| Indexing.Collection.Add | validator/main.py:166-169 | documents and ids are appended in order, each document with the id at its position |
| Indexing.ClosestChunks | validator/main.py:187-192 | an empty result list is the no-matching-paragraphs error, otherwise the first list is returned unchanged |
| Indexing.EmptyFirstListPassesThrough | validator/main.py:187-191 | an empty first list is returned as no chunks, not as an error |
| Fetching.GetWikiPage | validator/main.py:68-97 | the loop returns `FirstPage` of the three search results |
| Fetching.SkipNotFound | validator/main.py:87-89 | not-found titles are skipped and the search goes on with the rest |
| Fetching.FirstFoundWins | validator/main.py:75-78 | the first title that fetches a page is the result |
| Fetching.AmbiguousEndsSearch | validator/main.py:79-86 | the first ambiguous title resolves to its first option and ends the search |
| Fetching.ExhaustedIff | validator/main.py:92-96 | the error naming the topic is raised exactly when every title is not found |
| Fetching.PageProvenance | validator/main.py:68-97 | a returned page was fetched from a title after only not-found ones, or from the first option of the first ambiguous title |
| Judging.Prompt | validator/main.py:194-222 | the prompt is the template's head, the claim, the middle part, the chunks joined by line breaks and the tail: it starts with the head, ends with the tail, and has exactly those pieces' length |
| Judging.PromptLayout | validator/main.py:205-222 | the prompt holds the claim verbatim after the fixed head, then the contexts, which split back into the chunks in retrieval order |
| Judging.Interpret | validator/main.py:245-253 | the reply is accepted exactly when its normal form is "yes" or "no", read as that verdict; anything else is the invalid-evaluation error |
| Judging.NormalFormFixed | validator/main.py:245 | a stripped, lower-case reply is its own normal form |
| Judging.InterpretVerdictText | validator/main.py:250-253 | each verdict's own text is read back as that verdict |
| Judging.InterpretIgnoresPadding | validator/main.py:245 | whitespace around the reply does not change the verdict |
| Judging.InterpretIgnoresCase | validator/main.py:245 | letter case does not change the verdict |
| Judging.InterpretYesAnyCase | validator/main.py:245-251 | "yes" and "YES" mean yes |
| Judging.InterpretLowersTo | validator/main.py:245-251 | a reply whose lower-case form is "yes" or "no" is read as that verdict |
| Judging.InterpretPaddedVerdict | validator/main.py:245-251 | blank padding around any letter case of "yes" or "no" (such as " Yes \n") is read as that verdict |
| Judging.InterpretMaybe | validator/main.py:250-251 | "maybe" is the invalid-evaluation error |
| Judging.Judge | validator/main.py:240-253 | a failed model call is the judge-unavailable error, and a reply is interpreted |
| Provenance.EvaluationMeaning | validator/main.py:224-253 | a verdict is the model's normalised answer to the prompt on the claim and the first query result list; any failure is one of the three evaluation errors |
| Provenance.Evaluator | validator/main.py:224-253 | the evaluator only raises evaluation errors |
| Provenance.FirstFailure | validator/main.py:262-264 | there is no failure exactly when every sentence evaluates |
| Provenance.FirstFailureAt | validator/main.py:262-264 | the first failing evaluation is the error reported |
| Provenance.SortStep | validator/main.py:265-269 | each evaluated sentence joins exactly one of the two lists, at its end |
| Provenance.ValidateSentences | validator/main.py:261-283 | the loop returns `SentenceValidation` of the sentences |
| Provenance.SentenceFailIff | validator/main.py:272-283 | once every sentence evaluates, the result fails exactly when some sentence is judged "no" |
| Provenance.NoSentencesPass | validator/main.py:272-283 | no sentences give a pass |
| Provenance.SentenceErrorIsFirstFailure | validator/main.py:262-264 | an error result is the error of the first sentence whose evaluation fails |
| Provenance.SentencePartition | validator/main.py:261-269 | supported and unsupported sentences together hold every sentence exactly as often, each list in response order |
| Provenance.BulletsJoined | validator/main.py:273 | the bullet text is one `- ` line per unsupported sentence |
| Provenance.FailMessageLines | validator/main.py:273-280 | after its header line, the message splits back into one bullet per unsupported sentence, in order |
| Provenance.SentenceFailContents | validator/main.py:272-282 | a failure lists the unsupported sentences, and its fix value is the supported ones joined by line breaks, which split back into them |
| Provenance.FullValidation | validator/main.py:285-300 | "no" fails with the fixed message and empty fix value, "yes" passes, errors propagate |
| Provenance.UnsupportedMethodRefused | validator/main.py:302-313 | the unsupported-method error arises exactly for methods other than "sentence" and "full", with the source's message |
| Provenance.SentenceNeverUnsupported | validator/main.py:255-283 | sentence mode only raises errors of the sentence evaluations |
| Provenance.MetadataPassesThrough | validator/main.py:302-313 | every result carries the caller's metadata unchanged |
| Provenance.WikiProvenance.constructor | validator/main.py:47-62 | the configuration is stored and the collection is new, empty and named after the topic hash |
| Provenance.WikiProvenance.AddToCollection | validator/main.py:154-169 | the page chunks are appended with ids "0" to "n-1" in chunk order |
| Provenance.WikiProvenance.GetEvaluation | validator/main.py:224-253 | the method returns `Evaluation` of the response against the stored documents |
| Provenance.WikiProvenance.ValidateEachSentence | validator/main.py:255-283 | the method returns `SentenceValidation` of the tokenized response under the evaluator |
| Provenance.WikiProvenance.ValidateFullText | validator/main.py:285-300 | the method returns `FullValidation` under the evaluator |
| Provenance.WikiProvenance.Validate | validator/main.py:302-313 | the method dispatches to sentence or full mode, and refuses any other method |
| Provenance.NewWikiProvenance | validator/main.py:39-66 | building fails exactly when the fetch fails, with its error; otherwise the validator holds the fetched page and the collection holds its chunks with ids; the method and the model default to "sentence" and "gpt-3.5-turbo" |
| Provenance.NewWikiProvenanceDefaults | validator/main.py:42-43 | a validator built from a topic alone, as the source's own test builds it, validates sentence by sentence with the model "gpt-3.5-turbo" |

## Left out

- **Foreign services.** Wikipedia search and page fetch, Chroma's embedding and similarity ranking, the LiteLLM completion and `nltk.sent_tokenize` are foreign calls. They are parameters (`Provenance.Services`), and their semantics are not modelled.
- **Very long search lists.** `results=3` is passed to search, but the model does not require the search to return at most three titles.
- **String hash.** `hash(topic)` is randomised per Python process. It is a parameter, deterministic within one run.
- **Existing collections.** `get_or_create_collection` may reuse a collection that already holds documents; the model always starts from an empty one. Chroma's handling of duplicate ids on `add` is not modelled.
- **Construction order.** `__init__` creates the collection before it fetches the page. The model fetches first. A failed fetch discards the object in both, so nothing observable differs.
- **Side effects and framework.** The `print` and `warn` calls (disambiguation warning, prompt and reply logging) are not modelled. Neither are Guardrails registration, the `Validator` base class and `on_fail` handling.
- **Constructor defaults and `on_fail`.** Dafny has no keyword arguments with Python's flexibility. `NewWikiProvenance` gives `validationMethod` and `llmCallable` the source's defaults, "sentence" and "gpt-3.5-turbo", and takes the services by name. The `on_fail` argument and `**kwargs` belong to the Guardrails base class and are not modelled.
- **Page object.** The Wikipedia page object is reduced to its title and content.
- Text.Lower: lowers only the letters A to Z. Python's `str.lower()` also lowers non-ASCII letters.
- **Reply content.** A model call that fails, including one whose reply content is `None` so that `.strip()` raises, is one outcome: `complete` returns `None`, giving the judge-unavailable error.
- Base.ErrorMessage: stops at the colon for the judge-unavailable error, without the wrapped cause's text. Exception texts raised by libraries (disambiguation, page errors, the `IndexError` of an option-less disambiguation) are not modelled.
- **Verdicts.** `get_evaluation` returns the string "yes" or "no". The model returns the `Verdict` `Yes` or `No`, and `Judging.Interpret` ties each to its string.
- **Repeated evaluation.** The judge is a function of the model name and the prompt. Two calls with the same prompt are taken to give the same reply.
- Provenance.WikiProvenance.ValidateEachSentence: the loop itself is `Provenance.ValidateSentences`, which takes the evaluator as a function. This method tokenizes the response and calls that loop with the evaluator, rather than calling `GetEvaluation` once per sentence.

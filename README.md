# LinguaGacha translation quality gate, in Dafny

This project models the quality gate of LinguaGacha's translation pipeline. It has two parts.

- **The response validator** (`ResponseChecker`). Three batch-level gates run first:
  - a response without data;
  - a single item that has already been retried twice;
  - a line-count mismatch.

  Then a first-match-wins classifier runs on each line.
- **The retry orchestrator** (`TranslatorTask`). A task makes up to three attempts. Each attempt:
  - sends the batch;
  - checks the decoded response;
  - updates a single item's retry count;
  - merges the automatic glossary;
  - accepts the items whose lines all passed. On the last attempt it accepts every item.

  It also extracts the source-script words left in the previous response, for the strengthened prompt of attempt 1. It also picks the severity of the per-attempt log.

Modules, one per file:

- `Base` (`base.dfy`) holds the shared vocabulary:
  - languages and the configuration fields the core reads;
  - Python's `str.strip` over Python's whitespace set, and substring containment;
  - `TextHelpers`, a record of the collaborators whose code is not part of this model. Each collaborator is a total function value about which nothing is assumed: the rule and language filters, the script tests, `get_re_sample`, `split_by_punctuation`, the Jaccard similarity, and the case folding of the regular-expression engine.
- `ResponseChecker` (`response_checker.dfy`) covers the following:
  - the error taxonomy;
  - the degradation pattern `(.{1,3})\1{16,}`, whose semantics are written out;
  - the per-line classifier `ClassifyLine`, a pure chain;
  - `CheckLines`, the loop of `check_lines`, proved equal to the classifier line by line;
  - `Check`, the batch gates.
- `ResidueWords` (`residue_words.dfy`) covers `extract_residue_words`. It has a specification made of maximal runs per Unicode block and deduplication, and the nested loop proved against that specification.
- `GlossaryMerge` (`glossary_merge.dfy`) holds the specification of `merge_glossary` as a fold over the candidates, its append-only and idempotence lemmas, and the debounced persistence.
- `LogSeverity` (`log_severity.dfy`) holds the tier chain of `print_log_table`.
- `Translator` (`translator.dfy`) holds the `CacheItem` and `TranslatorTask` classes:
  - `Start` is the three-attempt loop, and `Turn` one pass of it;
  - `Request` is one attempt, and `Respond` its part after a reply that was not skipped;
  - `MergeGlossary` and the acceptance loop mutate the glossary store and the items in place.

  Each of these methods is proved against the specification functions of the other modules.

The model keeps two quirks of the source as written, and proves them:

- **The Jaccard clause is dead (`ResponseChecker.py:161`).** Python reads `x > 0.80 == True` as the chain `x > 0.80 and 0.80 == True`, and `0.80 == True` is false. So `SIMILARITY` arises only from containment. `JaccardClauseNeverHolds` proves this, and `ClassifyLineOutcomes` states `SIMILARITY` in terms of containment alone.
- **The retry test is always true for a single item (`TranslatorTask.py:211`).** The test compares a bool with `None` using `!=`, which always holds. So on every checked attempt a single item's retry count grows by one, even when every line passed. Larger batches never change it. `CountRetry`, `Respond`, `PerformedFacts`, `Start` and `RetryCountOfCheckedAttempt` state this.

The JA→ZH and KO→ZH `SIMILARITY` branches (`ResponseChecker.py:163-171`) can never fire. Any kana or hangeul they test for has already produced `KANA` or `HANGEUL` at lines 145-152. `ContainedJaKoToZhPasses` proves this: in those language pairs, a contained line that reaches the similarity step passes.

## Model

| member | source | states |
|---|---|---|
| `Base.TrimStartSpec` | module/Response/ResponseChecker.py:112-113 | `lstrip` drops exactly the leading whitespace: the result is a suffix of the input that does not start with whitespace, and every dropped character is whitespace |
| `Base.TrimEndSpec` | module/Response/ResponseChecker.py:112-113 | `rstrip` drops exactly the trailing whitespace, in the same sense |
| `Base.TrimChars` | module/Response/ResponseChecker.py:116 | a line strips to `""` exactly when it is all whitespace; a non-empty stripped line neither starts nor ends with whitespace |
| `ResponseChecker.SeventeenCopiesDegrade` | module/Response/ResponseChecker.py:43 | any text holding 17 consecutive copies of a 1–3 character unit without a newline matches the degradation pattern, whatever surrounds it |
| `ResponseChecker.ShortNeverDegrades` | module/Response/ResponseChecker.py:43 | a text of at most 16 characters never matches the degradation pattern (17 copies are needed) |
| `ResponseChecker.CopiesOfRepeat` | module/Response/ResponseChecker.py:43 | `n` repetitions of a unit give at least `n` consecutive (case-folded) copies at the start |
| `ResponseChecker.HasSourceLanguageResidue` | module/Response/ResponseChecker.py:46-77 | false for every language outside ZH/JA/KO/RU/AR/TH; for JA either kana test, for ZH the CJK test, for KO the hangeul test |
| `ResponseChecker.JaccardClauseNeverHolds` | module/Response/ResponseChecker.py:161 | the chained comparison `x > 0.80 == True` is false for every similarity value |
| `ResponseChecker.ClassifyLineOutcomes` | module/Response/ResponseChecker.py:109-181 | per line, in first-match order: a verdict is `NONE` or a line error other than `FAKE_REPLY`; `EMPTY_LINE` iff the stripped source is non-empty and the stripped translation empty; a source either filter accepts passes; `DEGRADATION` iff the pattern matches the stripped translation and not the stripped source; `KANA`/`HANGEUL`/`SOURCE_RESIDUE` iff the stripped-and-erased translation shows the source script; `SIMILARITY` iff containment either way, outside JA→ZH and KO→ZH |
| `ResponseChecker.IdenticalLineIsSimilar` | module/Response/ResponseChecker.py:160-175 | a translation identical to its source that reaches the similarity step is `SIMILARITY` (except for JA→ZH and KO→ZH) |
| `ResponseChecker.ContainedJaKoToZhPasses` | module/Response/ResponseChecker.py:160-171 | for JA→ZH and KO→ZH a contained line that reaches the similarity step passes: those `SIMILARITY` branches are unreachable |
| `ResponseChecker.CheckLine` | module/Response/ResponseChecker.py:111-181 | one pass of the loop, with its early `continue`s, yields exactly the classifier's verdict for the pair, so every property of `ClassifyLineOutcomes` holds of it |
| `ResponseChecker.CheckLines` | module/Response/ResponseChecker.py:109-181 | the loop returns one verdict per pair of `zip(srcs, dsts)`, each the classifier's verdict for that pair |
| `ResponseChecker.Check` | module/Response/ResponseChecker.py:86-106 | `len(srcs)` verdicts on every path; no data gives all `FAIL_DATA`, even for an exhausted single item; otherwise an exhausted single item gives all `NONE`, even with mismatched counts; otherwise a count mismatch gives all `FAIL_LINE_COUNT`; otherwise the per-line verdicts |
| `ResponseChecker.CheckVerdictKinds` | module/Response/ResponseChecker.py:86-106 | the verdicts are all `FAIL_DATA`, all `FAIL_LINE_COUNT`, or each `NONE` or a line error; `UNKNOWN` never occurs |
| `ResidueWords.RunsInBlock` | module/Engine/Translator/TranslatorTask.py:355-404 | every word found is non-empty and made only of characters of the language's block |
| `ResidueWords.RunsAreMaximal` | module/Engine/Translator/TranslatorTask.py:355-404 | every word found is a maximal run of block characters in its line |
| `ResidueWords.RunsCoverBlock` | module/Engine/Translator/TranslatorTask.py:355-404 | no block character is missed: the runs laid end to end are exactly the line's block characters, in order |
| `ResidueWords.DedupSpec` | module/Engine/Translator/TranslatorTask.py:351-363 | the result has no duplicates, holds every word found, and lists them in order of first occurrence |
| `ResidueWords.ResidueEmpty` | module/Engine/Translator/TranslatorTask.py:351-406 | the result is empty for empty input and for any language other than ZH/JA/KO/RU/AR/TH |
| `ResidueWords.AppendUnseen` | module/Engine/Translator/TranslatorTask.py:360-363 | the inner loop appends exactly the words not seen before and records them as seen |
| `ResidueWords.ExtractResidueWords` | module/Engine/Translator/TranslatorTask.py:339-406 | the nested loop returns the deduplicated words of all lines, line by line; for JA each line's hiragana runs come before its katakana runs |
| `GlossaryMerge.MergeAllAppendsOnly` | module/Engine/Translator/TranslatorTask.py:289-322 | existing entries stay as they are; each appended entry has non-empty, different stripped sides, an info naming 男, 女, male or female, and a source term that was not a key before; no two appended entries share a source term |
| `GlossaryMerge.MergeAllIdempotent` | module/Engine/Translator/TranslatorTask.py:289-322 | merging the same candidates a second time appends nothing |
| `GlossaryMerge.UnevenSplitTakesWhole` | module/Engine/Translator/TranslatorTask.py:303-308 | when the two sides split into different numbers of terms, the whole stripped strings form the one pair |
| `GlossaryMerge.AtMostOneWritePerWindow` | module/Engine/Translator/TranslatorTask.py:324-336 | after a write at time `t1`, a merge at most 15 seconds later neither writes nor moves the save time |
| `LogSeverity.TierOfShaped` | module/Engine/Translator/TranslatorTask.py:420-446 | for any non-empty list that is uniformly a batch failure or each a pass or line error: success iff all pass, partial failure iff some line error and some pass, error level iff none passes |
| `LogSeverity.TierOfCheck` | module/Engine/Translator/TranslatorTask.py:420-446 | the tier chain of lines 420-446, given the checker's verdicts, picks a failed check for a response without data; for a non-empty batch it picks success iff every line passed, a partial failure iff some lines failed a line check and some passed, and an error iff none passed. For an empty list of verdicts it picks a failed check, but `request` never logs one: it returns at lines 91-101 |
| `LogSeverity.MixedUnknownIsSuccess` | module/Engine/Translator/TranslatorTask.py:420-446 | the tier chain of lines 420-446 picks success for an `UNKNOWN` verdict among passing ones, which is neither a uniform failure nor a line error |
| `Translator.SliceOfFlatten` | module/Engine/Translator/TranslatorTask.py:241-244 | each item's slice of the flattened batch is exactly its own pre-processed lines |
| `Translator.TakenCountBounds` | module/Engine/Translator/TranslatorTask.py:241-252 | the count of accepted items is at most the item count; it equals the item count iff every item is accepted, and is 0 iff none is |
| `Translator.ForcedAcceptsAll` | module/Engine/Translator/TranslatorTask.py:226-252 | on the forced attempt every item is accepted |
| `Translator.NoPassAcceptsNone` | module/Engine/Translator/TranslatorTask.py:228 | without a passing line and without forcing, no item is accepted |
| `Translator.AllPassAcceptsAll` | module/Engine/Translator/TranslatorTask.py:241-252 | when every verdict passes, every item is accepted, including an item without lines |
| `Translator.RetryCountOfCheckedAttempt` | module/Engine/Translator/TranslatorTask.py:210-212 | after a checked attempt a single item's retry count is one more, a larger batch's unchanged, whatever the verdicts |
| `Translator.NoRowsKeepsItem` | module/Engine/Translator/TranslatorTask.py:226-252 | an attempt that updates no row leaves each item's state exactly as the retry count update left it |
| `Translator.RunStep` | module/Engine/Translator/TranslatorTask.py:58-71 | one more attempt after attempts that all updated no row keeps the run's record: it starts where the last one ended, no translation has changed while no row was updated, and the retry count and glossary facts add up |
| `Translator.ExhaustedItemAccepted` | module/Response/ResponseChecker.py:92-94 | a single item already retried twice is accepted as soon as the response carries data |
| `Translator.SetTranslation` | module/Engine/Translator/TranslatorTask.py:248-251 | an accepted item takes the post-processed text, the speaker name when there is one, and status TRANSLATED; its retry count stays |
| `Translator.TranslatorTask.constructor` | module/Engine/Translator/TranslatorTask.py:32-44 | a task starts with the given items, processors' lines, configuration and collaborators, and no previous response |
| `Translator.TranslatorTask.Start` | module/Engine/Translator/TranslatorTask.py:47-74 | the ghost `run` records 1 to 3 attempts, and `Ran` holds of it. Attempt number `i`, made at time `clock(i)`, does what `request` does (`Performed`). Every attempt before the last updated no row. Each attempt starts from the item states, previous response and glossary store the one before it left, and the run ends where its last attempt left them. Every attempt before the last left each item's text, speaker name and status as they were. The result is the last attempt's if it updated rows, else all zeros; a zero result means three attempts were made, the last of a non-empty batch returned before checking, and every item's translation is as it was. A single item's retry count grows by the number of checked attempts; a larger batch's stays. Glossary entries are only appended, with at most one write per attempt |
| `Translator.TranslatorTask.RowsMeanTranslated` | module/Engine/Translator/TranslatorTask.py:241-252 | after a run whose last attempt updated rows, some item has status TRANSLATED, so a single-item task's item does: rows are counted only for items accepted at lines 247-252, or for the source copies of an empty batch (lines 93-95) |
| `Translator.TranslatorTask.Turn` | module/Engine/Translator/TranslatorTask.py:58-71 | one pass of the loop extends `Ran` by the attempt it makes; the forced attempt, once checked, updates rows |
| `Translator.TranslatorTask.RanStep` | module/Engine/Translator/TranslatorTask.py:58-71 | an attempt at the next index, with the effects every attempt has, extends `Ran` by one after attempts that all updated no row |
| `Translator.TranslatorTask.PerformedAppend` | module/Engine/Translator/TranslatorTask.py:58-71 | appending the attempt made next keeps every attempt of the run performed at its own index and time |
| `Translator.TranslatorTask.RanEndsWithLast` | module/Engine/Translator/TranslatorTask.py:58-74 | after a run the items, the glossary store and the previous response are where the last attempt left them, and the items are as `Ended` says for that attempt: settled by its verdicts and lines, or each its own translation in a batch without lines, or unchanged when it returned before checking |
| `Translator.TranslatorTask.Request` | module/Engine/Translator/TranslatorTask.py:77-278 | `Performed`: with no lines, every item is its own translation and the row count is the item count, with no tokens; a skipped request changes nothing (items, previous response, glossary store) and returns zeros; otherwise the reply is handled as `Respond` states |
| `Translator.TranslatorTask.Respond` | module/Engine/Translator/TranslatorTask.py:199-278 | `Responded`: the decoded lines become the previous response; the verdicts, recorded with the attempt, are those of `check` on them; each item's retry count follows line 211 and the item then ends in the accepted or unchanged state its slice decides; the row count is the number of accepted items, with tokens zeroed when it is 0; the log tier is the chain's for the verdicts; the glossary is merged only when a line passed, its save time follows the debounce rule, and it is written once exactly when a line passed and that rule fires |
| `Translator.TranslatorTask.PerformedFacts` | module/Engine/Translator/TranslatorTask.py:77-278 | of every attempt: it leaves the items as `Ended` says (settled by the recorded verdicts and lines after a checked response, each its own translation in a batch without lines, unchanged otherwise); one that updates no row leaves every item's text, speaker name and status as they were; a checked one adds one retry to a single item and none to a larger batch; glossary entries are only appended, with at most one write; the forced attempt, once checked, accepts every item |
| `Translator.TranslatorTask.FlattenSources` | module/Engine/Translator/TranslatorTask.py:82-89 | the pre-processing loop lays the items' lines end to end, in item order |
| `Translator.TranslatorTask.KeepSources` | module/Engine/Translator/TranslatorTask.py:91-101 | every item gets its source as translation and status TRANSLATED; nothing else changes |
| `Translator.TranslatorTask.ChooseStrategy` | module/Engine/Translator/TranslatorTask.py:109-113 | attempt 1 names the residue words of the previous response (none without one), attempt 2 lowers the temperature, every other attempt is plain |
| `Translator.TranslatorTask.CountRetry` | module/Engine/Translator/TranslatorTask.py:210-212 | a single item's retry count grows by one whatever the verdicts; larger batches are untouched |
| `Translator.TranslatorTask.AcceptResponse` | module/Engine/Translator/TranslatorTask.py:224-252 | the lines and verdicts are padded to the batch length; each item ends accepted iff some line passed or acceptance is forced, and its slice all passed or acceptance is forced; the glossary is merged only when some line passed, its save time follows the debounce rule, and the store is written once exactly when some line passed and that rule fires |
| `Translator.TranslatorTask.AcceptItems` | module/Engine/Translator/TranslatorTask.py:241-252 | items pop consecutive slices in order; an item is accepted iff its slice all passed (an empty slice does) or acceptance is forced; the count returned is the number accepted |
| `Translator.TranslatorTask.TakeItem` | module/Engine/Translator/TranslatorTask.py:241-252 | one item pops exactly its own count of lines and verdicts off the front of the copies; it is accepted iff its slice all passed or acceptance is forced, and then takes the post-processed slice |
| `Translator.TranslatorTask.MergePairs` | module/Engine/Translator/TranslatorTask.py:310-322 | the pair loop appends exactly what the specification admits for those pairs, keeps the key set equal to the glossary's keys, and sets the changed flag iff the glossary grew; the save time is untouched |
| `Translator.TranslatorTask.MergeGlossary` | module/Engine/Translator/TranslatorTask.py:281-336 | with either switch off nothing changes; otherwise the glossary becomes the specified merge of the candidates; when something was appended and more than 15 seconds have passed, one write happens and the current time is returned, otherwise the old save time is returned; existing entries are never changed or removed |

## Left out

- Prompt construction and the corrective suffix text (`TranslatorTask.py:103-178`). Only the choice of strategy is modelled, including the residue words of attempt 1. The prompt builder, the requester and the response decoder are function parameters (`Services`).
- The temperature reduction of attempt 2 (`TranslatorTask.py:181-186`). It is floating-point arithmetic, and the strategy only records that attempt 2 is the cooled one. In the source it happens only when the platform dictionary has a `"temperature"` key (line 182). That dictionary is the `platform` object the task was given (line 40), so the lowered value stays in it for every later request made with it, including those of later tasks.
- The lock and the class-level `GLOSSARY_SAVE_TIME`. The save time is a field of the explicit glossary store, and `time.time()` is a parameter (`now`, or `clock(attempt)` in `Start`).
- `Config().load()/save()` and the refresh event of `merge_glossary`. They are I/O. A ghost counter `persists` records each write.
- Logging and presentation:
  - the error-reason text, the `rich` tables and the localized strings;
  - `generate_log_rows` and `generate_log_table`;
  - `get_error_text`. Its last test names `LINE_ERROR_GLOSSARY_VIOLATION` (line 533), a member the `Error` enum (`ResponseChecker.py:15-27`) does not have. Every verdict that reaches that test raises `AttributeError`, and only `UNKNOWN` reaches it.

  Only the headline tier of `print_log_table` is modelled. Each checked attempt records it in the `tier` of its ghost `Attempt` record.
- LogSeverity.MixedUnknownIsSuccess: states only what the tier chain picks. In the source, a list with any `UNKNOWN` verdict makes `print_log_table` raise in `get_error_text` (lines 412-418 and 533) before a tier is chosen. `CheckVerdictKinds` proves that `check` never yields `UNKNOWN`, so `request` never reaches that case.
- The model's reasoning text and the expert-mode console log.
- The code of `RuleFilter`, `LanguageFilter`, `get_re_sample`, `split_by_punctuation`, the script tests, the Jaccard similarity, and `pre_process`/`post_process`. None of it is part of this model. Each is an unconstrained function parameter. `pre_process` is represented by its result, the fixed lines of each item (`sources`).
- `current_round` and `precedings`, which only reach the requester and the prompt.
- ResponseChecker.Check: the decoder's list may hold `None` entries. The model's lines are strings, so "all entries are `""` or `None`" is modelled as "all entries are `""`".
- Translator.TranslatorTask.MergeGlossary: the source reads the clock twice, once for the interval test and once for the returned time. The model uses one reading `now` for both.
- Translator.TranslatorTask.Request: a task's items are assumed distinct objects (`Valid`). A list that held the same item twice is not modelled.
- The Python `str.lower` in the gender test is modelled by lowering ASCII letters only. That decides the test exactly for the tokens 男, 女, male and female.

# A verified model of the ctf_brute_v6 attack engine

`tools/ctf_brute_v6.py` is an asynchronous HTTP brute-forcer for CTF
challenges. Each injection slot gets its values from a numeric range, a
dictionary file or an enumerated list. The values pass through a chain of
transformation steps (prefix, base64, hashes, URL encoding, padding, ...).
The surviving values of all slots are combined in Cartesian-product order.
For every combination, the tool substitutes the slot values into the
request-body templates, sends the request with retries, and classifies the
response by an ordered set of rules. Flags found in successful responses are
collected. A run walks the payload space in batches and can stop at the
first success (auto-stop).

The Dafny project models that core, module by module:

| module | file | models |
|---|---|---|
| `Wrappers` | `wrappers.dfy` | `Option` and `Result` |
| `Arith` | `arith.dfy` | facts about Euclidean division used by range arithmetic and string repetition |
| `Text` | `text.dfy` | the Python `str` operations the core relies on: `lower`/`upper`, `in`, `replace`, slicing, `*`, reversal, `zfill`/`rjust`/`ljust`, `strip`, `str(int)` |
| `Processors` | `processors.dfy` | the `PayloadProcessor` steps and `apply_processors` |
| `Payloads` | `payloads.dfy` | `generate_payloads`: range, dictionary and list slots, candidate filtering, `itertools.product` |
| `Requests` | `requests.dfy` | `build_request_data` |
| `Classifier` | `classifier.dfy` | `check_success` |
| `Flags` | `flags.dfy` | `extract_flags` |
| `Engine` | `engine.dfy` | `Stats`, `try_one` and the batch loop of `run`, as classes |

Pure Python code is modelled as functions. The loops of `apply_processors`,
`generate_payloads`, `build_request_data`, `check_success` and
`extract_flags` are methods with loop invariants. Each method is proved equal
to a specification function, and lemmas prove the properties of those
functions. `Stats` and `BruteEngine` are classes whose methods update their
fields in place. Each method's postcondition ties the new state to a
specification function over the old state (`TryEffect`, `LaunchEffect`,
`RunEffect`), and the accounting lemmas are proved about those functions.

Environment inputs are parameters of the model:
- `Codecs`: base64, the hex digests, `quote`/`unquote`.
- `Inputs`: `str.format` for format strings other than `"{}"`, and the dictionary files, already read as lines.
- `RegexSearch`: `re.search` of the success regex, which may raise.
- `Network`: the outcome of sending a request body on a given attempt.

### Behaviour of the code worth knowing

- **Substitution order.** Placeholder substitution is not a single pass.
  The code performs one `str.replace` per slot, in slot order.
  So a processed value that spells a later slot's placeholder is replaced
  again (`Requests.CascadingSubstitution`). The model follows the code.
- **Auto-stop within a batch.** The `stop_flag` test in `try_one` only ever
  sees the flag as it was when the batch started. All tasks of a batch pass
  that test before any response of the batch is handled. So, as in the code,
  the model launches every payload of the batch in which a success with
  auto-stop occurs (`Engine.BruteEngine.RunBatch`, `Engine.BatchOutlivesStop`).
  Only later batches are skipped, even with a concurrency of one.

## Model

| member | source | states |
|---|---|---|
| `Text.Lower` | tools/ctf_brute_v6.py:180-183 | `x.lower()` keeps the length, leaves no upper-case ASCII letter, and changes each character only by case |
| `Text.Upper` | tools/ctf_brute_v6.py:175-178 | `x.upper()` keeps the length, leaves no lower-case ASCII letter, and changes each character only by case |
| `Text.LowerIdempotent` | tools/ctf_brute_v6.py:180-183 | lowering twice is lowering once |
| `Text.UpperIdempotent` | tools/ctf_brute_v6.py:175-178 | upper-casing twice is upper-casing once |
| `Text.ReplaceKeepsOccurrence` | tools/ctf_brute_v6.py:638 | `str.replace` keeps an occurrence of `p` that no occurrence of the replaced string overlaps (it is found again, possibly shifted) |
| `Text.ContainsIff` | tools/ctf_brute_v6.py:646-654 | `kw in text` holds exactly when `kw` occurs in `text` at some offset |
| `Text.FindFrom` | tools/ctf_brute_v6.py:646-654 | substring search for `kw in text`: the result is the first occurrence at or after the offset, and `None` means there is no occurrence |
| `Text.ReplaceAbsent` | tools/ctf_brute_v6.py:195-198 | `replace` with a non-empty pattern that does not occur returns the input |
| `Text.ReplaceLeavesNoOccurrence` | tools/ctf_brute_v6.py:195-198 | after `replace(q, w)`, a non-empty `p` does not occur, if `p` was `q` or did not occur before, and `w` is non-empty and shares no character with `p` |
| `Text.Slice` | tools/ctf_brute_v6.py:200-203 | `x[start:end]` is the run of characters from the clamped start to the clamped end, empty when they cross; `ClampIndex` gives Python's bounds: a negative bound counts from the end, and out-of-range bounds are clamped to `[0, \|x\|]` |
| `Text.ClampIndex` | tools/ctf_brute_v6.py:200-203 | a slice bound in range is kept, a negative one above `-\|x\|` becomes `\|x\|` plus it, one below becomes 0, one past the end becomes `\|x\|` |
| `Text.SliceNonNegative` | tools/ctf_brute_v6.py:200-203 | with in-range non-negative bounds, `x[start:end]` is the plain slice |
| `Text.SliceFromEnd` | tools/ctf_brute_v6.py:200-203 | `x[-k:]` is the last `k` characters, or all of `x` when `k > \|x\|` |
| `Text.SlicePastEnd` | tools/ctf_brute_v6.py:200-203 | a start at or past the end gives the empty string, whatever the end |
| `Text.Repeat` | tools/ctf_brute_v6.py:190-193 | `x * n` has length `n·|x|`, and is empty for `n <= 0` |
| `Text.RepeatCopies` | tools/ctf_brute_v6.py:190-193 | `x * n` is `n` copies of `x`: its character `k` is character `k % \|x\|` of `x` |
| `Text.Reverse` | tools/ctf_brute_v6.py:185-188 | `x[::-1]` has character `k` equal to `x[|x|-1-k]` |
| `Text.ReverseInvolution` | tools/ctf_brute_v6.py:185-188 | reversing twice gives the input back |
| `Text.ZeroFill` | tools/ctf_brute_v6.py:205-208 | `zfill`: the width is reached with zeros, placed after a leading sign; a short width changes nothing |
| `Text.PadStart` | tools/ctf_brute_v6.py:205-208 | `rjust`: the result has length max(width, \|x\|), ends with `x`, and is filled in front |
| `Text.PadEnd` | tools/ctf_brute_v6.py:210-213 | `ljust`: the result has length max(width, \|x\|), starts with `x`, and is filled behind |
| `Text.Strip` | tools/ctf_brute_v6.py:607-608 | `strip()` returns a substring that only whitespace surrounds, and it neither starts nor ends with whitespace |
| `Text.DecimalRoundTrip` | tools/ctf_brute_v6.py:601 | `"{}".format(i)` renders `i` in decimal; parsing the rendering gives `i` back |
| `Processors.PipelineAppend` | tools/ctf_brute_v6.py:222-227 | applying `ps + qs` is applying `ps` and then `qs` to its result; a failure stops the chain |
| `Processors.PipelineFirstStep` | tools/ctf_brute_v6.py:222-227 | the first step sees the raw value |
| `Processors.PipelineLastStep` | tools/ctf_brute_v6.py:222-227 | an appended step runs on the result of the earlier steps |
| `Processors.PipelineFailureSticks` | tools/ctf_brute_v6.py:222-227 | once a step raises, the whole chain raises |
| `Processors.PipelineTotal` | tools/ctf_brute_v6.py:119-218 | a chain made only of steps that cannot raise never raises |
| `Processors.TotalNeverFails` | tools/ctf_brute_v6.py:119-218 | every step other than base64 decoding, custom functions and badly filled padding returns a value |
| `Processors.PadRightShape` | tools/ctf_brute_v6.py:210-213 | `pad_right(n, ch)` keeps `x` in front and fills up to width `n` with `ch` |
| `Processors.PadLeftShape` | tools/ctf_brute_v6.py:205-208 | `pad_left(n, ch)` with `ch != '0'` right-justifies `x` with `ch` |
| `Processors.PadLeftZeroSign` | tools/ctf_brute_v6.py:205-208 | `pad_left(n, '0')` is `zfill`, which keeps a minus sign in front of the zeros |
| `Processors.PadBadFill` | tools/ctf_brute_v6.py:205-213 | a fill string that is not one character makes `rjust`/`ljust` raise; for `pad_left`, `'0'` is the exception |
| `Processors.ReverseTwice` | tools/ctf_brute_v6.py:185-188 | the chain reverse, reverse returns its input |
| `Processors.CaseSteps` | tools/ctf_brute_v6.py:175-183 | a repeated case step is the same as one case step |
| `Processors.LengthSteps` | tools/ctf_brute_v6.py:145-193 | `repeat(n)` multiplies the length by `n`; `md5_16` is at most 16 characters long and is the middle of the full digest |
| `Processors.AffixSteps` | tools/ctf_brute_v6.py:120-128 | prefix and suffix wrap the value in either order; the documented chain prefix("admin:"), base64 encodes `admin:password` |
| `Processors.ReplaceAbsentStep` | tools/ctf_brute_v6.py:195-198 | a replace step whose pattern does not occur changes nothing |
| `Processors.ApplyProcessors` | tools/ctf_brute_v6.py:222-227 | the loop computes the left fold of the steps, stops at the first step that raises, and returns the value unchanged for an empty chain |
| `Payloads.RangeValues` | tools/ctf_brute_v6.py:596-601 | a range slot with a positive step yields max(0, (end-start)/step+1) values `start + k·step`, all at most `end` |
| `Payloads.RangeLength` | tools/ctf_brute_v6.py:601 | the number of values of `range(start, end+1, step)` |
| `Payloads.RangeElement` | tools/ctf_brute_v6.py:601 | the k-th value is `start + k·step` and is at most `end` |
| `Payloads.RangeIncludesEnd` | tools/ctf_brute_v6.py:601 | `end` is a value exactly when `end - start` is a multiple of the step |
| `Payloads.FormatAll` | tools/ctf_brute_v6.py:601 | every range value is formatted with the slot's format string, and one failing format makes the whole list fail |
| `Payloads.DictionaryLines` | tools/ctf_brute_v6.py:603-608 | dictionary values are stripped lines: non-empty, and neither starting nor ending with whitespace |
| `Payloads.DictionaryFilter` | tools/ctf_brute_v6.py:607-608 | the dictionary values are the stripped lines at the kept positions, in file order and with their repetitions; a line is kept exactly when it is not blank once stripped |
| `Payloads.DictionaryMembership` | tools/ctf_brute_v6.py:603-608 | a string is a dictionary value exactly when it is a line, stripped, that is not blank |
| `Payloads.CandidatesFilter` | tools/ctf_brute_v6.py:613-623 | candidates are the raw values whose chain succeeds, in raw order, each paired with its processed form; a value is dropped exactly when its chain raises |
| `Payloads.CandidateMembership` | tools/ctf_brute_v6.py:613-623 | a pair (original, processed) is a candidate exactly when `original` is a raw value whose chain yields `processed` |
| `Payloads.NoProcessorsKeepsAll` | tools/ctf_brute_v6.py:617 | with no processors, every raw value is kept and processed equals original |
| `Payloads.ExtendAt` | tools/ctf_brute_v6.py:626-629 | adding a slot to the product: combination `k` is combination `k / n` extended by value `k % n` |
| `Payloads.ProductSize` | tools/ctf_brute_v6.py:626-629 | the product has as many combinations as the product of the slot sizes |
| `Payloads.LastSlotFastest` | tools/ctf_brute_v6.py:626-629 | `itertools.product` order: the last slot varies fastest |
| `Payloads.ProductMembership` | tools/ctf_brute_v6.py:626-629 | a sequence is a combination exactly when it picks one value from every slot, in slot order |
| `Payloads.MaterialiseShape` | tools/ctf_brute_v6.py:591-623 | one candidate list per slot, each computed from that slot's raw values; generation fails exactly when some slot raises, and with the first such slot's error |
| `Payloads.GenerateShape` | tools/ctf_brute_v6.py:587-629 | the payload space has the product of the surviving counts as its size; each payload names the configured slots in order and holds a surviving candidate of each; no slots give one empty payload |
| `Payloads.GenerateFails` | tools/ctf_brute_v6.py:596-611 | generation raises exactly when some slot raises (a missing dictionary, a zero step, a failing format), and with the first such slot's error |
| `Payloads.GeneratePayloads` | tools/ctf_brute_v6.py:587-629 | the generator's loops compute exactly `Generate` |
| `Requests.Placeholder` | tools/ctf_brute_v6.py:638 | `{name}` is `{`, then exactly `name`, then `}` |
| `Requests.SubstituteAppend` | tools/ctf_brute_v6.py:636-638 | slots are substituted one after another: substituting `p + q` is substituting `q` into the result of `p` |
| `Requests.AbsentPlaceholderKept` | tools/ctf_brute_v6.py:636-638 | a placeholder `{z}` in the template whose name is not bound by the payload is still in the request after substitution, when no name involved contains a brace |
| `Requests.PlaceholdersApart` | tools/ctf_brute_v6.py:636-638 | occurrences of the placeholders of two different brace-free names never overlap |
| `Requests.NoPlaceholderUnchanged` | tools/ctf_brute_v6.py:633-639 | a template that mentions no placeholder of the payload is sent unchanged |
| `Requests.PlaceholderRemoved` | tools/ctf_brute_v6.py:636-638 | a slot's placeholder does not remain after substitution, if no value substituted from that slot on is empty or shares a character with it |
| `Requests.CascadingSubstitution` | tools/ctf_brute_v6.py:636-638 | a value spelling a later placeholder is substituted again: `{A}` with A=`{B}` and B=`x` becomes `x` |
| `Requests.RequestData` | tools/ctf_brute_v6.py:631-640 | the request body has exactly the template's fields |
| `Requests.StaticFieldsUnchanged` | tools/ctf_brute_v6.py:633-639 | a field without the payload's placeholders keeps its template value |
| `Requests.BuildRequestData` | tools/ctf_brute_v6.py:631-640 | the nested loops produce one entry per template field, each the field with the payload substituted |
| `Requests.SubstituteLoop` | tools/ctf_brute_v6.py:635-638 | the inner loop replaces every slot's placeholder in payload order, which is `Substitute` |
| `Classifier.FailKeywordWins` | tools/ctf_brute_v6.py:646-649 | a failure keyword in the lower-cased response vetoes every success rule |
| `Classifier.SuccessKeywordNext` | tools/ctf_brute_v6.py:651-654 | a success keyword decides for success unless a failure keyword occurs; later rules and the regex are not consulted |
| `Classifier.EmptySuccessKeyword` | tools/ctf_brute_v6.py:651-654 | an empty success keyword matches every response that no failure keyword vetoes |
| `Classifier.VerdictCharacterised` | tools/ctf_brute_v6.py:642-682 | the classifier raises exactly when no keyword decides and the regex raises; it reports success exactly when no failure keyword occurs and some success rule fires before the regex could raise |
| `Classifier.NoCriteriaNoSuccess` | tools/ctf_brute_v6.py:682 | with no criteria configured, every response is a failure |
| `Classifier.StatusOnly` | tools/ctf_brute_v6.py:670-673 | with only a status code configured, success means exactly that status |
| `Classifier.DeviatesIff` | tools/ctf_brute_v6.py:676-680 | the smart rule `diff > max(50, b·0.1)` holds exactly when `diff > 50` and `10·diff > b` |
| `Classifier.SmartAtBaseline100` | tools/ctf_brute_v6.py:676-680 | with baseline 100: lengths 151 and 49 deviate, 150 and 149 do not |
| `Classifier.SmartAtBaseline1000` | tools/ctf_brute_v6.py:676-680 | with baseline 1000: lengths 1101 and 899 deviate, 1100 does not |
| `Classifier.SmartNeedsBaseline` | tools/ctf_brute_v6.py:676 | smart mode never fires while there is no baseline |
| `Classifier.CheckSuccess` | tools/ctf_brute_v6.py:642-682 | the early-returning keyword loops and the rule chain compute `Verdict` |
| `Flags.MatchAt` | tools/ctf_brute_v6.py:686-693 | a match of `TAG\{[^}]+\}` at an offset ends within the text, at least tag-length plus three characters later |
| `Flags.MatchAtShaped` | tools/ctf_brute_v6.py:686-693 | what the scanner matches, from its start to its end, is the tag in any case, `{`, a non-empty run without `}`, and `}` |
| `Flags.MatchAtComplete` | tools/ctf_brute_v6.py:686-693 | every flag-shaped substring at an offset is the one the scanner matches there |
| `Flags.FindAllSound` | tools/ctf_brute_v6.py:695-697 | every `findall` result occurs in the text, at or after the scan's start, and is flag-shaped for the pattern's tag |
| `Flags.FindAllNonEmpty` | tools/ctf_brute_v6.py:695-697 | if the pattern matches anywhere, `findall` finds something |
| `Flags.NoBraceNoMatch` | tools/ctf_brute_v6.py:686-697 | without `{` there is no match |
| `Flags.Dedup` | tools/ctf_brute_v6.py:698 | `list(set(...))` keeps the same elements, each once |
| `Flags.ExtractFlagsMembership` | tools/ctf_brute_v6.py:684-698 | a flag is reported exactly when one of the six patterns finds it |
| `Flags.FlagSound` | tools/ctf_brute_v6.py:684-698 | a reported flag occurs in the response and has the shape of one of the six patterns |
| `Flags.FlagsDistinct` | tools/ctf_brute_v6.py:698 | no flag is reported twice |
| `Flags.SomeFlagFound` | tools/ctf_brute_v6.py:684-698 | a flag-shaped substring for one of the tags guarantees a non-empty report |
| `Flags.WholeTextIsFlag` | tools/ctf_brute_v6.py:684-698 | a response that is itself a flag reports it |
| `Flags.ExampleFlag` | tools/ctf_brute_v6.py:684-698 | the response `...flag{abc_123}...` reports exactly `flag{abc_123}`, once, although both the `flag` and the `FLAG` pattern find it |
| `Flags.NoBraceNoFlags` | tools/ctf_brute_v6.py:684-698 | a response without `{` yields no flags |
| `Flags.CollectFlags` | tools/ctf_brute_v6.py:694-698 | the loop over the patterns computes `ExtractFlags` |
| `Engine.Snippet` | tools/ctf_brute_v6.py:739 | `text[:2000]` is the prefix of length min(\|text\|, 2000) |
| `Engine.StoppedTryIsNoop` | tools/ctf_brute_v6.py:702-703 | with the stop flag up, `try_one` sends nothing and changes nothing |
| `Engine.NegativeRetriesNoop` | tools/ctf_brute_v6.py:707 | with negative retries, nothing is sent or counted |
| `Engine.StepAccounting` | tools/ctf_brute_v6.py:707-767 | one attempt either ends the payload (one success with its record and flags, or one completion) or counts one retry, or one error plus one completion on the last attempt |
| `Engine.AttemptsAccounting` | tools/ctf_brute_v6.py:707-769 | from any attempt: exactly one success or completion; at most the remaining retries; at most one error, and only after every retry; records and flags grow by the returned record; the total and a set baseline are untouched; auto-stop raises the flag exactly on success |
| `Engine.LaunchAccounting` | tools/ctf_brute_v6.py:705-769 | for a whole payload: exactly one success or completion; at most `retries` retries; at most one error, and only after every retry; records and flags grow by the returned record, which holds the payload; the total and a set baseline are untouched; auto-stop raises the flag exactly on success |
| `Engine.LaunchKeepsConsistent` | tools/ctf_brute_v6.py:741-743 | one record per success, and the flag list stays the concatenation of the records' flags |
| `Engine.FirstResponseAt` | tools/ctf_brute_v6.py:707-729 | with no baseline, when the attempts before attempt `a` all raised and attempt `a` gets a response, the baseline becomes that response's length, whatever follows |
| `Engine.FirstResponseSetsBaseline` | tools/ctf_brute_v6.py:705-729 | for a whole payload: after attempts that all timed out or failed, the first response fixes the baseline at its length |
| `Engine.AllTimeouts` | tools/ctf_brute_v6.py:754-759 | if every attempt times out: `retries` retries, then one error and one completion |
| `Engine.RetriesThenDecided` | tools/ctf_brute_v6.py:707-769 | if attempts `attempt` to `a - 1` raise and attempt `a <= retries` gets a response the classifier decides, exactly `a - attempt` retries are counted and no error |
| `Engine.TimeoutThenSuccess` | tools/ctf_brute_v6.py:707-756 | one timeout and then an accepted response, with one retry allowed: one retry, one success, no error |
| `Engine.RetriedThenSucceeded` | tools/ctf_brute_v6.py:707-756 | two timeouts and then an accepted response, with two retries: two retries, one success, no error, and the record holds the response |
| `Engine.BatchOutlivesStop` | tools/ctf_brute_v6.py:702-703 | after a success under auto-stop, the rest of the batch is still sent and counted, although `try_one` run at that point would skip the payload |
| `Engine.BatchAccounting` | tools/ctf_brute_v6.py:799-801 | for a non-negative retry count, a batch counts exactly one success or completion per payload, with or without auto-stop; the total and a set baseline are untouched; without auto-stop the flag is untouched |
| `Engine.BatchNegativeRetries` | tools/ctf_brute_v6.py:799-801 | with a negative retry count a batch sends nothing and leaves the state unchanged |
| `Engine.BatchesNegativeRetries` | tools/ctf_brute_v6.py:795-801 | with a negative retry count the whole batch walk leaves the state unchanged |
| `Engine.StopEndsWalk` | tools/ctf_brute_v6.py:795-801 | with the stop flag up no further batch is sent, and the batch that raises the flag is the last one sent |
| `Engine.BatchesAccounting` | tools/ctf_brute_v6.py:795-801 | for a positive batch size and a non-negative retry count, the batch walk never counts more payloads than remain; without auto-stop it counts each exactly once and the flag stays down; a set baseline is untouched |
| `Engine.RunAccounting` | tools/ctf_brute_v6.py:771-807 | from fresh statistics: the total is the payload count; successes plus completions never exceed it, and equal it without auto-stop, with a positive batch size and a non-negative retry count; with a negative retry count nothing but the total is counted and the flag stays down; one record per success; a zero batch size exactly raises; all of it for any retry count |
| `Engine.RunConfigError` | tools/ctf_brute_v6.py:773-774 | a configuration error ends the run before anything is sent or counted |
| `Engine.Stats.constructor` | tools/ctf_brute_v6.py:351-368 | fresh statistics are all zero, with no baseline |
| `Engine.BruteEngine.constructor` | tools/ctf_brute_v6.py:580-585 | a fresh engine has fresh statistics and the stop flag down |
| `Engine.BruteEngine.Fail` | tools/ctf_brute_v6.py:754-765 | an attempt that raised counts a retry if retries remain, otherwise an error and a completion |
| `Engine.BruteEngine.SetBaseline` | tools/ctf_brute_v6.py:727-729 | the baseline is set only if it is unset |
| `Engine.BruteEngine.RecordSuccess` | tools/ctf_brute_v6.py:742-747 | a success is counted, recorded and its flags extended; auto-stop raises the flag |
| `Engine.BruteEngine.CountCompleted` | tools/ctf_brute_v6.py:751 | a response that is not a success counts one completion |
| `Engine.BruteEngine.Attempt` | tools/ctf_brute_v6.py:708-762 | one pass of the retry loop updates the state as `AttemptStep` says |
| `Engine.BruteEngine.Launch` | tools/ctf_brute_v6.py:705-769 | the retry loop updates the state as `LaunchEffect` says |
| `Engine.BruteEngine.TryOne` | tools/ctf_brute_v6.py:700-769 | `try_one` updates the state as `TryEffect` says |
| `Engine.BruteEngine.RunBatch` | tools/ctf_brute_v6.py:799-801 | a batch launches each of its payloads, in order |
| `Engine.BruteEngine.RunBatches` | tools/ctf_brute_v6.py:795-801 | the batch loop stops when the payloads run out or the stop flag is up |
| `Engine.BruteEngine.Run` | tools/ctf_brute_v6.py:771-807 | `run` updates the state and ends as `RunEffect` says |

## Left out

- The terminal UI, the banner, progress and summary printing, `describe_processors`, command-line parsing and the config file loader: they present results and do not decide any.
- Timing: `elapsed`, speed sampling, `eta` and `start_time`. They need a clock and do not affect the counters modelled here.
- Concurrency: the semaphore, `asyncio.gather` and the interleaving of tasks. The concurrency setting is not modelled: `asyncio.Semaphore(concurrency)` (tools/ctf_brute_v6.py:792) raises ValueError for a negative value, after `total` has been set, and with 0 every task blocks forever. A batch is handled one payload at a time, all attempts of a payload together. Each payload adds exactly one success or completion whatever the order, but which payloads count as successes can depend on the order through the smart-mode baseline, which is the first response's length. The order of `results`, which response sets the baseline, and so the verdicts of smart mode can differ under real concurrency.
- The HTTP layer: the GET/POST/JSON choice, headers, cookies, timeouts and connection limits. All of it is inside the `Network` parameter. The request body is a `map<string, string>`, so the insertion order of the `data` dict (tools/ctf_brute_v6.py:633-639), which the encoded body keeps, is not modelled; no property here depends on it.
- `Network` depends only on the request body and the attempt number, so two payloads with equal request bodies (duplicate dictionary lines, say) get the same outcome on the same attempt. A real server need not answer them alike. No proved property relies on this.
- The hash, base64 and URL codecs, `str.format` with formats other than `"{}"`, and regular expressions. These are library calls, so they are parameters. The UTF-8 encoding before hashing and encoding happens inside them.
- File I/O: dictionary files are given as their lines (`Inputs.files`). `errors='ignore'` decoding and the file-existence race are not modelled.
- `Text.Lower`, `Text.Upper`: ASCII case mapping only. Python's Unicode mappings that change length, such as `ß` to `SS`, are not modelled.
- `Flags.MatchAt`: case-insensitive matching is ASCII only. Python's `re.I` also matches `ſ` for `s` in `NSSCTF`.
- `Flags.ExtractFlags`: keeps first-occurrence order. `list(set(...))` has no specified order, so only membership and distinctness are claimed, and for a response holding one flag the exact one-element result (`Flags.ExampleFlag`).
- `Classifier.Deviates`: smart mode is modelled on exact reals. Python multiplies by the float `0.1`. The verdict can only differ once `b·0.1` loses integer precision, far beyond any response length.
- `Payloads.RawValues`: list values are taken as strings. The `str(v)` coercion of JSON numbers and the defaults of missing keys (start 0, end 100, step 1, format `"{}"`, type list) are left to the configuration loader. A slot type other than range or file is a list slot, as in the code. Slots are a sequence standing for the `payloads` dict, whose names are distinct.
- Non-string payload values (`isinstance(val, dict)` false) never occur, because `generate_payloads` always produces dicts.
- Python exceptions other than those named are not modelled: non-integer range bounds, non-string templates, and exceptions raised inside `gather` outside `try_one`'s handler.

# Book review writer: cache and text handling, in Dafny

This project models the parts of the book-review pipeline that are logic rather than
orchestration. The pipeline turns a book title into a written review by chaining
language-model calls.

- **The result cache** (`utils/cache.py`). It is a directory of JSON files, one per key.
  Each file holds the time of writing and the value. `get` expires entries lazily and
  deletes malformed ones. `set` overwrites one entry. `clear` deletes entry files,
  optionally only those older than an age. `cached` is a memoising wrapper. Its key is
  the SHA-256 of the function name, the positional arguments and the sorted keyword
  arguments, joined by `:`.
- **The two list parsers.** `parse_list` in `utils/io.py` uses a regular expression and
  falls back to non-blank lines. `parse_list` in `utilis/io.py` works line by line and
  strips bullets and numbering. The model also covers the checks `select_items_from_list`
  applies to each answer the user types.
- **`filter_points`** (`semantic_filter.py`): an ordered union of two lists without
  repeats.
- **The text around the model calls.** This covers the `- item` prompt blocks, the reply
  splitting shared by `interview.py`, `outline_generator.py` and `question_generator.py`,
  the collected interview answers, the numbered review text of `review_processor.py`, and
  the question-and-answer block and stripped chapter of `review_writer.py`.

Modules:
- `Common`: the `Option` type.
- `Text`: the Python `str` built-ins used, over `seq<char>`. These are `strip`,
  `strip(chars)`, `split`, `splitlines`, `join` and `str(int)`.
- `CacheKey`: the key string.
- `Cache`: the store. It is a class whose fields are the directory's file map and
  modification-time map. Its specification functions and lemmas sit beside it.
- `UtilsIo`, `UtilisIo`, `SemanticFilter`, `Replies`, `Interview`, `OutlineGenerator`,
  `QuestionGenerator`, `ReviewProcessor` and `ReviewWriter` follow the source files.

Where the source changes state step by step, the model is imperative. This covers
`Cache.get`, `set`, `clear` and `cached`, the line loop of `utilis/io.py`, the two loops
of `filter_points`, the answer loop of `conduct_interview`, the `+=` loop of
`process_reviews`, and the retry loop of `select_items_from_list`. The cache methods,
the line loop and the `filter_points` and `process_reviews` loops are proved equal to a
specification function, and the promised properties are lemmas about those functions.
`ConductInterview` and `SelectItems` state their results directly: one stripped input
line per question, and the items of the first accepted answer.

Inputs the program gets from outside become parameters:
- the clock (`now`, `readAt`, `writtenAt`);
- the language model's reply (`reply`);
- the lines the user types (`inputs`, `answers`);
- what the wrapped function does (`call`, a return value or an exception);
- which file removals fail (`failing`).

SHA-256 is a function value (`digest`) the store is built with, and so is what
`json.dump` raises on a value it cannot encode (`dumpError`).

Facts about the cache code that the model keeps:
- `skip_cache` bypasses both the read and the write (utils/cache.py:105-108).
- A stored `None` reads as a miss, so such a call runs again (utils/cache.py:116).
- Expiry is strict: an entry exactly `expiry_time` old is still returned
  (utils/cache.py:66).
- `clear(t)` judges age by the file's modification time, not by the stored timestamp
  (utils/cache.py:146).
- Only undecodable JSON and a missing key cause self-healing (utils/cache.py:73-77).
  Every other exception raised while reading leaves `get`. The ones the model names are:
  a directory or a file without read permission, bytes that are not UTF-8, an integer of more
  than 4300 digits or nesting deeper than the recursion limit (which `json.load` refuses
  with ValueError and RecursionError), JSON that is not an object, a string, list,
  object or `null` timestamp, and an integer timestamp too large for a float (whose
  subtraction raises OverflowError).
- `json.load` accepts `NaN`, `Infinity` and `-Infinity` as timestamps. An entry stamped
  `NaN` or `Infinity` never expires, and one stamped `-Infinity` always has
  (utils/cache.py:63-66).
- `set` raises OSError on a directory or a file without write permission, and raises
  what `json.dump` raises after truncating the file, which leaves a file that is not JSON
  (utils/cache.py:93-94). The wrapper passes either exception on to its caller.
- Opening a file for writing keeps its permission bits. A write-only entry file stays
  unreadable after `set`, so `get` keeps raising OSError. A read-only one that holds a
  fresh `null` reads as a miss, so the wrapper runs the function and then raises the
  OSError of `set`.
- `os.remove` never removes a directory, so `clear` skips a directory with a `.json`
  name (utils/cache.py:150-154).
- A keyword argument named `self` makes the wrapper raise TypeError when it builds the
  key (utils/cache.py:111), unless `skip_cache` is truthy.

## Model

| member | source | states |
|---|---|---|
| `Cache.CachePath` | utils/cache.py:40-47 | The entry file for a key is a `.json` name, so `clear` sees it. |
| `Cache.Judge` | utils/cache.py:61-63 | A directory or a file without read permission makes `get` raise OSError. For a readable file the content decides. |
| `Cache.Assess` | utils/cache.py:63-77 | The content of a file is fresh exactly when it is an object whose numeric timestamp has not passed `expiry_time` (with IEEE comparison for `NaN` and the infinities) and which has a `value`, and then its `value` is returned. It is expired exactly when that age is strictly greater. It is malformed exactly when it is undecodable, lacks `timestamp`, or is fresh but lacks `value`. It raises exactly for bytes that are not UTF-8 (UnicodeDecodeError), JSON that `json.load` refuses with ValueError or RecursionError, JSON that is not an object (TypeError), and a timestamp that is not a number (TypeError) or is an integer too large for a float (OverflowError). |
| `Cache.NonFiniteStamps` | utils/cache.py:63-71 | An entry stamped `Infinity` or `NaN` is fresh at every time, and one stamped `-Infinity` is expired at every time. |
| `Cache.SetSpec` | utils/cache.py:79-94 | `set` returns exactly when the entry is not a directory or a file without write permission, and the value can be encoded. Then the key's file holds `{timestamp: now, value}` with mtime `now` and keeps its permission bits; a new file is readable and writable. On a directory or an unwritable file it raises OSError and changes nothing. Whether it returns or raises, the key's entry exists afterwards and every other file and mtime is unchanged. |
| `Cache.Swept` | utils/cache.py:128-156 | `clear` deletes only listed `.json` files, never a directory, whose removal does not fail. |
| `Cache.Removes` | utils/cache.py:138-154 | One listed name is removed exactly when it is a `.json` name, it is not a directory, its removal does not fail, and, with an age given, its mtime age is strictly greater than that age. |
| `Cache.KeyedArgs` | utils/cache.py:105 | After `skip_cache` is popped, the keyword arguments keep distinct names and none is `skip_cache`. Every other argument is kept, with its `str()` text. |
| `Cache.CacheStore.constructor` | utils/cache.py:12-24 | The store keeps `expiry_time`, one day unless given, and starts with the existing directory, or an empty one when none exists. |
| `Cache.CacheStore.Get` | utils/cache.py:49-77 | The outcome and the new directory are those of the `get` specification, and file and mtime maps keep the same names. |
| `Cache.CacheStore.Set` | utils/cache.py:79-94 | The outcome and the new directory are those of the `set` specification. |
| `Cache.Sweep` | utils/cache.py:138-156 | The loop over the listing removes exactly the swept files from both maps, whatever order it visits them in, and returns their number. |
| `Cache.CacheStore.Clear` | utils/cache.py:128-156 | The cache's directory becomes the swept one, and the count returned is the number of files removed. |
| `Cache.CacheStore.Cached` | utils/cache.py:96-126 | The result, whether the function ran, and the new directory are those of the wrapper's specification. |
| `Cache.GetAbsentIsMiss` | utils/cache.py:58-59 | `get` on a key with no file returns `None` and changes nothing. |
| `Cache.GetExpiry` | utils/cache.py:65-71 | An entry strictly older than `expiry_time` is a miss and its file is removed. An entry exactly `expiry_time` old is a hit and nothing changes. |
| `Cache.GetHealsMalformed` | utils/cache.py:73-77 | A malformed entry is a miss. Its file is removed and every other file stays. |
| `Cache.GetPropagatesOtherErrors` | utils/cache.py:61-77 | A directory, a file without read permission, bytes that are not UTF-8, JSON that `json.load` refuses with ValueError or RecursionError, JSON that is not an object, or a timestamp that is not a number or does not fit a float makes `get` raise, and nothing is removed. |
| `Cache.SetThenGet` | utils/cache.py:66-94 | On an entry that is not a write-only file, after a `set(k, v)` at `t` that returns, `get(k)` at any `now` with `now - t <= expiry_time` returns `v` and changes nothing. |
| `Cache.FailedDumpHeals` | utils/cache.py:73-94 | On a writable entry file that is readable or new, a `set` whose value `json.dump` refuses raises that exception, and the next `get` of the key reports a miss and removes the file it left. |
| `Cache.BlockedSetRaises` | utils/cache.py:62-93 | On a directory or a file without write permission, `set` raises OSError and changes nothing. When the entry cannot be read either, `get` raises OSError too. |
| `Cache.ReadOnlyEntry` | utils/cache.py:62-93 | On a read-only entry file `set` raises OSError and changes nothing, while `get` judges the content as for any readable file, and returns a fresh value without changing anything. |
| `Cache.WriteOnlyEntry` | utils/cache.py:62-94 | On a write-only entry file `get` raises OSError and changes nothing. `set` returns exactly when the value can be encoded, and either way the file stays write-only, so `get` still raises OSError. |
| `Cache.SetKeepsOthers` | utils/cache.py:86-94 | `set`, whether it returns or raises, keeps the directory well formed and does not change what `get` returns for any other key's file. |
| `Cache.ClearAll` | utils/cache.py:138-156 | `clear()` removes a name exactly when it is `.json`, it is a file rather than a directory, and its removal succeeds. |
| `Cache.ClearByAge` | utils/cache.py:144-156 | `clear(t)` removes a name exactly when it is `.json`, it is a file, its removal succeeds, and its mtime age is strictly greater than `t`. |
| `Cache.ClearRemovesEntries` | utils/cache.py:138-152 | Every entry file `set` writes, in full or cut short by a failed encoding, is removed by `clear()` when no removal fails. |
| `Cache.SkipBypassesCache` | utils/cache.py:105-108 | With `skip_cache` truthy, the function runs, its outcome is returned, and the directory is neither read nor written. |
| `Cache.SelfKeywordRaises` | utils/cache.py:107-111 | Without `skip_cache`, a keyword argument named `self` makes the wrapper raise TypeError before anything is read or run. |
| `Cache.HitSkipsCall` | utils/cache.py:111-118 | A fresh stored value other than `None` is returned without running the function, and nothing changes. |
| `Cache.MissRunsCall` | utils/cache.py:114-124 | On a miss or a stored `None`, the function runs once. A returned value is passed to `set` under the call's key, and returned unless that `set` raises, whose exception is then raised. An exception from the function leaves nothing written beyond the healing read. |
| `Cache.SecondCallHits` | utils/cache.py:111-124 | A second identical call within `expiry_time` of the first call's write returns the first call's non-`None` value without running the function. |
| `Cache.StoredNoneRunsAgain` | utils/cache.py:116-124 | After a call whose function returned `None`, the next identical call runs the function again. |
| `Cache.ReadOnlyNullRaises` | utils/cache.py:114-122 | A read-only entry file holding a fresh `null` reads as a miss, so the function runs, and then the wrapper raises the OSError of `set`, with nothing changed. |
| `Cache.MemoKeyIgnoresKwargOrder` | utils/cache.py:105-111 | Two calls whose keyword arguments hold the same pairs, apart from `skip_cache`, get the same key whatever the order. |
| `CacheKey.SortByName` | utils/cache.py:34 | `sorted(kwargs.items())` is sorted by name and is a permutation of the pairs. |
| `CacheKey.SortedUnique` | utils/cache.py:34 | Two name-sorted lists holding the same pairs are equal. |
| `CacheKey.KeyIgnoresKwargOrder` | utils/cache.py:33-35 | Reordering the keyword arguments never changes the key string. |
| `CacheKey.KeyStringLayout` | utils/cache.py:33-35 | When no part holds `:`, splitting the key string at `:` gives the name, then the positional arguments in order, then the `k=v` pairs in ascending name order. |
| `CacheKey.KeyStringCollides` | utils/cache.py:33-38 | The key string is not injective: `f("a:b")` and `f("a", "b")` share one key. |
| `UtilsIo.ParseListBlank` | utils/io.py:17-28 | Empty or whitespace-only text gives `[]`. |
| `UtilsIo.ScanByLines` | utils/io.py:21-22 | When no line but the last is a bare marker, `findall` returns the text after the marker of each line that starts with `digits.` or a bullet plus whitespace, in line order. |
| `UtilsIo.ParseListMarked` | utils/io.py:21-25 | When some line carries a marker, the result is the stripped remainders of the marked lines, in order. |
| `UtilsIo.ParseListUnmarked` | utils/io.py:26-28 | When no line carries a marker, the result is the non-blank lines of the stripped text, stripped, in order. |
| `UtilsIo.BareMarkerSwallowsNextLine` | utils/io.py:21-25 | The greedy `\s+` crosses a line break: `"- \n- b"` gives `["- b"]`. |
| `UtilsIo.NonBlankLinesStripped` | utils/io.py:28 | Every fallback item is non-empty and stripped. |
| `UtilsIo.NonBlankLinesEmpty` | utils/io.py:28 | The fallback is empty exactly when every line is blank. |
| `UtilsIo.ClampMax` | utils/io.py:38-41 | The bound is the item count when `max_select` is `None`. Otherwise it is the smaller of the two, never above the item count. |
| `UtilsIo.AscendingBelow` | utils/io.py:59 | `sorted(set(indices))` is strictly increasing and holds exactly the chosen indices below the bound. |
| `UtilsIo.Validate` | utils/io.py:51-68 | An answer is accepted exactly when no digit run is too long for `int()`, every number in it is in 1..count, and the number of distinct choices is within [min, max]. The accepted indices increase strictly, stay below the count, and are exactly the numbers minus one. |
| `UtilsIo.SelectItems` | utils/io.py:30-66 | No items gives `[]` at once. Otherwise the result is the items picked by the first accepted answer, or `None` when every answer was refused. |
| `UtilsIo.OverlongRunRefused` | utils/io.py:51-68 | An answer opening with more than 4300 digits is refused, as the `ValueError` from `int()` is caught and the question asked again. |
| `UtilsIo.OutOfRangeRefused` | utils/io.py:54-56 | An answer holding 0 or a number above the count is refused. |
| `UtilsIo.MinAboveMaxRefusesAll` | utils/io.py:62-64 | When `min_select` exceeds the clamped `max_select`, every answer is refused. |
| `UtilisIo.LineItem` | utilis/io.py:23-32 | A line gives at most one item, and every item is non-empty and stripped. |
| `UtilisIo.LineItemCases` | utilis/io.py:24-30 | A blank line gives nothing. A bulleted line gives the rest after the bullet, stripped. Any other item does not start with a digit, `.`, `)`, `(` or whitespace. |
| `UtilisIo.DropNumbering` | utilis/io.py:30 | After the numbering run is removed, the text is stripped and does not start with a numbering character. |
| `UtilisIo.Collect` | utilis/io.py:22-33 | There are no more items than lines, and every item is non-empty and stripped. |
| `UtilisIo.ParseList` | utilis/io.py:17-33 | The loop appends exactly the items of the lines of `text`, in line order. |
| `UtilisIo.SourceLinesTrace` | utilis/io.py:22-33 | The positions of the item lines strictly increase, and the j-th item is what the line at the j-th position gives. |
| `UtilisIo.SourceLinesOthers` | utilis/io.py:22-33 | Every line that gives an item is among those positions. |
| `UtilisIo.CollectAppend` | utilis/io.py:22-33 | The items of two runs of lines are the first run's items followed by the second's. |
| `UtilisIo.BlankLinesIgnored` | utilis/io.py:24-25 | Inserting a blank line anywhere does not change the items. |
| `UtilisIo.BulletLine` | utilis/io.py:27-28 | A stripped bulleted line gives the rest of the line after that one character, stripped. |
| `SemanticFilter.FilterPoints` | semantic_filter.py:14-26 | The two loops build the first occurrences of the review points followed by the user points. |
| `SemanticFilter.FirstOccurrencesDistinct` | semantic_filter.py:19-26 | The result holds no point twice. |
| `SemanticFilter.FirstOccurrencesMembers` | semantic_filter.py:19-26 | A point is in the result exactly when it is in either input. |
| `SemanticFilter.FirstPositionsTrace` | semantic_filter.py:20-25 | Each result element sits at its first occurrence in the inputs, and those positions increase. |
| `SemanticFilter.FirstOccurrencesAppend` | semantic_filter.py:23-25 | The user-point loop only appends points that are in the user points and not among the review points. |
| `SemanticFilter.ReviewPointsFirst` | semantic_filter.py:20-25 | Every review point comes before any point found only among the user points. |
| `SemanticFilter.DistinctReviewPointsLead` | semantic_filter.py:20-22 | When the review points have no repeats, the result starts with exactly those points. |
| `Replies.Clean` | interview.py:18 | `line.strip("- ").strip()` is stripped and no longer than the line. |
| `Replies.SplitReply` | interview.py:18 | There are no more items than lines of the stripped reply. Every item is stripped. There are none exactly when the reply is blank. |
| `Replies.SplitReplyLines` | interview.py:18 | There is one item per line whose `strip()` is non-empty, in line order, each the cleaned text of its line. |
| `Replies.ItemsOfNonBlank` | interview.py:18 | With no blank line, the item count equals the line count and the i-th item is the i-th line cleaned. |
| `Replies.ItemsAppend` | interview.py:18 | The items of two runs of lines are the first run's items followed by the second's. |
| `Replies.ItemsOfLine` | interview.py:18 | A blank line gives no item, and any other line gives exactly its cleaned text. |
| `Replies.DashLineGivesEmpty` | interview.py:18 | A line of dashes and spaces is kept and gives an empty item. |
| `Replies.BulletBlock` | interview.py:9 | No items give an empty block. |
| `Replies.BulletBlockLines` | interview.py:9 | When no item holds a newline, the block splits at newlines into one `- x` line per item, in order. |
| `Replies.BulletBlockRoundTrip` | interview.py:9-18 | Reading a `- x` block back as a reply gives the items again, when items are non-empty, single-line, and neither start nor end with a dash or whitespace. |
| `Interview.AskInterviewQuestions` | interview.py:4-21 | The keyword block lists each review point as `- kw`, in order. The questions are stripped, no more than the reply's lines, and empty exactly for a blank reply. |
| `Interview.ConductInterview` | interview.py:23-42 | With enough input lines, there is exactly one answer per question, and the i-th is the i-th input line stripped. Otherwise `input()` fails. |
| `OutlineGenerator.GenerateSubtopics` | outline_generator.py:4-24 | The responses block and the keyword block each list their items as `- x`, in order. The subtopics are stripped, no more than the reply's lines, and empty exactly for a blank reply. |
| `QuestionGenerator.GenerateGuidedQuestions` | question_generator.py:4-21 | The keyword block lists each review point as `- rp`, in order. The questions are stripped, no more than the reply's lines, and empty exactly for a blank reply. |
| `ReviewProcessor.NumberedLines` | review_processor.py:13-14 | The i-th line renders the i-th review, numbered from 1. |
| `ReviewProcessor.ProcessReviews` | review_processor.py:4-19 | No reviews give `[]` and no prompt. Otherwise the prompt text is the numbered lines, newline-terminated and then stripped, and the points are `parse_list` of the reply. |
| `ReviewProcessor.TerminatedIsJoin` | review_processor.py:12-14 | The accumulated text is the lines joined by newlines, plus one final newline. |
| `ReviewProcessor.ReviewLineLayout` | review_processor.py:14 | A line is `리뷰 `, then the number in decimal, then `: `, then the review. The number reads back as the review's position. |
| `ReviewProcessor.NumberedLinesFlat` | review_processor.py:13-14 | Each numbered line is non-empty, starts with `리`, and holds no newline when its review holds none. |
| `ReviewProcessor.PromptLines` | review_processor.py:12-16 | For single-line reviews whose last ends in a non-space, the stripped text is one line per review in order, with no trailing newline. |
| `ReviewWriter.QaBlock` | review_writer.py:10 | An empty answers dictionary gives an empty block. |
| `ReviewWriter.QaBlockIsJoin` | review_writer.py:10 | The block is the `질문: q` and `답변: a` lines of each entry, in insertion order, joined by single newlines. |
| `ReviewWriter.QaBlockLines` | review_writer.py:10 | When no question or answer holds a newline, the block splits into exactly two lines per entry, in order. |
| `ReviewWriter.StripIsMiddle` | review_writer.py:22 | `strip()` gives the part of the text between a whitespace prefix and a whitespace suffix. |
| `ReviewWriter.WriteChapterFromAnswers` | review_writer.py:4-22 | The keyword block lists each point as `- kw`. The chapter is the reply without surrounding whitespace, and it is empty exactly when the reply is blank. |

## Left out

- File-system I/O of the cache: the directory is a pair of maps and `os.makedirs`, `open`, `os.listdir` and `os.path.getmtime` are not modelled; an `os.remove` failure inside `get` is not modelled (only `clear` catches removal failures, and those are modelled through `failing`).
- JSON encoding of the cache records: a record is one of a handful of abstract shapes, and the stored value is the JSON round trip of the returned value, taken as given.
- SHA-256: a function value supplied to the store; nothing is claimed about its injectivity, and the key string itself is shown not to be injective.
- `time.time()`: passed in as `now`, `readAt` and `writtenAt`; timestamps are `real`, so floating-point rounding is not modelled.
- The cache-hit log line and the global `cache = Cache()` instance (utils/cache.py:117, 159); the one-day default `expiry_time` it relies on is modelled as `Cache.DefaultExpiry`.
- `Cache.Judge`: read failures beyond the modelled record shapes (running out of memory, an interrupted read) are not modelled.
- Concurrent callers of `cached`: the model is sequential, so the unsynchronised last-writer-wins race is not represented.
- `Cache.Sweep`: visits the listing in no particular order, as `os.listdir` does; the count and the final directory do not depend on the order.
- `UtilsIo.ScanByLines`, `UtilsIo.ParseListMarked`, `UtilsIo.ParseListUnmarked`: proved for texts in which no line but the last is a marker with nothing after it; for other texts the greedy `\s+` crosses line breaks, which `UtilsIo.FindAll` models exactly and `UtilsIo.BareMarkerSwallowsNextLine` illustrates.
- `\d` and `int()` on digits: ASCII digits only; Unicode decimal digits from other scripts are not modelled.
- The `input()`/`print` shell of `select_items_from_list`: the answers typed are a finite sequence, and `UtilsIo.SelectItems` returns `None` when all of them were refused. At end of input the source catches the `EOFError` in its general handler (utils/io.py:70-71) and asks again forever, so `None` means "has not returned after these answers".
- `UtilsIo.Validate`: the 4300-digit limit of `int()` is the default since Python 3.11; an interpreter without the limit, or with another one set, accepts or refuses such answers differently.
- `Interview.ConductInterview`: the `context` string built at interview.py:32-34 is never used and is not modelled; running out of input is modelled as `None` (an uncaught `EOFError`).
- Prompt templates, `str.format` substitution, `load_text`, `save_text`, `save_review_to_file` and the language-model call: the model's reply is a parameter.
- `get_user_keywords` (semantic_filter.py:4-12): a template, a model call and `parse_list`.
- `utils/progress.py`, `llm_client.py`, `review_crawler.py`, `book_info.py` and `main.py`: display timing, a foreign API call, HTTP scraping and interactive orchestration.
- `Cache.CachePath`: a key is taken as a plain file name inside the cache directory. A key holding `/` names a file in a sub-directory, and an absolute key makes `os.path.join` drop the cache directory (utils/cache.py:47); neither is modelled, and `Cache.ClearRemovesEntries` holds only for keys without `/`, since `clear` lists the top directory alone (utils/cache.py:138). The keys `cached` derives are hexadecimal SHA-256 digests, which hold no `/`.
- `Cache.MemoKey`: argument texts hold Unicode scalar values only. A positional argument or keyword value whose `str()` holds a lone surrogate makes `key_str.encode('utf-8')` raise UnicodeEncodeError (utils/cache.py:38) before anything is read; such strings cannot be written as Dafny strings, so the model always yields a key.
- `Cache.SetSpec`: other failures of the write (a missing directory, a full disk) are not modelled; `ValueError` for a circular value is covered by `dumpError`, which may name any exception.

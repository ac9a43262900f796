# 9_meow_ai core model in Dafny

This project models and proves the stateful and string-processing core of the
9_meow_ai AI server. The server turns pet-owner posts and comments into
cat or dog speech through a vLLM server or a Gemini API. The model covers:

- **Three API-key pools.**
  - `ai_server/util/v1/key_manager.py`: strict round-robin with a sliding 60-second window per key.
  - `ai_server/key_pool.py`: least-used selection under a fixed-window counter.
  - `ai_server/key_manager.py`: plain round-robin.

  Each pool is a `class` whose acquire method is proved equal to a pure `Acquire` step function. The pool's properties are lemmas about that function and about runs of it.
- **The LRU + TTL result cache** (`core/cache.py`). It is a class holding:
  - the key order of the `OrderedDict`;
  - the value map and the timestamp map;
  - an invariant that the two maps share the key set of the order and stay within capacity.
- **The vLLM command-line builders and settings updates** of `ai_server/vLLM/server/vllm_config.py` (LoRA variant) and `ai_server/vllm_server/vllm_config.py` (flag variant).
  - Each argument list is a pure function, built by a method with a loop or conditional appends.
  - `update_vllm_config` is a method on a `Settings` class holding the global settings object, proved against a pure fold.
- **The comment pipeline.**
  - `CommentPromptGenerator.preprocess` and `create_prompt` (`ai_server/util/comment_prompt.py`).
  - `CommentTransformationService.postprocess` (`ai_server/model/comment_model.py`).

  Both are string functions over explicit character classes. Every regular expression the source uses is written out as a scan.

Modelling conventions:

- Time (`time.time()`) is a parameter `now: int` in whole ticks. Each call is one atomic step, which is what the `asyncio.Lock` of each pool and of the cache provides.
- Python `str` is `seq<char>`. `str.isspace`, which is also what `\s` and `strip()` use, is `Common.IsSpace`.
- A keyword argument to `update_vllm_config` is a `(name, Common.Value)` pair.

Files:

| file | module | models |
|---|---|---|
| common.dfy | Common | `Option`/`Result`, Python whitespace, `str()` of ints, subsequences |
| text.dfy | Text | `strip` with a character class, literal `find` / `replace` |
| sliding_key_pool.dfy | SlidingKeyPool | ai_server/util/v1/key_manager.py |
| least_used_key_pool.dfy | LeastUsedKeyPool | ai_server/key_pool.py |
| round_robin_key_pool.dfy | RoundRobinKeyPool | ai_server/key_manager.py |
| lru_cache.dfy | LruCache | core/cache.py |
| lora_vllm_config.dfy | LoraVllmConfig | ai_server/vLLM/server/vllm_config.py |
| vllm_server_config.dfy | VllmServerConfig | ai_server/vllm_server/vllm_config.py |
| comment_prompt.dfy | CommentPrompt | ai_server/util/comment_prompt.py |
| comment_postprocess.dfy | CommentPostprocess | ai_server/model/comment_model.py |

## Model

| member | source | states |
|---|---|---|
| SlidingKeyPool.Recent | ai_server/util/v1/key_manager.py:19-22 | the cleaned record keeps exactly the uses younger than 60 seconds, and is no longer than before |
| SlidingKeyPool.Acquire | ai_server/util/v1/key_manager.py:29-53 | an empty pool refuses. Otherwise only `api_keys[current_index]` is examined, and it is handed out iff fewer than `max` of its uses are recent. Success appends exactly `now` to the cleaned record and advances the cursor mod n. Refusal leaves the cursor, records no use, and still stores the refused key's cleaned record. Every other key's record is untouched. The per-key cap is preserved |
| SlidingKeyPool.ExpiryBoundary | ai_server/util/v1/key_manager.py:22 | a use exactly 60 seconds old is dropped; one 59 seconds old is kept |
| SlidingKeyPool.ExhaustedCursorKeyBlocks | ai_server/util/v1/key_manager.py:40-53 | an exhausted key under the cursor makes the call return None even though the next key has budget |
| SlidingKeyPool.ExpiredUsesFreeTheKey | ai_server/util/v1/key_manager.py:24-27 | once all uses of the cursor key are 60 seconds old, that key is handed out again |
| SlidingKeyPool.RecentOfRecent | ai_server/util/v1/key_manager.py:19-22 | cleaning at an earlier time and then at a later one is the same as cleaning once at the later time |
| SlidingKeyPool.AcquireTracks | ai_server/util/v1/key_manager.py:40-47 | the lazily cleaned records count the same recent uses as the full history of grants, and a grant happens only when the history shows fewer than `max` recent uses |
| SlidingKeyPool.SlidingWindowCap | ai_server/util/v1/key_manager.py:19-53 | from a fresh pool with non-decreasing call times, no key is ever handed out more than `max` times within any trailing 60 seconds |
| SlidingKeyPool.APIKeyPool.constructor | ai_server/util/v1/key_manager.py:12-17 | the cursor is 0 and every key has an empty record |
| SlidingKeyPool.APIKeyPool.CleanupOldUsage | ai_server/util/v1/key_manager.py:19-22 | only `key`'s record changes, to its recent uses |
| SlidingKeyPool.APIKeyPool.IsKeyAvailable | ai_server/util/v1/key_manager.py:24-27 | cleans `key`'s record, then answers whether fewer than `max` recent uses remain |
| SlidingKeyPool.APIKeyPool.GetAvailableKey | ai_server/util/v1/key_manager.py:29-53 | the returned key and the new cursor and records are those of `Acquire` |
| SlidingKeyPool.APIKeyPool.GetAvailableKeyCount | ai_server/util/v1/key_manager.py:55-57 | the number of configured keys, whatever their usage |
| SlidingKeyPool.InitializeKeyPool | ai_server/util/v1/key_manager.py:59-74 | an empty key list is an error with the source's message; otherwise a fresh pool with the default limit of 15 |
| LeastUsedKeyPool.KeyToLabel | ai_server/key_pool.py:15-17 | one label entry per listed key |
| LeastUsedKeyPool.KeyToLabelLastWins | ai_server/key_pool.py:15-17 | a key's label is `key_{i+1}` for its last position `i` |
| LeastUsedKeyPool.InitialStatuses | ai_server/key_pool.py:19-27 | one status per listed key, in order, with count 0 and last use 0 |
| LeastUsedKeyPool.InitialLabels | ai_server/key_pool.py:15-27 | a key's last position carries its own label; duplicate keys share the later position's label |
| LeastUsedKeyPool.LeastUsed | ai_server/key_pool.py:34-43 | None iff no key is below the cap. Otherwise an eligible key whose count is minimal among eligible keys, strictly smaller than every earlier eligible key's count (Python `min` picks the first) |
| LeastUsedKeyPool.Acquire | ai_server/key_pool.py:31-48 | None iff every count is at the cap, and then nothing changes. Otherwise the least-used key is returned, its count goes up by 1, its last use becomes `now`, and every other status is untouched. Keys and labels never change; counts stay within the cap |
| LeastUsedKeyPool.ResetAll | ai_server/key_pool.py:57-61 | every count becomes 0; keys, labels and last-use times are kept |
| LeastUsedKeyPool.ResetRestoresCapacity | ai_server/key_pool.py:57-61 | after a reset, a non-empty pool with a positive cap hands out its first key |
| LeastUsedKeyPool.RunBalanced | ai_server/key_pool.py:43-44 | from zero counts, m calls leave counts of m div n, with the first m mod n keys one higher |
| LeastUsedKeyPool.EvenShare | ai_server/key_pool.py:43-44 | from a fresh pool, k·n calls with k <= max leave every key with exactly k uses |
| LeastUsedKeyPool.APIKeyPool.constructor | ai_server/key_pool.py:13-28 | statuses and the label map are built from the key list |
| LeastUsedKeyPool.APIKeyPool.GetAvailableKey | ai_server/key_pool.py:31-48 | the returned key and the new statuses are those of `Acquire` |
| LeastUsedKeyPool.APIKeyPool.ReleaseKey | ai_server/key_pool.py:50-55 | no state changes, whether the key is known or not |
| LeastUsedKeyPool.APIKeyPool.ResetCounters | ai_server/key_pool.py:57-61 | the statuses become `ResetAll` of the old ones |
| RoundRobinKeyPool.Acquire | ai_server/key_manager.py:13-20 | None iff the pool is empty, and then the cursor stays. Otherwise `api_keys[index]` is returned and the cursor becomes `(index+1) mod n` |
| RoundRobinKeyPool.RunRotates | ai_server/key_manager.py:17-18 | the i-th call returns `api_keys[(index+i) mod n]`, and the cursor ends at `(index+calls) mod n` |
| RoundRobinKeyPool.FullCycleReturns | ai_server/key_manager.py:17-18 | n calls on a non-empty pool never refuse and bring the cursor back to its start |
| RoundRobinKeyPool.APIKeyPool.constructor | ai_server/key_manager.py:8-11 | the cursor starts at 0 |
| RoundRobinKeyPool.APIKeyPool.GetAvailableKey | ai_server/key_manager.py:13-20 | the key and the new cursor are those of `Acquire`; the key list is a constant |
| RoundRobinKeyPool.APIKeyPool.GetAvailableKeyCount | ai_server/key_manager.py:22-23 | the number of configured keys |
| LruCache.Remove | core/cache.py:36-38 | `del` on the order: exactly `k` leaves it, and a missing `k` changes nothing |
| LruCache.RemoveKeepsOrder | core/cache.py:36-38 | deleting keeps the other keys in order and distinct, one fewer |
| LruCache.MoveToEnd | core/cache.py:41-50 | `move_to_end`: `k` becomes last; the key set and the length are kept; the other keys keep their relative order |
| LruCache.Drop | core/cache.py:69-70 | the order without a set of keys: membership is exactly "in order and not deleted" |
| LruCache.DropKeepsOrder | core/cache.py:69-70 | the survivors keep their relative order and stay distinct |
| LruCache.ExpiredGrows | core/cache.py:64-67 | a key that has expired stays expired at any later time |
| LruCache.ExpiredShrinksWithTtl | core/cache.py:64-67 | a longer TTL expires no more keys |
| LruCache.ExpiredFreshEntry | core/cache.py:57-58 | stamping a new key with the current time leaves the other keys' expiry unchanged, and the new key is not expired then unless the TTL is negative |
| LruCache.ClearExpiredKeepsLive | core/cache.py:60-70 | after bulk expiry the remaining keys are exactly the live ones, in their old relative order |
| LruCache.AsyncLRUCache.constructor | core/cache.py:9-14 | an empty cache with the given capacity (default 1000) and TTL (default 3600) |
| LruCache.AsyncLRUCache.Get | core/cache.py:26-42 | a missing key misses and changes nothing. An entry older than the TTL is deleted from the order and both maps, and misses. An entry exactly TTL old still hits. A hit returns the stored text and moves the key to the end without refreshing its time. The invariant holds throughout |
| LruCache.AsyncLRUCache.Put | core/cache.py:44-58 | an existing key only moves to the end, keeping its text and time. A new key at capacity evicts the front key from the order and both maps, then is appended. Otherwise it is appended. With nothing to evict, `popitem` raises and nothing changes. The invariant, which gives size <= capacity, is kept |
| LruCache.AsyncLRUCache.ClearExpired | core/cache.py:60-70 | deletes exactly the expired entries from the order and both maps; the rest keep their order |
| LruCache.PutThenGet | core/cache.py:26-58 | storing a result and reading it back at once returns it |
| LruCache.GenerateKeyInjective | core/cache.py:16-24 | two requests get the same key iff content, emotion and post type all agree |
| LoraVllmConfig.LoraModuleArgsLayout | ai_server/vLLM/server/vllm_config.py:90-92 | one `--lora-modules m` pair per module, in input order |
| LoraVllmConfig.ServerArgs | ai_server/vLLM/server/vllm_config.py:65-94 | the list has 17 arguments, or 22 plus two per listed module with LoRA on; it starts with the fixed part, whose `--model` slot holds `base_model_path` with LoRA on and `model_path` otherwise; with LoRA on the five LoRA flags follow |
| LoraVllmConfig.WithoutLora | ai_server/vLLM/server/vllm_config.py:67-79 | with LoRA off, the list is exactly the 17 fixed arguments, `model_path` after `--model`, ending in `--trust-remote-code` |
| LoraVllmConfig.WithLora | ai_server/vLLM/server/vllm_config.py:67-92 | with LoRA on: length 22 + 2·modules; the fixed part with `base_model_path` after `--model`; then `--enable-lora --max-loras 1 --max-lora-rank 16`; then the module pairs in order |
| LoraVllmConfig.EnableLoraIff | ai_server/vLLM/server/vllm_config.py:82-87 | `--enable-lora` follows the fixed part iff `enable_lora` |
| LoraVllmConfig.LoraSettingsIgnoredWithoutLora | ai_server/vLLM/server/vllm_config.py:82-92 | with LoRA off, `base_model_path` and `lora_modules` do not affect the list |
| LoraVllmConfig.OnlyModelSlotMayBeNone | ai_server/vLLM/server/vllm_config.py:67-72 | only the `--model` slot can be None, and under the default settings it is |
| LoraVllmConfig.VllmServerArgs.GetServerArgs | ai_server/vLLM/server/vllm_config.py:65-94 | the list built with `extend` and the module loop is `ServerArgs(config)` |
| LoraVllmConfig.AssignThenLookup | ai_server/vLLM/server/vllm_config.py:110-111 | `setattr` on a field changes that field only |
| LoraVllmConfig.Update | ai_server/vLLM/server/vllm_config.py:106-112 | a raise names a keyword that is an attribute but not a field; when nothing raises, no keyword was such an attribute |
| LoraVllmConfig.UpdateLastWins | ai_server/vLLM/server/vllm_config.py:106-112 | when nothing raises, each field holds the last value passed for it, or its old value when none was passed |
| LoraVllmConfig.UpdateIgnoresUnknown | ai_server/vLLM/server/vllm_config.py:110 | names that are not attributes change nothing |
| LoraVllmConfig.UpdateStopsAtRaise | ai_server/vLLM/server/vllm_config.py:109-111 | after a raising assignment, later keywords are not processed |
| LoraVllmConfig.UpdateRaisesIff | ai_server/vLLM/server/vllm_config.py:110-111 | an update raises iff some keyword names a non-field attribute, and the raise names that attribute |
| LoraVllmConfig.LoadedFields | ai_server/vLLM/server/vllm_config.py:12-56 | each field set in the environment takes that value and every other field keeps its default |
| LoraVllmConfig.LoadedDefaults | ai_server/vLLM/server/vllm_config.py:12-56 | with no setting in the environment the settings are exactly the defaults |
| LoraVllmConfig.Settings.constructor | ai_server/vLLM/server/vllm_config.py:98 | the global settings are the defaults overridden by the environment, as `LoadedFields` states |
| LoraVllmConfig.Settings.GetVllmConfig | ai_server/vLLM/server/vllm_config.py:101-103 | returns the current settings |
| LoraVllmConfig.Settings.UpdateVllmConfig | ai_server/vLLM/server/vllm_config.py:106-112 | the settings become those of the `Update` fold. The result is them, or the pydantic error for the raising name, with earlier assignments kept |
| VllmServerConfig.ServerArgs | ai_server/vllm_server/vllm_config.py:62-85 | 18 fixed arguments with `model_path` after `--model`, then the switches that are on; the length is 18 plus the number of switches on |
| VllmServerConfig.SwitchIff | ai_server/vllm_server/vllm_config.py:76-83 | each of `--enable-chunked-prefill`, `--trust-remote-code` and `--disable-log-stats` is present iff its setting is true |
| VllmServerConfig.SwitchOrder | ai_server/vllm_server/vllm_config.py:76-85 | the switches present come after the fixed part, in that fixed order |
| VllmServerConfig.DefaultServerArgs | ai_server/vllm_server/vllm_config.py:16-85 | the defaults give 20 arguments: chunked prefill and trust on, log stats not disabled |
| VllmServerConfig.VllmServerArgs.GetServerArgs | ai_server/vllm_server/vllm_config.py:62-85 | the list built with conditional appends is `ServerArgs(config)` |
| VllmServerConfig.AssignThenLookup | ai_server/vllm_server/vllm_config.py:101-102 | `setattr` on a field changes that field only |
| VllmServerConfig.Update | ai_server/vllm_server/vllm_config.py:97-103 | a raise names a keyword that is an attribute but not a field; when nothing raises, no keyword was such an attribute |
| VllmServerConfig.UpdateLastWins | ai_server/vllm_server/vllm_config.py:97-103 | when nothing raises, each field holds the last value passed for it, or its old value |
| VllmServerConfig.UpdateIgnoresUnknown | ai_server/vllm_server/vllm_config.py:101 | names that are not attributes change nothing |
| VllmServerConfig.UpdateStopsAtRaise | ai_server/vllm_server/vllm_config.py:100-102 | after a raising assignment, later keywords are not processed |
| VllmServerConfig.UpdateRaisesIff | ai_server/vllm_server/vllm_config.py:101-102 | an update raises iff some keyword names a non-field attribute |
| VllmServerConfig.LoadedFields | ai_server/vllm_server/vllm_config.py:11-53 | each field set in the environment takes that value and every other field keeps its default |
| VllmServerConfig.LoadedDefaults | ai_server/vllm_server/vllm_config.py:11-53 | with no setting in the environment the settings are exactly the defaults |
| VllmServerConfig.Settings.constructor | ai_server/vllm_server/vllm_config.py:89 | the global settings are the defaults overridden by the environment, as `LoadedFields` states |
| VllmServerConfig.Settings.GetVllmConfig | ai_server/vllm_server/vllm_config.py:92-94 | returns the current settings |
| VllmServerConfig.Settings.UpdateVllmConfig | ai_server/vllm_server/vllm_config.py:97-103 | the settings become those of the `Update` fold; the result or the error follows it |
| Text.Strip | ai_server/util/comment_prompt.py:44-45 | the result neither starts nor ends with a stripped character; text already trimmed is unchanged; the result is empty iff every character is stripped |
| Text.StripSlice | ai_server/util/comment_prompt.py:44-45 | the result is one slice of the input with only stripped characters cut off on either side |
| Text.StripSubsequence | ai_server/util/comment_prompt.py:44-45 | stripping only deletes |
| Text.Find | ai_server/model/comment_model.py:61 | the first occurrence of the pattern, or None iff it does not occur |
| Text.RemoveAll | ai_server/model/comment_model.py:64-67 | deleting a literal only deletes, and text without the literal is unchanged |
| Text.RemoveAllSplit | ai_server/model/comment_model.py:64-67 | when the pattern first occurs right after a prefix, deleting removes that occurrence, keeps the prefix and goes on in the rest |
| CommentPrompt.ControlToSpace | ai_server/util/comment_prompt.py:22 | no `\r`, `\n` or `\t` remains; the length is kept |
| CommentPrompt.Collapse | ai_server/util/comment_prompt.py:23 | every whitespace run becomes one space: no two whitespace characters are adjacent, and every whitespace character is a space |
| CommentPrompt.CollapseKeepsText | ai_server/util/comment_prompt.py:23 | the characters other than whitespace are kept, in order, and the text shrinks by one for each whitespace character that follows another |
| CommentPrompt.CollapseRun | ai_server/util/comment_prompt.py:23 | a whitespace run on its own becomes exactly one space |
| CommentPrompt.CollapseAppend | ai_server/util/comment_prompt.py:23 | two pieces that do not meet inside a whitespace run are collapsed piece by piece, so each run is replaced by one space where it stands and nothing else moves |
| CommentPrompt.CollapseKeepsNoPair | ai_server/util/comment_prompt.py:45 | collapsing keeps "no whitespace before `?.!`" and "no `.` before Hangul" |
| CommentPrompt.UrlMatch | ai_server/util/comment_prompt.py:31-33 | a match spans the scheme and at least one URL character |
| CommentPrompt.UrlMatchExact | ai_server/util/comment_prompt.py:31-33 | a match exists exactly when the scheme is followed by a URL character, and it is greedy: every character after the scheme is a URL character and the match ends at the end of the text or before a character that is not one |
| CommentPrompt.UrlMatchHasNoSpace | ai_server/util/comment_prompt.py:25-34 | a URL match holds no whitespace |
| CommentPrompt.DeleteSpaces | ai_server/util/comment_prompt.py:26-30 | `fix_url` leaves no whitespace, and text without whitespace is unchanged |
| CommentPrompt.WrapUrlsKeepsText | ai_server/util/comment_prompt.py:26-35 | the substitution only inserts: the input is a subsequence of the output |
| CommentPrompt.WrapUrlsIdentity | ai_server/util/comment_prompt.py:32-35 | text in which no match starts is unchanged |
| CommentPrompt.WrapUrlsKeepsContent | ai_server/util/comment_prompt.py:26-35 | each URL match is bracketed with its content unchanged |
| CommentPrompt.DropSpaceBeforePunct | ai_server/util/comment_prompt.py:38 | no whitespace is left right before `?`, `.` or `!` |
| CommentPrompt.DropSpaceBeforePunctKeepsText | ai_server/util/comment_prompt.py:38 | only whitespace is deleted: the output is a subsequence of the input with the same non-whitespace characters |
| CommentPrompt.DropSpaceBeforePunctAppend | ai_server/util/comment_prompt.py:38 | text is handled piece by piece when the first piece does not end in whitespace |
| CommentPrompt.DropKeepsRun | ai_server/util/comment_prompt.py:38 | a whitespace run followed by the end or by a character that is neither whitespace nor `?.!` is kept as it is |
| CommentPrompt.DropsRunBeforePunct | ai_server/util/comment_prompt.py:38 | a whitespace run followed by `?`, `.` or `!` is deleted whole |
| CommentPrompt.DropSpaceBeforePunctIdentity | ai_server/util/comment_prompt.py:38 | text with no whitespace before `?.!` is unchanged |
| CommentPrompt.SpaceAfterDot | ai_server/util/comment_prompt.py:41 | no `.` is left right before a Hangul syllable |
| CommentPrompt.SpaceAfterDotInsertsSpaces | ai_server/util/comment_prompt.py:41 | only whitespace is inserted: the input is a subsequence of the output with the same non-whitespace characters |
| CommentPrompt.SpaceAfterDotLength | ai_server/util/comment_prompt.py:41 | the output is longer by the number of `.` directly followed by a Hangul syllable: one space per pair |
| CommentPrompt.SpaceAfterDotIdentity | ai_server/util/comment_prompt.py:40-41 | a `.` followed by anything but Hangul, such as an English letter or a digit, is not affected: text without a `.`-Hangul pair is unchanged |
| CommentPrompt.SpaceAfterDotKeepsNoSpaceBeforePunct | ai_server/util/comment_prompt.py:38-41 | inserting spaces after dots creates no space before punctuation |
| CommentPrompt.Spaced | ai_server/util/comment_prompt.py:21-41 | after steps 1 to 4 no whitespace precedes `?.!` and no `.` directly precedes a Hangul syllable |
| CommentPrompt.Preprocess | ai_server/util/comment_prompt.py:16-47 | the output has no `\r\n\t`, no two adjacent whitespace characters, none of `\s.,?!·~…` at either end, no whitespace before `?.!` and no `.` directly before a Hangul syllable |
| CommentPrompt.PreprocessSpacesDotBeforeHangul | ai_server/util/comment_prompt.py:16-47 | two Hangul words joined by `.` come out with exactly one space inserted after the `.` and nothing else changed |
| CommentPrompt.PreprocessAfterUrls | ai_server/util/comment_prompt.py:16-47 | text without whitespace whose URL-step output has no `.`-Hangul pair and no trimmable ends comes out as the URL step made it |
| CommentPrompt.WrapBareUrl | ai_server/util/comment_prompt.py:26-35 | `http://` plus URL characters is bracketed whole |
| CommentPrompt.PreprocessWrapsUrl | ai_server/util/comment_prompt.py:16-47 | any bare `http://` URL, dots included, comes out bracketed |
| CommentPrompt.PreprocessRewrapsUrls | ai_server/util/comment_prompt.py:26-35 | preprocessing is not idempotent: a second pass brackets the URL again |
| CommentPrompt.PreprocessValue | ai_server/util/comment_prompt.py:17-19 | a non-string is returned unchanged; a string comes back without control characters |
| CommentPrompt.CreatePrompt | ai_server/util/comment_prompt.py:53-54 | an error with the source's message iff the emotion is not `normal` |
| CommentPrompt.PromptTextInjective | ai_server/util/comment_prompt.py:61-71 | the comment is placed verbatim: for one emotion and animal, equal prompts mean equal comments |
| CommentPrompt.PromptDoublesSuffix | ai_server/util/comment_prompt.py:61-62 | with `normal` the request reads 평범한한: the template appends 한 to an adjective that already ends in it |
| CommentPrompt.CreatePromptContents | ai_server/util/comment_prompt.py:11-71 | the prompt always says 평범한; the animal is 고양이 for `cat`, 강아지 for `dog`, else the raw post type; the comment goes in preprocessed |
| CommentPostprocess.AfterMarker | ai_server/model/comment_model.py:61-62 | the split keeps part of the text, and text without `Output:` is unchanged |
| CommentPostprocess.FirstLine | ai_server/model/comment_model.py:63 | a prefix with no line feed, ending at the first line feed |
| CommentPostprocess.Lower | ai_server/model/comment_model.py:65 | ASCII capitals move to lower case and every other character is kept |
| CommentPostprocess.LowerFoldsCase | ai_server/model/comment_model.py:65 | against a lower-case letter, folding matches that letter in either case and nothing else |
| CommentPostprocess.EndOfOpensAny | ai_server/model/comment_model.py:65-66 | every `<\|endof` opening is also a `<\|` opening |
| CommentPostprocess.FindClose | ai_server/model/comment_model.py:65-66 | the lazy match of a tag ends at the first closing bar-and-angle pair with no line feed before it, and fails when a line feed precedes every one |
| CommentPostprocess.RemoveTags | ai_server/model/comment_model.py:65-66 | deleting tags only deletes, and text without `<` is unchanged |
| CommentPostprocess.OpenWithoutCloseKept | ai_server/model/comment_model.py:65-66 | an opening with no close later on its line is not a tag: its first character is kept and the scan moves on by one |
| CommentPostprocess.WithoutCloseUnchanged | ai_server/model/comment_model.py:65-66 | text with no closing pair is returned unchanged, whatever openings it holds |
| CommentPostprocess.TagRemoved | ai_server/model/comment_model.py:65-66 | a tag whose body holds no line feed and no closing pair is deleted whole, and the scan resumes after it |
| CommentPostprocess.TagsOutliveOnePass | ai_server/model/comment_model.py:66 | one substitution pass can join text into a new tag that it leaves in place |
| CommentPostprocess.Clean | ai_server/model/comment_model.py:63-68 | everything kept after the split was in the input, in order; the result has no line feed and no surrounding whitespace |
| CommentPostprocess.Postprocess | ai_server/model/comment_model.py:53-70 | the result has no line feed and no surrounding whitespace. It is a subsequence of the input and no longer than it |
| CommentPostprocess.PrefixIgnored | ai_server/model/comment_model.py:61-62 | nothing before the first `Output:` reaches the result |
| CommentPostprocess.CleanLineUnchanged | ai_server/model/comment_model.py:53-70 | one line with no `<`, no marker and no surrounding whitespace is returned unchanged, however long and repetitive |
| CommentPostprocess.NoLengthCap | ai_server/model/comment_model.py:53 | for every n, a completion of n characters comes back whole: `max_len` is not applied |
| CommentPostprocess.PostprocessLeavesTag | ai_server/model/comment_model.py:66 | when deleting an inner tag joins a `<` to the text after it, `postprocess` returns the tag so formed, and a second `postprocess` returns the empty string: `postprocess` is not idempotent |

## Left out

- Time: `time.time()` is the integer parameter `now`. The float seconds of the source, and the two separate clock reads in `get_available_key` of ai_server/util/v1/key_manager.py, are one tick per call.
- Locks and concurrency: each `asyncio.Lock` only makes a call atomic, so every call is one sequential step.
- `print` and `logging` output of the pools, the cache and the comment service.
- LruCache.GenerateKey: the JSON + MD5 key of core/cache.py:16-24 is the triple of request fields. MD5 is taken to be collision-free.
- `initialize_key_pool` of ai_server/key_manager.py (lines 25-45) and the environment reading of ai_server/util/v1/key_manager.py:59-70. Parsing the environment is I/O, so the v1 initializer takes the parsed key list.
- LoraVllmConfig.Settings.UpdateVllmConfig: requires every value to have the type of the field it names, because pydantic does not validate assignment and the source would store any object.
- LoraVllmConfig.Update: the public attributes of the settings object that are not fields, such as the method `model_dump`, are the parameter `inherited`. Assigning one of them raises pydantic's ValueError, whose message is `NoFieldMessage`. Names starting with `_`, which pydantic stores without raising, and class variables and read-only properties such as `model_config` and `model_fields_set`, which raise AttributeError instead, are not modelled.
- VllmServerConfig.Settings.UpdateVllmConfig: the same typing requirement and the same `inherited` parameter, with the same names not modelled.
- LoraVllmConfig.Settings.constructor: the environment is a map from field to a value already of the field's type. How pydantic-settings finds `VLLM_`-prefixed variables in any letter case, parses their text, and raises ValidationError on text that does not parse is not modelled.
- VllmServerConfig.Settings.constructor: the same, and the `.env` file is merged into that map before the call. Its reading, and environment variables taking precedence over it, are not modelled.
- The module-global `vllm_config` is one `Settings` object per module. Aliasing of the returned settings object by its callers is not modelled: `GetVllmConfig` returns a value.
- VllmServerConfig.VllmServerArgs.constructor: the source class subclasses pydantic's `BaseModel` and declares no field. Its `__init__` (ai_server/vllm_server/vllm_config.py:59-60) assigns `self.config` without calling the base initializer, which pydantic rejects with ValueError, so the launcher's `VLLMServerArgs(config)` fails as written. The model is the evidently intended plain record holding the settings.
- LruCache.AsyncLRUCache.ClearExpired: deletes the expired keys in an arbitrary order, not in the dict order of the source. The final state does not depend on the order.
- LruCache.AsyncLRUCache.Put: on a `popitem` from an empty cache the KeyError is the result `raisedKeyError`; the exception itself is not modelled.
- The `PromptTemplate` object and `get_formatted_prompt` (ai_server/util/comment_prompt.py:73-81): langchain's `format` is foreign code. A `{` or `}` in the preprocessed comment would be read by it as a placeholder.
- `transform_comment` (ai_server/model/comment_model.py:18-51): the vLLM request is a network call.
- CommentPostprocess.Postprocess: the docstring promises repeat removal and a 180-character cut, but the code does neither. The model follows the code, and `NoLengthCap` and `CleanLineUnchanged` state the difference.
- CommentPostprocess.Lower: compares the letters of `endof` ASCII-case-insensitively. `re.IGNORECASE` also folds non-ASCII letters, but none of them folds to `e`, `n`, `d`, `o` or `f`.
- The regex animal-speech converters, `post_model.py`, `core/batch.py`, the launchers, clients, image search and model loading are not part of this model. They are regex-engine, concurrency, subprocess, network or GPU code.
- ai_server/external/vLLM/server/vllm_config.py is not part of this model: its `get_server_args` reads a setting its config class does not define.

# ConniesUploader core, modelled in Dafny

ConniesUploader is a desktop tool that uploads batches of local images to image hosts. Supported hosts include imx.to, pixhost.to, turboimagehost, vipr.im, and plugin services. This project models the decision logic at its core and proves properties about it:

- **Natural sort key** (`natural_sort_key`, modules/config.py).
  - The key splits a name into text runs and decimal runs. Text runs are lower-cased; decimal runs are compared by value.
  - `NaturalKey` models `re.split(r'(\d+)', s)` and proves the split unique.
  - `KeyOrder` models Python's list comparison of keys.
  - `StableSort` models the stable `sorted(..., key=...)`.
- **Input scan** (`scan_inputs`, modules/file_handler.py), in `FileScan`.
  - Directories are walked into one job each; loose supported files are collected into a "Miscellaneous" job.
  - The walk is an input, as a list of `(root, names)` steps.
  - `FileScan.ScanInputs` is the loop as written, with one difference: it sorts with the corrected key `NaturalKey.Key` (see Findings). It is proved equal to the functional `Scan`, and the properties are proved about `Scan`.
- **Upload manager** (modules/async_upload_manager.py):
  - `Batch`: the concurrency ceiling, the per-group loop with cancellation, and the "first file" flag;
  - `Gallery`: gallery creation per group;
  - `Uploaders`: the choice of uploader and its thumbnail/cover settings;
  - `Retry`: the retry and backoff loop;
  - `UploadTask`: the status and result events one file's task emits;
  - `PluginAdapter`: the adapter around plugin uploaders.
- **Widget state** (modules/widgets.py), in `Widgets`: the mouse-wheel combobox's stepping through its values, and the collapsible group frame's flags, file list and counter label.

Python values in the configuration dictionaries are modelled by `Settings.Value`, with Python truthiness. Exceptions become `Result` errors. Whatever the program learns from the outside world is a parameter:

- the file system walk;
- HTTP replies;
- the cancellation flag, as read at each check;
- the outcome of each upload attempt;
- the plugin registry.

## Model

| member | source | states |
|---|---|---|
| Text.Strip | modules/async_upload_manager.py:103 | `strip()` returns the slice of the title left after dropping whitespace at both ends: what it drops is whitespace, it neither starts nor ends with whitespace, and it keeps every non-space character of the title |
| Text.RemoveAll | modules/async_upload_manager.py:103 | `replace(c, '')` leaves no `c` and keeps the count of every other character |
| Text.RemoveAllAppend | modules/async_upload_manager.py:103 | removing `c` distributes over concatenation and keeps any other single character, so the remaining characters keep their order |
| NaturalKey.Split | modules/config.py:50 | `re.split(r'(\d+)', s)` returns an odd number of segments: text, digits, text, ..., text (the full characterization is `NaturalKey.SplitRoundTrip` with `NaturalKey.SplitUnique`) |
| NaturalKey.SplitRoundTrip | modules/config.py:50 | the segments of `re.split(r'(\d+)', s)` alternate text runs without digits and non-empty digit runs, and joining them gives back `s` exactly |
| NaturalKey.SplitUnique | modules/config.py:50 | every well-formed alternation of text and digit runs is the split of its own concatenation, so the split is the only such cut |
| NaturalKey.SplitLength | modules/config.py:50 | a string with k maximal digit runs splits into 2k+1 segments |
| NaturalKey.KeyShape | modules/config.py:49-50 | the key has 2k+1 elements: lower-cased digit-free text at even positions, numbers at odd positions |
| NaturalKey.Key | modules/config.py:49-50 | the corrected key has odd length, with text at even positions and numbers at odd positions |
| NaturalKey.KeyIgnoresCase | modules/config.py:50 | a name and its lower-cased form have the same key |
| NaturalKey.KeyWithoutDigits | modules/config.py:50 | a name without digits has the key `[lower(name)]` |
| NaturalKey.LeadingZerosIgnored | modules/config.py:50 | putting a "0" in front of any digit run leaves the key unchanged |
| NaturalKey.LeadingZerosExample | modules/config.py:50 | "a01" and "a1" have equal keys |
| NaturalKey.ConvertFrom | modules/config.py:50 | the comprehension converts each segment to a number exactly when `str.isdigit` accepts it; it raises with a segment that `isdigit` accepts but that is not all decimal digits, and succeeds when there is none |
| NaturalKey.KeyAsWritten | modules/config.py:49-50 | `natural_sort_key` as written raises exactly when some segment of the split passes `isdigit` without being all decimal digits, and the error names such a segment; otherwise the key has one element per segment, a number exactly where `isdigit` holds |
| NaturalKey.ConvertFromAgrees | modules/config.py:50 | on a well-formed split, the comprehension as written raises exactly when some text run passes `str.isdigit` (for the digit-like characters the model lists), and otherwise yields the positional key |
| NaturalKey.KeyAsWrittenVersusKey | modules/config.py:49-50 | `natural_sort_key` as written fails exactly on names whose split has a text run made only of digit-like characters (as far as the model lists them); otherwise it equals the positional key |
| NaturalKey.KeyAsWrittenRaisesOn | modules/config.py:50 | a digit-like non-decimal character between two digit runs makes the key as written raise, while the positional key is well defined |
| NaturalKey.KeyAsWrittenRaises | modules/config.py:50 | the name "1²1.png" makes `natural_sort_key` raise |
| KeyOrder.KeyLt | modules/file_handler.py:21 | list comparison of keys: a proper prefix sorts first, a key never sorts before one of its prefixes, and never before itself |
| KeyOrder.KeyLtIrreflexive | modules/file_handler.py:21 | no key sorts before itself |
| KeyOrder.KeyLtTransitive | modules/file_handler.py:21 | the key order is transitive |
| KeyOrder.KeyLtTotal | modules/file_handler.py:21 | any two different keys are ordered one way or the other |
| KeyOrder.KeyLtAsymmetric | modules/file_handler.py:21 | the key order never holds both ways |
| KeyOrder.ComparisonNeverMixesTypes | modules/config.py:50 | at every position two keys share, both elements are text or both are numbers, so comparing keys never pits an int against a str |
| KeyOrder.NumericRunsCompareByValue | modules/config.py:50 | after the same digit-free prefix, the digit run with the smaller value sorts first, whatever the lengths |
| KeyOrder.Img2BeforeImg10 | modules/config.py:50 | "img2" sorts before "img10" |
| StableSort.SortBy | modules/file_handler.py:21 | `sorted(..., key=...)` returns a permutation of its input (the order is `StableSort.SortByCorrect`) |
| StableSort.SortByCorrect | modules/file_handler.py:21 | the sorted list is ordered by natural key, is a permutation of the input, and lists the elements of each key in input order |
| StableSort.SortedUnique | modules/file_handler.py:21 | two key-ordered lists that agree on the order of each key's elements are equal |
| StableSort.SortByCharacterized | modules/file_handler.py:21 | a list is the stable natural sort of the input exactly when it is key-ordered and keeps each key's elements in input order |
| StableSort.StableOnEqualKeys | modules/file_handler.py:26 | "B.png" given before "b.png" stays before it, although their keys are equal |
| FileScan.Join | modules/file_handler.py:19 | `os.path.join(root, n)` is `n` when `n` is absolute; otherwise it is `root`, then a '/' unless `root` is empty or already ends with one, then `n` |
| FileScan.StripTrailingSeps | modules/file_handler.py:14 | `rstrip(os.sep)` removes exactly the trailing run of separators |
| FileScan.Basename | modules/file_handler.py:14 | the base name is a separator-free suffix of the path, preceded by a separator unless it is the whole path |
| FileScan.FolderNameIsLastComponent | modules/file_handler.py:14 | a directory job is named after the last component of its path, trailing separators ignored ("/photos/set1/" gives "set1") |
| FileScan.CollectMatches | modules/file_handler.py:16-19 | the nested walk loop collects exactly the supported files, joined to their roots, in walk order |
| FileScan.ScanInputs | modules/file_handler.py:7-28 | the single pass over the inputs returns exactly the jobs of `FileScan.Scan` |
| FileScan.Scan | modules/file_handler.py:7-28 | at most one job per input plus "Miscellaneous", no job empty, and every file in every job ends, case-insensitively, in one of the six supported extensions |
| FileScan.SupportedSuffix | modules/file_handler.py:18 | a joined path whose name is supported is itself supported, since the check is a case-insensitive suffix test against `SUPPORTED_EXTENSIONS` |
| FileScan.MatchedProvenance | modules/file_handler.py:16-19 | every walked file reported is the join of some step's root with a supported name from that step |
| FileScan.DirJobsNonEmpty | modules/file_handler.py:20-21 | a directory without supported files yields no job, so no job is empty |
| FileScan.ScanShape | modules/file_handler.py:20-26 | the directory jobs come first; "Miscellaneous" is last, and present exactly when some loose supported file was given, holding those files naturally sorted |
| FileScan.ScanJobsSorted | modules/file_handler.py:21-26 | every directory job's files and the "Miscellaneous" job built from the loose files are naturally ordered, a permutation of what was found, and stable on equal keys |
| FileScan.LooseProvenance | modules/file_handler.py:13-23 | a path is in "Miscellaneous" exactly when it was given as a non-directory input and is supported; directories never feed it |
| FileScan.DirJobsInInputOrder | modules/file_handler.py:12-21 | directory jobs follow input order; each comes from a directory with supported files and holds them sorted under its folder name, and every such directory yields one |
| Retry.Backoff | modules/async_upload_manager.py:312 | the delay after a failed attempt is positive and at most 30 seconds |
| Retry.BackoffSchedule | modules/async_upload_manager.py:279-312 | the delays run 2, 4, 8, 16 and then stay at 30 |
| Retry.RetryFrom | modules/async_upload_manager.py:282-319 | every attempt before the last failed retryably; each sleep is the backoff of its attempt; the last attempt decides the outcome (return, re-raise, or delay overflow) |
| Retry.RetryLoop | modules/async_upload_manager.py:278-319 | with `max_attempts` below one the loop returns nothing; otherwise it makes between 1 and `max_attempts` attempts and sleeps once fewer |
| Retry.ReturnsFirstSuccess | modules/async_upload_manager.py:282-308 | the first attempt that parses is returned, after attempts that all failed retryably |
| Retry.ReturnedIff | modules/async_upload_manager.py:282-319 | a pair is returned exactly when some attempt within the limit parsed it and every earlier attempt failed retryably |
| Retry.NonRetryableStopsAtOnce | modules/async_upload_manager.py:310-319 | a non-retryable error is re-raised at once, with no further attempt |
| Retry.LastAttemptReraises | modules/async_upload_manager.py:311-319 | an error on the last permitted attempt is re-raised, even a retryable one |
| Retry.NoOverflowWithinLimit | modules/async_upload_manager.py:312 | with at most 1025 permitted attempts the delay computation never overflows |
| Retry.DelaysNonDecreasing | modules/async_upload_manager.py:311-314 | the sleeps never decrease, and each lies in (0, 30] |
| Retry.TransientTwiceThenSuccess | modules/async_upload_manager.py:282-314 | two transient failures and then a success give three attempts and sleeps of 2 and 4 seconds |
| PluginAdapter.NewAdapter | modules/async_upload_manager.py:330-342 | a new adapter holds no result |
| PluginAdapter.GetRequestParams | modules/async_upload_manager.py:344-367 | the plugin's upload runs here: its result is stored and a dummy request returned, or its exception is re-raised |
| PluginAdapter.ParseResponse | modules/async_upload_manager.py:381-397 | parsing yields the stored image and thumbnail URLs, or fails when nothing was stored |
| PluginAdapter.StoredResultRoundTrip | modules/async_upload_manager.py:344-397 | after an upload that returned a result, parsing any response gives back that result's URLs |
| PluginAdapter.ParseIgnoresResponse | modules/async_upload_manager.py:389-397 | the response passed to `parse_response` never matters |
| PluginAdapter.FreshAdapterFails | modules/async_upload_manager.py:342-397 | parsing on an adapter that never uploaded fails with "no result available" |
| Uploaders.CreateUploader | modules/async_upload_manager.py:203-246 | a registered plugin wins over the built-in services, and only a plugin service yields a plugin uploader; otherwise imx.to, pixhost.to, turboimagehost and vipr.im each get their own uploader's creation, and an unknown service yields `None`; any uploader made is for the given file |
| Uploaders.PluginCredentials | modules/async_upload_manager.py:251 | the service's entry of `plugin_credentials`, or `{}` when either is absent; a `plugin_credentials` that is not a dictionary fails |
| Uploaders.CreatePlugin | modules/async_upload_manager.py:248-264 | the plugin uploader wraps the instance the registry builds from the service's credentials and the whole configuration; it fails when the credentials cannot be read or no instance is built |
| Uploaders.CreateImx | modules/async_upload_manager.py:211-217 | imx.to needs `api_key`, `imx_cover` for a first file and `imx_thumb` unless the cover is used; the thumbnail is 600 exactly for a first file with a truthy cover flag; format and gallery id default |
| Uploaders.CreatePixhost | modules/async_upload_manager.py:219-226 | pixhost.to needs `pix_content`, `pix_thumb` and, for a first file, `pix_cover`, which is passed on as the cover flag; the gallery hashes come from the group's pixhost data |
| Uploaders.CreateTurbo | modules/async_upload_manager.py:228-235 | turboimagehost needs `turbo_content`, `turbo_gal_id` and `turbo_thumb` unless the cover is used; an absent cover flag counts as unset |
| Uploaders.CreateVipr | modules/async_upload_manager.py:237-244 | vipr.im needs `vipr_gal_id`, `vipr_thumb` unless the cover is used, and a dictionary or nothing under `vipr_meta`, whose `upload_url` defaults to the home URL |
| Uploaders.UnknownServiceYieldsNothing | modules/async_upload_manager.py:206-246 | a service that is neither a plugin nor built in yields `None` |
| Uploaders.CreateErrorsAreGenuine | modules/async_upload_manager.py:203-264 | creation fails only on a setting a built-in service indexes that is really missing, a `vipr_meta` or `plugin_credentials` that is not a dictionary, or a plugin whose registry builds no instance from the credentials it was given |
| Uploaders.NonDictCredentialsFail | modules/async_upload_manager.py:248-258 | a registered plugin service fails with the `.get` error whenever `plugin_credentials` is set to something other than a dictionary |
| Uploaders.CoverIgnoredForLaterFiles | modules/async_upload_manager.py:206-258 | for a file that is not the group's first, a built-in service never reads the cover settings, so changing them changes nothing; a plugin is given the whole configuration, so its outcome is unchanged exactly when its instance is |
| Uploaders.CoverChoice | modules/async_upload_manager.py:212-238 | each built-in service gets the uploader of its own kind, and only that service does; the first file gets the cover size (600, or 800x800 for vipr) exactly when the service's cover flag is truthy, and later files get the configured thumbnail size; pixhost passes the flag on |
| Uploaders.MoreSettingsNeverHurt | modules/async_upload_manager.py:206-258 | for a built-in service, adding settings other than `vipr_meta` never turns a successful creation into a failure or changes whether an uploader results; for a plugin, unless `plugin_credentials` is added the credentials stay the same and success depends only on the plugin building an instance from the larger configuration |
| Uploaders.CompleteSettingsYieldUploader | modules/async_upload_manager.py:211-244 | every built-in service yields an uploader when every setting it indexes is present and any `vipr_meta` is a dictionary |
| Gallery.CleanTitle | modules/async_upload_manager.py:103 | the cleaned title has no brackets and no surrounding whitespace, is no longer than the title, and keeps every character of the title that is neither a bracket nor whitespace |
| Gallery.CleanTitleIdempotent | modules/async_upload_manager.py:103 | cleaning a cleaned title changes nothing |
| Gallery.CleanTitleKeepsCleanTitles | modules/async_upload_manager.py:103 | a title without brackets or surrounding whitespace is kept as is |
| Gallery.CreateGallery | modules/async_upload_manager.py:97-132 | gallery handling fails exactly when the base settings have no service; a gallery is requested only with a truthy `auto_gallery`; the group is changed only for pixhost with `auto_gallery` or a gallery hash, or for imx with `auto_gallery` |
| Gallery.NothingWithoutAutoGallery | modules/async_upload_manager.py:101-132 | without a truthy `auto_gallery` no gallery is requested, and imx.to, or pixhost.to without a gallery hash, leave the group exactly as it was |
| Gallery.AutoGalleryTakesPrecedence | modules/async_upload_manager.py:101-117 | for pixhost with `auto_gallery`, a gallery named by the cleaned title is requested, and `pix_gallery_hash` is never consulted |
| Gallery.PixhostGalleryRegistered | modules/async_upload_manager.py:102-116 | a truthy pixhost reply is registered once, becomes the group's pixhost data, and its hash becomes the gallery id; a falsy reply leaves everything as it was |
| Gallery.PixhostHashReused | modules/async_upload_manager.py:118-120 | without `auto_gallery`, a configured pixhost hash becomes the group's gallery and no gallery is requested |
| Gallery.ImxUsesRawTitle | modules/async_upload_manager.py:122-132 | imx galleries are requested with the raw title, and only a truthy id changes the group's settings |
| Gallery.OnlyGalleryIdChanges | modules/async_upload_manager.py:82-132 | a group's settings differ from the base settings at most by an imx gallery id, and only with `auto_gallery` set; services other than pixhost and imx are left entirely alone |
| Batch.ServicePrefix | modules/async_upload_manager.py:67 | `split('.')[0]` is the longest prefix without a '.' |
| Batch.ServicePrefixWhole | modules/async_upload_manager.py:67 | a service name without a '.' is its own prefix |
| Batch.ThreadsKey | modules/async_upload_manager.py:67-71 | the setting is `turbo_threads` when the service up to its first '.' is "turboimagehost", and otherwise that prefix followed by `_threads` |
| Batch.ThreadsKeyImx | modules/async_upload_manager.py:67-71 | imx.to reads `imx_threads` |
| Batch.ThreadsKeyPixhost | modules/async_upload_manager.py:67-71 | pixhost.to reads `pixhost_threads` |
| Batch.ThreadsKeyVipr | modules/async_upload_manager.py:67-71 | vipr.im reads `vipr_threads` |
| Batch.ThreadsKeyTurbo | modules/async_upload_manager.py:68-69 | turboimagehost reads `turbo_threads` |
| Batch.ThreadsKeyOf | modules/async_upload_manager.py:67-71 | any other dotted service reads `<prefix>_threads` |
| Batch.ThreadsKeyIgnoresDomain | modules/async_upload_manager.py:67-71 | only the part before the first '.' selects the setting |
| Batch.ConcurrencyCeiling | modules/async_upload_manager.py:66-71 | the ceiling is the service's threads setting, or 2; it fails exactly when the service is missing or not a string |
| Batch.CeilingDefaultsToTwo | modules/async_upload_manager.py:69-71 | without a threads setting the ceiling is 2 |
| Batch.FirstFlags | modules/async_upload_manager.py:150-153 | each pending file is flagged first exactly when it equals the group's first listed file; it fails exactly when files are pending but the group lists none |
| Batch.DuplicateFirstFiles | modules/async_upload_manager.py:151 | a file pending twice is flagged first twice |
| Batch.ProcessedGroups | modules/async_upload_manager.py:77-79 | the groups processed are those before the first flag reading that is set |
| Batch.StopOfCharacterized | modules/async_upload_manager.py:140-153 | after its gallery step a group stops the batch with the semaphore's error exactly when the ceiling is negative or not a number, with the `files[0]` IndexError exactly when the semaphore is made and files are pending but none are listed, and hangs exactly when the semaphore has no permits (0 or False) and a listed file is pending; otherwise its files go ahead |
| Batch.PlanGroups | modules/async_upload_manager.py:77-93 | groups are prepared in order, each from the base settings, none at or after the first cancelled one; the loop stops at the first uncancelled group that stops it as above (the very first one when the ceiling makes the semaphore raise), and that group's gallery step is kept with the reason |
| Batch.RunBatch | modules/async_upload_manager.py:60-93 | the batch fails before any group exactly when the service is missing or not a string; otherwise it reads the ceiling and prepares uncancelled groups until one stops it: each plan is the group's `PlanGroups` plan, and the stop is the stopping group's own reason with its gallery step; a ceiling the semaphore rejects prepares no group and stops at the first uncancelled one |
| Batch.TextCeilingStopsBatch | modules/async_upload_manager.py:140 | a `vipr_threads` of "4" makes the batch stop at its first uncancelled group, after that group's gallery step |
| Batch.ZeroCeilingHangs | modules/async_upload_manager.py:140-153 | with a ceiling of 0, a batch whose groups all list their pending files prepares none and hangs at the first uncancelled one |
| Batch.GroupsStartFromBase | modules/async_upload_manager.py:82-88 | each group starts from a fresh copy of the base settings: nothing carries over between groups |
| UploadTask.AfterStart | modules/async_upload_manager.py:167-201 | after the first 'Uploading', every event is about the file and exactly one terminal status comes, last; it is 'Done', right after the result, exactly when an uploader was built and prepared and some attempt returned |
| UploadTask.TaskTrace | modules/async_upload_manager.py:142-201 | a task emits nothing exactly when it finds the cancellation flag set; otherwise it opens with 'Uploading' and ends with its one terminal status; every event concerns its own file |
| UploadTask.CancelledTaskIsSilent | modules/async_upload_manager.py:144-165 | a task that finds the flag set at the semaphore or at its start emits nothing |
| UploadTask.StartedTaskEndsOnce | modules/async_upload_manager.py:167-193 | a started task opens with 'Uploading' and emits exactly one terminal status, last; 'Done' follows the result, and a failed task enqueues no result |
| UploadTask.DoneIffReturned | modules/async_upload_manager.py:178-193 | a task ends 'Done' exactly when an uploader was created, prepared and the retry loop returned a pair, which is then the enqueued result |
| UploadTask.UploadingPerAttempt | modules/async_upload_manager.py:282-284 | after the first 'Uploading' there is one more per retry attempt |
| UploadTask.UnsupportedServiceFails | modules/async_upload_manager.py:182-183 | an unsupported service gives 'Uploading' then 'Failed' |
| UploadTask.NoAttemptsFails | modules/async_upload_manager.py:278-282 | with `max_attempts` below one the task fails without any attempt |
| Widgets.EffectiveDelta | modules/widgets.py:106 | a non-zero Linux delta wins; otherwise the event's delta is used |
| Widgets.IndexOf | modules/widgets.py:110 | `values.index(v)` finds the first position holding `v`, and fails exactly when `v` is absent |
| Widgets.OnMouseWheel | modules/widgets.py:99-122 | a disabled or empty combobox is left alone; the values never change; the selection stays or becomes one of the values; the command fires only with the new selection |
| Widgets.NextIndex | modules/widgets.py:115-116 | the new index stays within the list: one back for a positive delta, one on otherwise, clamped at both ends |
| Widgets.WheelSteps | modules/widgets.py:99-122 | scrolling up selects the previous value and down the next; the command fires exactly when the index moved; scrolling past either end does nothing |
| Widgets.UnknownTextCountsAsFirst | modules/widgets.py:108-112 | text not among the values counts as the first value |
| Widgets.DownThenUpRestores | modules/widgets.py:96-122 | with distinct values, Button-5 then Button-4 restores the selection, firing the command once per step |
| Widgets.NewGroup | modules/widgets.py:19-35 | a new group is expanded, shows its content with a "-" button, is not completed, and counts 0 files |
| Widgets.Toggle | modules/widgets.py:47-54 | toggling flips the collapsed flag, keeps content and button consistent with it, and changes neither files nor counter |
| Widgets.AddFile | modules/widgets.py:56-62 | adding a file appends it, the counter then shows the group's file count, and nothing else changes, so a consistent group stays consistent |
| Widgets.MarkComplete | modules/widgets.py:64-68 | completing sets the flag and the "(Completed)" label and changes nothing else |
| Widgets.ToggleTwice | modules/widgets.py:47-54 | toggling twice restores a consistent group |
| Widgets.AddFilesCounts | modules/widgets.py:56-62 | adding files one by one appends them in order, and the counter counts all of them |
| Widgets.MarkCompleteIdempotent | modules/widgets.py:56-68 | completing twice equals completing once; a file added afterwards replaces "(Completed)" with the count again |

## Left out

- Networking, files and the event loop are not modelled: httpx, asyncio, `asyncio.to_thread`, threads, the semaphore's waiting, PIL thumbnails, loguru logging and `resource_path`. Each place the program learns something from outside is a parameter instead: the walk, the replies, the flag readings, the attempt outcomes and the plugin registry.
- Progress fractions (`('prog', fp, x)` events) are not modelled, because they are floating point and come from the transport's callback.
- Python's `\d` matches any Unicode decimal digit, and `str.lower` folds every cased letter. The model restricts both to ASCII.
- Inputs are either directories or not. `scan_inputs` treats a plain file and a missing path alike, so the model does too.
- Retry.RetryLoop: needs an outcome for every attempt the loop may make (`|outcomes| >= max_attempts`), because the outcomes stand in for the network.
- Uploaders.MoreSettingsNeverHurt: preserves only success and whether an uploader results, not the uploader's fields, because an added cover flag may change the first file's thumbnail. For a plugin it promises no success at all, because the plugin receives the whole configuration and may refuse the larger one.
- Plugins themselves are not modelled: `get_plugin_instance` is a parameter of the registry, and exceptions it or the adapter's constructor might raise are left out.
- FileScan.Join: follows POSIX `posixpath.join`, with '/' the only separator; the Windows `ntpath` rules (drive letters, backslash separators) are not modelled.
- FileScan.StripTrailingSeps: strips '/' only, as `os.sep` is on POSIX; on Windows `os.sep` is a backslash, which is not modelled.
- FileScan.Basename: splits at '/' only, as `posixpath.basename` does; the Windows rules are not modelled.
- FileScan.ScanInputs: sorts with the corrected key `NaturalKey.Key`, so the `ValueError` that the key as written raises on names like "1²1.png" (see Findings) does not propagate out of the scan.
- FileScan.Scan: sorts with the corrected key `NaturalKey.Key`, for the same reason.
- NaturalKey.ConvertFromAgrees: `str.isdigit` is modelled by `IsDigitLike`, which lists the common Numeric_Type=Digit characters (superscripts, subscripts, circled and parenthesised digits, and a few scripts' digits); characters that later Unicode versions add are missing.
- NaturalKey.KeyAsWrittenVersusKey: uses the same list of digit-like characters, with the same gap.
- The semaphore's waiting is not modelled, only how it takes the ceiling: one that is negative or not a number makes `asyncio.Semaphore` raise, which `Batch.PlanGroups` reports as a `BadCeiling` stop, and one with no permits makes the first pending task wait for ever, which it reports as a `Hangs` stop, since nothing after that point ever runs. A positive ceiling only bounds how many uploads overlap, which does not change the events any one task emits.
- Exceptions raised by the gallery API calls are not modelled; their return values are parameters.
- When `_create_uploader` raises, the `finally` clause reads an unbound `uploader` and raises `UnboundLocalError`. 'Failed' has already been enqueued by then, and `gather(..., return_exceptions=True)` swallows the error, so the events are unchanged. The model does not represent the second exception.
- `uploader.close()` and the plugin's `cleanup` are not modelled, because they emit no event.
- The plugin's progress wrapper is not modelled, because it only forwards progress.
- Widget drawing is not modelled: packing, colours, fonts, the progress bar, `ScrollableFrame` and `LogWindow`.
- gallery_manager.py, build.py, setup.py and tests/conftest.py are not part of this model.

## Findings

| source | as written | input that shows it | evidently intended | confidence | as-written member | corrected member |
|---|---|---|---|---|---|---|
| modules/config.py:50 | a segment is converted with `int` when `str.isdigit` accepts it, but `re.split(r'(\d+)')` only separates decimal digits; `isdigit` also accepts superscripts, which `int` rejects | the file name "1²1.png": the text run "²" passes `isdigit`, and `int('²')` raises ValueError, so sorting the folder fails | classify each segment by its position in the split, as `NaturalKey.Key` does: digit runs become numbers, text runs are lower-cased, and the key is always defined; it agrees with the code wherever the code does not raise (`NaturalKey.KeyAsWrittenVersusKey`) | high, not executed | NaturalKey.KeyAsWrittenRaises | NaturalKey.KeyShape |

# video-organizer, modelled in Dafny

The project is a model of the video-organizer command-line tool. The tool scrapes a
video's metadata from a catalogue site by its code. It then gives the video a folder
holding an NFO document and cover art, and it keeps a step-by-step progress log. Its
helper scripts walk directory trees: one finds video files, one finds folders holding
several videos, one strips blank lines from NFO files, and one moves files without
overwriting.

Every source file of that core has one Dafny module here:

| file | module | what it holds |
|---|---|---|
| `Logger.dfy` | `StepLogger` | the step tracker, a class over the nested `taskId → step → record` map with a ghost log of emitted `stepUpdate` events |
| `Organizer.dfy` | `Organizer` | `processVideo` (scrape → mkdir → NFO → covers) and the batch loop |
| `Scanner.dfy` | `Scanner` | the depth-first video-file walk over a finite tree |
| `FileUtils.dfy` | `FileUtils` | the collision-free target-name loop and the move (rename, or copy then trash/unlink) on an in-memory disk |
| `Javdb.dfy` | `Javdb` | the cookie-file parser with its de-duplication, the search-result matcher, `getVideoInfo`'s guard and requests, and the retry loop |
| `Config.dfy` | `ConfigService` | `deepMerge` with JavaScript spread and `for…in` semantics over a JSON datatype, and the dotted-key `get` |
| `Nfo.dfy` | `Nfo` | the NFO document as a pure function of the metadata |
| `NfoTools.dfy` | `NfoTools` | the blank-line cleaner and the recursive walk that applies it |
| `Tools2.dfy` | `Tools2` | the depth-limited multi-video folder finder |
| `Images.dfy` | `Images` | the right-half crop, the `http` guard, the cover file names and the write order |
| `Index.dfy` | `Index` | the console line printed per `stepUpdate`, and the batch's success and failure counts |

`Wrappers`, `Strings`, `Paths` and `FileTree` are shared helpers:
- `Wrappers` holds `Option` and `Result`.
- `Strings` holds JavaScript's `split`, `join`, `trim`, `toLowerCase`, `startsWith` and number printing, with the round trips between them.
- `Paths` holds Node's POSIX `path.join` with the normalisation it applies (empty and `.` segments dropped, `..` resolved), `basename`, `extname` and `parse`.
- `FileTree` holds a finite directory tree in which a directory can be unreadable and an entry can fail `stat`.

The outside world is passed in as explicit inputs:
- filesystem contents are a tree or a map;
- a scrape, a download or a write is an `Ok`/`Err` outcome;
- the clock is an integer reading;
- whether the source and target are on the same device is a boolean.

## Model

| member | source | states |
|---|---|---|
| StepLogger.NewRecord | src/services/logger.js:31-39 | a started step's record is `processing`, at level `info`, with no end time, duration or error, and carries the step, message and start time given |
| StepLogger.CompleteRecord | src/services/logger.js:58-62 | completing sets `completed`, the end time and `duration = now − startTime`; an empty or absent message keeps the old one; step, start time, level and error are kept |
| StepLogger.FailRecord | src/services/logger.js:78-82 | failing sets `failed`, the end time, the error and level `error`, and leaves message and duration untouched |
| StepLogger.AfterStart | src/services/logger.js:41-45 | starting (re)places the pair's record, creating the task's map when absent, and changes no other pair |
| StepLogger.AfterComplete | src/services/logger.js:56-66 | completing an unknown task or step changes nothing; on a known pair it stores the completed record and changes no other pair |
| StepLogger.AfterFail | src/services/logger.js:76-85 | failing an unknown pair changes nothing; on a known pair it stores the failed record and changes no other pair |
| StepLogger.Logger.constructor | src/services/logger.js:4-12 | a new tracker has no steps and has emitted nothing |
| StepLogger.Logger.StartStep | src/services/logger.js:31-47 | the steps become those after a start, and exactly one event with the task id and the new record is emitted |
| StepLogger.Logger.CompleteStep | src/services/logger.js:55-67 | the steps become those after a complete; one event with the updated record is emitted when the pair exists, none otherwise |
| StepLogger.Logger.FailStep | src/services/logger.js:75-85 | the steps become those after a fail; one event is emitted when the pair exists, none otherwise |
| StepLogger.Logger.GetTaskSteps | src/services/logger.js:92-94 | the task's records, or an empty map for an unknown task, without storing it |
| StepLogger.RecordIffStarted | src/services/logger.js:41-45 | after any run of calls, a pair has a record exactly when some call started it, so complete and fail never create records |
| StepLogger.LastCallDecidesStatus | src/services/logger.js:57-62 | on an existing record the last call decides the status whatever it was, so a failed step can later be completed |
| StepLogger.OtherPairsUntouched | src/services/logger.js:45 | a call on one pair never changes another pair's record |
| Organizer.VideoOutcome | src/core/organizer.js:21-51 | success exactly when scrape, mkdir, NFO write and the covers all succeed; a success carries the scraped code and `targetDir/code`; a failure carries the input code, with the message of the first stage that failed |
| Organizer.AfterVideo | src/core/organizer.js:24-35 | one video's effect on the disk: nothing is removed; a failed scrape or mkdir writes nothing; after mkdir the folder exists; a failed NFO write stops before the NFO and the covers; a fully organized video has its folder, its NFO `<dir>/<code>.nfo` with the generated text, its fanart and its poster |
| Organizer.Organizer.constructor | src/core/organizer.js:13-15 | the organizer keeps the target directory it is given |
| Organizer.Organizer.ProcessVideo | src/core/organizer.js:21-51 | returns the outcome above, and the folders, NFO files and cover files become exactly those after that one video |
| Organizer.Organizer.ProcessVideos | src/core/organizer.js:57-74 | one result per code, in input order, each the outcome of that code alone; the files become those after each video in turn |
| Organizer.BatchCodes | src/core/organizer.js:38-49 | in a batch, a failed result carries its input code and a successful one carries the scraped code |
| Organizer.BatchGrows | src/core/organizer.js:57-74 | a batch removes no folder, NFO file or cover file |
| Organizer.BatchKeepsOrganized | src/core/organizer.js:57-74 | every code organized in a batch still has its folder, NFO, fanart and poster at the end, whatever later codes do |
| Organizer.FailedCodeLeavesNoTrace | src/core/organizer.js:22-28 | a code whose scrape or mkdir fails leaves the batch's final files as if it were not in the batch |
| Scanner.ScanDirectory | src/core/scanner.js:38-69 | appends the directory's finds, in pre-order, to what was already collected |
| Scanner.SearchPath | src/core/scanner.js:35 | the given path when it is non-empty, otherwise the source directory |
| Scanner.GetVideoFiles | src/core/scanner.js:33-73 | the files found from the search path, or none when it cannot be read |
| Scanner.ScanSound | src/core/scanner.js:42-64 | every returned file is a video reachable without entering a hidden or excluded directory |
| Scanner.ScanComplete | src/core/scanner.js:38-69 | on a tree with no read or `stat` failure, every such reachable video is returned |
| Scanner.ScanResultShape | src/core/scanner.js:44-62 | every returned file has a non-hidden video name whose path ends in that name |
| Scanner.StatFailureEndsDirectory | src/core/scanner.js:47 | an entry whose `stat` throws ends its directory's loop, keeping what came before it |
| Scanner.ScanEntriesAppend | src/core/scanner.js:42-65 | finds are in directory-entry order, a subdirectory's files where it was met |
| FileUtils.ResolveOptions | src/utils/fileUtils.js:17 | `useSafeDelete` defaults to true and `overwrite` to false |
| FileUtils.ChooseTarget | src/utils/fileUtils.js:35-47 | with overwrite the target is `targetDir/fileName`; otherwise it is the first free name in the series `fileName`, `stem (1)ext`, `stem (2)ext`, …, within at most as many probes as there are existing paths |
| FileUtils.ProbeInjective | src/utils/fileUtils.js:44 | different counters give different candidate paths |
| FileUtils.ProbedFresh | src/utils/fileUtils.js:43-46 | the first n probes are n distinct paths, none equal to a later probe |
| FileUtils.ChosenUnique | src/utils/fileUtils.js:36-46 | the probing loop's choice is unique |
| FileUtils.FreeNameKept | src/utils/fileUtils.js:36 | a free `targetDir/fileName` is used unchanged |
| Paths.JoinPlain | src/utils/fileUtils.js:36 | `path.join(dir, name)` for a plain entry name is the normalized directory, a `/`, then the name |
| Paths.JoinDot | src/utils/nfoTools.js:61 | `path.join('.', name)` is the name itself |
| Paths.JoinShort | src/utils/fileUtils.js:44 | joining ``, `.` or `..` adds at most two characters to the directory's prefix |
| Paths.BaseNameOfJoin | src/utils/fileUtils.js:35-36 | the base name of a joined path is the entry name |
| Paths.JoinPathInjective | src/utils/fileUtils.js:44 | joining different plain names to one directory gives different paths |
| FileUtils.ProbesBounded | src/utils/fileUtils.js:43-46 | the loop runs at most as many times as there are existing paths |
| FileUtils.Disk.MoveFile | src/utils/fileUtils.js:16-78 | a missing source fails before any directory is made; a failed mkdir fails with its message; success exactly when no step fails, returning the chosen target; rename on the same device, otherwise copy then trash or unlink; a failed copy or rename changes no file, and a failed delete leaves the copy at the chosen target, both after the directory was made |
| FileUtils.Disk.MoveAfterMkdir | src/utils/fileUtils.js:35-76 | from the made directory on: the target choice and the transfer, with the same success and failure states as above |
| FileUtils.Disk.Transfer | src/utils/fileUtils.js:50-70 | the device branch: rename moves the content; copy then delete leaves the copy even when the delete fails; trash records the removed file |
| Javdb.CookieItem | src/services/javdb.js:54-64 | a line gives a cookie exactly when its first tab field contains `javdb.com` and the second and third are non-empty, as `trim(name)=trim(value)` |
| Javdb.CookieItems | src/services/javdb.js:52-65 | every cookie comes from a non-empty, non-comment line that gives it |
| Javdb.KeyIsFirstPart | src/services/javdb.js:70 | a cookie's key is the text before its first `=` |
| Javdb.UniqueKeysSpec | src/services/javdb.js:68-72 | the map's keys are distinct, are exactly the keys seen, and are in first-occurrence order |
| Javdb.DedupedSpec | src/services/javdb.js:67-74 | one cookie per name, each the last line with that name, placed at the name's first occurrence |
| Javdb.DedupeCookies | src/services/javdb.js:68-74 | the `forEach` over the map yields the de-duplicated list |
| Javdb.ParseCookieFile | src/services/javdb.js:45-79 | an empty path or an unreadable file gives the empty string; otherwise the de-duplicated cookies joined with `; ` |
| Javdb.LeadingCode | src/services/javdb.js:102 | the longest leading run of `[A-Za-z0-9-]` of a title |
| Javdb.FindDetailUrl | src/services/javdb.js:98-112 | none exactly when no item matches; otherwise the base URL plus the link of the first matching item |
| Javdb.GetVideoInfo | src/services/javdb.js:86-119 | an empty or blank code fails before any request; a failed search fails with its error, and no match with the no-match error, after one request; when an item matches, the result is the detail page's, fetched from the first match's link as the second request |
| Javdb.Request | src/services/javdb.js:170-188 | the loop settles with what the attempts and the retry condition decide, in at most `retry` attempts; the wait after failed attempt k is `retryDelay × k` |
| Javdb.ConditionAsWritten | src/services/javdb.js:34-36 | the configured `retryCondition` throws on every failure, because axios has no `isNetworkError` |
| Javdb.AsWrittenNeverRetries | src/services/javdb.js:34-36 | as written, `request` makes one attempt only: a failure ends it with the `TypeError` |
| Javdb.ConditionIntended | src/services/javdb.js:34-36 | the intended condition retries exactly network errors and HTTP 429 |
| Javdb.IntendedRequest | src/services/javdb.js:170-188 | with the intended condition every failure but the last was retryable, and the result is the last attempt's response or error; a failure ends the loop only when not retryable or when attempts run out |
| Javdb.RetryCounterexample | src/services/javdb.js:176-181 | a network error then a response, three attempts allowed: as written the request fails, as intended it succeeds |
| ConfigService.Config.constructor | src/services/config.js:6-43 | nothing is loaded, and the defaults are those of the source |
| ConfigService.Spread | src/services/config.js:52-53 | an object's own properties are its fields; arrays and strings give their indices; other values give nothing |
| ConfigService.IndexedSpec | src/services/config.js:52-53 | index `i` is the key spelled `i` and holds element `i`; there are no other keys |
| ConfigService.Prop | src/services/config.js:114 | an object's property is its field or undefined; null, booleans and numbers have none |
| ConfigService.DeepMerge | src/services/config.js:51-61 | the loop builds exactly the merged object |
| ConfigService.MergeFields | src/services/config.js:53-59 | over a plain-object source, the `for...in` loop builds exactly the merged object: every key of either side, each source key stored by the object-or-replace rule |
| ConfigService.MergeItems | src/services/config.js:53-59 | over an array or string source, the loop stores index by index what the array merge defines |
| ConfigService.MergedKeys | src/services/config.js:52-59 | the merged object has exactly the keys of target and source |
| ConfigService.TargetOnlyKept | src/services/config.js:52 | keys only the target has keep the target's value |
| ConfigService.SourceReplaces | src/services/config.js:54-57 | a source value that is not a plain object (arrays included) replaces the target's wholesale |
| ConfigService.NestedKept | src/services/config.js:54-55 | plain-object values are merged, so nested target keys the source lacks survive |
| ConfigService.EmptySourceCopies | src/services/config.js:52-60 | merging `{}` or `null` copies the target; an object target comes back equal |
| ConfigService.MergeSelf | src/services/config.js:51-61 | merging an object into itself gives it back |
| ConfigService.SourceValueWins | src/services/config.js:51-61 | a user setting that is not an object reaches the merged configuration at its path |
| ConfigService.DefaultSurvives | src/services/config.js:51-61 | a default on a path the user leaves untouched survives the merge |
| ConfigService.Config.Get | src/services/config.js:102-118 | fails before load; otherwise follows the dot-separated keys |
| ConfigService.ResolveAlongPath | src/services/config.js:110-115 | following a path through objects is following its keys one by one |
| ConfigService.ResolvePath | src/services/config.js:107-117 | a path through objects gives its stored value, `null` included |
| ConfigService.ResolveNullOnPath | src/services/config.js:111-113 | a `null` met before the last key gives the default |
| ConfigService.ResolveMissingKey | src/services/config.js:111-117 | a key missing on the way, or at the end, gives the default |
| Nfo.YearOf | src/services/nfo.js:19 | the year is at most the first four characters of the release date |
| Nfo.RuntimeOf | src/services/nfo.js:20 | the runtime is the duration with its first `分鐘` removed |
| Nfo.ActorBlockAt | src/services/nfo.js:26-33 | actor i's block is lines 4i to 4i+3 of the flattened blocks, with name and role both the actor |
| Nfo.CategoryLines | src/services/nfo.js:34-39 | one line per category, in order, and line i reads back as category i (used for `<tag>` and for `<genre>`) |
| Nfo.ElementRoundTrip | src/services/nfo.js:35 | the value of an element line reads back as the value written |
| Nfo.NfoContentIsJoinedLines | src/services/nfo.js:11-44 | the document is its lines joined by newlines: header, actors, tags, genres, footer |
| Nfo.NfoLinesNoBreaks | src/services/nfo.js:11-44 | with single-line metadata no line of the template holds a newline |
| Nfo.NfoLayout | src/services/nfo.js:11-44 | splitting the document at newlines gives back exactly its lines |
| NfoTools.KeptLinesFrom | src/utils/nfoTools.js:37-40 | every kept line is a non-blank line of the input |
| NfoTools.KeepLinesAppend | src/utils/nfoTools.js:37-40 | the filter works line by line, so order is kept |
| NfoTools.KeepLinesAll | src/utils/nfoTools.js:37-40 | lines none of which is blank are all kept, verbatim |
| NfoTools.KeepLinesTwice | src/utils/nfoTools.js:37-40 | filtering twice is filtering once |
| NfoTools.CleanLines | src/utils/nfoTools.js:37-40 | the cleaned text's lines are exactly the kept lines |
| NfoTools.CleanHasNoBlankLine | src/utils/nfoTools.js:37-40 | no line of non-empty cleaned text is empty or white space |
| NfoTools.CleanIdempotent | src/utils/nfoTools.js:37-40 | cleaning is idempotent |
| NfoTools.CleanKeepsTidyText | src/utils/nfoTools.js:37-40 | text with no blank line comes back unchanged |
| NfoTools.ProcessDir | src/utils/nfoTools.js:54-74 | the walk keeps each entry's name and kind |
| NfoTools.ProcessNfoFiles | src/utils/nfoTools.js:54-74 | the walk of a directory gives the processed tree and the cleaned paths |
| NfoTools.ProcessChildren | src/utils/nfoTools.js:60-73 | the loop over a directory's entries, stopping at the first `stat` failure |
| NfoTools.ProcessEntry | src/utils/nfoTools.js:61-69 | a subdirectory is walked, a `.nfo` file (any case) cleaned, anything else kept |
| NfoTools.ProcessHealthy | src/utils/nfoTools.js:54-74 | with no failures every `.nfo` file in the tree is cleaned, every directory entered, and nothing else changes |
| NfoTools.StatFailureKeepsRest | src/utils/nfoTools.js:63 | a `stat` failure abandons the rest of that directory only |
| NfoTools.ProcessIdempotent | src/utils/nfoTools.js:54-74 | running the walk twice gives the same tree as once |
| Tools2.Results.constructor | src/utils/tools2.js:29-31 | no folders are reported at the start |
| Tools2.Results.ScanVideoFolders | src/utils/tools2.js:33-83 | appends exactly the folders `Found` reports for the tree, as a list and as a multiset |
| Tools2.Results.WalkSubfolders | src/utils/tools2.js:77-79 | the subfolders are walked one after another, appending their finds |
| Tools2.SortEntries | src/utils/tools2.js:51-65 | the loop splits entries into video names and directories, or fails on a `stat` error |
| Tools2.FoundUnfold | src/utils/tools2.js:46-79 | a readable folder reports itself when it has several videos, then its subfolders one depth lower |
| Tools2.SortVideos | src/utils/tools2.js:52-63 | every collected video is a non-hidden name with a video extension |
| Tools2.ReportsAreGood | src/utils/tools2.js:40-73 | every reported folder has more than one video, a count equal to its list, and a name outside the excluded ones |
| Tools2.TooDeepReportsNothing | src/utils/tools2.js:34-37 | nothing deeper than the maximum depth is read or reported |
| Tools2.ExcludedReportsNothing | src/utils/tools2.js:40-43 | an excluded folder, the root included, reports nothing below it |
| Tools2.StatFailureDropsFolder | src/utils/tools2.js:55 | a `stat` failure drops the folder and its subfolders |
| Tools2.SortFailureSticks | src/utils/tools2.js:51-55 | once an entry fails `stat`, later entries cannot save the folder |
| Tools2.SortCountsOwnFilesOnly | src/utils/tools2.js:51-65 | a folder's video list depends on its own files only, not on its subfolders' contents |
| Images.CropRect | src/utils/images.js:41-49 | `left = ceil(w/2)`, `left + width = w`, the right half is never wider than the left, top 0, full height |
| Images.Extract | src/utils/images.js:44-49 | the area succeeds exactly when non-empty and inside the picture, and holds those pixels |
| Images.SplitCoverImage | src/utils/images.js:24-57 | a URL not starting with `http` fails before any download; a failed download fails; a poster needs width ≥ 2 |
| Images.PosterIsRightHalf | src/utils/images.js:41-52 | the poster is each row from column `ceil(w/2)` on, at full height |
| Images.NarrowCoverFails | src/utils/images.js:41-49 | a picture at most one column wide gives no poster |
| Images.UrlPathname | src/utils/images.js:68 | the URL's path, starting with `/`, without query or fragment |
| Images.UrlPathnameOfParts | src/utils/images.js:68 | for `scheme://host` + path + query or fragment, the pathname is that path, or `/` when it is empty |
| Images.CoverExtension | src/utils/images.js:68 | the URL path's extension, `.jpg` when there is none; none when the URL does not parse; never holds `/` |
| Images.CoverExtensionOfParts | src/utils/images.js:68 | for `scheme://host` + path + tail, the extension is `extname` of the path's base name, or `.jpg` when that is empty |
| Images.CoverPathsDiffer | src/utils/images.js:69-70 | fanart and poster share the extension and are different files |
| Images.CoversOutcome | src/utils/images.js:65-85 | success exactly when the URL parses, the download succeeds, the fanart is written, the split succeeds and the poster is written; otherwise the first failure's error |
| Images.CoverFilesAfter | src/utils/images.js:65-85 | only the fanart and poster paths can change, nothing is removed, and on success they hold the downloaded picture and its right half |
| Images.CoverStore.DownloadAndSaveCovers | src/utils/images.js:65-85 | returns the outcome above; the fanart is written before the poster is made, so a failed split or poster write leaves the fanart on disk, and a failed fanart write leaves nothing |
| Index.StatusEmoji | src/index.js:10-14 | each status has a one-character emoji |
| Index.EmojiRoundTrip | src/index.js:10-14 | the three emojis are distinct: the status can be read back from its emoji |
| Index.LevelColor | src/index.js:16-20 | each level's prefix is a five-character ANSI colour escape `ESC[3Nm` |
| Index.DurationSuffix | src/index.js:36-38 | the duration suffix appears exactly when the duration is present and non-zero |
| Index.ErrorSuffix | src/index.js:41-43 | the error suffix appears exactly when the error is a non-empty string, on a new line |
| Index.ConsoleLineFrame | src/index.js:21-46 | the line starts with the level's colour, ends with the reset code, and holds the message in between |
| Index.StatusReadable | src/index.js:33 | the status can be read back from the character after `[time] ` |
| Index.MessageLines | src/index.js:33-43 | with single-line fields, the message is one line, or two when there is an error, the second being `  错误: error` |
| Index.Successes | src/index.js:62 | only successful results are counted as successes |
| Index.Failures | src/index.js:63 | only failed results are counted as failures |
| Index.CountsPartition | src/index.js:62-63 | successes and failures split the results: `successCount + failCount` is their number |
| Index.CompletionMessageInjective | src/index.js:64-68 | the completion message gives both counts back |

## Findings

| source | as written | input that shows it | evidently intended | confidence | as-written member | corrected member |
|---|---|---|---|---|---|---|
| src/services/javdb.js:34-36, 176-181 | `retryCondition` calls `axios.isNetworkError`, which the axios module does not export, so the call throws a `TypeError` inside `request`'s catch and the loop never retries | attempt 1 fails with a network error, attempt 2 would succeed, `retry` 3: the request fails with `axios.isNetworkError is not a function` | retry network errors and HTTP 429, up to `retry` attempts | not executed | Javdb.AsWrittenNeverRetries | Javdb.IntendedRequest |

## Left out

- I/O, the network and HTML are inputs, not behaviour. This covers `fs`, `trash`, the HTTP client, `cheerio`'s extraction of detail-page fields (src/services/javdb.js:119-160), `sharp`'s decoding and encoding, and the console.
- The clock is not modelled. `new Date()` is an integer reading, and the two readings in `completeStep` are one.
- `toLocaleTimeString` is not modelled. The formatted time is a parameter of the console line.
- EventEmitter dispatch is not modelled. Emitted events are a ghost log.
- `Config.load` is not modelled, because it holds YAML parsing, `path.resolve` and `process.cwd()`. `get` works on whatever `config` holds.
- JSON numbers are integers in the model, because the defaults and the lookups need nothing else.
- JSON object key order is not kept, because `deepMerge` and `get` never depend on it.
- ConfigService.Prop: inherited properties such as `toString` are not modelled. A key that is not an own field reads as undefined.
- `processAllVideos` (src/index.js:49-72) is not modelled end to end. It calls `logger.initLogFile`, which `Logger` lacks, and it passes `(config, outputDir)` to `processVideos(videoCodes)`. Only its counting and its message are modelled.
- Index.LevelColor: the `|| ''` fallback for an unknown level is not modelled. The `Level` type has only the three known levels, and the tracker only ever sets `info` or `error`.
- Tools2.Results.ScanVideoFolders: the `Promise.all` fan-out is modelled sequentially. Sibling order is not determined by the source, so the contract also states the result as a multiset.
- Tools2.Results.ScanVideoFolders: the walk never follows symbolic-link cycles, because the tree is finite.
- Images.UrlPathname: only URLs of the form `scheme://host/path` are parsed. Percent-encoding, dot segments, credentials and ports are not normalised. Forms without `//` that the URL standard accepts (`mailto:x`, `http:host/x`) give None, where `new URL` would give a pathname.
- Images.CoverStore.DownloadAndSaveCovers: a `writeFile` that fails is taken to write nothing. A partly written file is not modelled.
- Images.CoverExtension: `path.extname` of the URL path is taken on the path's last segment, which gives the same result.
- Images.Extract: the crop assumes what `sharp` does. An area that is empty or outside the picture fails, and nothing else does.
- FileUtils.Disk.MoveFile: the `access` check sees only files. A directory as the source is not modelled.
- FileUtils.Disk.MoveFile: `mkdir` with `recursive` adds only the target directory, not its missing parents.
- FileUtils.Disk.MoveFile: the device comparison of the two `stat` calls is a boolean input.
- FileUtils.Disk.MoveFile: a failing `stat` of the source or the target directory is not modelled separately. It is folded into the transfer's error outcome.
- Javdb.Matches: `toLowerCase` is ASCII-only here. Codes and titles are matched on `[A-Za-z0-9-]`, where the two agree, but a trimmed code holding other letters with special case mappings (the Kelvin sign, for one) could compare differently.
- Javdb.FindDetailUrl: a search item without a link (`href` undefined) is not modelled. Every item carries a link string.
- Javdb.Request: `request` has no caller in the program; `getVideoInfo` calls the client directly. It is modelled with the retry condition as a parameter, as written and as intended (see Findings).
- FileTree.IsVideoName: `toLowerCase` is ASCII-only here (src/core/scanner.js:57, src/utils/tools2.js:61). Extensions with letters outside ASCII that have case mappings could compare differently; the configured video extensions are all ASCII.
- NfoTools.IsNfoName: `toLowerCase` is ASCII-only here (src/utils/nfoTools.js:66), which agrees with JavaScript on every name whose extension lowers to `.nfo`, except names using the Kelvin sign or similar letters.
- ConfigService.Config.Get: the `defaultValue = null` default (src/services/config.js:102) is not an optional argument. A caller that omits it passes `JNull`.
- ConfigService.Items: strings are sequences of characters, not UTF-16 code units, so a character outside the Basic Multilingual Plane is one index here and two in JavaScript. The same holds for `length` in ConfigService.Prop.
- ConfigService.DeepMerge: `{...target}` (src/services/config.js:52) is a shallow copy; the model works on values, so the sharing of nested objects between target and result is not visible.
- The `.replace(/\s+/g, '')` on the matched code (src/services/javdb.js:106) is left out because it cannot change anything: the match never holds white space.
- The module-load side effects are not modelled: the singletons, the `processNfoFiles('.')` call and the `findMultipleVideoFolders` run.
- src/core/scraper.js is not part of this model. The scraper's answer is an input of `processVideo`.

# rjrssync boss front end and progress accounting, in Dafny

rjrssync syncs a source folder with a destination folder, possibly on
remote hosts. The "boss" process works out what to sync from the command
line and an optional YAML spec file. It asks the user, or a table of test
responses, what to do at each destructive step. It also keeps the counters
behind its progress bar. This project models those parts and proves
properties of them.

- `wrappers.dfy` (`Wrappers`): `Option` and `Result`.
- `yaml.dfy` (`YamlTree`): a loaded YAML document as a tree. It also gives
  the Debug-like text of a node, used in error messages.
- `remote_path.dfy` (`RemotePath`): `RemotePathDesc::from_str`, which parses
  `[[username@]hostname:]path` and handles the Windows drive-letter
  exception. `Format` writes the documented syntax out, and the two are
  proved to be inverses.
- `spec_file.dfy` (`SpecFile`):
  - the behaviour enums, parsed by name ignoring ASCII case
  - `SyncSpec` and `Spec` with their defaults
  - `parse_string`, `parse_sync_spec` and `parse_spec_file`; each parsing
    loop is a method proved equal to a fold over the dictionary's entries
- `cli.dfy` (`Cli`): `resolve_spec`.
  - The base spec comes from `--spec` or from `src`/`dest`.
  - `--deploy`, `--filter` and `--all-destructive-behaviour` are applied,
    the last one sparing behaviours already set to skip.
  - The individual behaviour flags are applied last.
- `prompts.dfy` (`Prompts`):
  - the `TestPromptResponses` table as a class that `get_response` updates
    in place
  - the menu that `resolve_prompt` builds
  - the choice it makes
- `progress_cost.dfy` (`ProgressCost`): `ProgressValues` with `+=`/`-=`,
  and the work estimates `for_copy`, `for_copy_partial` and `for_delete`.
- `progress.dfy` (`BossProgress`): the `Progress` class with its counter
  methods, progress markers and `update_completed`.
- `*_examples.dfy`: the unit tests of `from_str`, `parse_spec_file` and
  `resolve_spec`, as lemmas. The `progress_values` test is in
  `progress_cost.dfy`: SmallFilesSameWork, LargeFilesScaleLinearly,
  SmallFileChunkExample and LargeFileChunkExample.

Unsigned fields are `nat`, with their u32/u64 ranges stated by `Fits`
predicates. An addition that would overflow, or a subtraction that would
underflow, panics in the source (debug build). Here it is a precondition.

## Model

| member | source | states |
|---|---|---|
| RemotePath.FromStr | src/boss_frontend.rs:263-306 | A parsed path is never empty. Input without a colon is a local path, or "Path must be specified" when it is empty. A result without a hostname is the whole input as a local path. Every error is one of the three messages. |
| RemotePath.ParseThenFormat | src/boss_frontend.rs:270-298 | Every successful parse formats back to its input exactly, and its result is expressible in the argument syntax. |
| RemotePath.FormatThenParse | src/boss_frontend.rs:270-298 | Every expressible description is recovered by parsing its formatted text. |
| RemotePath.LaterSeparatorsStayInPath | src/boss_frontend.rs:271-291 | Only the first colon, and the first `@` before it, split the input; later ones stay in the path. |
| RemotePath.MissingUsernameFirst | src/boss_frontend.rs:286-296 | An empty username is reported before the hostname and the path are checked. |
| RemotePath.EmptyPathRejected | src/boss_frontend.rs:300-302 | A well-formed host part followed by an empty path is rejected with "Path must be specified". |
| RemotePath.SplitOnce | src/boss_frontend.rs:271 | `split_once`: None exactly when the separator is absent; otherwise the input is the text before, the separator, and the text after, with no separator before. |
| RemotePathExamples.PathMissingExamples | src/boss_frontend.rs:986-1008 | `""`, `"hh:"` and `"u@h:"` are rejected for the empty path. |
| RemotePathExamples.HostOrUserMissingExamples | src/boss_frontend.rs:1009-1056 | `":f"`, `":"`, `"u@:f"` and `"u@:"` are rejected for the missing hostname; `"@:f"`, `"@h:f"` and `"@h:"` for the missing username. |
| RemotePathExamples.LocalExamples | src/boss_frontend.rs:990-1187 | `"f"`, `"@"`, `"u@f"`, `"@f"`, `"u@"`, `"\\network\share\windows"`, `"/unix/absolute"`, `"C:\Path\On\Windows"`, `"C:"`, `"C:\"` and `"C:\folder"` are local paths, taken whole. |
| RemotePathExamples.RemoteUserExamples | src/boss_frontend.rs:1025-1032 | `"u@h:f"` and `"u@s:C:\folder"` parse to their user, host and path. |
| RemotePathExamples.UnixRemoteExample | src/boss_frontend.rs:1174-1181 | `"username@server:/unix/absolute"` parses to its user, host and path. |
| RemotePathExamples.RemoteExamples | src/boss_frontend.rs:997-1149 | `"h:f"`, `"u:u@u:u@h:f:f:f@f"`, `"C:folder"`, `"CC:folder"`, `"CC:\folder"` and `"s:C:\folder"` parse to a host and path with no user. |
| YamlTree.AsHash | src/boss_frontend.rs:434 | `as_hash`: the entries exactly when the node is a hash. |
| SpecFile.FromName | src/boss_frontend.rs:308-371 | Name lookup ignoring case. It fails exactly when no variant name matches, with "invalid variant: " and the input; on success it is a variant whose name matches. |
| SpecFile.FromNameOfVariant | src/boss_frontend.rs:308-371 | With names distinct up to case, each variant's name selects that variant. |
| SpecFile.DeployNamesParse | src/boss_frontend.rs:308-319 | prompt, error, ok and force parse to the matching deploy behaviours. |
| SpecFile.DestFileUpdateNamesParse | src/boss_frontend.rs:321-332 | prompt, error, skip and overwrite parse to the matching file-update behaviours. |
| SpecFile.DestEntryNeedsDeletingNamesParse | src/boss_frontend.rs:333-345 | prompt, error, skip and delete parse to the matching entry-deleting behaviours. |
| SpecFile.DestRootNeedsDeletingNamesParse | src/boss_frontend.rs:347-359 | prompt, error, skip and delete parse to the matching root-deleting behaviours. |
| SpecFile.ParseString | src/boss_frontend.rs:425-430 | Succeeds exactly on a string node, giving its text. Otherwise the error names the key and shows the node. |
| SpecFile.FiltersFrom | src/boss_frontend.rs:438-449 | The filter array succeeds exactly when every element is a string. |
| SpecFile.FiltersFromFirstError | src/boss_frontend.rs:441-446 | A failing filter array fails with "Unexpected value in 'filters' array. Expected string, but got " and its first non-string element. |
| SpecFile.FiltersFromContents | src/boss_frontend.rs:441-446 | A successful filter array keeps the earlier filters and appends each element's text, in order. |
| SpecFile.ParseBehaviour | src/boss_frontend.rs:451-460 | A string value is looked up by name; any other value is the `parse_string` error naming the key. |
| SpecFile.SyncEntry | src/boss_frontend.rs:435-461 | One sync entry: only a known key is accepted (any other is "Unexpected key in 'syncs' entry"), and it sets only its own field. |
| SpecFile.SyncEntryStores | src/boss_frontend.rs:436-449 | `src` and `dest` store the string they are given, and a non-string is the `parse_string` error for that key. An array of `filters` stores the result of the filter loop, or fails with its error; a non-array is "Unexpected value for 'filters'. Expected an array". Any other key is handled as a behaviour. |
| SpecFile.SyncBehaviourEntry | src/boss_frontend.rs:451-461 | The same for the five behaviour keys and the unknown-key error. |
| SpecFile.SyncBehaviourEntryStores | src/boss_frontend.rs:451-460 | Each behaviour key stores the variant its string names, looked up in that behaviour's own table, or fails with the lookup's error. A non-string value is the `parse_string` error for the key. |
| SpecFile.SyncEntries | src/boss_frontend.rs:434-463 | The entries applied in order from a starting record. No entries give the record unchanged, and a success means every key was a sync key. |
| SpecFile.SyncSpecOf | src/boss_frontend.rs:432-473 | A parsed sync has non-empty src and dest. A node that is not a dictionary is "Sync value must be a dictionary". |
| SpecFile.SyncEntriesKeepAbsent | src/boss_frontend.rs:433-463 | A key absent from the dictionary leaves its field as the starting record had it. |
| SpecFile.SyncDefaultsWhenAbsent | src/boss_frontend.rs:410-423 | An absent behaviour key gives the `SyncSpec::default` value (prompt, overwrite, skip, delete, prompt); absent filters give none. |
| SpecFile.UnknownSyncKeyRejected | src/boss_frontend.rs:461 | An unknown key anywhere in a sync dictionary makes it an error. |
| SpecFile.MissingSrcRejected | src/boss_frontend.rs:465-467 | Without `src` a sync is rejected, with the src message when nothing else is wrong. |
| SpecFile.MissingDestRejected | src/boss_frontend.rs:468-470 | Without `dest`, but with a good `src`, a sync is rejected with the dest message. |
| SpecFile.ParseSyncSpec | src/boss_frontend.rs:432-473 | The loop over the entries of a sync dictionary, updating a default record in place, computes SyncSpecOf. |
| SpecFile.ParseFilters | src/boss_frontend.rs:441-446 | The loop pushing filter elements computes FiltersFrom. |
| SpecFile.SyncsFrom | src/boss_frontend.rs:496-500 | The syncs array succeeds exactly when every element parses as a sync. |
| SpecFile.SyncsFromFirstError | src/boss_frontend.rs:496-500 | A failing syncs array fails with the error of its first element that does not parse. |
| SpecFile.SyncsFromContents | src/boss_frontend.rs:496-500 | A successful syncs array keeps the earlier syncs and appends each element's parse, in order. |
| SpecFile.SpecEntry | src/boss_frontend.rs:488-505 | One root entry: only a known key is accepted (any other is "Unexpected key in root dictionary"); each key sets only its own field. |
| SpecFile.SpecEntryStores | src/boss_frontend.rs:489-502 | The four name keys store the string they are given. `deploy_behaviour` stores the variant its string names, or fails with the lookup's error. An array of `syncs` stores the syncs parsed by `parse_sync_spec`, or fails with the first one's error. |
| SpecFile.SpecEntryRejectsWrongType | src/boss_frontend.rs:489-502 | A root key with a value of the wrong type fails: a non-string is the `parse_string` error naming the key; a non-array `syncs` is "Unexpected value for 'syncs'. Expected an array". |
| SpecFile.SpecEntries | src/boss_frontend.rs:487-506 | The root entries applied in order from a starting record. No entries give the record unchanged, and a success means every key was a root key. |
| SpecFile.SpecFileOf | src/boss_frontend.rs:479-509 | A load error passes through. No documents is "Expected at least one YAML document". A root that is not a dictionary is "Document root must be a dictionary". |
| SpecFile.LaterDocumentsIgnored | src/boss_frontend.rs:481-485 | Documents after the first never change the outcome. |
| SpecFile.SpecEntriesKeepAbsent | src/boss_frontend.rs:487-506 | An absent root key leaves its field as the starting record had it. |
| SpecFile.SpecDefaultsWhenAbsent | src/boss_frontend.rs:386-397 | An absent root key gives the `Spec::default` value: empty names, deploy prompt, no syncs. |
| SpecFile.UnknownRootKeyRejected | src/boss_frontend.rs:504 | An unknown key anywhere in the root dictionary makes the file an error. |
| SpecFile.ParseSyncs | src/boss_frontend.rs:496-500 | The loop pushing parsed syncs computes SyncsFrom. |
| SpecFile.ParseSpecFile | src/boss_frontend.rs:475-509 | The loop over the root dictionary, updating a default record in place, computes SpecFileOf. |
| SpecFileExamples.DefaultFields | src/boss_frontend.rs:1265-1291 | A spec with one sync of only src and dest gets every other field from the defaults. |
| SpecFileExamples.MissingRequiredDest | src/boss_frontend.rs:1294-1303 | A sync with only `src` is rejected with "dest must be provided and non-empty". |
| SpecFileExamples.MissingRequiredSrc | src/boss_frontend.rs:1305-1315 | A sync with only `dest` is rejected with "src must be provided and non-empty". |
| SpecFileExamples.InvalidBehaviourValue | src/boss_frontend.rs:1387-1395 | A behaviour value that names no variant is rejected with "invalid variant: " and the value. |
| SpecFileExamples.FullSyncParses | src/boss_frontend.rs:1210-1225 | A sync dictionary that sets `src`, `dest`, a two-element `filters` and all five behaviours parses to a record holding exactly those values. |
| SpecFileExamples.FullRootParses | src/boss_frontend.rs:1204-1262 | A root dictionary that sets all five root fields and two syncs parses to a spec holding those values and the two parsed syncs, in order. |
| SpecFileExamples.AllFields | src/boss_frontend.rs:1204-1262 | The all-fields spec file of the unit test parses to the expected spec, field by field. |
| SpecFileExamples.InvalidRoot | src/boss_frontend.rs:1318-1322 | A document `123` is "Document root must be a dictionary". |
| SpecFileExamples.InvalidStringField | src/boss_frontend.rs:1325-1329 | `dest_hostname: [ 341 ]` is "Unexpected value for 'dest_hostname'. Expected a string" with the array shown. |
| SpecFileExamples.InvalidFieldName | src/boss_frontend.rs:1332-1336 | `this-isnt-valid: 0` is "Unexpected key in root dictionary" with the key shown. |
| SpecFileExamples.InvalidSyncsField | src/boss_frontend.rs:1339-1343 | `syncs: 0` is "Unexpected value for 'syncs'. Expected an array" with the value shown. |
| SpecFileExamples.InvalidSyncSpecType | src/boss_frontend.rs:1346-1353 | A sync that is a string is "Sync value must be a dictionary". |
| SpecFileExamples.InvalidSyncSpecField | src/boss_frontend.rs:1356-1363 | A sync with the key `unexpected-field` is "Unexpected key in 'syncs' entry" with the key shown. |
| SpecFileExamples.InvalidFiltersType | src/boss_frontend.rs:1366-1373 | `filters: 0` is "Unexpected value for 'filters'. Expected an array" with the value shown. |
| SpecFileExamples.InvalidFiltersElement | src/boss_frontend.rs:1376-1383 | `filters: [ 9 ]` is "Unexpected value in 'filters' array. Expected string" with the element shown. |
| Cli.AllToFileUpdate | src/boss_frontend.rs:698-703 | `--all-destructive-behaviour` for file updates: proceed is overwrite and skip is skip, both ways. |
| Cli.AllToEntry | src/boss_frontend.rs:722-727 | The same for entries needing deletion: proceed is delete. |
| Cli.AllToRoot | src/boss_frontend.rs:730-735 | The same for the root needing deletion: proceed is delete. |
| Cli.BaseSpec | src/boss_frontend.rs:651-678 | With `--spec`, the parsed file, or its error prefixed by "Failed to parse spec file at '<path>': ". Without it, the spec built from src and dest. |
| Cli.CommandLineSpec | src/boss_frontend.rs:662-677 | The hosts and users come from src and dest, and there is one default sync of their paths. |
| Cli.PrecedenceFileUpdate | src/boss_frontend.rs:689-755 | An individual flag wins. Otherwise `--all-destructive-behaviour` replaces a value that is not skip, and else the value stays. Overwrite comes only from the original value, the flag, or all-destructive proceed. |
| Cli.PrecedenceEntry | src/boss_frontend.rs:689-755 | The same precedence for entries needing deletion; delete comes only from the original value, the flag, or proceed. |
| Cli.PrecedenceRoot | src/boss_frontend.rs:689-755 | The same precedence for the root needing deletion; delete comes only from the original value, the flag, or proceed. |
| Cli.ResolvedSync | src/boss_frontend.rs:684-756 | A sync after the command line: paths unchanged; filters replaced only by a non-empty `--filter`; each given individual flag sets its behaviour; with no behaviour flags at all every behaviour stays. |
| Cli.Resolved | src/boss_frontend.rs:680-756 | Resolving keeps the hosts and users. Deploy is `--deploy` when given and the base value otherwise. The number of syncs is kept and each sync is resolved independently. |
| Cli.ApplyAllDestructive | src/boss_frontend.rs:689-737 | Each behaviour that is not skip takes the all-destructive value; skip stays skip. |
| Cli.ApplyIndividualFlags | src/boss_frontend.rs:739-755 | Each given individual flag sets its field; the others stay. |
| Cli.ResolveSync | src/boss_frontend.rs:685-755 | The body of the sync loop: filters, then all-destructive, then individual flags. |
| Cli.ResolveSpec | src/boss_frontend.rs:650-759 | An error of the base spec passes through. Otherwise the result is the base spec with deploy set and every sync rewritten in place by the loop. |
| Cli.IndividualFlagsWin | src/boss_frontend.rs:739-755 | An individually given behaviour flag decides its field in every sync, whatever the spec file and `--all-destructive-behaviour` say. |
| Cli.AllDestructiveSparesSkip | src/boss_frontend.rs:689-737 | For each of the five behaviours whose own flag is not given, `--all-destructive-behaviour` leaves skip alone and otherwise replaces the value with its own, mapped to that behaviour. |
| Cli.SafeModeAllowsNoDestruction | src/boss_frontend.rs:689-737 | With all-destructive prompt and no individual flags, no sync ends up with overwrite or delete. |
| Cli.UnsetFlagsKeepValues | src/boss_frontend.rs:681-687 | Paths never change. Filters are replaced only by a non-empty `--filter`. Without flags every sync is unchanged. Deploy is the flag's value when given. |
| Cli.ResolveIdempotent | src/boss_frontend.rs:684-756 | Resolving a resolved spec again with the same arguments changes nothing. |
| CliExamples.OverridesExample | src/boss_frontend.rs:1398-1444 | The unit test's individual overrides give the expected behaviours. |
| CliExamples.AllDestructiveExample | src/boss_frontend.rs:1446-1501 | The unit test's all-destructive override spares skip and rewrites the rest. |
| Prompts.FirstUsable | src/boss_frontend.rs:887-888 | The first entry that matches the prompt and has uses left, and None only when there is none. |
| Prompts.UsedLowersRemaining | src/boss_frontend.rs:888-889 | Using an entry lowers the number of answers left in the table by exactly one. |
| Prompts.TestPromptResponses.GetResponse | src/boss_frontend.rs:886-894 | Returns the first usable entry's response and lowers only that entry's count. With no usable entry it returns None and changes nothing. |
| Prompts.ResponseUsesOneOccurrence | src/boss_frontend.rs:886-894 | A returned answer leaves one answer fewer; an entry with count zero is never used. |
| Prompts.Once | src/boss_frontend.rs:905-907 | A choice for this occurrence only: nothing is remembered. |
| Prompts.Always | src/boss_frontend.rs:908-910 | A choice that is also remembered for later occurrences. |
| Prompts.PromptItems | src/boss_frontend.rs:916-925 | The menu has one item per option, or two ("(just this occurence)" once and "(all occurences)" always), in order, then "Cancel sync" last. |
| Prompts.PromptItemsOf | src/boss_frontend.rs:916-925 | The menu as a value: one or two items per option, then "Cancel sync" as a one-off cancel, last. |
| Prompts.PromptItemsContents | src/boss_frontend.rs:916-925 | Each option appears in order: once, or as its "(just this occurence)" one-off item followed by its "(all occurences)" remembered item. |
| Prompts.PromptItemsAgree | src/boss_frontend.rs:916-925 | Any menu with PromptItems' contract is that menu. |
| Prompts.LabelIndex | src/boss_frontend.rs:932 | The first item with the given label, and None only when there is none. |
| Prompts.ChooseItem | src/boss_frontend.rs:927-972 | An automatic response picks the item with that label, or fails with "Invalid response". Otherwise an unattended terminal or a cancelled menu picks the last item, and else the user's choice. |
| Prompts.ResolvePrompt | src/boss_frontend.rs:913-973 | The choice made from the menu, the test table's answer and the terminal. Without a test answer and with nobody attending, or a cancel, it is a one-off cancel. The test table loses one use of its first usable entry, or is unchanged when there is none. |
| ProgressCost.ForCopy | src/boss_progress.rs:32-48 | One copy and no delete. The work is at least MIN_FILE_SIZE; for a file it is at least its size and equals one of the two, and the bytes are its size. A folder or symlink costs MIN_FILE_SIZE and no bytes. |
| ProgressCost.ForCopyPartial | src/boss_progress.rs:51-80 | The bytes are the chunk size and there is no delete. The copy is counted only by a chunk that reaches the end of the file. |
| ProgressCost.ForDelete | src/boss_progress.rs:83-89 | DELETE_WORK work, one delete, no copy and no bytes, for any entry. |
| ProgressCost.ProgressValues.Add | src/boss_progress.rs:91-98 | `+=` adds field by field, so the sum covers both operands. |
| ProgressCost.ProgressValues.Sub | src/boss_progress.rs:99-106 | `-=` subtracts field by field when no field underflows; the result is covered by the original, and adding back gives the original. |
| ProgressCost.SubUndoesAdd | src/boss_progress.rs:91-106 | `-=` of what was just added is defined and gives back the original values. |
| ProgressCost.AddUndoesSub | src/boss_progress.rs:91-106 | `+=` of what was just subtracted gives back the original values. |
| ProgressCost.AddCommutesAndAssociates | src/boss_progress.rs:91-98 | `+=` is field-wise: order and grouping do not matter, and the default values are neutral. |
| ProgressCost.SubFits | src/boss_progress.rs:99-106 | A defined `-=` keeps the values within their integer types. |
| ProgressCost.SmallFilesSameWork | src/boss_progress.rs:460-464 | Files up to MIN_FILE_SIZE all cost the same work as each other and as folders and symlinks. |
| ProgressCost.LargeFilesScaleLinearly | src/boss_progress.rs:466-470 | Above MIN_FILE_SIZE the work of a file k times as large is k times as much. |
| ProgressCost.NonFinalChunk | src/boss_progress.rs:55-66 | A chunk before the end of a small file counts only its bytes; for a large file its work is its size. |
| ProgressCost.SumChunksFrom | src/boss_progress.rs:51-80 | Chunks covering the rest of a file from any offset cost its remaining bytes, its share of the work, and exactly one copy. |
| ProgressCost.ChunksSumToWhole | src/boss_progress.rs:472-487 | However a file is split into consecutive chunks, only the last of which reaches the end of the file, their costs add up to `for_copy` of the whole file. |
| ProgressCost.SmallFileChunkExample | src/boss_progress.rs:472-478 | The unit test's split of a 1000-byte file adds up to its `for_copy`. |
| ProgressCost.LargeFileChunkExample | src/boss_progress.rs:480-487 | The unit test's split of a 10^9-byte file adds up to its `for_copy`. |
| BossProgress.MarkerFor | src/boss_progress.rs:264-295 | The marker records the work sent. It is Deleting, with the deletes sent, exactly while deletes remain to be sent; otherwise Copying, with the copies and bytes sent. It is never Done. |
| BossProgress.AfterMarker | src/boss_progress.rs:322-365 | The completed work is the marker's. Deleting changes only the completed deletes and the current entry; Copying only the completed copies, bytes and current entry; Done nothing else. The first-copy time changes only when unset, by a Copying marker with zero copies, to the time given. Validity is kept. |
| BossProgress.MarkerDue | src/boss_progress.rs:253-259 | A marker is due exactly when the work sent has grown by at least MARKER_THRESHOLD since the last marker, so only after new work. |
| BossProgress.MarkerSpacing | src/boss_progress.rs:253-259 | After a marker is sent, the next is due exactly when at least MARKER_THRESHOLD more work has been sent. |
| BossProgress.EchoRecordsSent | src/boss_progress.rs:264-295 | A marker echoed back sets the completed counters to the sent values it carried, and the current entry to its ID. |
| BossProgress.DoneCompletesAllWork | src/boss_progress.rs:312-323 | The Done marker sent once everything is sent brings the completed work to the total work. |
| BossProgress.FirstCopyStart | src/boss_progress.rs:350 | The first marker that starts copying, and None only when there is none. |
| BossProgress.FirstCopyTimeKept | src/boss_progress.rs:350-352 | Once recorded, the first-copy time is never replaced by later markers. |
| BossProgress.FirstCopyTimeOfFirstStart | src/boss_progress.rs:347-352 | From no first-copy time, the recorded time is the arrival time of the first marker that starts copying, or none when no marker does. |
| BossProgress.Progress.constructor | src/boss_progress.rs:188-199 | All counters are zero, no marker has been sent, there is no first-copy time and no current entry. |
| BossProgress.Progress.IncTotalForDelete | src/boss_progress.rs:214-219 | Adds `for_delete` to the total; nothing else changes. |
| BossProgress.Progress.DecTotalForDelete | src/boss_progress.rs:221-228 | Subtracts `for_delete` from the total; nothing else changes. |
| BossProgress.Progress.IncTotalForCopy | src/boss_progress.rs:231-237 | Adds `for_copy` to the total; nothing else changes. |
| BossProgress.Progress.DecTotalForCopy | src/boss_progress.rs:239-246 | Subtracts `for_copy` from the total; nothing else changes. |
| BossProgress.Progress.GetProgressMarker | src/boss_progress.rs:264-295 | Returns MarkerFor the sent and total counters. It records the sent work as the last marker and changes nothing else. |
| BossProgress.Progress.GetProgressMarkerLimited | src/boss_progress.rs:253-259 | Returns None and changes nothing until enough work has been sent since the last marker; otherwise it acts as GetProgressMarker. |
| BossProgress.Progress.DeleteSent | src/boss_progress.rs:298-300 | Adds `for_delete` to the sent counters; nothing else changes. |
| BossProgress.Progress.CopySent | src/boss_progress.rs:302-304 | Adds `for_copy` to the sent counters; nothing else changes. |
| BossProgress.Progress.CopySentPartial | src/boss_progress.rs:306-308 | Adds `for_copy_partial` to the sent counters; nothing else changes. |
| BossProgress.Progress.AllWorkSent | src/boss_progress.rs:312-318 | Once sent equals total, a Done marker carrying all of the total work. |
| BossProgress.Progress.UpdateCompleted | src/boss_progress.rs:322-365 | The new state is AfterMarker of the old one, with the clock's reading passed in. |
| BossProgress.IncThenDecRestores | src/boss_progress.rs:214-246 | Counting an entry into the totals and taking it out again, for copy and for delete, leaves the whole state unchanged. |

Every method of `Progress` also keeps `Valid`. `Valid` says three things:
- every counter fits its integer type
- the current entry ID fits in u32
- the work recorded at the last marker is never more than the work sent

The last point keeps the u64 subtraction in `get_progress_marker_limited`
from underflowing.

## Left out

- Reading the spec file and loading its YAML are not modelled. Their
  outcome is the parameter `loaded` of SpecFileOf and ParseSpecFile.
  Both I/O and the YAML library's syntax errors are left out.
- YamlTree.DebugText approximates Rust's `{:?}` text of a YAML node in
  error messages. Only the messages' fixed prefixes are claimed to match.
- The `clap` argument parsing as a whole is not modelled:
  - the command-line parsing rules that force `src` and `dest` when there
    is no `--spec`; these are the precondition of Cli.BaseSpec and
    Cli.ResolveSpec
  - the arguments `resolve_spec` does not read
  - `ValueEnum` beyond ASCII case-insensitive matching of the lower-case
    variant names
- `boss_main`, `boss_main_impl`, `execute_spec`, logging and profiling are
  not modelled. They are process set-up, I/O and calls into other
  components.
- Prompts.ResolvePrompt does not model the terminal:
  - the `dialoguer` menu, its theme and the ANSI reset rewriting of the
    prompt are left out
  - printing the prompt is left out
  - whether a user is attended is the parameter `attended`
  - the menu's answer is `userChoice`, required to be a valid index (or
    None for a cancel or an error)
  - the `expect("Invalid response")` panic is the failure "Invalid
    response"
- `TestPromptResponses::from_env` is not modelled. It parses an environment
  variable. The process-wide mutex around the table is also left out;
  the table is an object passed in.
- Prompts.Regex: a compiled regular expression is seen only through its
  match predicate.
- The progress bar is not modelled:
  - `Progress::new` spawns a thread and creates the bar; only its initial
    counters are modelled, as the constructor
  - `background_updater`, `update_bar_limited` with its `BarState`,
    `set_entries` and `suspend`, and every `indicatif` call are left out;
    they are display, sleeping and cross-thread hand-off
  - the lists of entry names are left out, so the indexing of them by
    `current_entry_id` is not checked
- BossProgress.Instant: `Instant::now()` becomes the parameter `now` of
  UpdateCompleted. An instant is only compared for equality.
- The `debug_assert`s of `get_progress_marker` and `all_work_sent` become
  preconditions. In release builds the source does not check them.
  Overflow and underflow of the counters are preconditions too, rather
  than the wrap-around of a release build.
- ProgressCost.EntryDetails keeps only a file's size. A file's modification
  time and a symlink's target do not affect the estimates.
- ProgressCost.ChunksSumToWhole: the split may not end with empty chunks
  after the one that reaches the end of the file. `for_copy_partial` counts
  a copy for every chunk that reaches the end, so such a chunk would count
  the file twice.
- ProgressCost.SumChunks adds the chunks' costs from the right. The unit
  test adds them from the left. AddCommutesAndAssociates shows that the
  order does not matter.
- The benchmarks and the integration tests are not modelled. They run
  external programs.

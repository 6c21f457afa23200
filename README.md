# Shiba: a verified model of the game pipeline, the time accounting and the site's decision logic

Shiba is a game-jam site. Players upload web-game bundles as zip archives. A Go service unpacks each archive into
`./games/<id>`, serves it at `/play/<id>/` and mirrors every bundle to an R2 (S3-compatible) bucket. A Node job
counts the Hackatime coding time behind each game. Python scripts hand out playtests. A Next.js site holds the API
handlers: posts, purchases in the SSS shop, playtest submission, project pickers and analytics.

This project models the decision logic of that system in Dafny and proves what it promises. Each source file has its
own module. Code that works by changing state becomes methods with loop invariants or classes with `modifies`
frames. Code that computes a value becomes functions and lemmas.

- Archive ingestion (`gameUpload.go`). `Paths` models Go's `path.Clean`/`filepath.Join` on segment lists and the
  zip-slip check. `LocalStore` is the local disk as a set of directories and a map of files. `ArchiveIngest` covers
  the wrapping-folder detection, the per-entry skip/strip/validate/write loop and the handler.
- Remote mirror (`syncFromR2.go`, `syncIndividualGame.go`). `RemoteSync` covers key listing page by page, grouping by
  bundle id, admitting only groups with an `index.html`, the no-overwrite download loop and lazy hydration.
- Misc files (`uploadMiscFile.go`, `serveMiscFile.go`, `uploadMiscFile.js`). `MiscFiles` covers the extension
  allow-list, the content types, the `misc-files/<id><ext>` key scheme and the prefix lookup that serves it back.
  `UploadClient` is the browser's checks, proved to agree with the server's.
- Hackatime accounting (`hackatimeSync/`). `HackatimeSync` covers project claiming across a user's games and the
  full-sync loop with its guard flag. `HackatimeSpans` covers span/window overlap sums and post windows.
  `Airtable` holds the shared record helpers and paging.
- Playtests (`playtestScript/`). `PlaytestAssign` covers the pools and the circular assignment: no self-review and
  no repeated pair. `PlaytestDedupe` covers duplicate-ticket grouping, which keeps the oldest ticket.
- Site API. `GetGame` (per-IP sliding-window limiter, validation), `SubmitPlaytest` (write-once fields), `Purchase`,
  `CreatePost`, `HackatimeProjects`, and the analytics `FunnelData`, `SignupData` and `ReviewBacklog`.
- Site components. `ShippingInput`, `ShopItemRenderer`, `PurchaseModal`, `ArtlogForm` and `PostAttachment`.
- `Common` holds the string helpers the others share: JavaScript-style `trim`, `split`, lower-casing, counting and
  filtering.

Network calls, the clock, randomness and the stores' contents are parameters. They are oracles whose answers the
caller supplies. A missing API key is read from the configuration input. A failed request or an upstream status is
modelled only where the handler takes it as a failure flag or status input; the other thrown errors that end in a
500 are listed under "Left out".

## Model

| member | source | states |
|---|---|---|
| Paths.UuidIsName | api/handlers/gameUpload.go:79-84 | a bundle id in UUID text form is a single path segment, so `./games/<id>` is one level below the games folder |
| Paths.ResolveClean | api/handlers/gameUpload.go:20-27 | cleaning a rooted path leaves a clean absolute path: no empty, "." or ".." segment survives |
| Paths.JoinUnderClean | api/handlers/gameUpload.go:27 | `Join(destDir, Clean(name))` is a clean absolute path whatever the entry name |
| Paths.ConcatPrefixIff | api/handlers/gameUpload.go:32 | the string test "starts with destDir + separator" holds exactly when the path lies strictly below destDir, segment by segment |
| Paths.ValidateZipFilePathIff | api/handlers/gameUpload.go:19-33 | an entry name is accepted exactly when `Join(destDir, Clean(name))` is a strict descendant of destDir |
| Paths.ResolveWithoutParent | api/handlers/gameUpload.go:20 | for a name without ".." segments, cleaning only drops the empty and "." segments and keeps the rest in order |
| Paths.PlainNameAccepted | api/handlers/gameUpload.go:19-33 | a name without ".." and with at least one real segment is accepted, and it resolves to destDir followed by its segments |
| Paths.DotNameRejected | api/handlers/gameUpload.go:19-33 | a name that cleans to "." (only empty and "." segments) resolves to destDir itself and is rejected |
| Paths.ClimbingEntryRejected | api/handlers/gameUpload.go:19-84 | "../../a/b" resolves two levels above the bundle directory, to `<cwd>/a/b`, and is rejected |
| Paths.AbsoluteEntryStaysInside | api/handlers/gameUpload.go:19-33 | a rooted name "/a/b" is joined below destDir, not at the file-system root, and is accepted |
| LocalStore.Ancestors | api/handlers/gameUpload.go:85-118 | the directories `os.MkdirAll(p)` leaves behind are p and its non-empty prefixes, nothing else |
| LocalStore.Dir | api/handlers/gameUpload.go:118 | `filepath.Dir` of a path is the path without its last segment |
| LocalStore.WithDirs | api/handlers/gameUpload.go:114-118 | creating directories adds exactly the ancestors of the path and leaves every file as it was |
| LocalStore.WithFile | api/handlers/gameUpload.go:130-141 | writing a file sets that path's contents and leaves the directories and every other file unchanged |
| LocalStore.Truncated | api/handlers/gameUpload.go:136-139 | a failed copy leaves a prefix of the data in the file |
| LocalStore.GrowsTrans | api/sync/syncFromR2.go:72-108 | "nothing existing is removed or overwritten" composes across successive downloads |
| LocalStore.GrowsKeepsExisting | api/sync/syncFromR2.go:74-76 | a path that existed before a run that only grows the disk still exists after it |
| LocalStore.ConfinedTrans | api/handlers/gameUpload.go:92-142 | "changes only below the bundle directory" composes across successive entries |
| LocalStore.LocalDisk.Stat | api/sync/syncFromR2.go:74 | `os.Stat` succeeds exactly when the path exists as a file or directory |
| LocalStore.LocalDisk.MkdirAll | api/handlers/gameUpload.go:118 | the disk afterwards is the old one with the path's directories added |
| LocalStore.LocalDisk.WriteFile | api/handlers/gameUpload.go:130-141 | the disk afterwards is the old one with the file's contents set |
| ArchiveIngest.FirstSegment | api/handlers/gameUpload.go:180 | `parts[0]` of `SplitN(name, "/", 2)` has no '/', the name starts with it and a '/' when it has one, and is the whole name otherwise |
| ArchiveIngest.SingleRootPrefix | api/handlers/gameUpload.go:174-194 | the loop returns the prefix defined by the scan over the entry names |
| ArchiveIngest.TopLevelFileMeansNoPrefix | api/handlers/gameUpload.go:176-183 | a non-junk entry without '/' (a top-level file) anywhere in the archive makes the prefix "" |
| ArchiveIngest.SharedFolderIsPrefix | api/handlers/gameUpload.go:184-193 | when every non-junk entry lies under the folder r (and there is one), the prefix is r + "/" |
| ArchiveIngest.PrefixMeansSharedFolder | api/handlers/gameUpload.go:184-193 | a non-empty prefix is a folder name plus "/", and every non-junk entry has a '/' and starts with that folder (or with an empty segment, which the scan passes over) |
| ArchiveIngest.OnlyJunkMeansNoPrefix | api/handlers/gameUpload.go:176-193 | an archive of `__MACOSX/` entries only has the prefix "" |
| ArchiveIngest.DisagreementMeansNoPrefix | api/handlers/gameUpload.go:184-188 | two non-junk entries in different named folders make the prefix "" |
| ArchiveIngest.StrippedName | api/handlers/gameUpload.go:93-104 | junk entries are skipped; a name that is kept is non-empty unless the entry itself has the empty name |
| ArchiveIngest.IngestEntry | api/handlers/gameUpload.go:93-141 | one entry: junk and prefix-only names are skipped, an invalid path ends the request with 400, a directory is created, a parent that cannot be made or a file that cannot be opened or created ends it with 500, and a file is written whole or, when the copy fails, truncated and then 500 (corrected write path; see Findings) |
| ArchiveIngest.IngestEntries | api/handlers/gameUpload.go:92-142 | the per-entry loop leaves the disk and the status given by the entry-by-entry definition (corrected write path; see Findings) |
| ArchiveIngest.IngestAppend | api/handlers/gameUpload.go:92-142 | processing two runs of entries is processing the first and, unless it stopped, the second on the result |
| ArchiveIngest.FirstInvalidEntryEndsRequest | api/handlers/gameUpload.go:106-109 | the first kept entry that fails validation ends the request with 400 and no later entry changes the disk |
| ArchiveIngest.SkippedEntriesIrrelevant | api/handlers/gameUpload.go:93-104 | junk entries and the stripped wrapper folder itself have no effect: removing them changes nothing |
| ArchiveIngest.IngestConfined | api/handlers/gameUpload.go:92-142 | with the corrected write path, the loop changes nothing outside the bundle directory, whatever the archive holds |
| ArchiveIngest.EntryConfined | api/handlers/gameUpload.go:106-141 | one entry (directory or file, whatever step fails) changes nothing outside the bundle directory |
| ArchiveIngest.WrappedEntryLanding | api/handlers/gameUpload.go:98-141 | an entry "game/assets/a.png" under the prefix "game/" creates its directories and lands at `<destDir>/assets/a.png` with its data |
| ArchiveIngest.WritePathAgreesForRelativeNames | api/handlers/gameUpload.go:106-111 | for names not starting with '/', the path written as the source writes it is the validated path |
| ArchiveIngest.RootedClimbEscapes | api/handlers/gameUpload.go:106-111 | "/../a" passes validation (it cleans to destDir/a) but the source writes it at the parent of destDir, outside the bundle |
| ArchiveIngest.GameUpload | api/handlers/gameUpload.go:79-162 | the handler leaves the disk and the response given by the upload definition (corrected write path; see Findings) |
| ArchiveIngest.UploadConfined | api/handlers/gameUpload.go:84-162 | an upload changes nothing outside `./games/<id>`; success reports that id and the play URL "/play/<id>/"; a failure is 400 or 500 (corrected write path; see Findings) |
| ArchiveIngest.IngestHaltStatus | api/handlers/gameUpload.go:106-140 | the loop stops only with 400 (invalid path) or 500 (a directory, open, create or copy failure) |
| RemoteSync.ListR2Objects | api/sync/syncFromR2.go:116-135 | the listing fails exactly when some page fails; otherwise it is every page's keys, concatenated in page order |
| RemoteSync.FlattenSnoc | api/sync/syncFromR2.go:124-132 | reading one more page appends exactly that page's keys |
| RemoteSync.GroupOf | api/sync/syncFromR2.go:39-58 | the group of a bundle id holds exactly the listed keys of that bundle |
| RemoteSync.GroupOfSnoc | api/sync/syncFromR2.go:53-57 | a new key of the bundle is appended at the end of its group, and other bundles' groups are unchanged |
| RemoteSync.GroupIdsSnoc | api/sync/syncFromR2.go:40-45 | a key with fewer than two segments after "games/" creates no group; a well-formed key adds its bundle id |
| RemoteSync.AdmittedSnoc | api/sync/syncFromR2.go:46-51 | a bundle is admitted once any key of it has "index.html" as its last segment, at any depth |
| RemoteSync.GroupOfEmpty | api/sync/syncFromR2.go:41-44 | an id with no well-formed key has no files |
| RemoteSync.GroupKeys | api/sync/syncFromR2.go:36-58 | the grouping loop yields one group per bundle id, each group being the bundle's keys in listing order, and the admitted ids, which all have a group |
| RemoteSync.GroupKey | api/sync/syncFromR2.go:40-57 | one key: a key with fewer than two segments after "games/" changes nothing; any other is appended to its bundle's file list, which starts empty, and admits the bundle when its last segment is index.html |
| RemoteSync.GroupStep | api/sync/syncFromR2.go:39-58 | one iteration of the grouping loop keeps the grouping invariant |
| RemoteSync.SyncKeyEffect | api/sync/syncFromR2.go:72-107 | one key: nothing existing is removed or overwritten, anything new comes from the remote object, an intact download makes the local file exist, and a key is fetched only when its local path was missing |
| RemoteSync.SyncKeysEffect | api/sync/syncFromR2.go:72-108 | the same four facts for a whole group of keys |
| RemoteSync.DownloadKey | api/sync/syncFromR2.go:72-106 | one key: an existing local path is left alone, a failed mkdir skips the key, otherwise the parent directory is created and the object requested, and a received object is written whole or truncated, as the one-key definition says |
| RemoteSync.DownloadGroup | api/sync/syncFromR2.go:72-108 | the inner loop leaves the disk and the fetched keys given by the key-by-key definition |
| RemoteSync.ReconcileGroups | api/sync/syncFromR2.go:63-110 | the outer loop counts the admitted groups as synced and the rest as skipped, and leaves the disk reconciled for every group |
| RemoteSync.ReconcileGroup | api/sync/syncFromR2.go:66-109 | one bundle: one without index.html is skipped and changes nothing; an admitted one has its files downloaded, keeping the loop invariant |
| RemoteSync.SyncFromR2 | api/sync/syncFromR2.go:16-114 | DEBUG_ENV "true" does nothing; a listing failure is the only error and changes nothing; otherwise synced and skipped count the admitted and the other bundles and add up to the number of bundles, nothing is overwritten, only keys of admitted bundles are written, every intact object of an admitted bundle ends up on disk, and only missing files are fetched |
| RemoteSync.SyncSummary | api/sync/syncFromR2.go:60-112 | the admitted and the skipped ids split the bundle ids, so their counts add up to the number of bundles, and every intact admitted object is on disk once the loop ends |
| RemoteSync.SkipKeepsInvariants | api/sync/syncFromR2.go:66-70 | skipping a bundle without index.html writes nothing and keeps the loop invariant |
| RemoteSync.GroupStepKeepsInvariants | api/sync/syncFromR2.go:72-109 | downloading one admitted bundle keeps the loop invariant |
| RemoteSync.SyncRootDiffersFromBundleRoot | api/sync/syncFromR2.go:17-73 | the bulk sync writes "games/<id>/<file>" under /games, which is the directory the upload handler uses only when the server runs at the file-system root |
| RemoteSync.FetchGameFromR2 | api/sync/syncIndividualGame.go:15-54 | the method leaves the disk, the error and the remote call given by the hydrate definition |
| RemoteSync.HydrateWritesBundleFile | api/sync/syncIndividualGame.go:20-50 | a missing bundle is fetched from key "games/<id>" and written as one file at `./games/<id>`, the bundle directory's own path |
| RemoteSync.HydrateIdempotent | api/sync/syncIndividualGame.go:23-26 | after a successful hydrate a second one returns without error and without calling the remote store |
| RemoteSync.HydrateGetFailureWritesNothing | api/sync/syncIndividualGame.go:32-38 | a failed GetObject creates no file and, unless the path was already there, is an error |
| MiscFiles.Ext | api/handlers/uploadMiscFile.go:54 | `filepath.Ext`: "" or a '.' and what follows it, a suffix of the name holding no further '.' and no '/' |
| MiscFiles.AllowedHaveMediaTypes | api/handlers/uploadMiscFile.go:141-158 | every extension on the allow-list of lines 23-31 maps to a real media type, never octet-stream; the image extensions exactly to image types, .mp4/.mov to video types and .mp3 to an audio type |
| MiscFiles.BucketName | api/handlers/uploadMiscFile.go:84-87 | R2_BUCKET when it is set, "shiba-arcade" otherwise; never empty |
| MiscFiles.KeyMatchesOnlyItsOwnId | api/handlers/uploadMiscFile.go:69-70 | the key "misc-files/<uuid><ext>" starts with the lookup prefix "misc-files/<id>" exactly when the id is that uuid |
| MiscFiles.MatchingKeys | api/handlers/serveMiscFile.go:33-39 | the listing under a prefix is exactly the stored keys starting with it |
| MiscFiles.LookupFindsTheUpload | api/handlers/serveMiscFile.go:33-53 | among keys made by the upload handler from distinct uuids, the lookup by an uploaded id finds exactly that upload's key |
| MiscFiles.ObjectStore.KeysIn | api/handlers/serveMiscFile.go:39 | the keys of a bucket are exactly the stored objects of that bucket |
| MiscFiles.ObjectStore.Put | api/handlers/uploadMiscFile.go:91-96 | PutObject stores the object under its bucket and key and changes no other object |
| MiscFiles.ObjectStore.List | api/handlers/serveMiscFile.go:34-39 | ListObjectsV2 returns each key of the bucket under the prefix once, and no other key |
| MiscFiles.ObjectStore.Get | api/handlers/serveMiscFile.go:58-61 | GetObject finds an object exactly when it is stored, and returns it |
| MiscFiles.UploadStatus | api/handlers/uploadMiscFile.go:33-102 | 200 exactly for a POST with a file whose lower-cased extension is allowed, a fresh id, a readable body and a working store; a disallowed extension is 400 |
| MiscFiles.UploadMiscFile | api/handlers/uploadMiscFile.go:33-122 | a refused upload answers its status and stores nothing; an accepted one stores the body under "misc-files/<id><ext>" in the bucket with the extension's content type and answers that id and its URL |
| MiscFiles.AcceptedUploadShape | api/handlers/uploadMiscFile.go:69-122 | the URL ends in "/misc-file/<fileId>", and the key starts with the lookup prefix of that id and ends in the extension |
| MiscFiles.ServeMiscFile | api/handlers/serveMiscFile.go:17-85 | an empty id is 400, a failed listing 500, no match or a failed get 404; otherwise a matching key is served with its body, its stored content type and a one-year Cache-Control |
| MiscFiles.UploadedFileIsServed | api/handlers/serveMiscFile.go:33-53 | the key served for an uploaded id is the one the upload handler stored |
| UploadClient.ClientExt | site/components/utils/uploadMiscFile.js:48-49 | a dotted name gives '.' and what follows its last '.', lower-cased; a name without '.' gives the whole lower-cased name (substring from index -1) |
| UploadClient.UploadMiscFile | site/components/utils/uploadMiscFile.js:40-116 | a missing file is refused first; success exactly for a file of an allowed type of at most 50 MiB and an ok, parsable answer, and it passes the answer's url, fileId and message through |
| UploadClient.LocalChecksPrecedeRequest | site/components/utils/uploadMiscFile.js:42-65 | a missing file, a disallowed type or an oversized file is refused locally, whatever the server would answer |
| UploadClient.FiftyMebibytesIsAccepted | site/components/utils/uploadMiscFile.js:59-65 | exactly 50 MiB passes the size check and one byte more fails it |
| UploadClient.SupportTestAgrees | site/components/utils/uploadMiscFile.js:131-139 | `isSupportedFileType` holds for a file exactly when the upload does not refuse its type |
| UploadClient.AllowListsAgree | site/components/utils/uploadMiscFile.js:47 | the client's list of extensions is the server's allow-list |
| UploadClient.ClientAndServerAgree | site/components/utils/uploadMiscFile.js:47-51 | for a file name without '/', the client accepts the type exactly when the server's extension test does |
| UploadClient.DottedNameExtensions | site/components/utils/uploadMiscFile.js:48-49 | for a dotted name the client's extension is the server's `filepath.Ext`, lower-cased |
| UploadClient.UndottedNameRejected | site/components/utils/uploadMiscFile.js:48-51 | a name without '.' is refused by both sides |
| UploadClient.ServerExtIsLastDot | api/handlers/uploadMiscFile.go:54 | for a dotted name without '/', `filepath.Ext` is the suffix from the last '.' |
| UploadClient.ServerExtNoDot | api/handlers/uploadMiscFile.go:54 | a name without '.' has no extension |
| HackatimeSync.CalculateProjectSecondsWithClaiming | hackatimeSync/index.js:376-416 | the total and the grown claimed set are those of the claiming definition: the claimed set gains exactly the names counted |
| HackatimeSync.ClaimLoop | hackatimeSync/index.js:390-413 | the for-of loop over the names computes the claiming definition's total and adds exactly its counted names to the claimed set |
| HackatimeSync.ClaimFacts | hackatimeSync/index.js:390-413 | a counted name was not claimed before, is counted once, matches a Hackatime project and comes from a non-empty name of the field; the total is the sum of the counted projects' seconds; every matching name ends up claimed |
| HackatimeSync.LegacyLoopIsClaim | hackatimeSync/index.js:434-448 | the legacy loop with its local "counted" set is the claiming loop with that set as the claimed set |
| HackatimeSync.LegacyIsFreshClaim | hackatimeSync/index.js:419-451 | `calculateProjectSeconds` equals `calculateProjectSecondsWithClaiming` started with nothing claimed |
| HackatimeSync.UniqueUsers | hackatimeSync/index.js:53-74 | only users under whom some game was grouped (a game with a slack id) are fetched |
| HackatimeSync.TrackSkipped | hackatimeSync/index.js:124-129 | a skipped game leaves every user's claimed set as it was |
| HackatimeSync.TrackClaimed | hackatimeSync/index.js:131-147 | a processed game adds its counted names to its own user's claimed set only |
| HackatimeSync.SyncGame | hackatimeSync/index.js:105-157 | one pass of the loop: a skipped game's entry is as stored and its user's claimed set stays; a processed game's entry carries the seconds it claims, which join that user's claimed set |
| HackatimeSync.PerformFullSync | hackatimeSync/index.js:40-170 | no API key throws the configuration error and a failed listing throws the listing's error; otherwise the result is the full-sync result, reached by the loop that claims per user |
| HackatimeSync.FullSyncResult | hackatimeSync/index.js:105-170 | one entry per listed game, in order, keeping its id and Name; a processed game carries its claimed total whatever the Airtable update answers (line 143); the success count is at most the number of games and the error count is 0 |
| HackatimeSync.OutcomesPartitionGames | hackatimeSync/index.js:105-157 | every game is either updated or skipped, so the two counts add up to the number of games |
| HackatimeSync.SkippedGameUnchanged | hackatimeSync/index.js:114-129 | in the sync's result, a game without a slack id or projects keeps its HackatimeSeconds, and it claims nothing |
| HackatimeSync.ClaimedGrows | hackatimeSync/index.js:396-409 | a user's claimed set only grows along the games, each game adding what it claims (lines 96-99) |
| HackatimeSync.ClaimStep | hackatimeSync/index.js:136-140 | a processed game adds exactly its counted names to its user's claimed set |
| HackatimeSync.ClaimedOnce | hackatimeSync/index.js:396-409 | with claiming as lines 96-99 do it, two games of the same user never count the same project, and no game counts one twice |
| HackatimeSync.EarliestGameWins | hackatimeSync/index.js:396-409 | with claiming as lines 96-99 do it, a project listed by an earlier game of the user that matches is claimed by it, and no later game of that user counts it |
| HackatimeSync.EmptyClaimsNothing | hackatimeSync/index.js:379-381 | an empty projects field, or a user without Hackatime projects, gives 0 and claims nothing |
| HackatimeSync.SyncService.RunBackgroundSync | hackatimeSync/index.js:16-37 | returns at once while a sync runs; otherwise it always clears the flag, on success records the full-sync result and the time and clears the error, and on a throw records its error (missing key or failed listing) and keeps the last result and time |
| HackatimeSync.SyncService.SyncAllGamesStatus | hackatimeSync/index.js:259-281 | 409 while a background sync runs, 500 when the sync throws (no API key or a failed listing), 200 otherwise |
| HackatimeSync.SyncService.constructor | hackatimeSync/index.js:10-13 | the service starts idle, with no result, no time and no error recorded |
| HackatimeSpans.CalculateProjectSeconds | hackatimeSync/test-thomas.js:226-254 | 0 for an empty field or a user without projects; otherwise the sum of the matched seconds over the field's names, a repeated name counted each time |
| HackatimeSpans.SumMatchedAppend | hackatimeSync/test-thomas.js:237-251 | the sum over two runs of names is the sum of the sums |
| HackatimeSpans.ClaimingCountsNoMore | hackatimeSync/index.js:376-416 | the claiming total never exceeds the plain total of this script: claiming only drops repeats |
| HackatimeSpans.DistinctNamesCountAlike | hackatimeSync/index.js:376-416 | without a name repeated case-insensitively, the claiming total with nothing claimed equals the plain total |
| HackatimeSpans.Overlap | hackatimeSync/test-thomas.js:403-417 | the overlap of a span with the window is at least 0 and at most the window's length |
| HackatimeSpans.CalculateHoursFromSpans | hackatimeSync/test-thomas.js:397-422 | the loop yields the total overlap of the named projects' spans with the window, divided by 3600, and the result is never negative |
| HackatimeSpans.EmptyWindowGivesZero | hackatimeSync/test-thomas.js:408 | a window with start >= end yields 0 |
| HackatimeSpans.UntrackedProjectsAddNothing | hackatimeSync/test-thomas.js:401 | projects without a spans entry contribute nothing |
| HackatimeSpans.OverlapSplits | hackatimeSync/test-thomas.js:408-416 | splitting a window at a point inside it splits one span's overlap |
| HackatimeSpans.SpansOverlapSplits | hackatimeSync/test-thomas.js:403-418 | the same for all spans of a project |
| HackatimeSpans.TotalOverlapSplits | hackatimeSync/test-thomas.js:400-419 | the total overlap is additive over adjacent windows |
| HackatimeSpans.Insert | hackatimeSync/test-thomas.js:362-366 | inserting a post adds exactly that post |
| HackatimeSpans.InsertKeepsOrder | hackatimeSync/test-thomas.js:362-366 | inserting into posts sorted by creation time keeps them sorted |
| HackatimeSpans.SortByTime | hackatimeSync/test-thomas.js:362-366 | the sort yields the same posts, oldest first |
| HackatimeSpans.ProcessGamePosts | hackatimeSync/test-thomas.js:339-395 | no project names means no posts are fetched or updated; otherwise one update per post, in sorted order, with the hours of its window: [start date, first post] for the first, [previous post, post] for each later one |
| HackatimeSpans.WindowsTile | hackatimeSync/test-thomas.js:369-385 | the windows are contiguous: the seconds of the first n windows are the overlap with [start date, post n] |
| Airtable.NormalizeLinkedIds | hackatimeSync/test-thomas.js:328-337 | a string array is returned unchanged, an empty array or a non-array gives [], and an object array gives one id per element |
| Airtable.LinkedObjectsGiveTheirIds | hackatimeSync/test-thomas.js:332-334 | an array of linked-record objects becomes the list of their ids, in order |
| Airtable.LinkedIdMembership | hackatimeSync/test-thomas.js:320-323 | for a string array, `includes(gameId)` on the normalised ids is membership in the array |
| Airtable.ProjectNames | hackatimeSync/index.js:384-386 | an array's truthy names, each kept and none empty; a string gives one trimmed piece per ',' piece; anything else gives none |
| Airtable.ProjectsDisplay | hackatimeSync/index.js:118-120 | a string field is shown as it is, a missing or other field as "" |
| Airtable.FindProject | hackatimeSync/index.js:402-404 | a found project is one of the user's, with a non-empty name equal to the sought one case-insensitively; none is found exactly when no project has such a name |
| Airtable.DisplayParsesBack | hackatimeSync/index.js:384-386 | names without commas or outer blanks, shown joined with ", " here and parsed back from the string as lines 118-120 do, are the same names in order |
| Airtable.FetchAllRecords | hackatimeSync/index.js:317-339 | the do-while loop over pages reads the records of every page up to the first page without an offset, in order |
| Airtable.PageStep | hackatimeSync/index.js:321-336 | one iteration appends the page's records and stops exactly when the page names no offset |
| Airtable.AllPagesRead | hackatimeSync/index.js:321-336 | when every page but the last names an offset, every record of every page is read |
| PlaytestAssign.Repeat | playtestScript/main.py:152-165 | n copies of the entry, and nothing else |
| PlaytestAssign.PoolsMatch | playtestScript/main.py:147-165 | the games pool and the players pool both have one entry per ticket needed, and entry k of the players pool is the owner of entry k of the games pool |
| PlaytestAssign.IneligibleRecordsAddNothing | playtestScript/main.py:131-144 | a record with TicketsNeeded <= 0 adds nothing to either pool |
| PlaytestAssign.AppendCopies | playtestScript/main.py:152-158 | `for _ in range(n): pool.append(x)` appends exactly n copies of x |
| PlaytestAssign.BuildPools | playtestScript/main.py:131-165 | the filter and the pool-filling loops build exactly the pools of the eligible records |
| PlaytestAssign.FirstSuitable | playtestScript/main.py:200-248 | the scan stops at the first player with a user id, other than the owner and not yet given this game; every player it passes is unsuitable |
| PlaytestAssign.Step | playtestScript/main.py:188-302 | each iteration of the outer loop that does not fail moves to the next game entry and counts one attempt |
| PlaytestAssign.PlaceGame | playtestScript/main.py:189-302 | the forward scan, the wrap-around scan (bounded by the end of the pool) and the skip compute the corrected step |
| PlaytestAssign.Tickets | playtestScript/main.py:228-284 | one createPlaytest request per assignment, in order, with its game and player |
| PlaytestAssign.CircularAssignment | playtestScript/main.py:179-302 | the loop reaches the corrected assignment's final state; tickets are requested for its assignments, and none in simulation mode |
| PlaytestAssign.StepKeepsGood | playtestScript/main.py:204-269 | an iteration keeps the invariant: nobody tests their own game, no (player, game) pair is assigned twice, at most one assignment per game entry, and attempts equal the game index |
| PlaytestAssign.RunKeepsGood | playtestScript/main.py:188-302 | the whole loop keeps that invariant, also up to the point where the as-written script fails |
| PlaytestAssign.AssignmentsAreValid | playtestScript/main.py:204-269 | every assignment made has a player who is not the owner, and no pair is repeated |
| PlaytestAssign.SkippedOnlyWhenNobodyFits | playtestScript/main.py:299-302 | a game entry is skipped only when no player in the whole pool fits it, and the scan then resumes one past where it started |
| PlaytestAssign.CorrectedRunNeverCrashes | playtestScript/main.py:252-297 | with the wrap-around scan bounded by the pool, the loop never indexes past the players pool |
| PlaytestAssign.RunVisitsAllGames | playtestScript/main.py:188-301 | with enough attempts every game entry is visited once |
| PlaytestAssign.AllGamesVisited | playtestScript/main.py:183-188 | with pools of equal size the attempt cap never stops the loop early: every game entry is visited and there are no more assignments than entries |
| PlaytestAssign.AsWrittenWrapScanOverruns | playtestScript/main.py:245-302 | with A needing three tickets and B one, in pool order [GA, GA, GA, GB] and [A, A, A, B], the script as written reads past the players pool on the third game entry (index 2), while the bounded scan completes |
| PlaytestDedupe.GroupsAreExact | playtestScript/remove_duplicates.py:96-110 | tickets with both a player and a game are grouped under "<player>_<game>", each group holding exactly the tickets of its key; tickets lacking either are in no group; each key appears once |
| PlaytestDedupe.Duplicates | playtestScript/remove_duplicates.py:112-119 | the duplicate groups are exactly the groups of more than one ticket |
| PlaytestDedupe.AnalyzeDuplicates | playtestScript/remove_duplicates.py:92-139 | the loops return the duplicate groups of the fetched tickets, in key order |
| PlaytestDedupe.BeforeTransitive | playtestScript/remove_duplicates.py:165 | the string order the sort uses is transitive |
| PlaytestDedupe.BeforeIrreflexive | playtestScript/remove_duplicates.py:165 | and irreflexive |
| PlaytestDedupe.OldestIndex | playtestScript/remove_duplicates.py:165-168 | the kept ticket is the one a stable sort by creation time puts first: older than every ticket before it and no later ticket older than it |
| PlaytestDedupe.Without | playtestScript/remove_duplicates.py:169 | the tickets deleted from a group are the group less the kept ticket |
| PlaytestDedupe.PlanDeletions | playtestScript/remove_duplicates.py:160-180 | each duplicate group keeps its oldest ticket and schedules every other one, so count - 1 tickets per group are scheduled |
| PlaytestDedupe.RemoveDuplicates | playtestScript/remove_duplicates.py:141-213 | the result is None (the bare `return`) exactly without duplicates or when a live run's answer is not "yes", and then nothing is deleted; simulation deletes nothing; otherwise the oldest ticket of each group is kept, count - 1 per group are scheduled and returned, and live mode issues one DELETE per scheduled ticket |
| PlaytestDedupe.ExcessGrows | playtestScript/remove_duplicates.py:168-180 | each group adds its count less one to the number scheduled |
| GetGame.Recent | site/pages/api/gameStore/getGame.js:35 | the kept timestamps are exactly the recorded ones strictly after the window start |
| GetGame.RateLimiter.Admit | site/pages/api/gameStore/getGame.js:26-42 | a request is refused exactly when its IP already has 10 or more timestamps within the last 60000 ms; a refused request records nothing; an accepted one keeps only the recent timestamps and appends now; the per-IP bound is kept |
| GetGame.QuietMinuteAdmits | site/pages/api/gameStore/getGame.js:28-37 | once a minute has passed since every recorded request, nothing counts against the IP |
| GetGame.RecentOfRecent | site/pages/api/gameStore/getGame.js:35-42 | filtering by an older window start and then a newer one is filtering by the newer one |
| GetGame.RecentAppend | site/pages/api/gameStore/getGame.js:35 | the filter distributes over concatenation |
| GetGame.PruningLosesNothing | site/pages/api/gameStore/getGame.js:35-42 | dropping the stale timestamps when storing never changes a later decision: the pruned history counts the same as the full one |
| GetGame.MissingNotAcceptable | site/pages/api/gameStore/getGame.js:48-63 | a missing, empty or otherwise falsy field can never pass the later checks, so reporting it as missing first hides no valid request |
| GetGame.Validate | site/pages/api/gameStore/getGame.js:48-73 | valid exactly for two strings whose trimmed forms are acceptable, and then it yields the trimmed forms; a falsy field is reported as missing first |
| GetGame.CheckTrimmed | site/pages/api/gameStore/getGame.js:61-73 | the trimmed values pass exactly when both are non-empty, the slack id is upper-case letters and digits of length at most 20, and the game name has at most 200 characters |
| GetGame.ValidationIgnoresPadding | site/pages/api/gameStore/getGame.js:58-59 | surrounding white space never changes the outcome for values with non-blank content |
| GetGame.View | site/pages/api/gameStore/getGame.js:94-107 | the game's id and name are passed through, and the Hackatime projects shown are a string as it is or "" for a missing or other value |
| GetGame.Handle | site/pages/api/gameStore/getGame.js:15-80 | 405 for anything but POST and 500 without an API key, neither recorded; 429 exactly when the IP is over its quota, recording nothing; any later outcome is recorded; 400 exactly for invalid input past the limiter, so invalid requests still use quota; 200 exactly for a found game, with its view |
| GetGame.RateLimiter.constructor | site/pages/api/gameStore/getGame.js:6 | the limiter starts with no IP recorded |
| SubmitPlaytest.ScoredHoldsAllButStatus | site/pages/api/submitPlaytest.js:77-106 | the conditionally written fields are all the fields but status |
| SubmitPlaytest.FieldsUpdateStep | site/pages/api/submitPlaytest.js:77-103 | considering one more field adds it exactly when it is writable |
| SubmitPlaytest.WrittenKeysMembers | site/pages/api/submitPlaytest.js:77-119 | the written keys are exactly the writable fields of the list |
| SubmitPlaytest.FillFields | site/pages/api/submitPlaytest.js:77-103 | the conditional assignments build the update and its key order given by the field-by-field definition |
| SubmitPlaytest.BuildUpdateFields | site/pages/api/submitPlaytest.js:75-106 | updateFields is the writable fields with their submitted values plus status "Complete", and its keys are listed in assignment order |
| SubmitPlaytest.UpdateNeverEmpty | site/pages/api/submitPlaytest.js:105-111 | status is always set to "Complete", so the "all fields are already filled out" reply cannot happen |
| SubmitPlaytest.FilledFieldsKept | site/pages/api/submitPlaytest.js:77-103 | a field that already holds a truthy value keeps it |
| SubmitPlaytest.WrittenIff | site/pages/api/submitPlaytest.js:77-103 | a field is written exactly when its current value is falsy and a value was submitted, and then it takes that value |
| SubmitPlaytest.ResubmitChangesNothing | site/pages/api/submitPlaytest.js:77-106 | submitting the same values again to the updated ticket changes nothing |
| SubmitPlaytest.MatchesOf | site/pages/api/submitPlaytest.js:36-61 | a query's matches are exactly the tickets it matches |
| SubmitPlaytest.FirstMatch | site/pages/api/submitPlaytest.js:71 | the first element of the matches is the first matching ticket |
| SubmitPlaytest.FirstPage | site/pages/api/submitPlaytest.js:38-57 | `firstPage()` gives at most one page, a prefix of the records |
| SubmitPlaytest.Found | site/pages/api/submitPlaytest.js:33-65 | PlaytestId is tried first, then PlaytestID, then the in-memory filter; whatever is found is a ticket matching one of the id fields, the first query's first match wins when it works, the second's when the first works and finds nothing, and nothing is found exactly when every query throws or matches nothing |
| SubmitPlaytest.FindTicket | site/pages/api/submitPlaytest.js:33-65 | the three queries run in turn find exactly the tickets of the lookup, with its properties |
| SubmitPlaytest.TicketFoundWhenIdPresent | site/pages/api/submitPlaytest.js:36-38 | a ticket holding the id under PlaytestId is among the first query's matches |
| SubmitPlaytest.Submit | site/pages/api/submitPlaytest.js:5-120 | 405 for anything but POST, 400 exactly without token or playtest id, 401 exactly for an unknown token, 404 exactly when no ticket is found; a 200 names the first ticket of the lookup and sends it the write-if-empty update of that ticket's fields, which always holds status, and lists exactly its keys |
| Purchase.MissingList | site/pages/api/Purchase.js:35-46 | a field is listed exactly when it is falsy, the names come in the order token, shopItemId, shippingInfo, and the list is empty exactly when all three are present |
| Purchase.MissingFields | site/pages/api/Purchase.js:35-46 | the pushes build exactly the missing list, so a field is listed exactly when it is falsy, in the order token, shopItemId, shippingInfo |
| Purchase.GenerateOrderId | site/pages/api/Purchase.js:228-231 | the order id is nine decimal digits without a leading zero, a number in [100000000, 999999999] |
| Purchase.NineDigits | site/pages/api/Purchase.js:230 | every number from 100000000 to 999999999 prints as nine digits, the first not 0 |
| Purchase.Handle | site/pages/api/Purchase.js:9-46 | 405 for anything but POST, 500 without an API key, 400 exactly when a required field is falsy, and then the reply lists exactly the missing fields in order; past those checks the reply is the decision chain's |
| Purchase.CreatedOnlyWhenAffordable | site/pages/api/Purchase.js:53-131 | an order is created exactly when the user and the item are found, the item is in stock and the balance covers the cost (equality allowed); it is Unfulfilled, spends the server-side item cost, links that user and that item, and has a nine-character id; each of the nine shipping fields is the request's value when truthy and "" otherwise |
| Purchase.ShortfallPositive | site/pages/api/Purchase.js:97-105 | a refused balance reports a positive shortfall that is the cost less the balance |
| Purchase.ChecksInOrder | site/pages/api/Purchase.js:53-105 | the checks run in order: unknown token (401), unknown item (400), no stock (`inStock <= 0`), then the balance |
| CreatePost.Prefix | site/pages/api/createPost.js:35 | `substring(0, n)` is the first min(n, length) characters: a prefix of at most n characters, the whole string when it fits |
| CreatePost.Sanitize | site/pages/api/createPost.js:35-38 | the stored content is a prefix of the trimmed content of at most 5000 characters, empty exactly when the trimmed content is, and all of it when it fits |
| CreatePost.SanitizeFitsIdempotent | site/pages/api/createPost.js:35 | content that fits is stored trimmed and whole, and sanitising twice changes nothing |
| CreatePost.PlayLinkOf | site/pages/api/createPost.js:70-80 | a play link is stored only when it is a non-blank string whose trimmed 500-character prefix parses with protocol "https:", and then it is that prefix |
| CreatePost.TrimInside | site/pages/api/createPost.js:115 | trimming brings in no character the text did not have |
| CreatePost.LinksArePlain | site/pages/api/createPost.js:115 | every link read from the stored text is non-blank, trimmed and free of commas |
| CreatePost.LinksRoundTrip | site/pages/api/createPost.js:115-125 | joining plain links with ", " and splitting, trimming and filtering them again gives back the same list |
| CreatePost.JoinStartsWithFirst | site/pages/api/createPost.js:125 | the joined text is at least as long as its first link |
| CreatePost.MergeLink | site/pages/api/createPost.js:113-132 | the new links text is the stored list with the url pushed when it is not already included; read back it is that list |
| CreatePost.MergeProperties | site/pages/api/createPost.js:114-125 | after a merge the url is among the links, no earlier link is lost, a list without repeats stays without repeats, and merging the same url again changes nothing |
| CreatePost.AttachLinks | site/pages/api/createPost.js:89-139 | the attachment loop leaves the links text that merging each url-carrying item in turn gives |
| CreatePost.AttachedLinksDistinct | site/pages/api/createPost.js:89-139 | after the loop every url of a url item is among the links and no link appears twice |
| CreatePost.LinksAfterLast | site/pages/api/createPost.js:90-137 | the loop's result is the merge of the last item into the result of the items before it |
| CreatePost.AttachStep | site/pages/api/createPost.js:110-137 | one url item keeps the links distinct, keeps every earlier link and adds its own url |
| CreatePost.ContentTypeFor | site/pages/api/createPost.js:195-203 | the type's family is the list the extension is on: image/ exactly for an image extension, video/ exactly for a video one, audio/ exactly for an audio one, and application/octet-stream exactly for an extension on no list |
| UploadTypes.ContentTypesAcrossUploads | site/pages/api/createPost.js:195-203 | for every extension the misc-file upload accepts, createPost's type has the family of the type the upload stores (`getContentType`, uploadMiscFile.go), and is the same type except for .mov and .mp3, where createPost sends video/mov and audio/mp3 and the upload stores video/quicktime and audio/mpeg |
| CreatePost.ExtensionListsDisjoint | site/pages/api/createPost.js:197-201 | no extension is in two of the image, video and audio lists, so the order of the tests does not matter |
| CreatePost.NameAndExt | site/pages/api/createPost.js:179-193 | a name and an extension come out unless the name has no dot and the URL does not parse; either the extension holds no dot or the name holds none |
| CreatePost.LinkedAttachment | site/pages/api/createPost.js:178-212 | an attachment built from a link keeps the link as its url and has a dotted file name |
| CreatePost.HoursOf | site/pages/api/createPost.js:67 | for numbers, the hours spent are the hours plus the minutes divided by 60 |
| CreatePost.Handle | site/pages/api/createPost.js:11-147 | 405 exactly for a non-POST; 400 exactly for a missing token, game id or content, an incomplete artlog or content that is blank once trimmed; 401 exactly for an unknown token on an otherwise valid request; 500 when the game's Owner list makes `normalizeLinkedIds` throw (an object list holding null or undefined); 403 only for a user who does not own the game; 200 exactly for an owner with valid input, storing the sanitised content, the game link, the checked play link, the artlog fields exactly for an artlog, and the merged attachment links; no other status is returned |
| HackatimeProjects.ListedNames | site/pages/api/hackatimeProjects.js:54-63 | the names a game lists (a comma-separated text or an array, each trimmed) are never empty |
| HackatimeProjects.AddNames | site/pages/api/hackatimeProjects.js:56-62 | entering a game's names maps each of them to that game's id and leaves every other name as it was |
| HackatimeProjects.ListingsOf | site/pages/api/hackatimeProjects.js:53-63 | each record gives one listing, in order, with its id and its listed names |
| HackatimeProjects.EnterNames | site/pages/api/hackatimeProjects.js:56-58 | the forEach over one game's names leaves the map that entering the names one by one gives |
| HackatimeProjects.ListingStep | site/pages/api/hackatimeProjects.js:53-71 | one more record adds its names to the map, and it replaces the allowed list exactly when it is the requested game |
| HackatimeProjects.CollectAssigned | site/pages/api/hackatimeProjects.js:53-71 | the loop over all records yields the map of claimed names and the requested game's own list |
| HackatimeProjects.TakenIffListed | site/pages/api/hackatimeProjects.js:53-63 | a name is in the map exactly when some game lists it |
| HackatimeProjects.TakenByLastLister | site/pages/api/hackatimeProjects.js:57-61 | a name listed by several games maps to the last of them in table order |
| HackatimeProjects.InheritedNameHiddenAsWritten | site/pages/api/hackatimeProjects.js:39-89 | a project named "constructor" that no game lists looks claimed through the plain object, while the corrected test finds it unclaimed |
| HackatimeProjects.FilterOffered | site/pages/api/hackatimeProjects.js:87-92 | a project is kept exactly when it has a name and is either unclaimed or, for a requested game, on that game's own list |
| HackatimeProjects.Minutes | site/pages/api/hackatimeProjects.js:96 | the minutes are the seconds divided by 60 rounded to the nearest whole number, halves up |
| HackatimeProjects.NamesOf | site/pages/api/hackatimeProjects.js:93 | the project names, one per offered project and in its order |
| HackatimeProjects.TimedOf | site/pages/api/hackatimeProjects.js:94-97 | each offered project with its time in rounded minutes, in order |
| HackatimeProjects.Handle | site/pages/api/hackatimeProjects.js:24-99 | 405 for anything but GET, 400 for a slack id that is not 1-50 characters of [A-Za-z0-9_-] after trimming, the upstream status when Hackatime fails, and otherwise 200 with the offered projects, where an unreadable Games table claims nothing (corrected claim test; see Findings) |
| HackatimeProjects.ReplyListsAgree | site/pages/api/hackatimeProjects.js:93-97 | the two lists of the reply name the same projects in the same order |
| HackatimeProjects.UnreadableTableOffersAll | site/pages/api/hackatimeProjects.js:72-76 | when the Games table cannot be read, every named project is offered |
| HackatimeProjects.OfferedForItsGame | site/pages/api/hackatimeProjects.js:89-91 | a project the requested game lists is offered to it even when claimed, and a claimed one it does not list is not |
| FunnelData.MilestoneBelow | site/pages/api/analytics/getFunnelData.js:36-84 | a user counted at an hour milestone is counted at every lower one |
| FunnelData.FunnelNarrows | site/pages/api/analytics/getFunnelData.js:17-84 | for any set of users each milestone counts no more than the one below it, ten hours no more than those with Hackatime time, and every count is at most the signups |
| FunnelData.Handle | site/pages/api/analytics/getFunnelData.js:6-144 | 405 exactly for a non-GET, 500 exactly for a missing API key or a failed request, otherwise the counts over every page of the Users table, which narrow |
| SignupData.CommunityAsWritten | site/pages/api/analytics/getShibaSignupData.js:26 | the four-way test reduces to "ReferredBy is falsy" |
| SignupData.CountSources | site/pages/api/analytics/getShibaSignupData.js:20-31 | the forEach counts the users without a referrer and those with one, and the two counts add up to the number of users |
| SignupData.SourcesPartition | site/pages/api/analytics/getShibaSignupData.js:23-33 | every user falls under exactly one of the two sources |
| SignupData.Handle | site/pages/api/analytics/getShibaSignupData.js:6-41 | 405 exactly for a non-GET, 500 exactly for a missing API key or a failed request, otherwise the total is the number of users on every page and the two sources add up to it |
| ReviewBacklog.FetchFirstPageOnlyAsWritten | site/pages/api/analytics/getReviewBacklog.js:17-35 | as written, the fetch loop ends after one request and reads only the first page |
| ReviewBacklog.FirstPageOnlyUndercounts | site/pages/api/analytics/getReviewBacklog.js:21-35 | when the table has a second, non-empty page, the first page holds fewer records than the table |
| ReviewBacklog.CountStatuses | site/pages/api/analytics/getReviewBacklog.js:38-43 | each counter is the number of records with its status, and together they count no more than the records |
| ReviewBacklog.StatusCountsFitTotal | site/pages/api/analytics/getReviewBacklog.js:38-43 | the counts of three distinct statuses add up to at most the number of records |
| ReviewBacklog.Handle | site/pages/api/analytics/getReviewBacklog.js:5-75 | 405 exactly for a non-GET, 500 exactly when a request fails, otherwise the three bars in fixed order, counted over every page of the table, with the total record count (corrected paging; see Findings) |
| ShippingInput.PhoneShape | site/components/ShippingInput.js:2-16 | a normalised phone is empty or "+" followed by digits only, and it is empty exactly when the typed text has no digit |
| ShippingInput.PhoneKeepsDigits | site/components/ShippingInput.js:4-12 | normalising keeps the typed digits, in order |
| ShippingInput.PhoneIdempotent | site/components/ShippingInput.js:2-16 | normalising a normalised phone changes nothing |
| ShippingInput.MinLengthCountsThePlus | site/components/ShippingInput.js:18-40 | only a tel input has a minimum length, and a normalised tel value meets it exactly when it holds at least nine digits, because the "+" counts as one of the ten characters |
| ShippingInput.InputElement.constructor | site/components/ShippingInput.js:35-38 | the input starts with the value given |
| ShippingInput.HandlePhoneChange | site/components/ShippingInput.js:2-16 | a tel input's value is replaced by its normalised form, and any other input is left as it is |
| ShippingInput.OnChange | site/components/ShippingInput.js:41-48 | the input is normalised when it is a tel input, and the callback, when there is one, sees the value after normalisation |
| ShopItemRenderer.TooltipExplainsDisabled | site/components/utils/ShopItemRenderer.js:13-29 | a tooltip is shown exactly when the item is disabled, no stock is reported before a short balance, and the shortfall is what the balance lacks |
| ShopItemRenderer.ButtonAndClick | site/components/utils/ShopItemRenderer.js:31-42 | the button reads "Out of Stock" exactly when there is no stock, and a click buys exactly when there is a handler, the balance covers the price and there is stock |
| ShopItemRenderer.UnreadablePropsReadAsZero | site/components/utils/ShopItemRenderer.js:13-19 | each prop reads as `parseInt(x) \|\| 0`: an unreadable stock disables the card with "Out of stock", an unreadable price is covered by any balance that is not negative, and an unreadable balance cannot buy an item with a positive price |
| ShopItemRenderer.CardAgreesWithEndpoint | site/components/utils/ShopItemRenderer.js:17-19 | for whole numbers, the card's buy button is enabled exactly when the purchase endpoint, given the same user and item, creates the order |
| PurchaseModal.PhoneDigitsImplyNonBlank | site/components/PurchaseModal.js:77-87 | a phone with a digit is never blank, so the ten-digit test alone decides the phone's part of the form check |
| PurchaseModal.FormValidity | site/components/PurchaseModal.js:75-89 | the form check ignores the second street line, and normalising the phone as a tel input does not change the verdict |
| PurchaseModal.Dialog.constructor | site/components/PurchaseModal.js:9-10 | the dialog starts idle and unsuccessful, with the balance given |
| PurchaseModal.Dialog.HandlePurchase | site/components/PurchaseModal.js:91-155 | an invalid form or a purchase in flight sends nothing and changes nothing; otherwise the request carries parseFloat(price) or 0, a success takes that amount off the shown balance and marks the purchase successful, a failure keeps both, and the in-flight flag is cleared either way |
| ArtlogForm.GetFormData | site/components/ArtlogPostForm.js:60-95 | getFormData with the intended time check: an accepted form has positive hours or minutes |
| ArtlogForm.TypedZeroPassesAsWritten | site/components/ArtlogPostForm.js:80 | a form whose boxes both read "0" passes the as-written time check with no time spent, while isValid (lines 100-110) and the corrected check reject it |
| ArtlogForm.FirstFailureReported | site/components/ArtlogPostForm.js:60-95 | the checks run in order and the first failure is reported; an accepted form yields the trimmed texts and the uploaded URLs |
| ArtlogForm.ValidIffAcceptedAndUploaded | site/components/ArtlogPostForm.js:100-110 | isValid holds exactly when the form is accepted and both uploads are recorded |
| ArtlogForm.Form.constructor | site/components/ArtlogPostForm.js:13-20 | the form starts with no files, no uploads, empty texts and both time boxes at the number 0 |
| ArtlogForm.Form.SelectTimelapse | site/components/ArtlogPostForm.js:122-144 | a file that is not an MP4 or QuickTime video of at most 50 MiB changes nothing; an accepted one is selected and its upload recorded when it succeeds, and uploads still follow selections |
| ArtlogForm.Form.SelectScreenshot | site/components/ArtlogPostForm.js:179-194 | a file that is not an image changes nothing; an accepted one is selected and its upload recorded when it succeeds |
| ArtlogForm.Form.ClearFileInputs | site/components/ArtlogPostForm.js:27-33 | both files and both uploads are forgotten and nothing else changes |
| PostAttachment.FirstText | site/components/utils/PostAttachmentRenderer.js:31 | the attachment found is one of the list and has a text type, and none is found only when no attachment has one |
| PostAttachment.PlayHrefPrefersPlayLink | site/components/utils/PostAttachmentRenderer.js:27-35 | a non-blank play link wins, trimmed; otherwise the link is the url of the first text attachment |
| PostAttachment.SegmentRun | site/components/utils/PostAttachmentRenderer.js:41 | the run is the longest prefix without '/', '?' or '#' |
| PostAttachment.PlayMatchSound | site/components/utils/PostAttachmentRenderer.js:41 | what the pattern captures is a non-empty segment that follows "/play/" somewhere in the path |
| PostAttachment.PlayMatchFindsId | site/components/utils/PostAttachmentRenderer.js:41 | a path "/play/" + id followed by nothing or a segment end captures exactly the id |
| PostAttachment.GameId | site/components/utils/PostAttachmentRenderer.js:37-46 | without a play link the game id is "" |
| PostAttachment.GameIdReadsPlayPath | site/components/utils/PostAttachmentRenderer.js:37-46 | a relative link "/play/" + id (with an optional query, fragment or further path) gives the decoded id, or "" when decoding throws |
| PostAttachment.KindByTypeOrExtension | site/components/utils/PostAttachmentRenderer.js:49-90 | an attachment is an image, video or audio exactly when its type or its extension says so, image before video before audio; the second round for generic types never changes the verdict |
| PostAttachment.FilenameExtensionFirst | site/components/utils/PostAttachmentRenderer.js:55-69 | a dotted file name decides the extension and the url is not consulted |
| PostAttachment.Columns | site/components/utils/PostAttachmentRenderer.js:449-455 | the grid has between one and three columns: one per media item up to three |

## Left out

- HTTP plumbing is not modelled: multipart parsing, temporary files, JSON envelopes, headers and route registration. Each handler's reply is a status with the fields its decision fixes.
- Zip decompression, the S3/R2 SDK, Airtable, the Hackatime API and `fetch` are oracles. Their results (entry lists, key pages, records, statuses, created ids, failure flags) are parameters.
- Pagination transport and retries are not modelled. A page sequence is given, and its last page carries no offset.
- The detached upload goroutine, the hydration goroutine and the `setInterval`/`setTimeout` scheduling of the Hackatime sync are not modelled. `isSyncRunning` is a sequential guard flag.
- UUIDv7 and `uuid4` ids, `random.shuffle` and `Math.random` are arbitrary inputs. A bundle id is a fresh name, the shuffled pools are any order, and `generateOrderId` takes the random fraction as a parameter.
- The serving handlers in `api/handlers/playGame.go` are not part of this model. Path containment is claimed only for what ingestion writes.
- Two roots for one store: the bulk sync writes under `/games` while ingestion and hydration use `./games`. This is recorded by RemoteSync.SyncRootDiffersFromBundleRoot, not repaired.
- Hydration fetches one object at `games/<id>` while the bulk sync works per file. This is recorded as written (RemoteSync.HydrateWritesBundleFile).
- A failed copy leaves a partial file (LocalStore.Truncated), and entries written before a rejected zip entry stay on disk (ArchiveIngest.FirstInvalidEntryEndsRequest). Both are modelled as written.
- RemoteSync.ReconcileGroups: Go map iteration order is arbitrary. The model picks the groups in an order it leaves open, and the outcome it proves holds for every order.
- MiscFiles.ServeMiscFile: which of several keys with the same id prefix is served depends on the listing order. The model serves one of the matching keys without saying which.
- Common.Trim and Common.Lower are ASCII-only. JavaScript and Go trim Unicode white space and fold Unicode case.
- CreatePost.Sanitize counts characters, where JavaScript's `substring` counts UTF-16 code units. The two differ only outside the Basic Multilingual Plane.
- `parseInt`/`parseFloat` are modelled only where their result matters. ArtlogForm reads digit strings. ShopItemRenderer and PurchaseModal take the parse result (None for NaN) as a parameter.
- CreatePost.HoursOf states the hours only when both parts are numbers; parsing numeric strings is left to `parseFloat`.
- `String()` of a non-string array element in a Hackatime Projects field is not modelled. Arrays are taken as arrays of strings.
- ReviewBacklog.StatusOf treats a non-string ReviewStatus as no status. Such a record is not counted.
- Date parsing, locale formatting and the hours-per-day rounding are not modelled. Times are whole seconds, and hours are a final real division.
- GetGame.Handle leaves out the fetch and sort of the game's posts and the passthrough of record fields it does not decide on.
- Sorts (HackatimeSpans.SortByTime, and the sort by creation time behind PlaytestDedupe.OldestIndex) are modelled on values. The in-place permutation of a JavaScript or Python list is not.
- PlaytestDedupe.RemoveDuplicates computes which tickets are deleted. The order of the deletion requests is not modelled.
- Base64 attachment uploads in createPost are not modelled.
- HackatimeSync.PerformFullSync: `updateGameHackatimeSeconds` reports a failed PATCH by returning false, and line 143 ignores it, so the model has no failed-update case. The per-game catch (lines 150-154) is reached only when claiming throws on a project name or a Hackatime project name that is not a string; names are strings here, so the error count is always 0.
- A thrown error that becomes a 500 is modelled only where a failure flag or a status is an input. Not modelled: a throw of the Games lookup in getGame, of the user lookup or update in submitPlaytest, of the Hackatime fetch itself in hackatimeProjects, and of `new URL` in createPost.
- PlaytestDedupe.RemoveDuplicates: the script's `main()` passes the result to `len()` (remove_duplicates.py:235 and 238), which raises TypeError on the None of the two early exits. `main()` is outside the model; RemoveDuplicates returns None there, as the source does.
- Purchase.Handle: `findUserByToken` throwing (Purchase.js:53) is caught at line 155 and answered with 500; the model takes the user lookup as an answer and has no such 500.
- CreatePost.Handle: these thrown errors end in the catch's 500 (createPost.js:224-227) and are not modelled: the user lookup (line 41); the Games GET (line 47), which throws on a non-ok answer (lines 252-255), so an unknown or deleted game id gives 500 where the model, given an undefined Owner, gives 403; the Posts create (line 82); and the final GET of the post (lines 142-147), which gives 500 also when it answers nothing.
- CreatePost.Handle: a failed GET or PATCH of the attachment links (createPost.js:129-136) is caught and the handler goes on, so the stored links can stay as they were; the model always reports the merged links.
- ArchiveIngest.IngestEntry: the error of creating a directory entry (gameUpload.go:114) is ignored in the original, and the model treats the directory as created.
- ArchiveIngest.IngestEntry: the permission bits the original takes from the archive entry (gameUpload.go:114 and 130) are not modelled.
- Purchase.Handle: a Cost that `parseFloat` reads as NaN makes the balance comparison false, so the order is created with a NaN amount (sent as null); the model takes the cost as a number.
- UploadClient.UploadMiscFile: a response body that parses to JSON `null` makes `data.message` throw, and the outer catch turns it into a failure with the error's message; the model treats only unparseable bodies specially.
- Airtable formula strings are built by escaping helpers outside the core. Formula injection is not modelled.
- SubmitPlaytest.Submit takes the playtest id as a string. A non-string id in the request body is not modelled.
- CreatePost.NameAndExt and CreatePost.LinkedAttachment take `new URL(url).pathname` as an input, with None when it throws. The handler's 500 on that throw is not modelled.
- CreatePost.NameAndExt states only where a missing result comes from and that the extension or the name is dot-free. The partner member is CreatePost.ContentTypeFor.
- PostAttachment.GameId states only that a missing link gives "". PostAttachment.GameIdReadsPlayPath states what a play link yields.
- React rendering, alerts, timers and the `uploadProgress` map are not modelled. ArtlogForm records only the uploaded URLs, and PurchaseModal records the shown balance, not the `|| 0` default for a missing profile balance.
- The original does not check an API key in `getReviewBacklog.js`. ReviewBacklog.Handle therefore has none, and a missing key shows only as a failed request.
- Thin Airtable wrappers, the duplicated analytics page and the other React components are not part of this model. Their only logic (`normalizeLinkedIds`, owner filtering, the extension map) is covered by Airtable and CreatePost.

## Findings

| source | as written | input that shows it | evidently intended | confidence | as-written member | corrected member |
|---|---|---|---|---|---|---|
| api/handlers/gameUpload.go:106-111 | the entry name is validated after `filepath.Clean`, but the file is written at `filepath.Join(destDir, name)` with the raw name | entry "/../x": it cleans to "/x" and validates as `destDir/x`, but it is written at the parent of `destDir` | write at the path that was validated | not executed | ArchiveIngest.RootedClimbEscapes | ArchiveIngest.UploadConfined |
| playtestScript/main.py:245-257, 299-302 | the wrap-around scan for a suitable player increments the index without bounding it by the pool, so it can read `players[len(players)]` | A needs three tickets and B one; game pool [GA, GA, GA, GB], player pool [A, A, A, B]: the third game entry (index 2) raises IndexError | scan each player at most once, wrapping modulo the pool size | not executed | PlaytestAssign.AsWrittenWrapScanOverruns | PlaytestAssign.CorrectedRunNeverCrashes |
| site/pages/api/hackatimeProjects.js:39, 89 | the claimed-project map is a plain object, so an inherited member looks claimed | a Hackatime project named "constructor" that no game lists is never offered | only names some game lists count as claimed | not executed | HackatimeProjects.InheritedNameHiddenAsWritten | HackatimeProjects.OfferedForItsGame |
| site/pages/api/analytics/getReviewBacklog.js:21-35 | the do-while reads `offset` from the array `firstPage()` resolves to, so the loop stops after one page | a table of 101 records across two pages of 100 is counted as 100 | read every page, as the other analytics handlers do | not executed | ReviewBacklog.FirstPageOnlyUndercounts | ReviewBacklog.Handle |
| site/components/ArtlogPostForm.js:80 | the time check `hoursSpent === 0 && minutesSpent === 0` passes any value typed into the number inputs, which are strings | both boxes typed as "0": getFormData accepts a form with no time spent, while isValid rejects it | require some time spent, as isValid does | not executed | ArtlogForm.TypedZeroPassesAsWritten | ArtlogForm.ValidIffAcceptedAndUploaded |

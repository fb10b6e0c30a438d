# Dataset upload queue and upload settings

This project models two pieces of client-side logic from the dataset pages of the web GUI and proves properties of them.

**The dataset detail view (`DatasetDetailComponent`).** The first piece is its bounded-concurrency upload admission queue and task tracker. At most `maxConcurrentFiles` uploads hold a slot at a time. Further files wait in a FIFO `pendingQueue` of names. The visible `uploadTasks` list, keyed by `filePath`, follows each upload through `initializing`, `uploading`, `finished` and `aborted`. The view also has two permission checks: `userHasWriteAccess` and `isDownloadAllowed`.

**The admin settings page (`AdminSettingsComponent`).** The second piece covers:
- the S3 multipart arithmetic (`partsAtMax` and `requiredMinPartSizeMiB`);
- the accept/reject rule of `saveDatasetSettings`, and what the next load reads back through `parseInt`;
- the sidebar tab switches: how a flag is stored as `"true"`/`"false"` and read back, and the display name `saveTabs` derives from a tab key (`your_work_enabled` becomes `Your Work`).

**How the upload logic is modelled.** The upload logic is a functional state machine:
- `UploadQueue.Uploads` is an immutable record. It holds the counter, the limit, the queue, the task list, the subscription keys, the upload-time table, the number of change notifications and the abort requests sent.
- Every handler is a pure function from one state to the next.
- A deferred `startUpload` closure is represented by its file name in the queue. Starting it means removing that name from the queue and putting an `initializing` row at the front of the list.
- The transport, the user and the 5-second hide timer reach the model only as events (`UploadQueue.Event`), addressed by name and otherwise arbitrary. `UploadQueue.Step` dispatches one event and `UploadQueue.Run` dispatches a trace of events.

**The modules:**
- `Options`: an `Option` type.
- `Subsequences`: subsequence order and duplicate-free sequences.
- `UploadQueue`: state, handlers and views.
- `UploadInvariants`: what every event, or every well-behaved event, preserves.
- `UploadScenarios`: concrete traces, both expected behaviour and the places where the counter goes wrong.
- `DatasetAccess`: the two permission checks.
- `Decimal`: `toString` and `parseInt` on integers.
- `AdminSettings`: the settings arithmetic, the save rule and the settings store.
- `SidebarTabs`: the tab keys, flags and display names.

**The slot counter.** `activeUploads` is meant to count the uploads holding a slot. It should lie between 0 and `maxConcurrentFiles` and equal the number of `initializing`/`uploading` rows. In the model:
- The upper bound holds for every event trace (`UploadInvariants.ActiveNeverExceedsLimit`).
- The lower bound and the counter/row agreement hold only for traces in which each upload reports its end once and the hide timer fires only for an inactive row (`UploadInvariants.WellBehavedRunInvariant`).
- For every event trace, no file waits while a slot is free (`UploadInvariants.NoneWaitingOverRun`). A file submitted while others wait therefore goes behind them and never starts first (`UploadInvariants.NewFileQueuesBehindWaiting`).

Three places in `dataset-detail.component.ts` break them:
- Line 450 releases a slot on a finishing payload, and line 466 releases again on a later error, whatever the row's status. `UploadScenarios.FinishedThenErrorUnderflows` drives the counter to -1 this way. `UploadScenarios.DoubleReleaseExceedsLimit` then has two uploads running with one slot.
- Line 445 releases only when the finishing payload carries a non-zero total time. Line 470 skips the release for a row that is already `finished`. So neither the finishing payload without a time nor the completion after it gives the slot back (`UploadScenarios.FinishedWithoutTimeStrandsSlot`).
- Lines 543-545 drop rows by name when the hide timer fires. The timer of a finished upload therefore removes a restarted row of the same name. That upload's finish and completion then release nothing, so its slot comes back only if the transport later reports an error, which line 466 releases without a row (`UploadScenarios.HideAfterRestartStrandsSlot`).

## Model

| member | source | states |
|---|---|---|
| DatasetAccess.UserHasWriteAccess | core/gui/src/app/dashboard/component/user/user-dataset/user-dataset-explorer/dataset-detail.component.ts:366-368 | write access holds exactly for the highest privilege in the order none < read < write, and never for no access |
| DatasetAccess.IsDownloadAllowed | core/gui/src/app/dashboard/component/user/user-dataset/user-dataset-explorer/dataset-detail.component.ts:370-379 | owners may always download; if the dataset is not downloadable, only owners may; a non-owner may download a downloadable public dataset; on a private dataset a non-owner may download exactly when it is downloadable and they have some privilege |
| DatasetAccess.DownloadMonotone | core/gui/src/app/dashboard/component/user/user-dataset/user-dataset-explorer/dataset-detail.component.ts:370-379 | more privilege, or making the dataset public, never takes the download permission away |
| DatasetAccess.WriterMayDownload | core/gui/src/app/dashboard/component/user/user-dataset/user-dataset-explorer/dataset-detail.component.ts:366-379 | a user with write access may download any downloadable dataset |
| DatasetAccess.PublicIgnoresLevel | core/gui/src/app/dashboard/component/user/user-dataset/user-dataset-explorer/dataset-detail.component.ts:370-379 | for a non-owner of a public dataset, the privilege level does not affect the download permission |
| UploadQueue.FindTask | core/gui/src/app/dashboard/component/user/user-dataset/user-dataset-explorer/dataset-detail.component.ts:434 | `findIndex` on the path: -1 exactly when no row has the name, otherwise a row with the name and no earlier one |
| UploadQueue.Merge | core/gui/src/app/dashboard/component/user/user-dataset/user-dataset-explorer/dataset-detail.component.ts:438-442 | each field the payload carries replaces the row's, each field it lacks keeps the row's value, and the path never changes |
| UploadQueue.FinishesWithTime | core/gui/src/app/dashboard/component/user/user-dataset/user-dataset-explorer/dataset-detail.component.ts:445 | a payload finishes the upload only with status `finished`, and never with a missing or zero total time; with status `finished` and a non-zero time it always does |
| UploadQueue.RemoveTasks | core/gui/src/app/dashboard/component/user/user-dataset/user-dataset-explorer/dataset-detail.component.ts:499 | the filtered list holds exactly the rows with another name, in their original order, and none with the name; it is the list itself when no row has the name, and it keeps row keys unique |
| UploadQueue.AfterLastSlashShape | core/gui/src/app/dashboard/component/user/user-dataset/user-dataset-explorer/dataset-detail.component.ts:446 | the last `/`-segment is a slash-free suffix of the path, preceded by a `/` whenever it is shorter than the path |
| UploadQueue.LastSegmentShape | core/gui/src/app/dashboard/component/user/user-dataset/user-dataset-explorer/dataset-detail.component.ts:446 | the upload-time key is the whole name or a non-empty, slash-free last segment after a `/`; a name without `/` is its own key |
| UploadQueue.StartUpload | core/gui/src/app/dashboard/component/user/user-dataset/user-dataset-explorer/dataset-detail.component.ts:410-420 | starting a file prepends an `initializing` row with percentage 0 and empty handles, removes every queue entry of that name and no other (order kept), records the subscription, and leaves the counter alone |
| UploadQueue.Admit | core/gui/src/app/dashboard/component/user/user-dataset/user-dataset-explorer/dataset-detail.component.ts:483-488 | with a free slot the file takes it and starts with the queue unchanged; otherwise it is appended to the tail of the queue and nothing else changes; either way the file has a row or a queue entry afterwards and no other name loses its own |
| UploadQueue.SubmitFile | core/gui/src/app/dashboard/component/user/user-dataset/user-dataset-explorer/dataset-detail.component.ts:405-488 | after cancelling the name, the file starts exactly when the counter is below the limit; otherwise `queuedFileNames` gains it at the tail and `queuedCount` grows by one, with `activeCount` unchanged; the file is listed or queued afterwards, and every other name keeps its row or queue entry |
| UploadQueue.SubmitAll | core/gui/src/app/dashboard/component/user/user-dataset/user-dataset-explorer/dataset-detail.component.ts:405-489 | the `forEach` over the batch leaves every file of the batch with a row or a queue entry, duplicates included, and every name outside the batch that had one keeps it |
| UploadQueue.OnNewUploadFilesChanged | core/gui/src/app/dashboard/component/user/user-dataset/user-dataset-explorer/dataset-detail.component.ts:403-491 | without a dataset id, or with no files, nothing changes; with a dataset id every submitted file ends up with a row or a place in the queue, and every other name that had one keeps it; the limit never changes |
| UploadQueue.Initial | core/gui/src/app/dashboard/component/user/user-dataset/user-dataset-explorer/dataset-detail.component.ts:97-99 | a fresh component has three slots, none held, and nothing queued, listed, subscribed or timed |
| UploadQueue.ProcessNextQueuedUpload | core/gui/src/app/dashboard/component/user/user-dataset/user-dataset-explorer/dataset-detail.component.ts:509-517 | with a free slot and a waiting file, the head takes the slot and its row is prepended; otherwise nothing changes; the queue only loses entries |
| UploadQueue.OnUploadComplete | core/gui/src/app/dashboard/component/user/user-dataset/user-dataset-explorer/dataset-detail.component.ts:519-522 | a release lowers the counter by one unless it promotes the oldest waiting file, which then leaves the queue and gets a row at the front, no other row changing; at most one file is promoted, so a release removes exactly one from counter plus queue length; every name with a row or a queue entry still has one |
| UploadQueue.CancelExistingUpload | core/gui/src/app/dashboard/component/user/user-dataset/user-dataset-explorer/dataset-detail.component.ts:493-507 | afterwards the name is not queued, no row of it remains unless it was also queued, and rows of other names survive; with no active row of the name no slot is released and the result is the filtered rows, queue and subscriptions; with an active row, the rows afterwards are the promoted queue head, if any, followed by the filtered rows, and (with the name not queued and the queue duplicate-free) exactly one slot is released; every other name keeps its row or queue entry |
| UploadQueue.OnProgress | core/gui/src/app/dashboard/component/user/user-dataset/user-dataset-explorer/dataset-detail.component.ts:432-453 | a payload for an absent name changes nothing; otherwise the first row of the name is replaced in place by the merge (payload fields win, the others are kept) and every other row keeps its index; a payload that does not finish changes neither counter, queue, notifications nor subscriptions; a finishing payload with a total time also records the time under the last segment, emits one notification and releases one slot, a promoted row going in front; abort requests never change |
| UploadQueue.OnError | core/gui/src/app/dashboard/component/user/user-dataset/user-dataset-explorer/dataset-detail.component.ts:454-467 | the row of the name, if any, becomes 100 % `aborted` in place, and one slot is released whether or not the row exists, a promoted row going in front; rows of other names survive, and upload times and abort requests are unchanged |
| UploadQueue.OnComplete | core/gui/src/app/dashboard/component/user/user-dataset/user-dataset-explorer/dataset-detail.component.ts:468-476 | nothing changes for an absent or already `finished` row; otherwise that row becomes `finished` in place, one notification is emitted and one slot is released; rows of other names survive, and upload times and abort requests are unchanged |
| UploadQueue.OnAbortClicked | core/gui/src/app/dashboard/component/user/user-dataset/user-dataset-explorer/dataset-detail.component.ts:548-574 | the row is gone at once and an abort request with its handles is sent; an inactive row releases no slot; an active one releases exactly one, and the rows afterwards are the promoted queue head, if any, followed by the old rows, with the clicked path filtered out; other rows survive |
| UploadQueue.OnHideFired | core/gui/src/app/dashboard/component/user/user-dataset/user-dataset-explorer/dataset-detail.component.ts:537-546 | the hide timer removes exactly the rows with the captured key, keeps the others in their order, and touches neither counter nor queue |
| UploadQueue.GetUploadStatus | core/gui/src/app/dashboard/component/user/user-dataset/user-dataset-explorer/dataset-detail.component.ts:576-582 | `active` exactly for `uploading`/`initializing`, `exception` exactly for `aborted`, `success` exactly for `finished` |
| UploadQueue.QueuedFileNames | core/gui/src/app/dashboard/component/user/user-dataset/user-dataset-explorer/dataset-detail.component.ts:524-526 | the waiting names, oldest first, one per queue entry |
| UploadQueue.QueuedCount | core/gui/src/app/dashboard/component/user/user-dataset/user-dataset-explorer/dataset-detail.component.ts:528-530 | the count is the length of `queuedFileNames` |
| UploadInvariants.ActiveBoundPreserved | core/gui/src/app/dashboard/component/user/user-dataset/user-dataset-explorer/dataset-detail.component.ts:483-485 | no event raises the counter above the limit |
| UploadInvariants.ActiveNeverExceedsLimit | core/gui/src/app/dashboard/component/user/user-dataset/user-dataset-explorer/dataset-detail.component.ts:509-517 | over every event trace, from any state within the limit, the counter stays within the limit |
| UploadInvariants.WellFormedPreserved | core/gui/src/app/dashboard/component/user/user-dataset/user-dataset-explorer/dataset-detail.component.ts:403-491 | every event keeps row keys unique, queued names unique and no queued name with a row |
| UploadInvariants.QueueOrderPreserved | core/gui/src/app/dashboard/component/user/user-dataset/user-dataset-explorer/dataset-detail.component.ts:509-517 | no event reorders the queue: afterwards it is a subsequence of the old queue followed by the newly submitted names. With `NewFileQueuesBehindWaiting`, a later submission never overtakes a waiting file |
| UploadInvariants.NoneWaitingPreserved | core/gui/src/app/dashboard/component/user/user-dataset/user-dataset-explorer/dataset-detail.component.ts:483-522 | for every event, whatever the transport reports and whenever the hide timer fires: if no file waited while a slot was free before, none does afterwards |
| UploadInvariants.NoneWaitingOverRun | core/gui/src/app/dashboard/component/user/user-dataset/user-dataset-explorer/dataset-detail.component.ts:483-522 | the same over any trace of events |
| UploadInvariants.NewFileQueuesBehindWaiting | core/gui/src/app/dashboard/component/user/user-dataset/user-dataset-explorer/dataset-detail.component.ts:482-488 | while any file waits, a submitted file is never started: it is appended behind every waiting file, even when cancelling its own upload gave a slot back (that slot goes to the queue head); for a name that held no slot, the counter is unchanged and only its old rows and queue entries are dropped |
| UploadInvariants.SlotsMatchPreserved | core/gui/src/app/dashboard/component/user/user-dataset/user-dataset-explorer/dataset-detail.component.ts:519-522 | for an event in which an upload reports its end once and the hide timer fires only for an inactive row, the counter stays equal to the number of active rows and non-negative |
| UploadInvariants.WellBehavedRunInvariant | core/gui/src/app/dashboard/component/user/user-dataset/user-dataset-explorer/dataset-detail.component.ts:519-522 | over a trace of such events, the counter equals the number of active rows and lies between 0 and the limit, with unique keys, a queue disjoint from the rows, and no file waiting while a slot is free |
| UploadInvariants.InitialIsSound | core/gui/src/app/dashboard/component/user/user-dataset/user-dataset-explorer/dataset-detail.component.ts:97-99 | a fresh component satisfies all of these invariants, including that no file waits while a slot is free |
| UploadInvariants.ViewsAfterRun | core/gui/src/app/dashboard/component/user/user-dataset/user-dataset-explorer/dataset-detail.component.ts:524-534 | after any well-behaved trace from a fresh component, `activeCount` equals the number of rows in progress and lies between 0 and 3, `queuedCount` matches `queuedFileNames`, the waiting names are distinct and have no row, and files wait only while all three slots are taken |
| UploadInvariants.HideIdempotent | core/gui/src/app/dashboard/component/user/user-dataset/user-dataset-explorer/dataset-detail.component.ts:543-545 | a second hide timer for the same key changes nothing |
| UploadScenarios.TwoSlotsThreeFiles | core/gui/src/app/dashboard/component/user/user-dataset/user-dataset-explorer/dataset-detail.component.ts:482-488 | with limit 2, of files a, b, c the first two start and c waits; a finishing starts c, empties the queue and records a's time |
| UploadScenarios.OneSlotFifo | core/gui/src/app/dashboard/component/user/user-dataset/user-dataset-explorer/dataset-detail.component.ts:509-522 | with one slot, files start in submission order, a file submitted later waiting behind the earlier ones; for any limit and any trace, a later file cannot start ahead of a waiting one (`UploadInvariants.NewFileQueuesBehindWaiting`) |
| UploadScenarios.ResubmitActiveRestarts | core/gui/src/app/dashboard/component/user/user-dataset/user-dataset-explorer/dataset-detail.component.ts:493-507 | resubmitting a running file cancels it, releases its slot once and restarts it, giving the same state |
| UploadScenarios.AbortBeforeProgress | core/gui/src/app/dashboard/component/user/user-dataset/user-dataset-explorer/dataset-detail.component.ts:548-574 | aborting a just-started row restores the fresh state, with one abort request carrying the row's handles |
| UploadScenarios.FinishedThenErrorUnderflows | core/gui/src/app/dashboard/component/user/user-dataset/user-dataset-explorer/dataset-detail.component.ts:454-467 | a finishing payload followed by an error releases twice and drives the counter to -1 |
| UploadScenarios.DoubleReleaseExceedsLimit | core/gui/src/app/dashboard/component/user/user-dataset/user-dataset-explorer/dataset-detail.component.ts:519-522 | with one slot, that double release starts the waiting file, and a later submit leaves two rows running |
| UploadScenarios.HideAfterRestartStrandsSlot | core/gui/src/app/dashboard/component/user/user-dataset/user-dataset-explorer/dataset-detail.component.ts:537-546 | the hide timer of a finished row removes the restarted row of the same name; a later file waits with nothing running; that upload's finish or completion releases nothing, and only an error (line 466, no row needed) releases its slot and starts the waiting file |
| UploadScenarios.FinishedWithoutTimeStrandsSlot | core/gui/src/app/dashboard/component/user/user-dataset/user-dataset-explorer/dataset-detail.component.ts:445-451 | a finishing payload without a total time, then the completion, release nothing: neither event starts the waiting file |
| Decimal.NatToString | core/gui/src/app/dashboard/component/admin/settings/admin-settings.component.ts:229-240 | `toString` of a natural number is a non-empty digit string, without a leading zero, whose value is the number |
| Decimal.IntToString | core/gui/src/app/dashboard/component/admin/settings/admin-settings.component.ts:229-239 | `toString` of an integer starts with `-` exactly when it is negative; the rest is a digit string without a leading zero whose value is the magnitude |
| Decimal.ParseMagnitude | core/gui/src/app/dashboard/component/admin/settings/admin-settings.component.ts:100-117 | the unsigned part of `parseInt` is `NaN` when empty or not starting with a digit; a decimal start (not `0x`) reads the longest run of leading digits; a `0x` or `0X` prefix reads the leading hex digits after it in base 16, and is `NaN` when none follow |
| Decimal.ParseInt | core/gui/src/app/dashboard/component/admin/settings/admin-settings.component.ts:100-117 | `parseInt` is `NaN` on blank input, reads the magnitude of a string that starts with neither white space nor a sign or that starts with `+`, and negates the magnitude after a `-` (`NaN` staying `NaN`) |
| Decimal.ParseIntSkipsWhiteSpace | core/gui/src/app/dashboard/component/admin/settings/admin-settings.component.ts:100-117 | leading white space does not change what `parseInt` reads |
| Decimal.ParseIntOfDigits | core/gui/src/app/dashboard/component/user/user-dataset/user-dataset-explorer/dataset-detail.component.ts:386-401 | `parseInt` of a plain decimal numeral is its value |
| Decimal.ParseIntOfIntToString | core/gui/src/app/dashboard/component/admin/settings/admin-settings.component.ts:100-117 | `parseInt` reads back every integer `toString` wrote |
| AdminSettings.CeilDiv | core/gui/src/app/dashboard/component/admin/settings/admin-settings.component.ts:201 | `Math.ceil(a / b)` is the integer r with (r - 1) b < a <= r b for positive b, and the mirrored bounds for negative b |
| AdminSettings.PartsAtMax | core/gui/src/app/dashboard/component/admin/settings/admin-settings.component.ts:199-202 | 0 when either size is 0; otherwise `Math.ceil` of the quotient: for a positive part size, the least number of parts that hold the file (at least 1 for a positive file size), and the mirrored bounds for a negative part size |
| AdminSettings.RequiredMinPartSizeMiB | core/gui/src/app/dashboard/component/admin/settings/admin-settings.component.ts:204-208 | at least 5 MiB, 10000 parts of it hold the file, and exactly 5 when 10000 parts of 5 MiB already do |
| AdminSettings.PartsLimitExact | core/gui/src/app/dashboard/component/admin/settings/admin-settings.component.ts:221 | for positive sizes, at most 10000 parts are needed exactly when 10000 parts of the part size hold the file |
| AdminSettings.SuggestedPartSizeSuffices | core/gui/src/app/dashboard/component/admin/settings/admin-settings.component.ts:221-225 | any part size of at least the suggested one brings a positive file size within 10000 parts |
| AdminSettings.SuggestedPartSizeIsLeast | core/gui/src/app/dashboard/component/admin/settings/admin-settings.component.ts:204-208 | a part size of at least 5 MiB within the parts limit is at least the suggested one |
| AdminSettings.SuggestedPartSizeExact | core/gui/src/app/dashboard/component/admin/settings/admin-settings.component.ts:204-225 | for a positive file size, a part size is at least the suggested one exactly when it is at least 5 MiB and within the parts limit |
| AdminSettings.SaveDatasetSettings | core/gui/src/app/dashboard/component/admin/settings/admin-settings.component.ts:210-240 | the invalid-values error is given exactly when some value is below 1, before the parts check; when all values are at least 1 and 10000 parts of the chunk size do not hold the maximum file size, the parts error is given; the parts error reports `partsAtMax` (more than 10000) and `requiredMinPartSizeMiB` as the suggestion (above the current part size); the four values are written exactly when all are at least 1 and 10000 parts hold the file |
| AdminSettings.RejectedSaveWritesNothing | core/gui/src/app/dashboard/component/admin/settings/admin-settings.component.ts:211-227 | a rejected save leaves the settings store unchanged |
| AdminSettings.WrittenPairs | core/gui/src/app/dashboard/component/admin/settings/admin-settings.component.ts:229-240 | an accepted save sets exactly the four keys to the decimal strings of the four values |
| AdminSettings.LoadDatasetSettings | core/gui/src/app/dashboard/component/admin/settings/admin-settings.component.ts:100-117 | each field is set from its own key alone: `NaN` (`None`) when the key is missing, otherwise `parseInt` of the stored string |
| AdminSettings.LoadFieldsIndependent | core/gui/src/app/dashboard/component/admin/settings/admin-settings.component.ts:100-117 | changing the stored value of one key changes only that field, even when the new value does not parse |
| AdminSettings.AcceptedSettingsRoundTrip | core/gui/src/app/dashboard/component/admin/settings/admin-settings.component.ts:100-117 | after an accepted save, loading the settings yields the same four integers in the four fields, whatever the store held before |
| AdminSettings.PartSizeBelowMinimumAccepted | core/gui/src/app/dashboard/component/admin/settings/admin-settings.component.ts:211-219 | the save check accepts a 1 MiB part size, below the 5 MiB S3 minimum |
| AdminSettings.FileSizeAboveMaximumAccepted | core/gui/src/app/dashboard/component/admin/settings/admin-settings.component.ts:221-227 | the save check accepts a file size above the 5 TiB S3 maximum |
| SidebarTabs.Position | core/gui/src/app/common/type/gui-config.ts:45-57 | every tab has a position in the list of tab keys |
| SidebarTabs.TabsListedOnce | core/gui/src/app/dashboard/component/admin/settings/admin-settings.component.ts:37-49 | every tab is listed, and listed once |
| SidebarTabs.KeyInjective | core/gui/src/app/dashboard/component/admin/settings/admin-settings.component.ts:37-49 | distinct tabs have distinct setting keys |
| SidebarTabs.EncodeFlag | core/gui/src/app/dashboard/component/admin/settings/admin-settings.component.ts:181 | `flag.toString()` stores a value that `value === "true"` reads back as the same flag |
| SidebarTabs.DecodeFlag | core/gui/src/app/dashboard/component/admin/settings/admin-settings.component.ts:96 | on exactly for the four characters `true`, letter case included; every other value reads as off |
| SidebarTabs.SaveTab | core/gui/src/app/dashboard/component/admin/settings/admin-settings.component.ts:180-182 | saving a tab stores a value that decodes to its switch and keeps every other key |
| SidebarTabs.LoadTabs | core/gui/src/app/dashboard/component/admin/settings/admin-settings.component.ts:91-98 | loading sets exactly the switches the page has, each on exactly when its key is stored as `"true"`; a missing key reads as off |
| SidebarTabs.SaveTabRoundTrip | core/gui/src/app/dashboard/component/admin/settings/admin-settings.component.ts:173-187 | after saving a tab it reads back as saved and every other tab reads as before |
| SidebarTabs.SaveTabsReadBack | core/gui/src/app/dashboard/component/admin/settings/admin-settings.component.ts:173-187 | after saving a list of tabs, the listed ones read back as saved and the others as before |
| SidebarTabs.SaveAllTabsRoundTrip | core/gui/src/app/dashboard/component/admin/settings/admin-settings.component.ts:91-98 | saving every tab and reloading shows the same switches |
| SidebarTabs.IndexOf | core/gui/src/app/dashboard/component/admin/settings/admin-settings.component.ts:175 | `indexOf` is -1 or an occurrence, with no earlier occurrence |
| SidebarTabs.ReplaceFirst | core/gui/src/app/dashboard/component/admin/settings/admin-settings.component.ts:175 | `replace` with a string pattern replaces the first occurrence only, or returns the string when there is none |
| SidebarTabs.Split | core/gui/src/app/dashboard/component/admin/settings/admin-settings.component.ts:176 | `split` gives at least one piece, and no piece contains the separator |
| SidebarTabs.JoinSplit | core/gui/src/app/dashboard/component/admin/settings/admin-settings.component.ts:176-178 | joining the pieces of a split with the same separator gives the string back |
| SidebarTabs.SplitJoin | core/gui/src/app/dashboard/component/admin/settings/admin-settings.component.ts:176-178 | splitting a join of separator-free words gives the words back |
| SidebarTabs.Capitalize | core/gui/src/app/dashboard/component/admin/settings/admin-settings.component.ts:177 | the first character is upper-cased and the rest kept |
| SidebarTabs.DisplayName | core/gui/src/app/dashboard/component/admin/settings/admin-settings.component.ts:174-178 | the display name is, character by character, the key without its first `_enabled`, with each `_` a space and the start of each word upper-cased |
| SidebarTabs.YourWorkDisplayName | core/gui/src/app/dashboard/component/admin/settings/admin-settings.component.ts:174-178 | `your_work_enabled` is shown as `Your Work` |

## Left out

- Angular and RxJS plumbing (`subscribe`, `pipe`, `untilDestroyed`, `EventEmitter`) and the HTTP services are outside the model. The transport's progress, error and completion callbacks are `UploadQueue.Event`s, the settings service is a `map<string, string>`, and an emitted change notification is a counter.
- The 5-second `setTimeout` of `scheduleHide` is the `HideFired` event, which may fire at any time for any key. Pending timers are not tracked, because the handler only needs the captured key.
- The subscription objects are represented by their keys. Unsubscribing is removing the key, because the model has no live stream to stop.
- A transport that emits synchronously inside `subscribe`, before the subscription is stored, is not modelled. Every event arrives after the handler that started the upload has returned.
- The file contents, the chunk size in bytes and the per-file chunk concurrency passed to the transport are left out, because they do not affect admission or the task list.
- `maxConcurrentFiles` is a fixed field of the state. The asynchronous `loadUploadSettings` that may change it mid-session, and a `NaN` limit from an unparsable setting, are not modelled, because the bound is stated for a fixed limit.
- The settings form fields are integers. Fractional inputs, floating-point division, and `toString` of non-integers or in exponent form are left out, because they need floating point. A `NaN` field after loading is `None` in `AdminSettings.LoadedSettings`, but `partsAtMax`, `requiredMinPartSizeMiB` and the save check take integer fields, so their behaviour on a `NaN` field is not modelled.
- The `percentage` and `totalTime` of a progress payload are integers. A fractional percentage or total time and a `NaN` total time are left out, because they need floating point. A total time of 0 is modelled, and it counts as absent at line 445 just like a missing one.
- `Decimal.ParseInt`: precision loss above 2^53 is not modelled, because integers are unbounded.
- `SidebarTabs.ToUpper`: upper-cases ASCII letters only, because Unicode case mapping is outside the model.
- The message texts, `toLocaleString` in the parts error, and the success and error notifications of the save requests are left out. Only which outcome is reported is modelled.
- `UploadQueue.Merge`: the final `?? 0` fallback of the percentage is unreachable here, because every row starts with percentage 0.
- `UploadInvariants.SlotsMatchPreserved` and `UploadInvariants.WellBehavedRunInvariant` hold only for traces in which each upload reports its end once and the hide timer fires only for an inactive row, because the code does not guard the counter otherwise. The `UploadScenarios` lemmas show the traces that break them.
- Branding (logos, favicon), `resetTabs`, `resetBranding`, page reloads, the file tree, versions, likes and view counts are not part of this model.

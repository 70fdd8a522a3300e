# laibao_counter — a Dafny model of the points ledger

laibao_counter turns sign-up sheets ("接龙" spreadsheets) into a points
leaderboard. A page takes uploaded Excel files. For each file it:

- finds the nickname column and the submission-time column;
- cleans and deduplicates the nicknames;
- credits every participant with `base_score × weight` points, or
  `reward_multiplier ×` that for the earliest `reward_count` submitters.

A per-session JSON ledger keeps the running score and history of every
nickname, plus a registry of the files already processed. The registry lets a
re-uploaded file be skipped, fully re-scored when the reward settings changed,
or moved to a new weight when only its weight changed.

This project models three parts of that program and proves properties of
them:

- `common.dfy` holds building blocks:
  - `Collections`: `Option`/`Result` and Python's insertion-ordered `dict` as
    `OrderedMap` (a key list plus a map);
  - `Sorting`: Python's stable `list.sort`, as an insertion sort over a total
    preorder, proved sorted, a permutation and stable;
  - `Text`: `strip`, `in`, `endswith`, ASCII `lower` and Python's string
    order.
- `excel_processor.dfy` (module `ExcelProcessor`) models the extraction
  heuristics. These are keyword-priority column discovery with its
  first-column fallback, `clean_nickname`, and the first-occurrence dedup
  loop. They also include the error branches, `validate_file_format` and
  `batch_process_files`. A parsed sheet is a list of headers plus columns of
  `Cell`s (`Str`, `Num` with its printed text, or `Missing` as NaN, or NaT in
  a column of dates).
- `data_manager.dfy` (module `DataManager`) models the ledger:
  - a class `Ledger` whose methods `UpdateScoresWithRewards`,
    `UpdateExistingFileScores` and `ImportData` change the document in place;
  - each method is proved equal to a pure function on the document
    (`ScoreFile`, `Reweight`, `Restore`);
  - the pure queries: leaderboard, statistics, processed files,
    `is_file_processed`, `load_data` and `validate_backup_file`.
- `app.dfy` (module `App`) models the per-file decision and dispatch of
  `process_uploaded_files`. The decision is lifted into the pure function
  `Decide`. The loop `ProcessUploadedFiles` is proved equal to a left fold
  of `Step` over the uploads.

Scores, base scores and multipliers are `real`. Weights are `int`. Times,
dates and the clock are opaque strings, and the clock is a `now` parameter.

## Model

| member | source | states |
|---|---|---|
| ExcelProcessor.Search | excel_processor.py:39-48 | One matching pass finds nothing exactly when no keyword hits any header. Otherwise it returns the column where the pass stops: the earliest keyword that hits anything, at its leftmost column. |
| ExcelProcessor.FirstKeywordWins | excel_processor.py:39-48 | Suppose the first keyword hits a column and no column to its left. Then the pass returns that column, whatever the later keywords would hit. |
| ExcelProcessor.FindNicknameColumn | excel_processor.py:36-60 | A column it returns is a column of the sheet. |
| ExcelProcessor.NicknameColumnChoice | excel_processor.py:36-60 | Any exact match wins, with keyword priority then leftmost column. Otherwise the substring pass wins the same way. Otherwise column 0 is returned exactly when more than 70% of its first ≤10 non-missing cells are non-blank strings, and None otherwise. |
| ExcelProcessor.FindTimeColumn | excel_processor.py:72-86 | A column it returns is one of the headers. |
| ExcelProcessor.TimeColumnChoice | excel_processor.py:72-86 | The same two passes over the time keywords, and None when neither pass hits: there is no fallback. |
| ExcelProcessor.ColumnDiscoveryExample | excel_processor.py:12-21 | Headers `编号, 昵称, 提交时间` give nickname column 1 and time column 2. |
| ExcelProcessor.RemoveDecorations | excel_processor.py:105 | Only word, CJK and whitespace characters are left. |
| ExcelProcessor.CleanNickname | excel_processor.py:98-110 | A missing cell gives `""`. Every result is clean: only kept characters, no whitespace at either end, single spaces only. |
| ExcelProcessor.CleanNicknameLetters | excel_processor.py:101-108 | The non-space characters of the result are exactly the kept non-space characters of the input, in order. |
| ExcelProcessor.CleanNicknameIdempotent | excel_processor.py:98-110 | Cleaning a cleaned nickname changes nothing. |
| ExcelProcessor.Message | excel_processor.py:130-164 | Every error message is non-empty. The unsupported-format, empty-file and exception messages contain the file name. The missing-column message contains every column name. |
| ExcelProcessor.Locate | excel_processor.py:125-143 | The branches before the loop succeed exactly for a reader-supported extension, a readable non-empty sheet and a found nickname column. Each failure is named: an unsupported name gives the unsupported-format failure, and a read error gives the exception failure with the file name and the error text. An empty sheet gives the empty-file failure. A sheet without a nickname column gives the column-list failure, or the exception failure when a non-string column label makes the join raise. On success the time column is `find_time_column`'s. |
| ExcelProcessor.Cleaned | excel_processor.py:155 | One cleaned nickname per row, each clean. |
| ExcelProcessor.FirstOccurrences | excel_processor.py:150-159 | Nicknames and times stay aligned. The nicknames are distinct and non-empty, and they are exactly the non-empty cleaned names of the sheet. |
| ExcelProcessor.FirstOccurrencesRows | excel_processor.py:154-159 | Each kept nickname carries the time of the first row bearing it, and the nicknames come in first-row order. |
| ExcelProcessor.CollectNicknames | excel_processor.py:150-161 | The dedup loop with its `seen` set returns the first-occurrence listing. |
| ExcelProcessor.ExtractionOf | excel_processor.py:123-164 | The error is empty exactly when the pre-loop branches succeed. Each failure returns no nicknames, no times and its message. |
| ExcelProcessor.ExtractionIsClean | excel_processor.py:150-161 | An extraction's nicknames are aligned with its times, distinct, non-empty and clean. |
| ExcelProcessor.ExtractNicknamesAndTimes | excel_processor.py:112-164 | The extraction method returns `ExtractionOf`, with every error branch replying with three values. |
| ExcelProcessor.ReplyAsWritten | excel_processor.py:125-133 | As written, the reply is a 2-tuple exactly on the unsupported-extension and empty-sheet branches. |
| ExcelProcessor.CorrectionKeepsTriples | excel_processor.py:136-164 | A 3-value reply of the code as written is the corrected extraction. A 2-tuple reply was an error with no nicknames. |
| ExcelProcessor.ValidateFileFormat | excel_processor.py:205-216 | Every name the reader accepts passes validation. |
| ExcelProcessor.UpperCaseExtension | excel_processor.py:125-130 | `A.XLSX` passes validation but is not accepted by the case-sensitive reader. |
| ExcelProcessor.UpperCaseExtensionBreaksUnpack | excel_processor.py:129-130 | For `A.XLSX` the reply as written cannot be unpacked into three values. |
| ExcelProcessor.EmptySheetBreaksUnpack | excel_processor.py:132-133 | For an empty sheet the reply as written cannot be unpacked into three values. |
| ExcelProcessor.Batch | excel_processor.py:190-203 | Every upload ends up either as a success or as an error. |
| ExcelProcessor.BatchMembers | excel_processor.py:193-201 | The success list holds exactly the uploads whose extraction has no error, each as its name with its nicknames. The error list holds exactly the others, each as `name: message`. |
| ExcelProcessor.BatchInOrder | excel_processor.py:190-203 | The lists for the first `k` uploads are prefixes of the final lists, so entries appear in upload order. |
| ExcelProcessor.BatchProcessFiles | excel_processor.py:180-203 | The loop's two lists are `Batch` of the uploads, in upload order. |
| ExcelProcessor.BatchOfReplies | excel_processor.py:190-203 | As the code stands, the batch loop finishes exactly when every reply unpacks into three values. |
| ExcelProcessor.BatchAsWritten | excel_processor.py:170-203 | As the code stands, `batch_process_files` raises exactly when some upload's reply is a two-part one. Otherwise it returns the corrected batch. |
| ExcelProcessor.UnsupportedBreaksBatch | excel_processor.py:129-130 | For one upload the reader refuses, the corrected batch files one error, and the code as it stands raises. |
| ExcelProcessor.CsvBreaksBatch | excel_processor.py:177 | For `a.csv`, the corrected batch files one error, and the code as it stands raises. |
| DataManager.EmptyDocument | data_manager.py:64-69 | The fallback document has no participants and no registered files, and its counter is 0. |
| DataManager.Weights | data_manager.py:117-126 | An int weight is repeated once per nickname. A list is accepted exactly when its length equals the number of nicknames, and is then used as given. |
| DataManager.Stamped | data_manager.py:136-137 | Exactly the pairs whose time is non-empty, not blank and not `nan` are ranked. |
| DataManager.StampedAppend | data_manager.py:136-137 | The filter keeps the row order: filtering two stretches of rows one after the other gives the two results one after the other. |
| DataManager.ByTimeSorts | data_manager.py:142 | The ranking is ascending by time string and is a permutation of the pairs. It is stable, so pairs with equal times keep their row order, which decides a tie for the last reward slot. |
| DataManager.RewardedCount | data_manager.py:133-147 | With distinct nicknames, exactly `min(reward_count, number of timed pairs)` users are rewarded when `reward_count > 0`, and none otherwise. |
| DataManager.RewardedChoice | data_manager.py:133-147 | At most `reward_count` users are rewarded, none unless `reward_count > 0` and some time is non-empty, and every rewarded user is one of the nicknames. |
| DataManager.RewardedEarliest | data_manager.py:139-144 | With distinct nicknames, a rewarded user's time is no later than that of any timed user left out. |
| DataManager.CreditRowStep | data_manager.py:167-202 | A non-blank row adds its points and its line to the participant it names, changes no one else, and keeps the existing keys in order. |
| DataManager.CreditRowsHistory | data_manager.py:183-201 | After a pass, a history is the old history plus one line per row naming that participant, in row order. |
| DataManager.CreditRowsScore | data_manager.py:182-193 | After a pass, a score is the old score plus the points of exactly those lines. |
| DataManager.CreditRowsMembers | data_manager.py:181-192 | After a pass, someone is a participant exactly when they were one before or some row names them. |
| DataManager.CreditRowsKeepsOrder | data_manager.py:181-192 | Existing participants keep their order, and new ones are added after them. |
| DataManager.CreditRowsConserves | data_manager.py:181-202 | A pass keeps every score equal to the sum of its history's points. |
| DataManager.ScoreFile | data_manager.py:111-207 | A mismatched weight list fails and changes nothing. Otherwise the file is registered and the processed-file counter grows by one, even for a file registered before. |
| DataManager.ScoreFileConserves | data_manager.py:166-204 | Score conservation survives `update_scores_with_rewards`. |
| DataManager.ScoreFileRecord | data_manager.py:153-164 | When the pass succeeds, the file's record holds the time of the pass and `nicknames_count` equal to the number of nicknames. Its weight is the int given, or the average of a per-row list. It also holds the per-row weights, the pass's base score, reward count and multiplier, the rewarded users, and `total_points = Σ base·w + rewarded·avg·base·(mult−1)`. |
| DataManager.RecordedTotalIsAppended | data_manager.py:150-179 | With an int weight and distinct, non-blank, stripped nicknames, the recorded `total_points` equals the sum of the points the pass hands out. |
| DataManager.PassTotal | data_manager.py:150-179 | The same, for any reward set drawn from the nicknames. |
| DataManager.ScorePass | data_manager.py:128-207 | The scoring pass saves `ScoreWith` of the weights and returns the number of rewarded users. |
| DataManager.CreditNicknames | data_manager.py:167-202 | The loop over nicknames credits every row in order. |
| DataManager.Ledger.UpdateScoresWithRewards | data_manager.py:96-207 | A mismatched weight list fails and leaves the ledger unchanged. Otherwise the ledger becomes `ScoreFile` of the old document and the result is the number of rewarded users. |
| DataManager.FirstLine | data_manager.py:256-261 | The search stops at a line of the file, or at the end of the history. |
| DataManager.FirstLineIsFirst | data_manager.py:256-261 | No earlier line belongs to the file. |
| DataManager.RewriteHistoryTouchesOne | data_manager.py:256-269 | Only the first line of the file is rewritten (weight, points and date set to the new weight and now), or one line is appended. Every other line is unchanged. |
| DataManager.RewriteHistoryIdempotent | data_manager.py:256-269 | Rewriting twice with the same weight equals rewriting once. |
| DataManager.RewriteHistoryLoop | data_manager.py:256-269 | The `for … break … else` loop computes `RewriteHistory`. |
| DataManager.ReweightRowStep | data_manager.py:248-280 | A non-blank row moves its existing participant by `diff` and rewrites that history, or creates the participant with score `new_weight` and one line. Nobody else changes. |
| DataManager.ReweightNamesMembers | data_manager.py:248-280 | Participants after the update are the old ones plus the named ones. Those not named are untouched. |
| DataManager.ReweightNamesKnownScore | data_manager.py:251-253 | An existing participant named `n` times gains exactly `n × diff`. |
| DataManager.ReweightNamesKnownFiles | data_manager.py:255-269 | An existing participant's history is rewritten for the file. |
| DataManager.ReweightNamesNewScore | data_manager.py:270-280 | A participant created by the update has `new_weight`, plus `diff` for every further row naming them. |
| DataManager.ReweightNamesNewFiles | data_manager.py:270-280 | A participant created by the update has the single new line. |
| DataManager.Reweight | data_manager.py:229-282 | The counter is unchanged. The file's record is replaced by the four weight-only fields, with `total_points = n × new_weight`. |
| DataManager.ReweightOnceConserved | data_manager.py:253-259 | For a participant named once whose history has a line of the file, conservation holds afterwards exactly when that line's points equalled the old weight. |
| DataManager.ReweightNicknames | data_manager.py:248-280 | The loop over nicknames applies the update row by row. |
| DataManager.ReweightPass | data_manager.py:229-282 | The update saves `Reweight` of the document. |
| DataManager.Ledger.UpdateExistingFileScores | data_manager.py:220-282 | The ledger becomes `Reweight` of the old document. |
| DataManager.IsFileProcessed | data_manager.py:82-94 | True exactly when the file has a registry record. |
| DataManager.ScoringRegisters | data_manager.py:154-164 | After scoring, a file is processed exactly when it is the scored file or was processed before. |
| DataManager.ReweightRegisters | data_manager.py:240-245 | After a weight-only update, a file is processed exactly when it is the updated file or was processed before. |
| DataManager.LeaderboardCorrect | data_manager.py:284-303 | One entry per participant and only those, with `participation_count` equal to the length of the history. Scores are non-increasing, and equal scores keep insertion order. |
| DataManager.SumScoresPermutation | data_manager.py:317 | The sum of scores does not depend on the order. |
| DataManager.StatisticsAgree | data_manager.py:305-318 | `total_participants` is the leaderboard's length, and `total_checkins` is the sum of its scores. |
| DataManager.ProcessedFilesRows | data_manager.py:491-513 | Exactly one row per registered file. A weight-only record reads as base score 1.0, reward count 0, multiplier 1.0 and no rewarded users. |
| DataManager.ProcessedFilesOrder | data_manager.py:515-517 | Rows run from the latest processing date down, and equal dates keep registry order. |
| DataManager.Load | data_manager.py:46-69 | A missing or corrupt file loads as the empty document, and a missing registry as an empty one. |
| DataManager.LoadSaved | data_manager.py:53-80 | Loading what was saved gives the same document. |
| DataManager.ValidateBackup | data_manager.py:455-489 | Accepted exactly when the JSON has a dict `records`, some `last_updated` and an int counter. `processed_files` is not required. A missing `records` is reported by name. |
| DataManager.Restore | data_manager.py:431-449 | A backup missing any of the four fields is refused. A backup with dict `records` and `processed_files`, an int counter and any `last_updated` restores exactly those, stamped with the time of the import. |
| DataManager.BackupRoundTrip | data_manager.py:421-489 | A backup of a document is validated and restores that document. |
| DataManager.ValidatedButRefused | data_manager.py:437-473 | A backup without `processed_files` passes validation but is refused by the import. |
| DataManager.Ledger.constructor | data_manager.py:35-69 | A session starts from its loaded data file. |
| DataManager.Ledger.ImportData | data_manager.py:421-453 | Returns true exactly when the backup restores, and then the ledger is the restored document. On false the ledger is unchanged. |
| App.NoTableMeansOne | app.py:146-147 | Without a weight table, every file has weight 1. |
| App.HistoryOfRows | app.py:176-182 | The scan finds the settings of the file's row, or the defaults 1 / 1.0 / 0 / 1.5 when no row is the file's. |
| App.RegisteredHistory | app.py:170-182 | The settings the scan finds are those of the file's registry record, or the defaults. |
| App.SkipExactly | app.py:166-199 | A file is skipped exactly when it has a registry record whose weight, base score, reward count and multiplier equal the current ones. |
| App.OnlyDispatchedFilesTouchTheLedger | app.py:211-272 | Skipped, unsupported, unreadable and empty files leave the ledger as it was. A dispatched file is registered afterwards. |
| App.ReuploadAfterScoringSkips | app.py:256-271 | After a full scoring, uploading the same file with the same settings is skipped. |
| App.ReuploadAfterReweighRescores | app.py:262 | After a weight-only update, the same upload is skipped only if the settings are base 1.0, no reward slots and multiplier 1.0. With any other multiplier it is scored again, and its points are appended a second time. |
| App.CountedAsWritten | app.py:208 | As written, a processed file that is not skipped adds one updated file, and a rescored or reweighed file adds one more. A file that calls the ledger adds one success. A skipped file adds one old file. |
| App.UpdatedCountedTwice | app.py:208 | As written, one re-uploaded file with a changed weight counts as two updated files and one success. |
| App.Counted | app.py:265-276 | A skipped file counts as old, a file without a ledger call changes no counter, and a dispatched file counts once as a success with its nicknames. New plus updated minus successful is preserved. |
| App.TallyBalances | app.py:265-274 | With the corrected counting, successful files equal new plus updated files. |
| App.ReportedTotal | app.py:280-295 | The total shown for a file is `n·basic` plus `(mult−1)·basic` for each rewarded user, with `basic = base·weight`. |
| App.BlankTimeCells | excel_processor.py:157 | A blank cell of a column of dates prints `NaT`, which passes the reward filter at data_manager.py:137, so its user is ranked. A blank cell of any other column prints `nan` and is not ranked. |
| App.ReportedTotalIsRecorded | app.py:280-295 | The per-file total the page shows equals the `total_points` recorded by the scoring pass. |
| App.ProcessFile | app.py:166-297 | One upload is processed as one `Step` of the lifted rule. |
| App.Dispatch | app.py:236-272 | New and rescored files go through `UpdateScoresWithRewards` with the int weight, and weight-only changes go through `UpdateExistingFileScores`. |
| App.ProcessUploadedFiles | app.py:141-297 | The loop over the uploads, in submission order, equals the fold of the rule, with the default weight table when none is given. Each file's ledger call reads its own clock value. |

## Left out

- JSON file I/O and the clock are not modelled. The document is in memory,
  and the clock is a `now` string parameter of each ledger call. The upload
  loop takes one reading per file (`clock`).
- Within one scoring or reweighting call, the source reads the clock many
  times. There is one read for `processed_date` (data_manager.py:155 and
  241), one for each credited or rewritten history line (data_manager.py:185,
  196, 260, 266 and 276), and one in `save_data` for `last_updated`
  (data_manager.py:78). The model uses one reading, `now`, for all of them.
- Session plumbing is not modelled: session ids, the data directory,
  listing and cleaning sessions, `backup_data` and `export_user_data`.
- The Streamlit page is not modelled: progress bars, messages, expanders and
  the sidebar. The session settings are a `Settings` parameter.
- `pd.read_excel` is not modelled. A read is a parsed sheet (header row 1)
  or the text of the exception the reader raised. A parsed sheet keeps its
  column labels as printed text, plus the text of the `TypeError` that
  joining them raises when one is not a string. Other exceptions inside the
  extraction loop, which `clean_nickname` and `str` do not raise on these
  cell kinds, are not modelled.
- Python floats are `real`, so there is no rounding.
- Python's Unicode `\w` outside ASCII is the abstract predicate
  `NonAsciiWord`. `lower()` is modelled on ASCII letters only, which is
  exact for the `.xlsx` / `.xls` test.
- Registry records written by older versions, lacking `weight` or other
  fields, are not modelled. Every record is either a full scoring record or
  a weight-only record.
- The per-row weight list `weights` is modelled (`WeightArg.PerRow`), but
  the upload loop always passes one int weight.
- `validate_backup_file`'s catch-all for other exceptions is not modelled.
  A backup file is missing, not JSON, or a parsed object.
- DataManager.Restore: refuses a backup whose `records`, `processed_files`
  or counter has the wrong JSON type, where the source stores it as it is.
  The ledger's document cannot hold such values.
- DataManager.Ledger.ImportData: the same restriction as `Restore`. Any
  `last_updated` that is present is accepted, since `save_data` overwrites it.
- ExcelProcessor.ValidateFileFormat: its contract states only that every
  reader-accepted name passes. The converse fails for upper-case
  extensions, as `UpperCaseExtension` shows.
- DataManager.ReweightOnceConserved: stated for one participant on the
  records, not for the whole document.
- App.Decide: the page's decision is lifted into this pure function over the
  ledger, the extraction and the settings. Its properties are stated by
  `SkipExactly`, `OnlyDispatchedFilesTouchTheLedger` and the re-upload
  lemmas, and `ProcessFile` performs the same steps on the ledger object.
- App.Counted: the upload loop counts each updated file once, as corrected
  under Findings. `CountedAsWritten` keeps the double count.
- App.ProcessFile: uses the corrected three-value extraction. The 2-tuple
  crash is kept in `ReplyAsWritten`.
- App.ProcessUploadedFiles: built on the corrected extraction and the
  corrected count (Findings). As the code stands, the loop raises ValueError
  at app.py:216 on the first upload that passes `validate_file_format` but
  gets a two-part reply: an upper-case extension such as `A.XLSX`, or an empty
  sheet. The uploads before it keep their ledger updates. The fold instead
  reports that file and goes on with the next one.
- ExcelProcessor.Batch: built on the corrected extraction. As the code
  stands, `batch_process_files` raises ValueError (excel_processor.py:177)
  on any upload the reader refuses, even `a.csv`, and on an empty sheet. It
  never checks the extension first. `BatchAsWritten` and `CsvBreaksBatch`
  state what the code as it stands does.
- ExcelProcessor.BatchMembers: describes the corrected batch. Its error list
  includes unsupported and empty files, for which the code as it stands
  raises instead of returning.
- ExcelProcessor.BatchInOrder: describes the corrected batch, which the code
  as it stands returns only when no upload gets a two-part reply
  (`BatchAsWritten`).
- ExcelProcessor.BatchProcessFiles: the loop uses the corrected extraction
  and cannot raise. The source's loop raises where `BatchAsWritten` gives
  `None`.

## Findings

| source | as written | input that shows it | evidently intended | confidence | as-written member | corrected member |
|---|---|---|---|---|---|---|
| excel_processor.py:129-133 | The unsupported-extension and empty-sheet branches return the 2-tuple `([], message)`. The callers at app.py:216 and excel_processor.py:177 unpack three values, which raises. | `A.XLSX`: `validate_file_format` accepts it, but the case-sensitive reader refuses it. Or any sheet with no data rows. Or `a.csv` through `batch_process_files`, which does not validate first. | Return `([], [], message)` like the other branches, so the file is reported and skipped. | high; not executed | ExcelProcessor.UpperCaseExtensionBreaksUnpack | ExcelProcessor.ExtractionOf |
| app.py:208 | `updated_files_count` grows when a change is detected, and again at app.py:265 when the file is dispatched. | One processed file re-uploaded with a new weight is reported as 2 updated files, with 1 success. | Count each updated file once. Successful files then equal new plus updated files. | high; not executed | App.UpdatedCountedTwice | App.TallyBalances |

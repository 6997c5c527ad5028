# Yoto uploader: the decision logic, modelled in Dafny

The uploader drives a browser to create a Yoto playlist from a folder of audio
files. It can also give each track of an existing playlist a random icon. Most
of the program is page automation. This project models the pure decisions that
sit inside it:

- **File selection and batching** (`yoto_uploader/files.py`). A folder listing is
  filtered to regular files whose lower-cased suffix is one of `.mp3 .m4a .wav .m4b`.
  The kept files are sorted by name and split into batches of `chunk_size`.
- **Icon choice** (`randomize_icons`, lines 127-143). The candidates are the
  dialog's icons whose `src` is non-empty and not yet used in the run. When
  there are none, the used-set is cleared and every icon becomes a candidate.
  The chosen `src` is then recorded.
- **Processing wait** (`wait_for_processing`). The create button is polled until
  it is enabled or the timeout passes. A timeout only prints a warning.
- **Icon loop** (`randomize_icons`). Tracks are visited in order. The loop stops
  once the URL has left the editor, and a failure at one track is swallowed.
- **Workflows** (`run_upload_mode`, `run_icon_mode`). These model the early exits,
  the login, navigation, the batch uploads in order `1..total`, and the
  processing wait.

Files: `wrappers.dfy` (Option, Result), `text.dfy` (ASCII lower-casing,
substring test, code-point string order), `files.dfy`, `icon_choice.dfy`,
`processing.dfy`, `icon_loop.dfy`, `workflow.dfy`.

Inputs that stand in for the page, the file system, the clock and randomness:

- A directory is a flag saying whether it exists, plus a sequence of
  `Entry(name, isFile)`.
- Time is a tick counter in seconds. Poll check `j` runs at `j * 5`, the 5 being
  the sleep between checks.
- At each check, the button state is `enabled: nat -> bool`. The page text is
  `content: nat -> Option<string>`, where `None` means reading the page raised.
- `random.choice` is a caller-supplied `draw`, taken modulo the number of options.
  Each option is reachable and nothing else is.
- Each icon-loop iteration is a `Track`. It holds the URL seen at the start of the
  iteration and what the try block met: a failure before any choice, or a
  dialog's `src` list, the draw, whether the closing step worked, and whether
  the dialog was still open when a failure was handled. The closing step is the
  click on the chosen icon and the wait for the dialog to close, or, for a
  dialog without icons, the Escape key press.
- A missing `src` attribute (`None`) is the empty string. The code only tests
  its truthiness, so it treats the two the same.

Three facts about the code that shape the model:

- A processing timeout only warns and returns (`workflow.py:71`). It does not
  raise. Upload mode goes on to print its instructions, and icon mode goes on
  to the icons.
- A login timeout prompts the operator to press Enter, in headless mode too
  (`workflow.py:208-212`). The run is not aborted.
- No network response is parsed and no playlist record is looked up. Upload
  mode ends by printing instructions (`workflow.py:225-231`).

## Model

| member | source | states |
|---|---|---|
| Files.LastDot | yoto_uploader/files.py:27 | the position found holds a '.' and no '.' follows it; when there is none, the name has no '.' at all |
| Files.Suffix | yoto_uploader/files.py:27 | the suffix is empty, or it is a proper ending of the name of at least two characters that starts with its only '.'; it is non-empty exactly when some '.' strictly inside the name is followed by no other '.' |
| Files.InnerLastDot | yoto_uploader/files.py:27 | the last '.' lies strictly inside the name exactly when some '.' strictly inside the name has no '.' after it |
| Files.AudioFileByEnding | yoto_uploader/files.py:27 | an entry is kept exactly when it is a regular file whose name has at least one character before a four-character ending that, lower-cased, is in the allow-list |
| Files.AudioFileIgnoresCase | yoto_uploader/files.py:27 | two regular files whose names agree after lower-casing are both kept or both dropped |
| Files.UpperCaseEndingKept | yoto_uploader/files.py:27 | `Track 01.MP3` is kept, so the match is case-insensitive |
| Files.DotFileDropped | yoto_uploader/files.py:27 | a bare dot-file named `.mp3` has no suffix and is dropped |
| Files.AudioEntries | yoto_uploader/files.py:24-28 | each entry occurs in the result as often as in the listing if it qualifies, and not at all otherwise |
| Files.SortByName | yoto_uploader/files.py:29 | the result is sorted ascending by name and is a permutation of the input |
| Files.SortedPermutationUnique | yoto_uploader/files.py:29 | two name-sorted permutations of the same regular files are equal, so the sorted order is the only one possible |
| Files.GetValidAudioFiles | yoto_uploader/files.py:20-30 | a missing folder gives FolderNotFound and no list; otherwise the result is sorted by name and holds each qualifying entry as often as the listing does, and nothing else |
| Files.GetValidAudioFilesMembers | yoto_uploader/files.py:24-28 | an entry is returned exactly when it is in the listing and qualifies |
| Files.GetValidAudioFilesUnique | yoto_uploader/files.py:24-30 | any name-sorted list of exactly the qualifying entries equals the result |
| Files.DistinctNamesStrictlyAscend | yoto_uploader/files.py:26-29 | with distinct names in the listing, the result's names strictly ascend, so there are no duplicates |
| Files.Chunks | yoto_uploader/files.py:36-37 | every chunk holds 1..size elements, and every chunk but the last holds exactly size |
| Files.ChunksConcat | yoto_uploader/files.py:35-37 | concatenating the chunks gives back the input, with no gaps, overlaps or reordering |
| Files.ChunkCount | yoto_uploader/files.py:36 | there are ceil(n / size) chunks, so an empty input gives none |
| Files.ChunkAt | yoto_uploader/files.py:36-37 | chunk k is the slice from k*size to k*size+size, cut at the end of the input |
| Files.ChunkList | yoto_uploader/files.py:33-37 | size 0 raises; a negative size yields nothing; a positive size yields chunks that concatenate to the input, ceil(n / size) of them, all full except a non-empty last one |
| Files.ChunkSlices | yoto_uploader/files.py:35-37 | the index-stepping generator loop yields exactly what ChunkList describes, error cases included |
| Files.SevenInThrees | yoto_uploader/files.py:36-37 | seven elements in chunks of three give slices of 3, 3 and 1 elements |
| IconChoice.Candidates | yoto_uploader/workflow.py:129-133 | a position is a candidate exactly when its src is non-empty and unused; candidates keep dialog order |
| IconChoice.ChooseIcon | yoto_uploader/workflow.py:127-143 | no choice exactly when the dialog is empty. Otherwise the choice records the srcs the dialog offered and is one of its icons. It resets exactly when every src is empty or used. Without a reset the src is a new candidate and is added; with one, the set restarts from the chosen src if it is non-empty |
| IconChoice.EveryCandidateReachable | yoto_uploader/workflow.py:141 | draw m picks the m-th candidate, so every candidate can be chosen |
| IconChoice.EveryIconReachableAfterReset | yoto_uploader/workflow.py:135-141 | after a reset, every icon of the dialog can be chosen |
| IconChoice.UsedGrowsBetweenResets | yoto_uploader/workflow.py:132-143 | between resets the used-set only grows |
| IconChoice.NoRepeatBetweenResets | yoto_uploader/workflow.py:129-143 | in a run of choices, a chosen non-empty src is not chosen again before the next reset |
| IconChoice.NoRepeatWhileIconsLeft | yoto_uploader/workflow.py:129-143 | in a run of choices, a chosen non-empty src is not chosen again as long as every dialog after it still offered an icon whose src is non-empty and unused |
| Processing.PollFrom | yoto_uploader/workflow.py:54-69 | from check j on: done at the first check inside the timeout that sees the button enabled, with every check before it seeing it disabled; timed out only if every check from j inside the timeout saw it disabled |
| Processing.WaitForProcessing | yoto_uploader/workflow.py:48-71 | done at the first check inside the timeout that sees the button enabled; timed out, returning normally, exactly when no check inside the timeout sees it enabled |
| Processing.PollStatusLines | yoto_uploader/workflow.py:54-69 | from check j on, a status line is printed at exactly the checks that saw the button disabled and whose page text has a status word |
| Processing.WaitStatusLines | yoto_uploader/workflow.py:59-67 | a status line is printed at exactly the checks that saw the button disabled and whose lower-cased page text contains processing, transcoding or analyzing; a failed text read prints nothing |
| Processing.ScanNeverChangesOutcome | yoto_uploader/workflow.py:62-67 | the status scan and its exceptions never change how the wait ends |
| Processing.DefaultTimeoutChecks | yoto_uploader/workflow.py:48-69 | with the 600 s default, a wait that ends done ends by check 119, and it times out exactly when checks 0..119 all saw the button disabled |
| IconLoop.VisitTrack | yoto_uploader/workflow.py:108-167 | the track result matches its attempt: an empty dialog is escaped, and a failed Escape is logged as a failure; a choice is confirmed or logged as a failure; Escape is pressed on failure only when the dialog is open; the choice records the dialog's srcs, obeys the icon rule against the current used-set, resets the set exactly when the dialog offered no unused non-empty src, and otherwise is a candidate |
| IconLoop.VisitFrom | yoto_uploader/workflow.py:102-167 | from iteration i: visits every track exactly when every URL contains /edit; otherwise stops at the first URL without it, having visited exactly the tracks before it, and each result answers its own track's attempt |
| IconLoop.RandomizeIcons | yoto_uploader/workflow.py:90-167 | with no icons on the page, nothing is visited and the used-set stays empty; otherwise tracks 0..count-1 are visited in order, up to the first URL that left the editor; failures never stop the loop |
| IconLoop.VisitFromChoicesValid | yoto_uploader/workflow.py:100-143 | the choices made along the loop follow the icon rule one after the other, each resetting the used-set exactly when its dialog offered no unused non-empty src and otherwise taking a candidate; the final used-set is the one the last choice left |
| IconLoop.IconStageNoRepeat | yoto_uploader/workflow.py:100-143 | within one icon stage a chosen non-empty src is not chosen again as long as every dialog in between offered an unused non-empty src |
| IconLoop.IconStageResetsExactlyWhenExhausted | yoto_uploader/workflow.py:127-143 | every choice of an icon stage comes from the dialog of one of the tracks it visited, resets the used-set exactly when that dialog's srcs were all empty or used, and otherwise picks a candidate |
| IconLoop.ChoicesComeFromDialogs | yoto_uploader/workflow.py:102-143 | every choice the loop makes offered the srcs of the dialog of a track it visited |
| IconLoop.StopDependsOnlyOnUrls | yoto_uploader/workflow.py:102-106 | two runs whose tracks show the same URLs stop at the same place and visit as many tracks, whatever failed |
| Workflow.UploadTrace | yoto_uploader/workflow.py:214-223 | after the set-up, the trace's uploads are the batches numbered in order, and together they send the batches' files in order |
| Workflow.RunUploadMode | yoto_uploader/workflow.py:188-223 | a missing folder, a folder without audio files and a zero batch size each end the run with no page action, and only those; every other run finishes with the outcome of the default-timeout wait, timed out or not |
| Workflow.UploadModeOrder | yoto_uploader/workflow.py:188-223 | with an existing folder holding an audio file and a non-zero size, the run finishes with the wait's outcome and is set-up, then only uploads numbered 1..total, then the wait. With a positive size the uploads send the sorted audio files exactly once, in ceil(n / size) batches of 1..size files, batch k being the slice from k * size cut at the end of the list; a negative size sends nothing |
| Workflow.SevenFilesInThreeBatches | yoto_uploader/workflow.py:198-221 | seven audio files with the default size 3 are uploaded as batches 1, 2, 3 of 3, 3 and 1 files |
| Workflow.LoginTimeoutStillUploads | yoto_uploader/workflow.py:207-221 | a login timeout changes neither how the run ends nor which batches it uploads |
| Workflow.LoginTimeoutWaitsForOperator | yoto_uploader/workflow.py:201-212 | the login waits for the operator exactly when the login wait timed out, right after submitting |
| Workflow.IconModeIgnoresWait | yoto_uploader/workflow.py:242-259 | two icon-mode runs that differ only in what the page showed during the processing wait assign the same icons and take the same actions, except for the wait's own entry |

## Left out

- Playwright itself is not modelled: selectors, clicks, forced clicks, scrolling, dialog waits and file choosers. Their results are inputs to the model.
- Inside `upload_chunk`, the direct file assignment, its file-chooser fallback and the 10 s settle wait are not modelled (`workflow.py:21-45`). A batch upload is one action. An exception from the fallback would end the run, and that path is not modelled either.
- The cookie-banner dismissal is not modelled (`workflow.py:81-88`). Its exceptions are swallowed and it does not affect the loop.
- `input()` prompts are console I/O and are not modelled: the playlist-name re-prompt loop, the folder quote stripping, and the closing "press Enter" pauses.
- Every page call outside the per-track try block is taken to succeed. In the source an exception from any of them ends the run: `goto`, `fill` and `click` during login and navigation (`workflow.py:202-205`, `215`, `218`, `243-246`, `256`), a `wait_for_url` error other than a timeout (`workflow.py:209`, `250`), `icon_locator.count()` (`workflow.py:97`), `page.is_enabled` (`workflow.py:55`) and reading `page.url` (`workflow.py:103`). So the early exits of RunUploadMode are the only endings it has besides finishing.
- An exception from the Escape press in the empty-dialog branch is caught by the per-track handler (`workflow.py:149-167`). The model covers it through the closing-step flag.
- The click on the chosen icon and the wait for the dialog to close are one closing step. If the click lands and the wait raises (`workflow.py:145-146`), the track is recorded as failed, but nothing undoes the click, so the page may already show the new icon. The model does not say whether a failed track's icon changed.
- After a reset the srcs are read again (`workflow.py:136-139`). If that read raises, the track fails with the program's used-set already cleared. The model has no such attempt: a failure is either before any choice, leaving the set unchanged, or after the choice. IconStageNoRepeat and IconStageResetsExactlyWhenExhausted are therefore stated only for runs without that failure.
- An existing path that is not a readable directory makes `path.iterdir()` raise NotADirectoryError or PermissionError (`files.py:26`). `run_upload_mode` catches only FileNotFoundError (`workflow.py:188-192`), so such a run ends with the exception. The model's listing is always readable, so this ending is not modelled.
- The time spent inside page calls is not modelled. The clock advances only by the 5 s sleep, so check `j` runs at exactly `5 * j` seconds.
- `random.choice`: which option it picks is the caller's draw.
- `run_playwright`, `main`, the browser and context lifecycle, `auth.py` (environment and `.env` lookup), `cli.py` (option wiring, where `headless = not visible`), `debug_tools/mitm_addon.py` and the entry-point shims are not modelled. They are I/O and wiring.
- Only ASCII lower-casing is modelled. `str.lower` also folds non-ASCII letters, but the allow-list is ASCII, so no kept suffix depends on the difference.
- A listing entry is a name plus an is-regular-file flag. Following symlinks and the full path of each `Path` are not modelled.
- Files.AudioEntries: the contract states the qualifying entries with their counts, not that the comprehension keeps listing order. The result is sorted right afterwards, and GetValidAudioFilesUnique shows the sorted result does not depend on that order.

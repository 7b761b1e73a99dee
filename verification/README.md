# German audio transcription app: transcript store and search, in Dafny

The app is a single Streamlit page (`app.py`). It saves an uploaded audio
file into `audio_files`, runs a Whisper speech-recognition model on it, and
saves the German text as `<basename>.txt` in `transcriptions`. It then lists
every `.txt` file in that folder as a table of (filename, transcription)
rows, narrows the table with a case-insensitive search box, and plays each
row's audio from a file name derived back from the transcript name.

This project models that pure core:

- `strings.dfy` (`Strings`): Python's `startswith`, `endswith`, substring
  `in`, ASCII `lower` and `str.replace`, including the left-to-right,
  non-overlapping scan.
- `paths.dfy` (`Paths`): `os.path.join` and `os.path.basename` for POSIX paths.
- `seqs.dfy` (`Seqs`): order-preserving filtering and subsequences.
- `naming.dfy` (`Naming`): how transcript names are derived from audio paths,
  and how audio names are recovered from transcript names.
- `artifact_store.dfy` (`ArtifactStore`): the two folders as maps from file
  name to content. It covers `save_audio`, `transcribe_audio` and one whole
  upload. The speech model is an `Engine` parameter.
- `transcript_index.dfy` (`TranscriptIndex`): `load_transcriptions` and the
  search filter. A pandas table built from no rows has no columns.
- `app.dfy` (`App`): the result list, and the whole flow from an upload to
  the row that the search shows for it.

Recovering the audio name deletes every `".txt"` in the transcript name, not
only the trailing one. So the round trip holds exactly when the audio name
itself contains no `".txt"`. `Naming.RecoverIffClean` proves both directions.
For example, `"a.txt.wav"` is stored as `"a.txt.wav.txt"`, and that name
resolves to `"a.wav"`: the row plays a different upload's audio when one is
stored under that name (`App.DirtyNamePlaysOtherUpload`).

Three behaviours of the code that a reader might not expect, all modelled as the code has them:

- With no transcripts, the page builds a table with no columns. A non-empty
  search then fails with a missing-column error instead of returning an empty
  result, and `TranscriptIndex.Search` returns that failure.
- Resolving an audio name is not an exact inverse of the naming (see above).
- A failed transcription keeps the audio that was already saved. If an older
  transcript exists under the same name, it is left in place.

## Model

| member | source | states |
|---|---|---|
| Strings.EndsWith | app.py:66 | `s.endswith(p)` holds exactly when `s` is some stem followed by `p`. |
| Strings.Contains | app.py:76-77 | The substring test holds exactly when the query occurs at some index of the text. |
| Strings.ReplaceAll | app.py:85 | `str.replace` leaves a text without the pattern unchanged. Deleting a non-empty pattern never makes the text longer. What it does to a text with the pattern is stated by Strings.ReplaceAllStep. |
| Strings.ReplaceAllStep | app.py:85 | For a non-empty pattern and a text built as prefix, pattern, suffix, where no occurrence starts in the prefix, the result is prefix, replacement, then the replaced suffix. |
| Strings.Lower | app.py:76-77 | Lower-casing keeps the length and lower-cases each ASCII letter, leaving every other character as it is. What this means for the search is stated by TranscriptIndex.MatchesIgnoresCase. |
| Strings.LowerIdempotent | app.py:76-77 | Lower-casing twice is the same as lower-casing once. |
| Strings.RemoveAllDropsTwo | app.py:85 | If a text has two non-overlapping occurrences of the pattern, deleting all occurrences removes at least two copies' worth of characters. This holds even though the scan may pick different occurrences. |
| Paths.Basename | app.py:36 | The basename is the longest suffix that has no '/': it is a suffix, it has no '/', and it is preceded by '/' or is the whole path. |
| Paths.Join | app.py:26 | The joined path ends with the name. An absolute name replaces the folder. A relative name lands inside the folder: the path starts with the folder and has exactly one '/' added, unless the folder is empty or already ends in '/', when nothing is added. The name is preceded by '/' whenever the folder is non-empty. Together these fix the joined path. |
| Paths.BasenameOfJoin | app.py:36 | The basename of `os.path.join(folder, name)` is the basename of `name`, so the folder never leaks into a transcript name. |
| Naming.IsTranscriptFile | app.py:66 | A directory entry is listed as a transcript exactly when it is some stem followed by ".txt" (by Strings.EndsWith). Naming.TranscriptName and TranscriptIndex.ListingExact give it its role. |
| Naming.TranscriptName | app.py:36 | A transcript name ends in ".txt", contains no '/', and without the suffix it is the audio path's basename. So it always passes the listing's ".txt" filter. |
| Naming.AudioNameOf | app.py:85 | The recovered audio name is never longer than the transcript name. A name without ".txt" is used as it is. A name ending in ".txt" whose stem has no ".txt" is mapped to that stem. The full round trip is stated by Naming.RecoverIffClean. |
| Naming.RecoverCleanName | app.py:85 | Deleting every ".txt" from `n + ".txt"` gives back `n` when `n` contains no ".txt". |
| Naming.RecoverDirtyName | app.py:85 | When `n` contains ".txt", deleting every ".txt" from `n + ".txt"` does not give back `n`. |
| Naming.RecoverIffClean | app.py:85 | Recovery inverts the naming if and only if the audio name contains no ".txt". |
| Naming.CleanBeforeSuffix | app.py:85 | A name without ".txt" followed by ".tx" still has no ".txt", because ".txt" overlaps itself nowhere. |
| Naming.DeleteSuffixTwice | app.py:85 | Deleting every ".txt" from `x + ".txt" + w + ".txt"` leaves `x + w` when neither part contains ".txt". |
| Naming.AudioNameOfDirty | app.py:85 | The transcript of the upload `x + ".txt" + w` is resolved to the audio name `x + w` when neither part contains ".txt". |
| Naming.RecoverUploadedName | app.py:85 | For an uploaded plain name without ".txt", the name recovered from its transcript name is the uploaded name. |
| Naming.DirtyNameExample | app.py:85 | "a.txt.wav" is stored as "a.txt.wav.txt", which does not resolve back to "a.txt.wav". |
| ArtifactStore.EnumeratesFolder | app.py:65 | `os.listdir` names every file of the folder exactly once and nothing else, in an order left open. TranscriptIndex.ListingExact and App.FoundOnce hold for every such enumeration. |
| ArtifactStore.Write | app.py:27-28 | Opening with "w"/"wb" and writing makes the key hold exactly the new content and leaves every other key untouched (last write wins). |
| ArtifactStore.WriteLastWins | app.py:37-38 | A second write to a key hides the first entirely. |
| ArtifactStore.SaveAudio | app.py:25-29 | Saving audio stores the bytes under the upload's name and does not touch the transcripts. The returned path has the same basename as the name. |
| ArtifactStore.TranscribeAudio | app.py:33-39 | A successful transcription is stored under the transcript name, and the audio is untouched. A failure is passed on and writes nothing. |
| ArtifactStore.Upload | app.py:49-53 | After an upload the audio folder maps the name to the bytes. The transcripts folder maps `basename(name) + ".txt"` to the model's text when the model succeeds and is unchanged when it fails. Every other key is unchanged. |
| ArtifactStore.LaterUploadWins | app.py:26-38 | Uploading the same name twice, where the second transcription succeeds, leaves the same store as the second upload alone. |
| TranscriptIndex.Listing | app.py:63-68 | The listing's filenames are exactly the directory entries ending in ".txt", in enumeration order. Each is paired with the text stored under it. |
| TranscriptIndex.LoadTranscriptions | app.py:63-69 | The table holds the listing's rows. It has no columns exactly when no entry ends in ".txt". |
| TranscriptIndex.ListingExact | app.py:65-68 | Over a complete enumeration of the folder, every stored ".txt" file is listed exactly once and nothing else is listed. |
| TranscriptIndex.Matches | app.py:75-77 | A row matches when the lowercased query occurs at some index of the lowercased filename OR at some index of the lowercased text. |
| TranscriptIndex.MatchesIgnoresCase | app.py:76-77 | Lower-casing the query, or the row's filename and text, never changes whether the row matches (`case=False`). |
| TranscriptIndex.MatchesExample | app.py:75-77 | The query "HALLO" matches a transcript reading "Hallo Welt". The query "a.txt" matches the file "a.txt" through its filename, whatever its text. |
| TranscriptIndex.Search | app.py:74-80 | An empty query returns the table unchanged. A non-empty query on a table without columns fails with a missing "filename" column. Otherwise the result is an order-preserving subsequence, no longer than the table. It keeps every row where the lowercased query occurs in the lowercased filename OR the lowercased text, as often as the row occurs, and drops every other row. |
| TranscriptIndex.SearchIdempotent | app.py:75-78 | Searching a search result again with the same query returns the same result. |
| App.ResolveAudio | app.py:85-86 | The audio played for a transcript is the file stored under the recovered audio name, if there is one. For an uploaded plain name this is the uploaded file (Naming.RecoverUploadedName, App.FoundOnce). |
| App.Render | app.py:83-87 | Every found row is shown, in order, with its heading and text. When the recovered audio name is stored, the row plays exactly the bytes stored under it. Otherwise the row carries the model's "no audio" marker. |
| App.DirtyNamePlaysOtherUpload | app.py:85-86 | The transcript of the upload `x + ".txt" + w` plays whatever is stored under `x + w`, and nothing when no file is stored there, for every `x` and `w` without ".txt". |
| App.DirtyNameExamplePlays | app.py:85-86 | With "a.wav" and "a.txt.wav" both uploaded, the row of "a.txt.wav.txt" plays the bytes of "a.wav". |
| App.FoundOnce | app.py:63-87 | A stored transcript that the query matches, or any transcript when the query is empty, appears exactly once in the results, whatever the audio folder holds. When its derived audio is stored, it is shown with that audio. |
| App.UploadedTranscriptIsFound | app.py:49-87 | After uploading a plain name without ".txt", a search that the new transcript matches, or an empty search, shows the transcript exactly once, together with the uploaded audio. |
| Seqs.Filter | app.py:65-78 | The order-preserving selection behind both filters: never longer than its input, and every kept element qualifies. Seqs.FilterIsSubsequence and Seqs.FilterCount pin it down: it is a subsequence holding each qualifying value exactly as often as the input. |
| Seqs.FilterIsSubsequence | app.py:75-78 | A filter result is an order-preserving subsequence of its input. |
| Seqs.FilterCount | app.py:75-78 | A filter keeps each value exactly as often as it occurs if the value qualifies, and drops it otherwise. |
| Seqs.FilterKeepsAll | app.py:75-78 | Filtering a sequence whose elements all qualify returns it unchanged. This is the basis of idempotence. |

## Left out

- The Streamlit UI (title, uploader widget, `st.audio`, `st.write`, headers) is presentation only. The wav/mp3/flac allow-list on line 47 is enforced by the widget, not by this code.
- Model loading and inference (lines 9-16 and 35) are not modelled. This covers the Whisper pipeline, the forced German decoder ids, the `st.cache_resource` singleton, and long-form timestamped decoding. The model is an opaque `Engine` parameter from audio bytes to text or failure.
- Real filesystem effects are not modelled. `os.makedirs`, `open` and `os.listdir` are represented by two maps keyed by the file name inside each folder. A directory listing is any sequence naming each file once (`EnumeratesFolder`), in an order left open. Write failures (disk full, permissions) are not modelled.
- Upload names that are absolute or contain `..` are not modelled: the audio map is keyed by the upload's name as given. Under POSIX `os.path.join` such names would escape the folder.
- TranscriptIndex.Search treats the query as a literal substring. pandas `str.contains` interprets it as a regular expression, so the model agrees with the app only for queries without regex metacharacters.
- TranscriptIndex.Search lowercases ASCII letters only. Python's Unicode case folding (for example of "Ü") is not modelled.
- App.Render marks a row whose derived audio file is missing with `None` and keeps rendering. The program has no such marker. Line 85 builds the path and line 86 passes it straight to `st.audio`, which opens the local file and lets the error propagate. So a missing file ends the list at that row: its text (line 87) and every later row are not shown. An upload name containing ".txt" can cause this. "a.txt.wav.txt" resolves to "a.wav", so the page stops there when nobody uploaded "a.wav". When "a.wav" is stored, nothing is raised and the row plays that other upload's audio under the "a.txt.wav.txt" heading (App.DirtyNameExamplePlays). The "shown" conclusions of App.FoundOnce and App.UploadedTranscriptIsFound rely on this marker, because earlier rows could have missing audio.
- App.UploadedTranscriptIsFound: text is kept exactly as written, with no encoding round trip. Line 67 reads a transcript back in text mode, which turns "\r\n" and "\r" into "\n". So the model's claim that the listed text equals the engine's text holds in the program only when that text contains no "\r".

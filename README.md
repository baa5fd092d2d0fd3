# PyTTSLib session and text helpers in Dafny

A model of the core of PyTTSLib: the `TextToSpeech` session of
`pyttslib/tts.py` and the helpers `text_to_chunks` and
`is_supported_audio_format` of `pyttslib/utils.py`.

The speech engines (pyttsx3, gTTS), the audio players and the operating system
are not visible code. Each engine call, player run and unlink comes in as an
outcome parameter. The disk becomes a `FileSystem` object holding a set of
regular files and a set of directories. The model covers everything the
package itself decides:

- which engine a name selects;
- what the engine instance holds;
- which path gets written;
- which players are tried, and in what order;
- which files are deleted and which tracked entries are dropped;
- how long text is cut into chunks.

Files and modules:

| file | module | contents |
|---|---|---|
| `wrappers.dfy` | `Wrappers` | `Option`, `Result` |
| `paths.dfy` | `Paths` | POSIX `os.path.join` and `os.path.splitext`; ASCII `str.lower`; `str(int)`; the scratch directory and file names |
| `text.dfy` | `TextUtils` | `str.split()`, `str.strip()`, `re.split(r'[.!?][\s]+')`; `text_to_chunks` as a method with loops; `is_supported_audio_format` |
| `storage.dfy` | `Storage` | the disk and the tracked list as a value (`Store`); what `_delete_audio_file`, `_cleanup_temp_files`, `_cleanup_temp_folder` and `cleanup` do to it, as functions with lemmas; the mutable `FileSystem` class |
| `playback.dfy` | `Playback` | the Windows and Unix player fallbacks as methods, specified by a first-success function |
| `engines.dfy` | `Engines` | engine selection, Google defaults, the engine instance, the setters, the volume clamp, `.wav` defaulting, the Google voice table |
| `tts.dfy` | `Tts` | the `TextToSpeech` class; a specification of `speak` on `Store` and its lemmas |

The class methods change `this` (the tracked list `_temp_files` and the engine
instance) and the `FileSystem` in place. Each one's `ensures` ties the new
state, `Store(files, dirs, tempFiles)`, to a function of the old state in
`Storage` or `Tts`. The lemmas about those functions state what the session
promises.

Behaviour the model reproduces because the code does it:

- **The scratch file is deleted even after playback fails.** After a failed
  playback, `_play_audio_file` prints that the file was kept and returns early
  (pyttslib/tts.py:256-260). The `finally` block still calls
  `_delete_audio_file` (pyttslib/tts.py:266-270). The comment and the message
  before that return (pyttslib/tts.py:257-259) say that the file is kept for
  manual playback. The model
  follows the code: `Tts.SpeakState` does not depend on the playback outcome
  at all (`Tts.SpeakIgnoresPlayback`), and `Tts.SpeakDeletesUnplayedAudio`
  shows that the file goes.
- **Dots are compared by value.** `text_to_chunks` adds "." to every piece
  whose value differs from the last piece (pyttslib/utils.py:38). So a piece
  equal to the last one gets no ".", and a piece cut at '!' or '?' gets "."
  instead. `TextUtils.Dotted` models exactly this. The words come out equal
  to the words of the text only under `PlainStops`: every cut is at '.' and
  no other piece equals the last.
- **Empty chunks can appear, even when every word fits.** There are two ways.
  - The word loop appends the stripped chunk being built without checking
    that it holds anything (pyttslib/utils.py:52-53). So a first word as long
    as the limit pushes an empty chunk: for "abc abc" with limit 3 the code
    yields `["", "abc", "abc"]` (`TextUtils.PackWord` states this case
    exactly).
  - An empty piece leaves the chunk being built as " ". That is truthy, so it
    is appended stripped, as "" (pyttslib/utils.py:43-44): for ". a. " with
    limit 2 the code yields `["", "a."]` (`TextUtils.CloseChunk`).

  An empty chunk is within any non-negative limit, so `TextUtils.TextToChunks` still
  proves that every chunk fits when every word does. Only a word longer than
  the limit breaks the bound.
- **Stale tracked entries.** `_temp_files` may hold a path twice; equal
  timestamps give equal paths (`Paths.TempPathInjective`). `_cleanup_temp_files`
  can then leave a tracked entry for a file already deleted
  (`Storage.CleanupLeavesStaleEntry`).
- **The scratch directory comes first.** It is created before the engine name
  is checked, so it exists even after `EngineNotFoundError`
  (`Tts.TextToSpeech.New`).
- **Configured volume is not clamped.** A volume from the configuration reaches
  pyttsx3 unclamped (`Engines.ConfigVolumeUnclamped`); only `set_volume`
  clamps.

## Model

| member | source | states |
|---|---|---|
| Paths.Lower | pyttslib/tts.py:45 | `str.lower` on ASCII: the same length, no capital letter left, every other character kept |
| Paths.LowerAppend | pyttslib/tts.py:139 | lower-casing distributes over concatenation |
| Paths.Join | pyttslib/tts.py:226 | a relative name is appended after a '/', unless the directory is empty or already ends in '/' |
| Paths.JoinIsDirectChild | pyttslib/tts.py:87-88 | joining a non-empty entry name without a separator gives a path directly inside the directory |
| Paths.JoinInjective | pyttslib/tts.py:226 | two relative names joined to the same directory give the same path only if they are equal |
| Paths.LastIndex | pyttslib/utils.py:79 | the index of the last occurrence of a character, or -1 exactly when it does not occur |
| Paths.LastIndexAppend | pyttslib/utils.py:79 | the last occurrence in a concatenation is in the second part if it occurs there, else in the first |
| Paths.SplitExt | pyttslib/utils.py:79 | stem and extension put together give the path; the extension is empty or one '.' followed by no '.' or '/'; a non-empty extension follows a named final component |
| Paths.SplitExtAt | pyttslib/utils.py:79 | a named stem followed by a dotted suffix splits exactly between them (inverse of concatenation) |
| Paths.SplitExtUnnamed | pyttslib/utils.py:79 | a final component made only of dots, or an empty one, has no extension |
| Paths.SplitExtHidden | pyttslib/utils.py:79 | a final component of leading dots and then a dot-free name, such as ".wav", has no extension |
| Paths.NatToString | pyttslib/tts.py:224-225 | the decimal rendering is a non-empty string of digits |
| Paths.ParseNatToString | pyttslib/tts.py:224-225 | reading the decimal rendering back gives the number |
| Paths.IntToString | pyttslib/tts.py:225 | `str(int)`: '-' for a negative number, then the decimal digits; its properties are `Paths.IntToStringSign` and `Paths.IntToStringInjective` |
| Paths.IntToStringSign | pyttslib/tts.py:225 | the rendering starts with '-' exactly for negative numbers |
| Paths.IntToStringInjective | pyttslib/tts.py:225 | different timestamps render differently |
| Paths.TempDirOf | pyttslib/tts.py:50 | the scratch directory lies directly inside the system temp root |
| Paths.TempPath | pyttslib/tts.py:224-226 | the scratch file path `join(dir, "pyttslib_audio_" + str(timestamp) + suffix)`; its properties are `Paths.TempPathInjective` and `Paths.TempPathInDir` |
| Paths.TempPathInjective | pyttslib/tts.py:224-226 | two scratch paths with the same suffix are equal exactly when their timestamps are |
| Paths.TempPathInDir | pyttslib/tts.py:225-226 | a scratch path lies directly inside the scratch directory |
| TextUtils.Words | pyttslib/utils.py:48 | `str.split()`: the maximal runs of non-whitespace, in order; their shape is `TextUtils.WordsShape` |
| TextUtils.RunLength | pyttslib/utils.py:48 | the leading run of non-whitespace characters, ending at whitespace or the end |
| TextUtils.WordsShape | pyttslib/utils.py:48 | `split()` gives non-empty words without whitespace |
| TextUtils.RunLengthAppend | pyttslib/utils.py:48 | the leading run of a concatenation crosses into the second part only if the first part has no whitespace |
| TextUtils.WordsOfSpaces | pyttslib/utils.py:48 | whitespace holds no words |
| TextUtils.WordsAppend | pyttslib/utils.py:48 | where whitespace separates two strings, the words of their concatenation are the words of each, in order |
| TextUtils.WordsAppendWord | pyttslib/utils.py:48 | the same, when the first string starts with a word |
| TextUtils.WordsOfWord | pyttslib/utils.py:54-56 | a word followed by a space splits back into that one word |
| TextUtils.WordsTrailingSpace | pyttslib/utils.py:58-60 | appending a space adds no word |
| TextUtils.TrimStart | pyttslib/utils.py:44 | a suffix of the string that starts with a non-space, with the same words |
| TextUtils.TrimEnd | pyttslib/utils.py:44 | a prefix of the string that ends with a non-space, with the same words |
| TextUtils.Strip | pyttslib/utils.py:44 | the result has whitespace at neither end, holds the same words, and is shorter when the string ends in whitespace |
| TextUtils.BlankHasNoWords | pyttslib/utils.py:63 | a string that strips to nothing holds no words |
| TextUtils.LeadingSpaces | pyttslib/utils.py:30 | the number of leading whitespace characters, stopping at a non-space |
| TextUtils.MatchLength | pyttslib/utils.py:30 | the greedy match length of `[.!?][\s]+` at the front: 0, or at least 2 |
| TextUtils.SplitFrom | pyttslib/utils.py:31 | the split gives at least one piece; every separator but the last is a terminator followed only by whitespace |
| TextUtils.SplitSentences | pyttslib/utils.py:31 | one string per piece, so at least one |
| TextUtils.Scanned | pyttslib/utils.py:31 | what a leftmost, greedy scan cuts; `TextUtils.SplitFromScanned` proves that the split is one |
| TextUtils.SplitFromScanned | pyttslib/utils.py:31 | the scan cuts at every match: no match starts inside a piece, and every separator but the last is the whole greedy match at its place |
| TextUtils.SplitScanned | pyttslib/utils.py:30-31 | the same for `re.split(r'[.!?][\s]+', text)` |
| TextUtils.ScannedAt | pyttslib/utils.py:31 | the same, read off at one piece |
| TextUtils.SplitNoMatchInsidePieces | pyttslib/utils.py:30-31 | no piece of the split holds a terminator followed by whitespace |
| TextUtils.SplitSeparatorsMaximal | pyttslib/utils.py:30-31 | the whitespace after a terminator is taken whole: no piece after a cut starts with whitespace |
| TextUtils.MatchEnd | pyttslib/utils.py:30 | a whole match in front of more text ends where the whitespace ends |
| TextUtils.RejoinSplitFrom | pyttslib/utils.py:31 | the scan loses no character |
| TextUtils.SplitRoundTrip | pyttslib/utils.py:31 | the pieces and the separators put back together are the text |
| TextUtils.WordsOfAllSnoc | pyttslib/utils.py:44 | appending a chunk appends its words |
| TextUtils.WordsOfAllAppend | pyttslib/utils.py:36-64 | the words of two chunk lists put together are the words of each, in order |
| TextUtils.Restored | pyttslib/utils.py:37-39 | one restored piece per split piece |
| TextUtils.WordsOfSplit | pyttslib/utils.py:30-31 | the words of the text are exactly the words of the pieces, each with its terminator put back |
| TextUtils.WordsAcrossMatch | pyttslib/utils.py:30-31 | the words of the text split at a match into the words up to the terminator and those after the whitespace |
| TextUtils.WordsOfSplitFrom | pyttslib/utils.py:31 | the words of the restored pieces of the scan are the words of what was scanned |
| TextUtils.WordsOfSplitAtMatch | pyttslib/utils.py:31 | the same, at a cut |
| TextUtils.Dotted | pyttslib/utils.py:38-39 | every piece whose value differs from the last piece's gets "."; the count of pieces is kept |
| TextUtils.DottedIsRestored | pyttslib/utils.py:38-39 | when every cut is at '.' and no other piece equals the last, adding "." puts back exactly the cut terminators |
| TextUtils.ChunkPiecesWords | pyttslib/utils.py:30-39 | under the same condition, the pieces the loop packs hold exactly the words of the text |
| TextUtils.TextToChunks | pyttslib/utils.py:12-66 | text within the limit comes back as `[text]`; otherwise the chunks hold, in order, exactly the words of the dotted pieces (the words of the text itself under plain full stops), and every chunk is stripped; when every word of the text fits the limit (or, more weakly, every word of the dotted pieces), every chunk does |
| TextUtils.TextWordsFit | pyttslib/utils.py:30-39 | when every word of the text fits the limit, so does every word of every piece the loop packs, whatever the terminators |
| TextUtils.DottedWithin | pyttslib/utils.py:37-39 | a packed piece has no word longer than the same piece with its own terminator put back |
| TextUtils.SnocWithin | pyttslib/utils.py:38-39 | replacing a final non-space character by another, or dropping it, lengthens no word |
| TextUtils.WordsFitOfAll | pyttslib/utils.py:44 | when every word of a list of strings fits, so does every word of each string |
| TextUtils.WordsOfPieceSplit | pyttslib/utils.py:44 | the words of one string sit, in order, among the words of the whole list |
| TextUtils.PackSentences | pyttslib/utils.py:33-64 | the outer loop keeps every word of every dotted piece in order, strips every chunk, and keeps the bound when the words fit |
| TextUtils.PackSentence | pyttslib/utils.py:37-60 | one pass appends the piece's words after those already packed; a piece that fits joins the chunk being built with a space; a piece that does not fit but is within the limit closes that chunk, if it holds anything, and starts the next one |
| TextUtils.CloseChunk | pyttslib/utils.py:43-44 | the chunk list gains the chunk being built, stripped, exactly when that is non-empty, so a blank " " gives an empty chunk; no word is lost |
| TextUtils.PackWords | pyttslib/utils.py:47-56 | the word loop keeps every word in order and, when the words fit, every chunk fits |
| TextUtils.PackWord | pyttslib/utils.py:52-56 | when the word would pass the limit, the chunk list gains the chunk being built, stripped, even an empty one, and the next chunk is the word and a space; otherwise the word and a space are appended to the chunk being built; no word is lost |
| TextUtils.CloseLast | pyttslib/utils.py:62-64 | the result is the chunk list plus the stripped leftover when that is not blank, else the chunk list unchanged; no word is lost |
| TextUtils.IsSupportedAudioFormat | pyttslib/utils.py:68-80 | `is_supported_audio_format`; `TextUtils.SupportedFormatIff` characterises it |
| TextUtils.FormatShape | pyttslib/utils.py:78 | each supported extension is a '.' and then characters that are neither '.' nor '/' |
| TextUtils.ExtensionShape | pyttslib/utils.py:78-80 | an extension that lower-cases to a supported one has the shape `splitext` cuts off |
| TextUtils.SupportedFormatAt | pyttslib/utils.py:78-80 | a named stem plus a supported extension in any letter case is supported |
| TextUtils.SupportedFormatIff | pyttslib/utils.py:78-80 | a path is supported exactly when it is a named stem followed by a supported extension in any letter case |
| TextUtils.HiddenFileUnsupported | pyttslib/utils.py:79-80 | a final component of leading dots and then a name without '.', such as ".wav" or "dir/..mp3", is not supported |
| TextUtils.DotWavUnsupported | pyttslib/utils.py:79-80 | ".wav" on its own is not supported |
| TextUtils.UnnamedUnsupported | pyttslib/utils.py:79-80 | a path whose final component is empty or only dots is not supported |
| Storage.RemoveFirst | pyttslib/tts.py:79 | `list.remove`: with the entry missing (the caught `ValueError`), the list is unchanged; otherwise it is one shorter and gains nothing new |
| Storage.CountRemoveFirst | pyttslib/tts.py:284 | removal drops exactly one entry equal to the path, if there is one, and no entry of any other path |
| Storage.IndexOf | pyttslib/tts.py:79 | the position of the first entry equal to the path |
| Storage.RemoveFirstCutsFirst | pyttslib/tts.py:79 | removal cuts out the first occurrence and keeps the order of the rest |
| Storage.FirstSucceeding | pyttslib/tts.py:280-286 | the first of the three attempts whose unlink does not raise, or 3 when none |
| Storage.Delete | pyttslib/tts.py:272-295 | directories stay; either nothing changes or the tracked file is gone with one entry removed; an absent or untracked path changes nothing |
| Storage.DeleteRemovesIff | pyttslib/tts.py:280-286 | the path is not a file afterwards exactly when it was not a file before, or it was tracked and one of the three attempts succeeded |
| Storage.DeleteDropsOneEntry | pyttslib/tts.py:283-284 | a successful delete drops exactly one entry for the path and none for any other |
| Storage.DeleteOnThirdAttempt | pyttslib/tts.py:280-291 | two failed attempts and a third that succeeds leave the file deleted and untracked |
| Storage.DeleteAllAttemptsFail | pyttslib/tts.py:280-295 | when all three attempts fail nothing changes |
| Storage.CleanupStep | pyttslib/tts.py:74-81 | one pass of the snapshot loop; its contract is `Storage.StepCount` |
| Storage.CleanupFiles | pyttslib/tts.py:72-81 | `_cleanup_temp_files` over a snapshot of the tracked list; its contracts are `Storage.CleanupFrame`, `Storage.CleanupNoFailures` and `Storage.CleanupUnique` |
| Storage.StepCount | pyttslib/tts.py:74-81 | one pass of the snapshot loop unlinks the path only when it is a file whose unlink does not raise, touches no other file and no directory, and drops one of its entries exactly when it is absent or was unlinked, after which it no longer exists |
| Storage.CleanupPrefixFiles | pyttslib/tts.py:74-81 | the passes create nothing, leave directories alone and keep every file not yet reached |
| Storage.CleanupPrefixCount | pyttslib/tts.py:74-81 | entries are only dropped, and a path that still exists keeps every entry |
| Storage.CleanupFrame | pyttslib/tts.py:72-81 | the cleanup creates nothing, leaves directories and untracked files alone, only drops entries, and drops none of a path that still exists |
| Storage.CleanupPrefixMissing | pyttslib/tts.py:76-79 | an absent path keeps one entry for each of its snapshot entries not yet reached |
| Storage.CleanupDropsMissing | pyttslib/tts.py:76-79 | every path that was already absent is dropped from tracking, all its entries |
| Storage.CleanupPrefixNoFailuresFiles | pyttslib/tts.py:74-79 | with no failing unlink, the passes have deleted exactly the files they reached |
| Storage.CleanupPrefixNoFailuresCount | pyttslib/tts.py:74-79 | with no failing unlink, the entries reached are dropped except those of directories |
| Storage.CleanupNoFailures | pyttslib/tts.py:72-81 | with no failing unlink, every tracked file is deleted and only directories stay tracked, with their counts |
| Storage.CleanupPrefixUnique | pyttslib/tts.py:74-81 | a path tracked once keeps its state until its pass, and afterwards has the fate its own unlink decided |
| Storage.CleanupUnique | pyttslib/tts.py:74-81 | a path tracked once stays on disk exactly when it was a file whose unlink raised, and stays tracked exactly when it still exists |
| Storage.CleanupLeavesStaleEntry | pyttslib/tts.py:74-81 | a path tracked twice whose first unlink raises and second succeeds is deleted but stays tracked once |
| Storage.CleanupPrefixOnlyDirs | pyttslib/tts.py:76-81 | when every tracked entry is a directory the cleanup changes nothing |
| Storage.Sweep | pyttslib/tts.py:83-96 | the folder sweep deletes every regular file directly in the directory unless its unlink raises, leaves directories, files elsewhere and the tracked list alone, and does nothing when the directory is missing |
| Storage.SweepRemovesTempFile | pyttslib/tts.py:87-92 | a scratch file the session named is removed by the sweep unless its unlink raises |
| Storage.CleanupAll | pyttslib/tts.py:479-486 | `cleanup()`: the tracked files, then the folder sweep; see `Storage.CleanupAllIdempotent` and `Storage.CleanupAllEmptiesFolder` |
| Storage.CleanupAllIdempotent | pyttslib/tts.py:479-486 | with no failing unlink of a tracked file, calling `cleanup()` twice leaves the same state as calling it once |
| Storage.CleanupAllEmptiesFolder | pyttslib/tts.py:479-486 | after `cleanup()` no unlocked regular file is left directly in the scratch directory |
| Storage.FileSystem.Unlink | pyttslib/tts.py:77 | the unlink succeeds exactly for an existing regular file whose unlink does not raise, and then removes only it; no path becomes both a file and a directory |
| Storage.FileSystem.MakeDirs | pyttslib/tts.py:51-52 | the missing directory is created and nothing else changes; no path becomes both a file and a directory |
| Storage.FileSystem.Write | pyttslib/tts.py:329 | a save succeeds unless the target is a directory or the engine raises, and then creates the file; no path becomes both a file and a directory |
| Playback.Succeeds | pyttslib/tts.py:135-209 | a player succeeds when it does not raise; SoundPlayer and the command-line players also need exit code 0; see `Playback.WindowsFailsIff` and `Playback.UnixFailsIff` |
| Playback.WindowsChain | pyttslib/tts.py:135-176 | winsound (only for ".wav" in any case), SoundPlayer, MediaPlayer, playsound; see `Playback.NonWavSkipsWinSound` and `Playback.UpperWavTriesWinSound` |
| Playback.UnixChain | pyttslib/tts.py:188-209 | playsound, then afplay, aplay, mpg123, mpg321 and play; see `Playback.UnixStopsAtAplay` |
| Playback.FirstSuccess | pyttslib/tts.py:135-176 | the first player that succeeds, with every earlier one failing; none exactly when every player fails |
| Playback.Tried | pyttslib/tts.py:188-211 | the players started form a prefix of the chain |
| Playback.TriedUpTo | pyttslib/tts.py:204-207 | when player i is the first success, exactly the first i + 1 players are started |
| Playback.TriedAll | pyttslib/tts.py:211 | when no player succeeds, all of them are started and the result is failure |
| Playback.PlayWindows | pyttslib/tts.py:125-176 | the result is success exactly when some player of the Windows chain succeeds, and the players started are those up to the first success |
| Playback.PlayUnix | pyttslib/tts.py:178-211 | the same for the Unix chain: playsound, then afplay, aplay, mpg123, mpg321 and play |
| Playback.NonWavSkipsWinSound | pyttslib/tts.py:139 | a path not ending in ".wav", in any case, never reaches winsound |
| Playback.UpperWavTriesWinSound | pyttslib/tts.py:139 | a path ending in ".WAV" goes to winsound first |
| Playback.WindowsFailsIff | pyttslib/tts.py:135-176 | Windows playback fails exactly when winsound (if tried) raised, SoundPlayer did not exit with 0, and MediaPlayer and playsound raised |
| Playback.MediaPlayerIgnoresExitCode | pyttslib/tts.py:155-167 | when the earlier players fail, MediaPlayer ends the chain whatever its exit code, and playsound is not started |
| Playback.UnixFailsIff | pyttslib/tts.py:188-211 | Unix playback fails exactly when playsound raised and every command-line player raised or exited non-zero |
| Playback.UnixStopsAtAplay | pyttslib/tts.py:196-209 | with playsound and afplay failing and aplay succeeding, exactly those three are started |
| Engines.SelectEngine | pyttslib/tts.py:45-65 | an accepted name lower-cases to the selected engine's name; a rejected one raises `EngineNotFoundError` with the name as given |
| Engines.SelectEngineAccepts | pyttslib/tts.py:60-65 | a name is accepted exactly when it lower-cases to "pyttsx3" or "google" |
| Engines.SelectEngineByName | pyttslib/tts.py:45-63 | each engine's name in any case selects that engine |
| Engines.SelectEngineCaseInsensitive | pyttslib/tts.py:45 | names that differ only in case select the same engine or fail alike |
| Engines.SelectEngineExamples | pyttslib/tts.py:45-65 | "GoOgLe" selects Google, "PYTTSX3" selects pyttsx3, "espeak" raises |
| Engines.MissingConfigIsEmpty | pyttslib/tts.py:46 | `engine_config or {}`: no configuration sets up either engine exactly as an empty one |
| Engines.GoogleSettings | pyttslib/tts.py:116-123 | lang, tld and slow are each taken from the configuration or default to "en", "com" and False |
| Engines.GoogleDefaults | pyttslib/tts.py:119-123 | with no configuration Google uses "en", "com" and False |
| Engines.GoogleIgnoresOtherKeys | pyttslib/tts.py:119-123 | keys other than lang, tld and slow make no difference to Google |
| Engines.LocalSettingsAsGiven | pyttslib/tts.py:98-111 | rate, volume and voice are set exactly when the configuration has them, to the configured values; a missing one keeps the engine default |
| Engines.LocalIgnoresOtherKeys | pyttslib/tts.py:98-111 | configuration keys other than rate, volume and voice make no difference to the local engine |
| Engines.ConfigVolumeAsGiven | pyttslib/tts.py:98-111 | any configured volume, in range or not, reaches the local engine unclamped |
| Engines.InitialInstance | pyttslib/tts.py:59-63 | the instance is the local engine exactly for pyttsx3 |
| Engines.ConfigVolumeUnclamped | pyttslib/tts.py:107-108 | a configured volume of 1.7 reaches the engine as 1.7 |
| Engines.ClampVolume | pyttslib/tts.py:412 | the result lies in [0, 1], is the volume itself inside that range, 0 below it and 1 above it |
| Engines.ClampVolumeIdempotentMonotone | pyttslib/tts.py:412 | clamping twice is clamping once, and clamping keeps the order of volumes |
| Engines.ClampVolumeExamples | pyttslib/tts.py:412 | -0.5 becomes 0.0, 1.7 becomes 1.0, 0.25 stays |
| Engines.WithRate | pyttslib/tts.py:390-397 | the local engine gets the rate and nothing else changes; Google is unchanged |
| Engines.WithVolume | pyttslib/tts.py:410-418 | the local engine gets a volume in [0, 1] and nothing else changes; Google is unchanged |
| Engines.WithVolumeStoresClamped | pyttslib/tts.py:412-413 | the stored volume is the clamped one, the given one when in range |
| Engines.WithVoice | pyttslib/tts.py:432-436 | the local engine gets the voice id; for Google only the language changes and tld and slow stay |
| Engines.SettersCommute | pyttslib/tts.py:390-436 | the three setters touch different properties, so their order does not matter |
| Engines.WithVoiceLastWins | pyttslib/tts.py:433-436 | setting the voice twice keeps only the second |
| Engines.SaveTarget | pyttslib/tts.py:358-362 | ".wav" is appended exactly when `splitext` finds no extension; otherwise the path is unchanged |
| Engines.SaveTargetAddsWav | pyttslib/tts.py:360-362 | a named file without extension gets exactly ".wav" as extension, a supported format |
| Engines.SaveTargetIdempotent | pyttslib/tts.py:360-362 | for a named final component, defaulting twice is defaulting once |
| Engines.SaveTargetDirectory | pyttslib/tts.py:360-362 | a path ending in '/' becomes a hidden file ".wav" inside that directory |
| Engines.GoogleVoices | pyttslib/tts.py:464-477 | the Google table has ten voices |
| Engines.GoogleVoiceTable | pyttslib/tts.py:466-477 | each id is two lower-case letters, no two ids are equal, and the first is the default language "en" |
| Engines.ListedVoiceSetsLang | pyttslib/tts.py:466-477 | choosing a listed Google voice sets the language to its id |
| Tts.SpeakState | pyttslib/tts.py:297-341 | the disk and tracked list after `speak`; its properties are the `Tts.Speak*` lemmas below |
| Tts.SpeakError | pyttslib/tts.py:297-341 | `TTSError` for non-empty text exactly when synthesis fails or the Google scratch path is a directory; see `Tts.SpeakEmptyText` and `Tts.TextToSpeech.Speak` |
| Tts.SaveDestination | pyttslib/tts.py:358-374 | pyttsx3 writes to `Engines.SaveTarget` of the path, Google to the path as given; see `Tts.TextToSpeech.SaveToFile` |
| Tts.SpeakEmptyText | pyttslib/tts.py:307-308 | empty text changes nothing, not even through cleanup, and raises nothing |
| Tts.SpeakDeletesUnplayedAudio | pyttslib/tts.py:256-270 | once the Google audio is saved and some deletion attempt succeeds, the file is gone, even if no player succeeded |
| Tts.SpeakIgnoresPlayback | pyttslib/tts.py:249-270 | the state `speak` leaves does not depend on the platform or on what any player did |
| Tts.SpeakLeavesNoScratchFile | pyttslib/tts.py:316-341 | with no failing cleanup unlink, the Google scratch file is neither on disk nor tracked afterwards |
| Tts.SpeakLocalOnlyCleans | pyttslib/tts.py:312-341 | for pyttsx3, `speak` only deletes tracked files and leaves directories and untracked files alone |
| Tts.TextToSpeech.Init | pyttslib/tts.py:45-63 | the new session has the given engine, configuration and scratch directory, the initial engine instance and no tracked files |
| Tts.TextToSpeech.New | pyttslib/tts.py:33-65 | creates the scratch directory if it is missing, before the name is checked; an unknown name raises `EngineNotFoundError`; a failing pyttsx3 start raises `TTSError`; otherwise a consistent session with no tracked files |
| Tts.TextToSpeech.CreateTempFile | pyttslib/tts.py:213-231 | returns `join(temp_dir, "pyttslib_audio_" + str(timestamp) + suffix)` and appends exactly that path; no file is created |
| Tts.TextToSpeech.DeleteAudioFile | pyttslib/tts.py:272-295 | the retry loop leaves exactly the state `Storage.Delete` describes |
| Tts.TextToSpeech.CleanupTempFiles | pyttslib/tts.py:72-81 | the loop over the snapshot leaves exactly the state `Storage.CleanupFiles` describes |
| Tts.TextToSpeech.CleanupTempFolder | pyttslib/tts.py:83-96 | the loop over the listed entries leaves exactly the state `Storage.Sweep` describes |
| Tts.TextToSpeech.Cleanup | pyttslib/tts.py:479-486 | tracked files first, then the folder: exactly `Storage.CleanupAll` |
| Tts.TextToSpeech.PlayAudioFile | pyttslib/tts.py:233-270 | reports whether the platform's chain succeeded, and in every case ends with the deletion of the file |
| Tts.TextToSpeech.Speak | pyttslib/tts.py:297-341 | leaves the state `Tts.SpeakState` describes and raises `TTSError` exactly when synthesis or the save fails; the engine instance is unchanged |
| Tts.TextToSpeech.SaveToFile | pyttslib/tts.py:343-377 | empty text does nothing; otherwise writes to the defaulted path (pyttsx3) or the given one (Google) and raises `TTSError` exactly when the write fails |
| Tts.TextToSpeech.SetRate | pyttslib/tts.py:379-397 | pyttsx3 gets the rate unless setProperty raises, which becomes `TTSError`; Google is unchanged and nothing is raised |
| Tts.TextToSpeech.SetVolume | pyttslib/tts.py:399-418 | pyttsx3 gets the clamped volume unless setProperty raises; Google is unchanged |
| Tts.TextToSpeech.SetVoice | pyttslib/tts.py:420-438 | pyttsx3 gets the voice unless setProperty raises; for Google only the language is replaced |

## Left out

- Engines and players. The pyttsx3, gTTS, playsound and winsound calls, and the PowerShell and command-line players started through `subprocess.run` (pyttslib/tts.py:137-209), are foreign code or external processes. Each becomes an outcome parameter: a boolean for an engine call, and a raised-or-exit-code `Outcome` for a player.
- The pyttsx3 branch of `list_voices` (pyttslib/tts.py:452-463) maps foreign voice objects. Only the Google table is modelled.
- The disk is a set of regular files and a set of directories. Whether an unlink raises is an input: a sequence of booleans per loop, or the set `locked` for the folder sweep, whose listing order is unspecified. Symbolic links, permissions and paths naming the same file in two spellings are not modelled.
- `os.makedirs` would also create missing parents of the scratch directory, and it can raise. The model adds just the scratch directory.
- A save that raises is assumed to leave no file behind; a partial write is not modelled.
- A save whose target is an existing directory is modelled as failing for both engines (`Storage.FileSystem.Write`). For gTTS this is `open(path, "wb")` failing. For pyttsx3 it is an assumption about the foreign driver behind `save_to_file`/`runAndWait`, which is not visible code.
- Default arguments are not modelled as such: `text_to_chunks(max_length=1000)`, `_create_temp_file(suffix=".mp3")` and `TextToSpeech(engine="pyttsx3", engine_config=None)` all take their arguments explicitly. `speak` passes ".mp3" itself (`Tts.SpeakPath`).
- `time.time()` is an input timestamp. All `time.sleep` calls are omitted, including the growing back-off of `_delete_audio_file`, because wall-clock behaviour is not modelled.
- All `print` output and the text of error messages are left out. Errors are `Engines.TtsError` values, carrying the failing stage instead of a message.
- The finaliser `__del__` (pyttslib/tts.py:67-70) is left out: when it runs depends on the runtime, and it only repeats `cleanup`.
- `ensure_dir_exists` (pyttslib/utils.py:82-94) is directory I/O only. pyttslib/exceptions.py and pyttslib/__init__.py are not part of this model.
- The volume clamp works over `real`. Float rounding and NaN are not modelled.
- Lower-casing covers ASCII letters only. Python's `str.lower` also maps other letters, but no non-ASCII character lower-cases into the ASCII names and extensions compared here. "K" (Kelvin) maps to "k", which none of them contains. "İ" maps to two characters.
- Path joining and `splitext` follow POSIX `posixpath` rules. Windows `ntpath` rules (drive letters, '\\' separators) are not modelled.
- Configuration values are arbitrary Python values; the model has four kinds of them. `engine_config or {}` is `Engines.ConfigOf` over an optional map; a falsy non-dict configuration is not modelled.
- In `speak`, the pyttsx3 `say`/`runAndWait` and the gTTS build-and-save each fail as one event. The model does not separate a gTTS constructor error from a `save` error, because both raise the same `TTSError`.

# Piper TTS server: catalogue, metadata, health and `/generate`

A Dafny model of the Flask server that wraps the Piper text-to-speech engine
for the PBX (`config/piper/piper_server.py`). It covers four parts of that
file.

- **`/voices`.** The voice catalogue. The model files (`*.onnx`) of the voices
  directory are taken in sorted order. Each one becomes an entry: an id (the
  file name with `.onnx` removed), the language, speaker and quality parsed
  from the id, a gender inferred from the speaker name, and a display name.
- **`get_voice_metadata`.** A dictionary from voice id to the sample rate and
  language of the voice. The values come from the voice's `.onnx.json`
  sidecar, with 22050 and `en` as fallbacks.
- **`/health`.** Whether `piper --help` succeeds, how many model files there
  are, and the `ok`/`degraded` rule.
- **`/generate`.** The three request checks in their order. Then the life of
  the two temporary files (piper's `.wav` output and sox's `_8k.wav`
  conversion) over a mutable set of existing paths, with the outcomes of the
  `piper` and `sox` processes as parameters. The model has two versions: the
  handler as written, and a corrected one.

The Python built-ins the server relies on are modelled with Python's own
semantics, in `pystr.dfy` and `pysorted.dfy`:

- `str.replace` replaces every non-overlapping occurrence;
- `split('-')` keeps empty segments;
- `strip()` removes the characters `str.isspace()` accepts;
- `lower()` and `title()` are restricted to ASCII;
- `sorted()` orders strings by code point.

Layout, one module per file:

- `wrappers.dfy`: `Option`.
- `json.dfy`: parsed JSON values.
- `pystr.dfy`: the `str` built-ins.
- `pysorted.dfy`: the string order and `sorted()`.
- `voicedir.dfy`: the directory listing, the `.onnx` filter and voice ids.
- `catalog.dfy`: `/voices`.
- `metadata.dfy`: `get_voice_metadata`.
- `health.dfy`: `/health`.
- `generate.dfy`: `/generate`.

The environment enters the model as parameters:

- The voices directory is `Option<Directory>`. `None` means
  `os.path.exists(VOICES_DIR)` is false. `Some` holds the `os.listdir` names
  in listing order, plus the parsed JSON of each sidecar that can be opened
  and parsed. A path that exists but cannot be listed is not modelled; see
  "Left out".
- `VOICES_DIR` is a string parameter, `voicesDir`. Its default appears as
  `DEFAULT_VOICES_DIR` (line 17).
- The temp name chosen by `NamedTemporaryFile` is a parameter.
- The process outcomes are parameters: `ProbeOutcome`, `PiperOutcome` and
  `SoxOutcome`.

Where the code and the `list_voices` docstring disagree, the model follows the
code. The docstring (line 151) shows the name `Lessac (US Female)`. The code
builds `Lessac (en_US F)`, and `LessacEntry` proves that.

## Model

| member | source | states |
|---|---|---|
| PyStr.StartsWithIff | config/piper/piper_server.py:184-186 | the character-wise prefix test behind `in` agrees with comparing the leading slice |
| PyStr.ContainsIff | config/piper/piper_server.py:184-186 | `p in s` holds exactly when `p` occurs in `s` at some index |
| PyStr.ContainsFits | config/piper/piper_server.py:184-186 | a contained pattern is no longer than the string |
| PyStr.ContainsChars | config/piper/piper_server.py:184-186 | every character of a contained pattern occurs in the string |
| PyStr.EndsWithContains | config/piper/piper_server.py:104 | a suffix is a substring |
| PyStr.ReplaceAbsent | config/piper/piper_server.py:190 | `replace` leaves a string without the pattern unchanged |
| PyStr.NoOccurrenceAtStem | config/piper/piper_server.py:165 | when the pattern's first character does not recur in it, a pattern-free stem does not start an occurrence in `stem + pat` |
| PyStr.ReplaceFinalOccurrence | config/piper/piper_server.py:165 | for such a pattern, `replace` on `stem + pat` with a pattern-free stem replaces just the final occurrence |
| PyStr.ReplaceLength | config/piper/piper_server.py:104 | a replacement no shorter than the pattern never shortens the string, and a longer one strictly lengthens any string containing the pattern |
| PyStr.ReplaceCharAt | config/piper/piper_server.py:190 | replacing one character by another keeps the length and maps it at every position |
| PyStr.Split | config/piper/piper_server.py:168 | `split` always gives at least one segment |
| PyStr.JoinSplit | config/piper/piper_server.py:168 | joining the segments with the separator gives back the string |
| PyStr.SplitSegments | config/piper/piper_server.py:168 | there is one more segment than separators, and no segment contains the separator (empty segments are kept) |
| PyStr.SplitNoSeparator | config/piper/piper_server.py:168 | a string without the separator splits into itself alone |
| PyStr.SplitAfterSeparator | config/piper/piper_server.py:168 | `split(a + sep + b)` is `a` followed by the segments of `b`, when `a` has no separator |
| PyStr.SplitJoin | config/piper/piper_server.py:168 | splitting the join of separator-free segments gives those segments back |
| PyStr.TitleAfterAt | config/piper/piper_server.py:190 | position by position, `title` lower-cases a letter after a letter and upper-cases any other |
| PyStr.TitleAt | config/piper/piper_server.py:190 | `title` keeps the length, upper-cases at a word start and lower-cases inside a word |
| PyStr.StripLeft | config/piper/piper_server.py:64 | the result is a suffix of the input that starts with a non-whitespace character, or is empty |
| PyStr.StripRight | config/piper/piper_server.py:64 | the result is a prefix of the input that ends with a non-whitespace character, or is empty |
| PyStr.StripEmptyIff | config/piper/piper_server.py:64-66 | `strip()` leaves nothing exactly when every character is whitespace |
| PyStr.StripTrimmed | config/piper/piper_server.py:64 | a non-empty stripped text starts and ends with non-whitespace |
| PySorted.StrLeTotal | config/piper/piper_server.py:163 | any two strings are ordered one way or the other |
| PySorted.StrLeTransitive | config/piper/piper_server.py:163 | the string order is transitive |
| PySorted.StrLeAntisymmetric | config/piper/piper_server.py:163 | strings ordered both ways are equal |
| PySorted.SortedTail | config/piper/piper_server.py:163 | the tail of a sorted list is sorted |
| PySorted.Insert | config/piper/piper_server.py:163 | inserting adds exactly one element and keeps a sorted list sorted |
| PySorted.SortStringsCorrect | config/piper/piper_server.py:163 | `sorted()` returns an ordered permutation of the listing |
| PySorted.SortedUnique | config/piper/piper_server.py:163 | two sorted lists with the same elements are equal, so the order of the listing leaves no ties to break |
| VoiceDir.ModelFiles | config/piper/piper_server.py:163-164 | the kept names are exactly the listed names ending in `.onnx` |
| VoiceDir.ModelFilesEmpty | config/piper/piper_server.py:227-229 | no name is kept exactly when no listed name ends in `.onnx` |
| VoiceDir.ModelFilesAppend | config/piper/piper_server.py:163-164 | filtering a concatenation filters each part |
| VoiceDir.ModelFilesCount | config/piper/piper_server.py:163-164 | each model file is kept as often as it is listed, and nothing else is kept |
| VoiceDir.ModelFilesPermutation | config/piper/piper_server.py:163-164 | reordering the listing reorders the model files and keeps their number |
| VoiceDir.ModelFilesSorted | config/piper/piper_server.py:163-164 | filtering a sorted listing keeps it sorted |
| VoiceDir.VoiceIdOfStem | config/piper/piper_server.py:165 | the id of `<stem>.onnx`, for a stem without `.onnx`, is the stem |
| VoiceDir.VoiceIdsCollide | config/piper/piper_server.py:165 | `a.onnx` and `a.onnx.onnx` are both model files with the same id `a`, because every `.onnx` is removed |
| VoiceDir.SidecarIsNotModel | config/piper/piper_server.py:164 | a `*.onnx.json` sidecar is never a model file, so it never produces an entry |
| Catalog.ParseVoiceIdSegments | config/piper/piper_server.py:168-176 | with fewer than two dashes the fields are `en_US`, the whole id and `medium`; otherwise they are dash-free and the id is exactly `language-speaker-quality` or that followed by `-` and more |
| Catalog.FieldsDashFree | config/piper/piper_server.py:168 | dash-free fields and dash-free extra segments form a list of dash-free segments |
| Catalog.ParseVoiceIdOfFields | config/piper/piper_server.py:168-172 | parsing `language-speaker-quality[-more…]` built from dash-free fields (empty ones too) gives back those fields and ignores the rest |
| Catalog.AnyContains | config/piper/piper_server.py:184-186 | `any(fn in s for fn in table)` holds exactly when some table entry occurs in `s` |
| Catalog.AnyContainsExtended | config/piper/piper_server.py:184-186 | a table with one word added matches exactly when the table or the word does, as `any(...) or 'female' in name_lower` tests |
| Catalog.InferGender | config/piper/piper_server.py:179-187 | female exactly when the lower-cased name contains a female name or `female`; male exactly when it contains none of those but a male name or `male`; so a name matching both tables is female |
| Catalog.FemaleWordAlsoMatchesMale | config/piper/piper_server.py:184-187 | a name containing `female` also contains `male`, so only the order of the tests makes it female |
| Catalog.DisplayNameShape | config/piper/piper_server.py:189-195 | the name keeps one character per speaker character, underscores become spaces, letters are upper case at a word start and lower case inside a word, and ` (<lang> F)`, ` (<lang> M)` or ` (<lang>)` follows |
| Catalog.EntriesAppend | config/piper/piper_server.py:197-203 | appending a file appends its entry |
| Catalog.ModelFilesStep | config/piper/piper_server.py:163-164 | one more listed name adds itself to the model files exactly when it ends in `.onnx` |
| Catalog.ListingStep | config/piper/piper_server.py:163-203 | one more sorted name appends its entry exactly when it ends in `.onnx` |
| Catalog.EntriesOf | config/piper/piper_server.py:163-203 | the loop returns one entry per model file of the sorted names, in that order |
| Catalog.ListVoices | config/piper/piper_server.py:160-205 | the listing of an existing directory is the loop over its sorted names, and a missing directory gives an empty list |
| Catalog.CatalogIsSortedModelFiles | config/piper/piper_server.py:162-165 | the listing equals the entries of any sorted arrangement of the model files, and has one entry per model file |
| Catalog.CatalogCoversModelFiles | config/piper/piper_server.py:162-203 | every entry comes from a listed model file, and every listed model file has its entry |
| Catalog.EntryOfFields | config/piper/piper_server.py:163-203 | the file `<language>-<speaker>-<quality>.onnx` (fields without `-` or `.`, speaker without `_`) gets those fields, the title-cased speaker and the inferred gender |
| Catalog.NoneContains | config/piper/piper_server.py:184-186 | a table matches nothing when each entry has a character the name lacks |
| Catalog.LessacIsFemale | config/piper/piper_server.py:179-190 | `lessac` is female and is titled `Lessac` |
| Catalog.RyanIsMale | config/piper/piper_server.py:179-190 | `ryan` is male and is titled `Ryan` |
| Catalog.UnknownnameIsUnknown | config/piper/piper_server.py:179-187 | `unknownname` matches neither table and is unknown |
| Catalog.LessacEntry | config/piper/piper_server.py:163-203 | `en_US-lessac-medium.onnx` lists as female, with quality `medium` and name `Lessac (en_US F)`, unlike the docstring |
| Catalog.RyanEntry | config/piper/piper_server.py:163-203 | `en_US-ryan-high.onnx` lists as male, with quality `high` and name `Ryan (en_US M)` |
| Catalog.UnknownnameEntry | config/piper/piper_server.py:163-203 | `en_US-unknownname-low.onnx` lists as unknown, with no gender mark in its name |
| Metadata.Get | config/piper/piper_server.py:36-37 | `.get(key, default)` succeeds exactly on an object, giving the member or the default |
| Metadata.MetaFor | config/piper/piper_server.py:27-43 | the name is the voice id; a missing or unreadable sidecar gives 22050 and `en` |
| Metadata.VoiceIdsStep | config/piper/piper_server.py:24-26 | one more listed name adds its id to the keys exactly when it ends in `.onnx` |
| Metadata.GetVoiceMetadata | config/piper/piper_server.py:20-46 | the keys are the ids of the model files, each mapped to its sidecar's metadata whatever the listing order, so a later duplicate overwrites with the same value; a missing directory gives an empty dictionary |
| Metadata.SidecarValues | config/piper/piper_server.py:35-37 | a well-formed sidecar gives its `audio.sample_rate` and `language.code` |
| Metadata.SidecarFieldsOfObject | config/piper/piper_server.py:35-40 | for any object sidecar, reading fails exactly when `audio` or `language` is present and not an object; otherwise each field is its key's value, or 22050 or `en` on its own when the key is missing |
| Metadata.MalformedLanguageDiscardsRate | config/piper/piper_server.py:36-40 | a good `sample_rate` is read, but a non-object `language` then raises and both fallbacks apply |
| Metadata.MalformedAudioDiscardsLanguage | config/piper/piper_server.py:36-40 | a non-object `audio` raises, so both fallbacks apply even when `language.code` is present |
| Metadata.NonObjectSidecar | config/piper/piper_server.py:35-40 | a sidecar whose top level is not an object gives both fallbacks |
| Metadata.MetadataKeysAreCatalogIds | config/piper/piper_server.py:24-26 | the metadata keys are exactly the ids of the `/voices` listing of the same directory |
| Health.Health | config/piper/piper_server.py:219-237 | piper is available exactly when the probe exits with 0, and the directory is reported as configured |
| Health.HealthMatchesListing | config/piper/piper_server.py:227-231 | the count equals the length of the `/voices` listing, and the status is `ok` exactly when piper is available and that listing is not empty |
| Health.DegradedWithoutVoices | config/piper/piper_server.py:227-231 | a missing directory, or one without a model file, counts 0 and is degraded |
| Health.DegradedWithoutPiper | config/piper/piper_server.py:219-231 | a probe that raises or exits non-zero is unavailable and degraded |
| Generate.PathJoin | config/piper/piper_server.py:71 | an absolute name replaces the directory; otherwise the result ends with the name, after the directory and one `/` unless the directory is empty or ends in one |
| Generate.Validate | config/piper/piper_server.py:60-75 | each answer in the order of the checks, each as an if-and-only-if: a missing or falsy body gives 400 `No JSON data provided`; a body that is not an object, or a `text` that is not a string, raises; a blank text gives 400 `No text provided`; a missing model file gives 404 `Voice not found: <voice>`; a request is accepted exactly when the body is a non-empty object, its text is a string that is not blank and the model file exists, and then carries the stripped text, the voice and the model path |
| Generate.FileSystem.Create | config/piper/piper_server.py:79-80 | creating a path adds it and nothing else |
| Generate.FileSystem.Unlink | config/piper/piper_server.py:116 | unlinking an existing path removes it and nothing else |
| Generate.FileSystem.Read | config/piper/piper_server.py:123-124 | reading gives the audio of an existing path, and the 500 of the `FileNotFoundError` for a missing one |
| Generate.FileSystem.RemoveIfExists | config/piper/piper_server.py:115-128 | the path is gone afterwards and nothing else changes |
| Generate.Generate | config/piper/piper_server.py:60-140 | the handler, step by step, gives the response and the final set of paths of `Generate.Outcome` |
| Generate.Synthesize | config/piper/piper_server.py:92-124 | corrected run of piper and sox, reading the chosen audio back while the piper output still exists: the response of `CleanResponse`, the sent file exists when it is read, and the converted file is added exactly when both succeed |
| Generate.GenerateCleanly | config/piper/piper_server.py:60-140 | the corrected handler, step by step, gives the response and final paths of `Generate.CleanOutcome` |
| Generate.ConvertedPathDiffers | config/piper/piper_server.py:104 | for a temp name ending in `.wav`, the `_8k` path is a different path |
| Generate.ConvertedPathOfStem | config/piper/piper_server.py:104 | `<stem>.wav`, for a stem without `.wav`, converts to `<stem>_8k.wav` |
| Generate.BodyChecksIgnoreFiles | config/piper/piper_server.py:60-75 | every rejection but the 404 is decided before the disk is consulted, whatever files exist |
| Generate.DefaultVoiceSelected | config/piper/piper_server.py:68-75 | without a `voice` member the default `en_US-lessac-medium` is used: accepted when its model exists, 404 `Voice not found: en_US-lessac-medium` otherwise |
| Generate.PathJoinRelative | config/piper/piper_server.py:71 | a relative name is joined to a directory with one `/` |
| Generate.DefaultModelPath | config/piper/piper_server.py:71 | with the default directory of line 17 and the default voice of line 18, the default model is `/opt/novapbx/tts-server/voices/en_US-lessac-medium.onnx` |
| Generate.RejectedRequestTouchesNoFile | config/piper/piper_server.py:60-79 | no file is created or removed before the three checks pass |
| Generate.FailureLeaksTempFile | config/piper/piper_server.py:79-140 | as written: when piper fails or a process times out or raises, the temp file stays on disk; the answer is a 500 with `Piper failed: <stderr>` or `TTS generation timed out` |
| Generate.SoxFallbackReadsDeletedFile | config/piper/piper_server.py:112-140 | as written: a failed sox conversion always ends in the 500 of a missing temp file, never in the unconverted audio |
| Generate.SuccessSendsConvertedAudio | config/piper/piper_server.py:104-135 | as written: when both processes succeed, the `_8k` file is sent and both temp paths are gone; the unconverted file is never sent |
| Generate.CleanSoxFallbackSendsTempAudio | config/piper/piper_server.py:118-124 | corrected: a failed sox conversion sends the unconverted audio |
| Generate.CleanLeavesNoTempFile | config/piper/piper_server.py:79-128 | corrected: after any accepted request neither temp path exists and no other file is removed; with fresh temp names the file set ends as it began |
| Generate.CleanAgreesElsewhere | config/piper/piper_server.py:60-140 | corrected: every response other than the sox fallback's equals the one given as written |

## Left out

- The `scripts/kokoro-tts-server.py` server is not part of this model.
- The `piper`, `piper --help` and `sox` processes, with their timeouts, are not run. Their outcomes are parameters: an exit status, a timeout, or an exception with its message.
- Flask and HTTP mechanics are not modelled: `request.json`, `jsonify`, `send_file` and the HTTP encoding. A response is a tag (`Wav`, an `Error` with status and message, or `Uncaught` for an exception outside the `try` block).
- The JSON body of a request is given already decoded. Each member is a string or another value together with its Python `str()`.
- Sidecar files are not parsed. Each one is given as a parsed JSON value, or missing from `parsed` when `open` or `json.load` would raise. JSON numbers are integers; floats are not modelled.
- The audio bytes are not modelled. A `Wav` response names the file it was read from.
- `Catalog.ListVoices`, `Health.Health`, `Metadata.GetVoiceMetadata`: `os.path.exists` is also true when `VOICES_DIR` is a regular file or a directory that cannot be read. Then `os.listdir` raises outside any `try`, and Flask answers with its 500 page. The model has no such case: an existing directory always lists, so these three always answer.
- `Metadata.GetVoiceMetadata`: the order of the dictionary's keys is not modelled. The keys are a set, `voices.Keys`. `get_voice_metadata` is never called in the file, so no endpoint depends on it.
- `Generate.Generate`: `str(e)` of the `FileNotFoundError` is modelled as `[Errno 2] No such file or directory: '<path>'`. Python's `repr` quoting of unusual paths is not reproduced.
- `Generate.Generate`: a sox process that fails or times out is taken to leave no `_8k.wav` file behind. Partial output is not modelled.
- `Generate.Generate`: `tempfile.NamedTemporaryFile` raising (for example, a full disk) is not modelled. The temp name is a parameter, and the lemmas assume what `tempfile` guarantees (a fresh name ending in `.wav`) only where they need it.
- The `--config` sidecar path that `/generate` passes to piper (line 72) is not checked by the server and is not modelled.
- Path normalisation (`..`, repeated `/`) and directories listed among the files are not modelled. Paths are compared as strings.
- `lower()`, `title()` and `strip()` are modelled for ASCII letters. `strip()` uses the full `isspace()` set.
- `Catalog.ParseVoiceId`: the `else 'medium'` of line 172 is dead code inside `len(parts) >= 3` and has no counterpart.
- `Catalog.LessacEntry`, `Catalog.RyanEntry`, `Catalog.UnknownnameEntry`: the display names are stated as `Title(speaker)` plus the suffix, with the titled speaker proved separately for lessac and ryan. The titled form of `unknownname` is not stated literally.
- The `/test` endpoint (lines 240-247) is not modelled. It calls `generate.__wrapped__(text=…, voice=…)`, and a plain Flask view has no such attribute.
- The `__main__` start-up logging (lines 249-260) is not modelled.
- Concurrency between requests sharing the temp directory is not modelled.

## Findings

| source | as written | input that shows it | evidently intended | confidence | as-written member | corrected member |
|---|---|---|---|---|---|---|
| config/piper/piper_server.py:114-124 | `tmp_path` is unlinked before the sox status is checked, and the fallback then opens that deleted path | text `hi`, an existing voice, piper exits 0, sox exits 1: the answer is 500 `[Errno 2] No such file or directory: '<tmp>'` | send the unconverted piper output when sox fails, as the comment at line 119 says | not executed | Generate.SoxFallbackReadsDeletedFile | Generate.CleanSoxFallbackSendsTempAudio |
| config/piper/piper_server.py:99-140 | the early return on a piper failure, and the exception handlers, skip the clean-up at lines 115-116 | text `hi`, an existing voice, piper exits 1 (or times out): the piper temp file stays in the temp directory | remove the temp files on every path once they are created | not executed | Generate.FailureLeaksTempFile | Generate.CleanLeavesNoTempFile |

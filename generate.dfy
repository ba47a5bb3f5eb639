/**
 * `/generate`: request validation, then the temporary files of one
 * synthesis run. Piper writes `<tmp>.wav`, sox converts it to
 * `<tmp>_8k.wav`, and the converted file is read back and returned.
 * The outcomes of the `piper` and `sox` processes are parameters, and the
 * file system is the set of paths that exist.
 */
module Generate {
  import opened Wrappers
  import opened PyStr
  import opened VoiceDir

  /** `VOICES_DIR` when the environment does not set it. */
  const DEFAULT_VOICES_DIR := "/opt/novapbx/tts-server/voices"
  const DEFAULT_VOICE := "en_US-lessac-medium"
  const TEMP_SUFFIX := ".wav"
  const CONVERTED_SUFFIX := "_8k.wav"

  const NO_JSON := "No JSON data provided"
  const NO_TEXT := "No text provided"
  const TIMED_OUT := "TTS generation timed out"

  /** A member value of the request body: a string, or any other JSON value together with its Python `str()`. */
  datatype Value = Str(s: string) | NonStr(shown: string)

  /**
   * `request.json`: nothing (no JSON body), a JSON value other than an object
   * (only whether it is truthy matters), or an object.
   */
  datatype Payload = NoJson | NotObject(truthy: bool) | Object(fields: map<string, Value>)

  /**
   * A WAV attachment read from `source`, an error with its HTTP status, or an
   * exception raised outside the `try` block (Flask's own 500 page).
   */
  datatype Response = Wav(source: string) | Error(status: int, message: string) | Uncaught

  datatype PiperOutcome = PiperExited(code: int, stderr: string) | PiperTimedOut | PiperRaised(message: string)
  datatype SoxOutcome = SoxExited(code: int) | SoxTimedOut | SoxRaised(message: string)

  /** `if not data`: no body, a falsy value, or an empty object. */
  predicate Truthy(payload: Payload) {
    match payload
    case NoJson => false
    case NotObject(truthy) => truthy
    case Object(fields) => |fields| > 0
  }

  /** POSIX `os.path.join(a, b)`: an absolute `b` replaces `a`; otherwise a `/` is added unless `a` is empty or ends in one. */
  function PathJoin(a: string, b: string): (r: string)
    ensures |b| > 0 && b[0] == '/' ==> r == b
    ensures !(|b| > 0 && b[0] == '/') ==>
      && EndsWith(r, b)
      && r[..|r| - |b|] == (if a == "" || a[|a| - 1] == '/' then a else a + "/")
  {
    if |b| > 0 && b[0] == '/' then b
    else
      var r := if |a| == 0 || a[|a| - 1] == '/' then a + b else a + "/" + b;
      assert r[..|r| - |b|] == (if a == "" || a[|a| - 1] == '/' then a else a + "/");
      r
  }

  /** `tmp_path.replace('.wav', '_8k.wav')`. */
  function ConvertedPath(tmp: string): string {
    Replace(tmp, TEMP_SUFFIX, CONVERTED_SUFFIX)
  }

  /** `str()` of the `FileNotFoundError` that `open` raises for a missing path. */
  function MissingFileMessage(path: string): string {
    "[Errno 2] No such file or directory: '" + path + "'"
  }

  /** Where the three checks at the top of the handler leave a request. */
  datatype Validated = Reject(response: Response) | Accept(text: string, voice: string, modelPath: string)

  /** `data.get('text', '')`: `None` when the value is not a string, whose missing `.strip` raises. */
  function TextOf(fields: map<string, Value>): Option<string> {
    if "text" !in fields then Some("")
    else match fields["text"]
      case Str(s) => Some(s)
      case NonStr(_) => None
  }

  /** `data.get('voice', DEFAULT_VOICE)` as the f-string `f'{voice_name}.onnx'` shows it. */
  function VoiceOf(fields: map<string, Value>): string {
    if "voice" !in fields then DEFAULT_VOICE
    else match fields["voice"]
      case Str(s) => s
      case NonStr(shown) => shown
  }

  /**
   * The checks in their order: a body (400), then a non-blank text (400), then
   * an existing model file (404). A body that is not an object, or a text that
   * is not a string, raises before any answer (`Uncaught`). Only a request
   * that passes all three is accepted, with the stripped text, the voice and
   * the model path that exists.
   */
  function Validate(payload: Payload, voicesDir: string, paths: set<string>): (v: Validated)
    ensures !Truthy(payload) <==> v == Reject(Error(400, NO_JSON))
    ensures v.Accept? <==>
      && payload.Object? && |payload.fields| > 0
      && TextOf(payload.fields).Some? && Strip(TextOf(payload.fields).value) != ""
      && PathJoin(voicesDir, VoiceOf(payload.fields) + MODEL_EXT) in paths
    ensures v == Reject(Uncaught) <==> Truthy(payload) && (payload.NotObject? || TextOf(payload.fields).None?)
    ensures v == Reject(Error(400, NO_TEXT)) <==>
      && payload.Object? && |payload.fields| > 0
      && TextOf(payload.fields).Some? && Strip(TextOf(payload.fields).value) == ""
    ensures (v.Reject? && v.response.Error? && v.response.status == 404) <==>
      && payload.Object? && |payload.fields| > 0
      && TextOf(payload.fields).Some? && Strip(TextOf(payload.fields).value) != ""
      && PathJoin(voicesDir, VoiceOf(payload.fields) + MODEL_EXT) !in paths
    ensures v.Reject? && v.response.Error? && v.response.status == 404 ==>
      v.response.message == "Voice not found: " + VoiceOf(payload.fields)
    ensures v.Accept? ==>
      && v.text == Strip(TextOf(payload.fields).value)
      && v.voice == VoiceOf(payload.fields)
      && v.modelPath == PathJoin(voicesDir, v.voice + MODEL_EXT)
  {
    if !Truthy(payload) then Reject(Error(400, NO_JSON))
    else if payload.NotObject? then Reject(Uncaught)
    else
      var text := TextOf(payload.fields);
      if text.None? then Reject(Uncaught)
      else if Strip(text.value) == "" then Reject(Error(400, NO_TEXT))
      else
        var voice := VoiceOf(payload.fields);
        var modelPath := PathJoin(voicesDir, voice + MODEL_EXT);
        if modelPath !in paths then Reject(Error(404, "Voice not found: " + voice))
        else Accept(Strip(text.value), voice, modelPath)
  }

  /**
   * The handler as written: the response and the paths that exist afterwards.
   * The piper temp file is unlinked before the sox status is looked at, so the
   * fallback to it reads a deleted path; and nothing removes it when piper
   * fails or either process times out.
   */
  function Outcome(paths: set<string>, voicesDir: string, payload: Payload, tmp: string,
                   piper: PiperOutcome, sox: SoxOutcome): (Response, set<string>)
  {
    match Validate(payload, voicesDir, paths)
    case Reject(response) => (response, paths)
    case Accept(_, _, _) =>
      var created := paths + {tmp};
      match piper
      case PiperTimedOut => (Error(500, TIMED_OUT), created)
      case PiperRaised(message) => (Error(500, message), created)
      case PiperExited(code, stderr) =>
        if code != 0 then (Error(500, "Piper failed: " + stderr), created)
        else
          var out := ConvertedPath(tmp);
          match sox
          case SoxTimedOut => (Error(500, TIMED_OUT), created)
          case SoxRaised(message) => (Error(500, message), created)
          case SoxExited(soxCode) =>
            var converted := if soxCode == 0 then created + {out} else created;
            var cleaned := converted - {tmp};
            var source := if soxCode != 0 then tmp else out;
            if source !in cleaned then (Error(500, MissingFileMessage(source)), cleaned)
            else (Wav(source), cleaned - {source})
  }

  /** The file system: the set of paths that exist. */
  class FileSystem {
    var paths: set<string>

    constructor (initial: set<string>)
      ensures paths == initial
    {
      paths := initial;
    }

    /** `os.path.exists(p)`. */
    predicate Exists(p: string)
      reads this
    {
      p in paths
    }

    /** Creates `p`, or overwrites it when it exists. */
    method Create(p: string)
      modifies this
      ensures paths == old(paths) + {p}
    {
      paths := paths + {p};
    }

    /** `if os.path.exists(p): os.unlink(p)`. */
    method RemoveIfExists(p: string)
      modifies this
      ensures paths == old(paths) - {p}
    {
      if p in paths {
        Unlink(p);
      }
    }

    /** `open(p, 'rb').read()`: the audio of `p`, or the 500 of the `FileNotFoundError` when it is missing. */
    method Read(p: string) returns (response: Response)
      ensures response == (if p in paths then Wav(p) else Error(500, MissingFileMessage(p)))
    {
      if p in paths {
        response := Wav(p);
      } else {
        response := Error(500, MissingFileMessage(p));
      }
    }

    /** `os.unlink(p)` of an existing path. */
    method Unlink(p: string)
      requires p in paths
      modifies this
      ensures paths == old(paths) - {p}
    {
      paths := paths - {p};
    }
  }

  /**
   * The `/generate` handler step by step: `tmp` is the name
   * `NamedTemporaryFile(suffix='.wav', delete=False)` picks, `piper` and
   * `sox` what the two processes do.
   */
  method Generate(fs: FileSystem, voicesDir: string, payload: Payload, tmp: string,
                  piper: PiperOutcome, sox: SoxOutcome) returns (response: Response)
    modifies fs
    ensures (response, fs.paths) == Outcome(old(fs.paths), voicesDir, payload, tmp, piper, sox)
  {
    var v := Validate(payload, voicesDir, fs.paths);
    if v.Reject? {
      return v.response;
    }
    fs.Create(tmp);
    match piper {
      case PiperTimedOut => return Error(500, TIMED_OUT);
      case PiperRaised(message) => return Error(500, message);
      case PiperExited(code, stderr) =>
        if code != 0 {
          return Error(500, "Piper failed: " + stderr);
        }
    }
    var outputPath := ConvertedPath(tmp);
    var soxCode: int;
    match sox {
      case SoxTimedOut => return Error(500, TIMED_OUT);
      case SoxRaised(message) => return Error(500, message);
      case SoxExited(code) => soxCode := code;
    }
    if soxCode == 0 {
      fs.Create(outputPath);
    }
    if fs.Exists(tmp) {
      fs.Unlink(tmp);
    }
    if soxCode != 0 {
      outputPath := tmp;
    }
    response := fs.Read(outputPath);
    if response.Wav? {
      fs.Unlink(outputPath);
    }
  }

  /**
   * What the corrected handler answers once the checks pass: the converted
   * audio, or the unconverted audio when sox fails.
   */
  function CleanResponse(tmp: string, piper: PiperOutcome, sox: SoxOutcome): Response {
    match piper
    case PiperTimedOut => Error(500, TIMED_OUT)
    case PiperRaised(message) => Error(500, message)
    case PiperExited(code, stderr) =>
      if code != 0 then Error(500, "Piper failed: " + stderr)
      else
        match sox
        case SoxTimedOut => Error(500, TIMED_OUT)
        case SoxRaised(message) => Error(500, message)
        case SoxExited(soxCode) => Wav(if soxCode == 0 then ConvertedPath(tmp) else tmp)
  }

  /**
   * The handler with the sox fallback reading the unconverted file before it
   * is removed, and both temp paths removed on every path after the checks.
   */
  function CleanOutcome(paths: set<string>, voicesDir: string, payload: Payload, tmp: string,
                        piper: PiperOutcome, sox: SoxOutcome): (Response, set<string>)
  {
    match Validate(payload, voicesDir, paths)
    case Reject(response) => (response, paths)
    case Accept(_, _, _) => (CleanResponse(tmp, piper, sox), paths - {tmp, ConvertedPath(tmp)})
  }

  /** Piper and sox succeed, so the converted file exists. */
  predicate Converted(piper: PiperOutcome, sox: SoxOutcome) {
    piper.PiperExited? && piper.code == 0 && sox == SoxExited(0)
  }

  /**
   * The body of the corrected `try` block: run piper, then sox, and read back
   * the audio to send while the piper output still exists.
   */
  method Synthesize(fs: FileSystem, tmp: string, piper: PiperOutcome, sox: SoxOutcome) returns (response: Response)
    requires tmp in fs.paths
    modifies fs
    ensures response == CleanResponse(tmp, piper, sox)
    ensures response.Wav? ==> response.source in fs.paths
    ensures fs.paths == old(fs.paths) + (if Converted(piper, sox) then {ConvertedPath(tmp)} else {})
  {
    match piper {
      case PiperTimedOut => return Error(500, TIMED_OUT);
      case PiperRaised(message) => return Error(500, message);
      case PiperExited(code, stderr) =>
        if code != 0 {
          return Error(500, "Piper failed: " + stderr);
        }
    }
    match sox {
      case SoxTimedOut => return Error(500, TIMED_OUT);
      case SoxRaised(message) => return Error(500, message);
      case SoxExited(soxCode) =>
        var outputPath := ConvertedPath(tmp);
        if soxCode == 0 {
          fs.Create(outputPath);
        } else {
          outputPath := tmp;
        }
        response := fs.Read(outputPath);
    }
  }

  /** The corrected handler step by step: the clean-up comes after the `try` block, as a `finally` block would put it. */
  method GenerateCleanly(fs: FileSystem, voicesDir: string, payload: Payload, tmp: string,
                         piper: PiperOutcome, sox: SoxOutcome) returns (response: Response)
    modifies fs
    ensures (response, fs.paths) == CleanOutcome(old(fs.paths), voicesDir, payload, tmp, piper, sox)
  {
    var v := Validate(payload, voicesDir, fs.paths);
    ghost var outcome := CleanOutcome(fs.paths, voicesDir, payload, tmp, piper, sox);
    if v.Reject? {
      assert outcome == (v.response, fs.paths);
      return v.response;
    }
    assert outcome == (CleanResponse(tmp, piper, sox), fs.paths - {tmp, ConvertedPath(tmp)});
    ghost var o := fs.paths;
    fs.Create(tmp);
    response := Synthesize(fs, tmp, piper, sox);
    var out := ConvertedPath(tmp);
    fs.RemoveIfExists(tmp);
    fs.RemoveIfExists(out);
    assert fs.paths == o - {tmp, out};
    assert (response, fs.paths) == outcome;
  }

  /** The converted path is never the temp path itself, since `_8k.wav` is longer than the `.wav` it replaces. */
  lemma ConvertedPathDiffers(tmp: string)
    requires EndsWith(tmp, TEMP_SUFFIX)
    ensures ConvertedPath(tmp) != tmp
  {
    EndsWithContains(tmp, TEMP_SUFFIX);
    ReplaceLength(tmp, TEMP_SUFFIX, CONVERTED_SUFFIX);
  }

  /** For a temp name `<stem>.wav` whose stem has no `.wav` in it, the converted file is `<stem>_8k.wav`. */
  lemma ConvertedPathOfStem(stem: string)
    requires !Contains(stem, TEMP_SUFFIX)
    ensures ConvertedPath(stem + TEMP_SUFFIX) == stem + CONVERTED_SUFFIX
  {
    ReplaceFinalOccurrence(stem, TEMP_SUFFIX, CONVERTED_SUFFIX);
  }

  /** The body checks come before the look-up on disk: their answers do not depend on which files exist. */
  lemma BodyChecksIgnoreFiles(payload: Payload, voicesDir: string, paths: set<string>, others: set<string>)
    requires Validate(payload, voicesDir, paths).Reject?
    requires !(Validate(payload, voicesDir, paths).response.Error? && Validate(payload, voicesDir, paths).response.status == 404)
    ensures Validate(payload, voicesDir, others) == Validate(payload, voicesDir, paths)
  {
  }

  /** A usable text with no `voice` member selects the default voice. */
  lemma DefaultVoiceSelected(fields: map<string, Value>, text: string, voicesDir: string, paths: set<string>)
    requires "text" in fields && fields["text"] == Str(text) && Strip(text) != ""
    requires "voice" !in fields
    ensures var model := PathJoin(voicesDir, DEFAULT_VOICE + MODEL_EXT);
      && (model in paths ==> Validate(Object(fields), voicesDir, paths) == Accept(Strip(text), DEFAULT_VOICE, model))
      && (model !in paths ==> Validate(Object(fields), voicesDir, paths) == Reject(Error(404, "Voice not found: " + DEFAULT_VOICE)))
  {
    assert "text" in fields.Keys;
    assert Truthy(Object(fields));
    assert TextOf(fields) == Some(text);
    assert VoiceOf(fields) == DEFAULT_VOICE;
  }

  /** A relative name joined to a directory that does not end in `/` gets one `/` between them. */
  lemma PathJoinRelative(a: string, b: string)
    requires a != "" && a[|a| - 1] != '/'
    requires b == "" || b[0] != '/'
    ensures PathJoin(a, b) == a + "/" + b
  {
    var r := PathJoin(a, b);
    assert r == r[..|r| - |b|] + r[|r| - |b|..];
  }

  /** With the default voices directory, the default voice's model file is `/opt/novapbx/tts-server/voices/en_US-lessac-medium.onnx`. */
  lemma DefaultModelPath(voicesDir: string, voice: string)
    requires voicesDir == DEFAULT_VOICES_DIR && voice == DEFAULT_VOICE
    ensures PathJoin(voicesDir, voice + MODEL_EXT) == voicesDir + "/" + voice + MODEL_EXT
  {
    assert voicesDir[|voicesDir| - 1] == 's';
    assert (voice + MODEL_EXT)[0] == 'e';
    PathJoinRelative(voicesDir, voice + MODEL_EXT);
  }

  /** As written, and in the correction: nothing on disk changes before the three checks pass. */
  lemma RejectedRequestTouchesNoFile(paths: set<string>, voicesDir: string, payload: Payload, tmp: string,
                                     piper: PiperOutcome, sox: SoxOutcome)
    requires Validate(payload, voicesDir, paths).Reject?
    ensures Outcome(paths, voicesDir, payload, tmp, piper, sox) == (Validate(payload, voicesDir, paths).response, paths)
    ensures CleanOutcome(paths, voicesDir, payload, tmp, piper, sox) == (Validate(payload, voicesDir, paths).response, paths)
  {
  }

  /**
   * As written: when piper fails or either process times out or raises, the
   * temp file stays on disk, and the answer is a 500.
   */
  lemma FailureLeaksTempFile(paths: set<string>, voicesDir: string, payload: Payload, tmp: string,
                             piper: PiperOutcome, sox: SoxOutcome)
    requires Validate(payload, voicesDir, paths).Accept?
    requires !(piper.PiperExited? && piper.code == 0 && sox.SoxExited?)
    ensures Outcome(paths, voicesDir, payload, tmp, piper, sox).1 == paths + {tmp}
    ensures var r := Outcome(paths, voicesDir, payload, tmp, piper, sox).0; r.Error? && r.status == 500
    ensures piper.PiperExited? && piper.code != 0 ==>
      Outcome(paths, voicesDir, payload, tmp, piper, sox).0 == Error(500, "Piper failed: " + piper.stderr)
    ensures piper.PiperTimedOut? || (piper.PiperExited? && piper.code == 0 && sox.SoxTimedOut?) ==>
      Outcome(paths, voicesDir, payload, tmp, piper, sox).0 == Error(500, TIMED_OUT)
  {
  }

  /**
   * As written: when sox exits with a non-zero status, the fallback reads the
   * temp file that was unlinked just before, so the answer is always the 500
   * of a missing file and never the unconverted audio.
   */
  lemma SoxFallbackReadsDeletedFile(paths: set<string>, voicesDir: string, payload: Payload, tmp: string,
                                    piper: PiperOutcome, soxCode: int)
    requires Validate(payload, voicesDir, paths).Accept?
    requires piper.PiperExited? && piper.code == 0 && soxCode != 0
    ensures Outcome(paths, voicesDir, payload, tmp, piper, SoxExited(soxCode))
      == (Error(500, MissingFileMessage(tmp)), paths - {tmp})
  {
    var converted := paths + {tmp};
    assert tmp !in converted - {tmp};
    assert converted - {tmp} == paths - {tmp};
  }

  /**
   * As written: when both processes succeed, the converted audio is sent and
   * both temp files are gone; the temp file is never what is sent.
   */
  lemma SuccessSendsConvertedAudio(paths: set<string>, voicesDir: string, payload: Payload, tmp: string,
                                   piper: PiperOutcome, sox: SoxOutcome)
    requires Validate(payload, voicesDir, paths).Accept?
    requires EndsWith(tmp, TEMP_SUFFIX)
    ensures piper.PiperExited? && piper.code == 0 && sox == SoxExited(0) ==>
      Outcome(paths, voicesDir, payload, tmp, piper, sox) == (Wav(ConvertedPath(tmp)), paths - {tmp, ConvertedPath(tmp)})
    ensures Outcome(paths, voicesDir, payload, tmp, piper, sox).0 != Wav(tmp)
  {
    ConvertedPathDiffers(tmp);
    var out := ConvertedPath(tmp);
    var cleaned := paths + {tmp} + {out} - {tmp};
    assert out in cleaned;
    assert cleaned - {out} == paths - {tmp, out};
  }

  /** Corrected: a failed conversion sends the unconverted audio instead. */
  lemma CleanSoxFallbackSendsTempAudio(paths: set<string>, voicesDir: string, payload: Payload, tmp: string,
                                       piper: PiperOutcome, soxCode: int)
    requires Validate(payload, voicesDir, paths).Accept?
    requires piper.PiperExited? && piper.code == 0 && soxCode != 0
    ensures CleanOutcome(paths, voicesDir, payload, tmp, piper, SoxExited(soxCode)).0 == Wav(tmp)
  {
  }

  /**
   * Corrected: whatever the processes do, no temp path is left behind and no
   * other file is removed; with fresh temp names the file set ends as it began.
   */
  lemma CleanLeavesNoTempFile(paths: set<string>, voicesDir: string, payload: Payload, tmp: string,
                              piper: PiperOutcome, sox: SoxOutcome)
    requires Validate(payload, voicesDir, paths).Accept?
    ensures var after := CleanOutcome(paths, voicesDir, payload, tmp, piper, sox).1;
      && tmp !in after && ConvertedPath(tmp) !in after
      && after <= paths
      && forall p :: p in paths && p != tmp && p != ConvertedPath(tmp) ==> p in after
    ensures tmp !in paths && ConvertedPath(tmp) !in paths ==>
      CleanOutcome(paths, voicesDir, payload, tmp, piper, sox).1 == paths
  {
  }

  /** Corrected: every answer other than the sox fallback's is the one the handler gives as written. */
  lemma CleanAgreesElsewhere(paths: set<string>, voicesDir: string, payload: Payload, tmp: string,
                             piper: PiperOutcome, sox: SoxOutcome)
    requires EndsWith(tmp, TEMP_SUFFIX)
    requires !(piper.PiperExited? && piper.code == 0 && sox.SoxExited? && sox.code != 0)
    ensures CleanOutcome(paths, voicesDir, payload, tmp, piper, sox).0 == Outcome(paths, voicesDir, payload, tmp, piper, sox).0
  {
    ConvertedPathDiffers(tmp);
  }
}

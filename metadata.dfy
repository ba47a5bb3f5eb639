/**
 * `get_voice_metadata`: a dictionary from voice id to the name, sample rate
 * and language code of the voice, read from the `<id>.onnx.json` sidecar
 * when there is one, with 22050 and `en` as the fallbacks.
 */
module Metadata {
  import opened Wrappers
  import opened PyStr
  import opened Json
  import opened VoiceDir
  import opened Catalog

  const DEFAULT_SAMPLE_RATE: Json := JNumber(22050)
  const DEFAULT_LANGUAGE: Json := JString("en")

  /** The metadata of one voice. The sidecar's values are kept as they are, whatever their JSON type. */
  datatype VoiceMeta = VoiceMeta(name: string, sampleRate: Json, language: Json)

  /** `v.get(key, default)`: `None` when `v` is not an object, where Python raises `AttributeError`. */
  function Get(v: Json, key: string, default: Json): (r: Option<Json>)
    ensures r.Some? <==> v.JObject?
    ensures v.JObject? && key in v.members ==> r == Some(v.members[key])
    ensures v.JObject? && key !in v.members ==> r == Some(default)
  {
    match v
    case JObject(m) => Some(if key in m then m[key] else default)
    case _ => None
  }

  /**
   * The two assignments in the `try` block: `data.get('audio', {}).get('sample_rate', 22050)`
   * and `data.get('language', {}).get('code', 'en')`. `None` when either raises.
   */
  function SidecarFields(data: Json): Option<(Json, Json)> {
    var audio := Get(data, "audio", JObject(map[]));
    if audio.None? then None
    else
      var rate := Get(audio.value, "sample_rate", DEFAULT_SAMPLE_RATE);
      if rate.None? then None
      else
        var language := Get(data, "language", JObject(map[]));
        if language.None? then None
        else
          var code := Get(language.value, "code", DEFAULT_LANGUAGE);
          if code.None? then None
          else Some((rate.value, code.value))
  }

  /** The sidecar path of a voice: `<voice_name>.onnx.json` in the voices directory. */
  function SidecarName(voiceName: string): string {
    voiceName + SIDECAR_EXT
  }

  /**
   * The `meta` dictionary built for one voice: the sidecar's fields when it
   * exists, parses and has the expected shape; otherwise both fallbacks,
   * because the `except` clause overwrites a sample rate already assigned.
   */
  function MetaFor(voiceName: string, d: Directory): (m: VoiceMeta)
    ensures m.name == voiceName
    ensures SidecarName(voiceName) !in d.names ==> m == VoiceMeta(voiceName, DEFAULT_SAMPLE_RATE, DEFAULT_LANGUAGE)
    ensures SidecarName(voiceName) !in d.parsed ==> m == VoiceMeta(voiceName, DEFAULT_SAMPLE_RATE, DEFAULT_LANGUAGE)
  {
    var sidecar := SidecarName(voiceName);
    if sidecar in d.names && sidecar in d.parsed then
      match SidecarFields(d.parsed[sidecar])
      case Some((rate, language)) => VoiceMeta(voiceName, rate, language)
      case None => VoiceMeta(voiceName, DEFAULT_SAMPLE_RATE, DEFAULT_LANGUAGE)
    else
      VoiceMeta(voiceName, DEFAULT_SAMPLE_RATE, DEFAULT_LANGUAGE)
  }

  /** The voice ids of the model files in a listing. */
  ghost function VoiceIds(names: seq<string>): set<string> {
    set f | f in names && IsModelFile(f) :: VoiceId(f)
  }

  lemma VoiceIdsStep(names: seq<string>, i: nat)
    requires i < |names|
    ensures VoiceIds(names[..i + 1])
      == VoiceIds(names[..i]) + (if IsModelFile(names[i]) then {VoiceId(names[i])} else {})
  {
    assert names[..i + 1] == names[..i] + [names[i]];
  }

  /**
   * The dictionary has one key per voice id of the listing, and each key maps
   * to the metadata of its sidecar. When two model files give the same id the
   * later one overwrites the earlier, with the same value.
   */
  method GetVoiceMetadata(dir: Option<Directory>) returns (voices: map<string, VoiceMeta>)
    ensures dir.None? ==> voices == map[]
    ensures dir.Some? ==> voices.Keys == VoiceIds(dir.value.names)
    ensures dir.Some? ==> forall k :: k in voices ==> voices[k] == MetaFor(k, dir.value)
  {
    voices := map[];
    if dir.Some? {
      var d := dir.value;
      for i := 0 to |d.names|
        invariant voices.Keys == VoiceIds(d.names[..i])
        invariant forall k :: k in voices ==> voices[k] == MetaFor(k, d)
      {
        var f := d.names[i];
        VoiceIdsStep(d.names, i);
        if IsModelFile(f) {
          var voiceName := VoiceId(f);
          voices := voices[voiceName := MetaFor(voiceName, d)];
        }
      }
      assert d.names[..|d.names|] == d.names;
    }
  }

  /** A well-formed sidecar gives its `audio.sample_rate` and `language.code`. */
  lemma SidecarValues(rate: Json, code: Json, audio: map<string, Json>, language: map<string, Json>, data: map<string, Json>)
    requires "sample_rate" in audio && audio["sample_rate"] == rate
    requires "code" in language && language["code"] == code
    requires "audio" in data && data["audio"] == JObject(audio)
    requires "language" in data && data["language"] == JObject(language)
    ensures SidecarFields(JObject(data)) == Some((rate, code))
  {
  }

  /**
   * Any object sidecar: reading fails exactly when `audio` or `language` is
   * present and not an object; otherwise each field is its key's value, or
   * its own fallback when the key is missing.
   */
  lemma SidecarFieldsOfObject(data: map<string, Json>)
    ensures SidecarFields(JObject(data)).None? <==>
      ("audio" in data && !data["audio"].JObject?) || ("language" in data && !data["language"].JObject?)
    ensures SidecarFields(JObject(data)).Some? ==>
      && SidecarFields(JObject(data)).value.0 ==
           (if "audio" in data && "sample_rate" in data["audio"].members then data["audio"].members["sample_rate"]
            else DEFAULT_SAMPLE_RATE)
      && SidecarFields(JObject(data)).value.1 ==
           (if "language" in data && "code" in data["language"].members then data["language"].members["code"]
            else DEFAULT_LANGUAGE)
  {
  }

  /**
   * A good `sample_rate` is read first, but a non-object `language` then
   * raises, and the `except` clause overwrites the rate with the fallback.
   */
  lemma MalformedLanguageDiscardsRate(voiceName: string, d: Directory, rate: Json)
    requires SidecarName(voiceName) in d.names && SidecarName(voiceName) in d.parsed
    requires d.parsed[SidecarName(voiceName)].JObject?
    requires var m := d.parsed[SidecarName(voiceName)].members;
      && "audio" in m && m["audio"] == JObject(map["sample_rate" := rate])
      && "language" in m && !m["language"].JObject?
    ensures MetaFor(voiceName, d) == VoiceMeta(voiceName, DEFAULT_SAMPLE_RATE, DEFAULT_LANGUAGE)
  {
  }

  /**
   * An `audio` entry that is not an object raises before the language is read,
   * so a good `language.code` is discarded along with it.
   */
  lemma MalformedAudioDiscardsLanguage(voiceName: string, d: Directory, code: Json)
    requires SidecarName(voiceName) in d.names && SidecarName(voiceName) in d.parsed
    requires d.parsed[SidecarName(voiceName)].JObject?
    requires var m := d.parsed[SidecarName(voiceName)].members;
      && "audio" in m && !m["audio"].JObject?
      && "language" in m && m["language"] == JObject(map["code" := code])
    ensures MetaFor(voiceName, d) == VoiceMeta(voiceName, DEFAULT_SAMPLE_RATE, DEFAULT_LANGUAGE)
  {
  }

  /** A sidecar whose top level is not an object gives both fallbacks. */
  lemma NonObjectSidecar(voiceName: string, d: Directory)
    requires SidecarName(voiceName) in d.parsed && !d.parsed[SidecarName(voiceName)].JObject?
    ensures MetaFor(voiceName, d) == VoiceMeta(voiceName, DEFAULT_SAMPLE_RATE, DEFAULT_LANGUAGE)
  {
  }

  /** The ids of a listing of entries. */
  ghost function EntryIds(entries: seq<VoiceEntry>): set<string> {
    set e | e in entries :: e.id
  }

  /** The metadata keys are exactly the ids of the `/voices` catalogue of the same directory. */
  lemma MetadataKeysAreCatalogIds(d: Directory)
    ensures VoiceIds(d.names) == set e | e in Listing(Some(d)) :: e.id
  {
    CatalogCoversModelFiles(d);
    KeysAmongIds(d);
    IdsAmongKeys(d);
    assert EntryIds(Listing(Some(d))) == set e | e in Listing(Some(d)) :: e.id;
  }

  /** Every metadata key is the id of some catalogue entry. */
  lemma KeysAmongIds(d: Directory)
    requires forall f :: f in d.names && IsModelFile(f) ==> EntryFor(f) in Listing(Some(d))
    ensures VoiceIds(d.names) <= EntryIds(Listing(Some(d)))
  {
    forall x | x in VoiceIds(d.names) ensures x in EntryIds(Listing(Some(d))) {
      var f :| f in d.names && IsModelFile(f) && VoiceId(f) == x;
      assert EntryFor(f).id == x;
    }
  }

  /** Every catalogue id is a metadata key. */
  lemma IdsAmongKeys(d: Directory)
    requires forall k :: 0 <= k < |Listing(Some(d))| ==> EntryOfListedModel(d, Listing(Some(d))[k])
    ensures EntryIds(Listing(Some(d))) <= VoiceIds(d.names)
  {
    var c := Listing(Some(d));
    forall x | x in EntryIds(c) ensures x in VoiceIds(d.names) {
      var e :| e in c && e.id == x;
      var k :| 0 <= k < |c| && c[k] == e;
      assert EntryOfListedModel(d, c[k]);
      var f :| f in d.names && IsModelFile(f) && e == EntryFor(f);
      assert VoiceId(f) == x;
    }
  }
}

/**
 * The `/voices` catalogue (`list_voices`): one entry per model file of the
 * voices directory, in sorted file-name order, each with an id, a display
 * name, a language, an inferred gender and a quality tier parsed from the id.
 */
module Catalog {
  import opened Wrappers
  import opened PyStr
  import opened PySorted
  import opened VoiceDir

  datatype Gender = Female | Male | Unknown

  /** The `gender` string of an entry. */
  function GenderName(g: Gender): string {
    match g
    case Female => "female"
    case Male => "male"
    case Unknown => "unknown"
  }

  const FEMALE_NAMES: seq<string> := ["lessac", "amy", "kristin", "kathleen", "alba", "cori", "jenny"]
  const MALE_NAMES: seq<string> := ["ryan", "joe", "alan", "aru", "kusal", "arctic"]
  /** Each table together with the literal word tested after it. */
  const FEMALE_MARKERS: seq<string> := FEMALE_NAMES + ["female"]
  const MALE_MARKERS: seq<string> := MALE_NAMES + ["male"]

  const FALLBACK_LANGUAGE := "en_US"
  const FALLBACK_QUALITY := "medium"

  /** The three fields parsed from a voice id such as `en_US-lessac-medium`. */
  datatype VoiceParts = VoiceParts(language: string, speaker: string, quality: string)

  /** `voice_id.split('-')`: with three or more segments the first three are taken, otherwise the whole id is the speaker. */
  function ParseVoiceId(id: string): VoiceParts {
    var parts := Split(id, '-');
    if |parts| >= 3 then VoiceParts(parts[0], parts[1], parts[2])
    else VoiceParts(FALLBACK_LANGUAGE, id, FALLBACK_QUALITY)
  }

  /**
   * With two or more dashes the fields are the id's first three dash-free
   * segments: the id is `language-speaker-quality`, possibly followed by a
   * dash and further segments. With fewer the fallback fields apply.
   */
  lemma ParseVoiceIdSegments(id: string)
    ensures var p := ParseVoiceId(id);
      && (CountChar(id, '-') < 2 ==> p == VoiceParts(FALLBACK_LANGUAGE, id, FALLBACK_QUALITY))
      && (CountChar(id, '-') >= 2 ==>
            && '-' !in p.language && '-' !in p.speaker && '-' !in p.quality
            && var h := p.language + "-" + p.speaker + "-" + p.quality;
               id == h || StartsWith(id, h + "-"))
  {
    var parts := Split(id, '-');
    SplitSegments(id, '-');
    if |parts| >= 3 {
      JoinSplit(id, '-');
      var h := parts[0] + "-" + parts[1] + "-" + parts[2];
      if |parts| == 3 {
        JoinThreeA(parts);
      } else {
        JoinThreeB(parts);
        var h' := h + "-";
        assert id[..|h'|] == h';
        StartsWithIff(id, h');
      }
    }
  }

  /** Joining exactly three segments spells them out with two dashes. */
  lemma JoinThreeA(parts: seq<string>)
    requires |parts| == 3
    ensures Join(parts, '-') == parts[0] + "-" + parts[1] + "-" + parts[2]
  {
    var a, b, c := parts[0], parts[1], parts[2];
    assert parts[1..][1..] == parts[2..];
    assert Join(parts[2..], '-') == c;
    assert Join(parts[1..], '-') == b + "-" + c;
    assert Join(parts, '-') == a + "-" + (b + "-" + c);
  }

  /** Joining more than three segments spells out the first three, a dash, and the join of the rest. */
  lemma JoinThreeB(parts: seq<string>)
    requires |parts| > 3
    ensures Join(parts, '-') == parts[0] + "-" + parts[1] + "-" + parts[2] + "-" + Join(parts[3..], '-')
  {
    var a, b, c, rest := parts[0], parts[1], parts[2], Join(parts[3..], '-');
    assert parts[1..][1..] == parts[2..];
    assert parts[2..][1..] == parts[3..];
    assert Join(parts[2..], '-') == c + "-" + rest;
    assert Join(parts[1..], '-') == b + "-" + (c + "-" + rest);
    assert Join(parts, '-') == a + "-" + (b + "-" + (c + "-" + rest));
  }

  lemma ParseVoiceIdOfSegments(id: string, parts: seq<string>)
    requires Split(id, '-') == parts && |parts| >= 3
    ensures ParseVoiceId(id) == VoiceParts(parts[0], parts[1], parts[2])
  {
  }

  lemma FieldsDashFree(language: string, speaker: string, quality: string, more: seq<string>)
    requires '-' !in language && '-' !in speaker && '-' !in quality
    requires forall k :: 0 <= k < |more| ==> '-' !in more[k]
    ensures forall k :: 0 <= k < |[language, speaker, quality] + more| ==> '-' !in ([language, speaker, quality] + more)[k]
  {
    var parts := [language, speaker, quality] + more;
    forall k | 0 <= k < |parts| ensures '-' !in parts[k] {
      if k >= 3 {
        assert parts[k] == more[k - 3];
      }
    }
  }

  /** Formatting dash-free fields as an id and parsing it gives the fields back; further segments are ignored. */
  lemma ParseVoiceIdOfFields(language: string, speaker: string, quality: string, more: seq<string>)
    requires '-' !in language && '-' !in speaker && '-' !in quality
    requires forall k :: 0 <= k < |more| ==> '-' !in more[k]
    ensures ParseVoiceId(Join([language, speaker, quality] + more, '-')) == VoiceParts(language, speaker, quality)
  {
    var parts := [language, speaker, quality] + more;
    FieldsDashFree(language, speaker, quality, more);
    SplitJoin(parts, '-');
    ParseVoiceIdOfSegments(Join(parts, '-'), parts);
  }

  /** Python's `any(fn in s for fn in fragments)`. */
  function AnyContains(s: string, fragments: seq<string>): (r: bool)
    ensures r <==> exists k :: 0 <= k < |fragments| && Contains(s, fragments[k])
    decreases |fragments|
  {
    if |fragments| == 0 then false
    else if Contains(s, fragments[0]) then true
    else
      assert forall k :: 1 <= k < |fragments| ==> fragments[k] == fragments[1..][k - 1];
      AnyContains(s, fragments[1..])
  }

  /** A table extended by one word matches exactly when the table or the word does. */
  lemma AnyContainsExtended(s: string, fragments: seq<string>, word: string)
    ensures AnyContains(s, fragments + [word]) <==> AnyContains(s, fragments) || Contains(s, word)
  {
    var all := fragments + [word];
    assert all[|fragments|] == word;
    assert forall k :: 0 <= k < |fragments| ==> all[k] == fragments[k];
  }

  /**
   * Gender by case-insensitive substring lookup: the female table (and the
   * word "female") first, then the male table (and the word "male").
   */
  function InferGender(speaker: string): (g: Gender)
    ensures g == Female <==>
      exists k :: 0 <= k < |FEMALE_MARKERS| && Contains(Lower(speaker), FEMALE_MARKERS[k])
    ensures g == Male <==>
      && (forall k :: 0 <= k < |FEMALE_MARKERS| ==> !Contains(Lower(speaker), FEMALE_MARKERS[k]))
      && (exists k :: 0 <= k < |MALE_MARKERS| && Contains(Lower(speaker), MALE_MARKERS[k]))
  {
    var lowered := Lower(speaker);
    AnyContainsExtended(lowered, FEMALE_NAMES, "female");
    AnyContainsExtended(lowered, MALE_NAMES, "male");
    if AnyContains(lowered, FEMALE_NAMES) || Contains(lowered, "female") then Female
    else if AnyContains(lowered, MALE_NAMES) || Contains(lowered, "male") then Male
    else Unknown
  }

  /**
   * "male" is part of "female", so a speaker caught by the word "female" also
   * satisfies the male test: only the order of the tests makes it female.
   */
  lemma FemaleWordAlsoMatchesMale(s: string)
    requires Contains(s, "female")
    ensures Contains(s, "male")
  {
    ContainsIff(s, "female");
    var i :| OccursAt(s, "female", i);
    assert s[i + 2..i + 6] == s[i..i + 6][2..];
    assert OccursAt(s, "male", i + 2);
    ContainsIff(s, "male");
  }

  /** ` F`, ` M` or nothing after the language in a display name. */
  function GenderMark(g: Gender): string {
    match g
    case Female => " F"
    case Male => " M"
    case Unknown => ""
  }

  /** `name.replace('_', ' ').title()` followed by ` (<lang> F)`, ` (<lang> M)` or ` (<lang>)`. */
  function DisplayName(speaker: string, language: string, g: Gender): string {
    Title(Replace(speaker, "_", " ")) + " (" + language + GenderMark(g) + ")"
  }

  /**
   * The display name has one character per speaker character followed by the
   * language suffix; underscores have become spaces, every other character is
   * kept up to case, a letter is upper case where a word starts and lower
   * case inside a word.
   */
  lemma DisplayNameShape(speaker: string, language: string, g: Gender)
    ensures var d := DisplayName(speaker, language, g);
      && |d| == |speaker| + |language| + |GenderMark(g)| + 3
      && d[|speaker|..] == " (" + language + GenderMark(g) + ")"
      && (forall i :: 0 <= i < |speaker| && speaker[i] == '_' ==> d[i] == ' ')
      && (forall i :: 0 <= i < |speaker| && speaker[i] != '_' ==> ToLowerChar(d[i]) == ToLowerChar(speaker[i]))
      && (forall i :: 0 <= i < |speaker| && IsAsciiLetter(speaker[i]) && WordStart(speaker, i) ==> IsAsciiUpper(d[i]))
      && (forall i :: 0 <= i < |speaker| && IsAsciiLetter(speaker[i]) && !WordStart(speaker, i) ==> IsAsciiLower(d[i]))
  {
    var u := Replace(speaker, "_", " ");
    ReplaceCharAt(speaker, '_', ' ');
    TitleAt(u);
    var t := Title(u);
    var d := DisplayName(speaker, language, g);
    assert d == t + (" (" + language + GenderMark(g) + ")");
    forall i | 0 <= i < |speaker| ensures d[i] == t[i] {
    }
    forall i | 0 <= i < |speaker| - 1 ensures IsAsciiLetter(u[i]) == IsAsciiLetter(speaker[i]) {
    }
  }

  /** One catalogue entry, as `list_voices` builds it. */
  datatype VoiceEntry = VoiceEntry(id: string, name: string, language: string, gender: Gender, quality: string)

  /** The entry for one model file (the body of the listing loop). */
  function EntryFor(f: string): VoiceEntry {
    var id := VoiceId(f);
    var p := ParseVoiceId(id);
    var g := InferGender(p.speaker);
    VoiceEntry(id, DisplayName(p.speaker, p.language, g), p.language, g, p.quality)
  }

  function Entries(files: seq<string>): seq<VoiceEntry> {
    seq(|files|, k requires 0 <= k < |files| => EntryFor(files[k]))
  }

  /** What `/voices` lists: nothing for a missing directory, else the model files in sorted order. */
  function Listing(dir: Option<Directory>): seq<VoiceEntry> {
    match dir
    case None => []
    case Some(d) => Entries(ModelFiles(SortStrings(d.names)))
  }

  lemma EntriesAppend(files: seq<string>, f: string)
    ensures Entries(files + [f]) == Entries(files) + [EntryFor(f)]
  {
  }

  lemma ModelFilesStep(files: seq<string>, i: nat)
    requires i < |files|
    ensures ModelFiles(files[..i + 1])
      == ModelFiles(files[..i]) + (if IsModelFile(files[i]) then [files[i]] else [])
  {
    assert files[..i + 1] == files[..i] + [files[i]];
    ModelFilesAppend(files[..i], [files[i]]);
  }

  /** One step of the listing loop: a model file appends its entry, any other name nothing. */
  lemma ListingStep(files: seq<string>, i: nat)
    requires i < |files|
    ensures Entries(ModelFiles(files[..i + 1]))
      == Entries(ModelFiles(files[..i])) + (if IsModelFile(files[i]) then [EntryFor(files[i])] else [])
  {
    ModelFilesStep(files, i);
    if IsModelFile(files[i]) {
      EntriesAppend(ModelFiles(files[..i]), files[i]);
    }
  }

  /** The loop of `list_voices` over the sorted names: an entry for each model file, in order. */
  method EntriesOf(files: seq<string>) returns (voices: seq<VoiceEntry>)
    ensures voices == Entries(ModelFiles(files))
  {
    voices := [];
    for i := 0 to |files|
      invariant voices == Entries(ModelFiles(files[..i]))
    {
      var f := files[i];
      ListingStep(files, i);
      if IsModelFile(f) {
        voices := voices + [EntryFor(f)];
      }
    }
    assert files[..|files|] == files;
  }

  /** `list_voices`: the loop over `sorted(os.listdir(VOICES_DIR))`, or no voices without a directory. */
  method ListVoices(dir: Option<Directory>) returns (voices: seq<VoiceEntry>)
    ensures voices == Listing(dir)
    ensures dir.None? ==> voices == []
  {
    voices := [];
    if dir.Some? {
      voices := EntriesOf(SortStrings(dir.value.names));
    }
  }

  /**
   * The catalogue has one entry per model file of the listing, taken in
   * sorted file-name order: any sorted arrangement of the model files yields
   * exactly the catalogue's entries.
   */
  lemma CatalogIsSortedModelFiles(d: Directory, files: seq<string>)
    requires Sorted(files) && multiset(files) == multiset(ModelFiles(d.names))
    ensures Listing(Some(d)) == Entries(files)
    ensures |Listing(Some(d))| == |ModelFiles(d.names)|
  {
    var sorted := SortStrings(d.names);
    SortStringsCorrect(d.names);
    ModelFilesSorted(sorted);
    ModelFilesPermutation(sorted, d.names);
    SortedUnique(ModelFiles(sorted), files);
  }

  /** `e` is the entry of some model file of the listing. */
  ghost predicate EntryOfListedModel(d: Directory, e: VoiceEntry) {
    exists f :: f in d.names && IsModelFile(f) && e == EntryFor(f)
  }

  /** Every entry comes from a listed model file, and every listed model file has an entry. */
  lemma CatalogCoversModelFiles(d: Directory)
    ensures forall k :: 0 <= k < |Listing(Some(d))| ==> EntryOfListedModel(d, Listing(Some(d))[k])
    ensures forall f :: f in d.names && IsModelFile(f) ==> EntryFor(f) in Listing(Some(d))
  {
    var sorted := SortStrings(d.names);
    SortStringsCorrect(d.names);
    var files := ModelFiles(sorted);
    var c := Listing(Some(d));
    assert c == Entries(files);
    forall k | 0 <= k < |c|
      ensures EntryOfListedModel(d, c[k])
    {
      assert files[k] in sorted;
      assert files[k] in multiset(d.names);
      assert files[k] in d.names && IsModelFile(files[k]);
      assert c[k] == EntryFor(files[k]);
    }
    forall f | f in d.names && IsModelFile(f)
      ensures EntryFor(f) in c
    {
      assert f in multiset(sorted);
      var k :| 0 <= k < |files| && files[k] == f;
      assert c[k] == EntryFor(files[k]);
    }
  }

  /**
   * For a model file named `<language>-<speaker>-<quality>.onnx` with
   * dash-free fields and no `.` or `_` anywhere, the entry carries those
   * fields, the title-cased speaker and the gender inferred from it.
   */
  lemma EntryOfFields(language: string, speaker: string, quality: string)
    requires '-' !in language && '-' !in speaker && '-' !in quality
    requires '.' !in language && '.' !in speaker && '.' !in quality
    requires '_' !in speaker
    ensures var id := language + "-" + speaker + "-" + quality;
      EntryFor(id + MODEL_EXT) == VoiceEntry(id,
        Title(speaker) + " (" + language + GenderMark(InferGender(speaker)) + ")",
        language, InferGender(speaker), quality)
  {
    var id := language + "-" + speaker + "-" + quality;
    assert !Contains(id, MODEL_EXT) by {
      if Contains(id, MODEL_EXT) {
        ContainsChars(id, MODEL_EXT, '.');
      }
    }
    VoiceIdOfStem(id);
    assert Join([language, speaker, quality], '-') == id by {
      assert [language, speaker, quality][1..] == [speaker, quality];
      assert [speaker, quality][1..] == [quality];
      assert Join([speaker, quality], '-') == speaker + ['-'] + quality;
      assert Join([language, speaker, quality], '-') == language + ['-'] + (speaker + ['-'] + quality);
    }
    ParseVoiceIdOfFields(language, speaker, quality, []);
    assert [language, speaker, quality] + [] == [language, speaker, quality];
    assert !Contains(speaker, "_") by {
      if Contains(speaker, "_") {
        ContainsChars(speaker, "_", '_');
      }
    }
    ReplaceAbsent(speaker, "_", " ");
  }

  /**
   * A fragment is ruled out by one of its characters that the string lacks;
   * given one such witness per fragment, no fragment occurs.
   */
  lemma NoneContains(s: string, fragments: seq<string>, witnesses: string)
    requires |witnesses| == |fragments|
    requires forall k :: 0 <= k < |fragments| ==> witnesses[k] in fragments[k] && witnesses[k] !in s
    ensures forall k :: 0 <= k < |fragments| ==> !Contains(s, fragments[k])
    ensures !AnyContains(s, fragments)
  {
    forall k | 0 <= k < |fragments| ensures !Contains(s, fragments[k]) {
      if Contains(s, fragments[k]) {
        ContainsChars(s, fragments[k], witnesses[k]);
      }
    }
  }

  /**
   * The three gender examples of the listing: lessac, ryan and an unlisted name.
   * The speaker is a parameter fixed by `requires`, rather than a literal in the
   * body, because the verifier handles it at a fraction of the cost.
   */
  lemma LessacIsFemale(speaker: string)
    requires speaker == "lessac"
    ensures InferGender(speaker) == Female && Title(speaker) == "Lessac"
  {
    assert Lower(speaker) == speaker;
    assert Contains(speaker, FEMALE_MARKERS[0]);
  }

  lemma RyanIsMale(speaker: string)
    requires speaker == "ryan"
    ensures InferGender(speaker) == Male && Title(speaker) == "Ryan"
  {
    assert Lower(speaker) == speaker;
    NoneContains(speaker, FEMALE_MARKERS, "lmkklcjf");
    assert Contains(speaker, MALE_MARKERS[0]);
    RyanTitle(speaker);
  }

  lemma RyanTitle(speaker: string)
    requires speaker == "ryan"
    ensures Title(speaker) == "Ryan"
  {
    TitleAt(speaker);
    assert WordStart(speaker, 0) && !WordStart(speaker, 1) && !WordStart(speaker, 2) && !WordStart(speaker, 3);
  }

  lemma UnknownnameIsUnknown(speaker: string)
    requires speaker == "unknownname"
    ensures InferGender(speaker) == Unknown
  {
    UnknownnameLower(speaker);
    UnknownnameNotFemale(speaker);
    UnknownnameNotMale(speaker);
  }

  lemma UnknownnameLower(speaker: string)
    requires speaker == "unknownname"
    ensures Lower(speaker) == speaker
  {
  }

  lemma UnknownnameNotFemale(speaker: string)
    requires speaker == "unknownname"
    ensures forall k :: 0 <= k < |FEMALE_MARKERS| ==> !Contains(speaker, FEMALE_MARKERS[k])
  {
    NoneContains(speaker, FEMALE_MARKERS, "lyrtlcjf");
  }

  lemma UnknownnameNotMale(speaker: string)
    requires speaker == "unknownname"
    ensures forall k :: 0 <= k < |MALE_MARKERS| ==> !Contains(speaker, MALE_MARKERS[k])
  {
    NoneContains(speaker, MALE_MARKERS, "yjlrsrl");
  }

  /**
   * The entry of `en_US-lessac-medium.onnx`: its name is `Lessac (en_US F)`,
   * not the `Lessac (US Female)` of the endpoint's docstring.
   */
  lemma LessacEntry(language: string, speaker: string, quality: string)
    requires language == "en_US" && speaker == "lessac" && quality == "medium"
    ensures Title(speaker) == "Lessac"
    ensures EntryFor(language + "-" + speaker + "-" + quality + MODEL_EXT)
      == VoiceEntry(language + "-" + speaker + "-" + quality, Title(speaker) + " (" + language + GenderMark(Female) + ")", language, Female, quality)
  {
    EntryOfFields(language, speaker, quality);
    LessacIsFemale(speaker);
  }

  /** The entry of `en_US-ryan-high.onnx`: `Ryan (en_US M)`. */
  lemma RyanEntry(language: string, speaker: string, quality: string)
    requires language == "en_US" && speaker == "ryan" && quality == "high"
    ensures Title(speaker) == "Ryan"
    ensures EntryFor(language + "-" + speaker + "-" + quality + MODEL_EXT)
      == VoiceEntry(language + "-" + speaker + "-" + quality, Title(speaker) + " (" + language + GenderMark(Male) + ")", language, Male, quality)
  {
    EntryOfFields(language, speaker, quality);
    RyanIsMale(speaker);
  }

  /** The entry of `en_US-unknownname-low.onnx` has no gender mark. */
  lemma UnknownnameEntry(language: string, speaker: string, quality: string)
    requires language == "en_US" && speaker == "unknownname" && quality == "low"
    ensures EntryFor(language + "-" + speaker + "-" + quality + MODEL_EXT)
      == VoiceEntry(language + "-" + speaker + "-" + quality, Title(speaker) + " (" + language + GenderMark(Unknown) + ")", language, Unknown, quality)
  {
    EntryOfFields(language, speaker, quality);
    UnknownnameIsUnknown(speaker);
  }
}

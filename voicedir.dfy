/**
 * The voices directory: its listing, the model files in it (names ending in
 * `.onnx`), and the voice id derived from a model file name.
 */
module VoiceDir {
  import opened PyStr
  import opened PySorted
  import opened Json

  const MODEL_EXT := ".onnx"
  const SIDECAR_EXT := ".onnx.json"

  /**
   * An existing voices directory: `names` is `os.listdir` in the order it
   * returns them; `parsed` holds the parsed contents of each sidecar file that
   * can be opened and parsed as JSON. A listed sidecar missing from `parsed`
   * is one whose `open` or `json.load` raises.
   */
  datatype Directory = Directory(names: seq<string>, parsed: map<string, Json>)

  predicate IsModelFile(f: string) {
    EndsWith(f, MODEL_EXT)
  }

  /** The names of the listing that end in `.onnx`, in listing order. */
  function ModelFiles(names: seq<string>): (r: seq<string>)
    ensures |r| <= |names|
    ensures forall x :: x in r <==> x in names && IsModelFile(x)
    decreases |names|
  {
    if |names| == 0 then []
    else (if IsModelFile(names[0]) then [names[0]] else []) + ModelFiles(names[1..])
  }

  /** A listing has no model file exactly when the filtered list is empty. */
  lemma ModelFilesEmpty(names: seq<string>)
    ensures ModelFiles(names) == [] <==> forall f :: f in names ==> !IsModelFile(f)
  {
    if |ModelFiles(names)| > 0 {
      assert ModelFiles(names)[0] in ModelFiles(names);
    }
  }

  lemma {:induction false} ModelFilesAppend(a: seq<string>, b: seq<string>)
    ensures ModelFiles(a + b) == ModelFiles(a) + ModelFiles(b)
    decreases |a|
  {
    if |a| > 0 {
      assert (a + b)[1..] == a[1..] + b;
      ModelFilesAppend(a[1..], b);
    } else {
      assert a + b == b;
    }
  }

  /** Each model file occurs in the filtered list as often as in the listing, and nothing else occurs. */
  lemma {:induction false} ModelFilesCount(a: seq<string>, x: string)
    ensures multiset(ModelFiles(a))[x] == if IsModelFile(x) then multiset(a)[x] else 0
    decreases |a|
  {
    if |a| > 0 {
      ModelFilesCount(a[1..], x);
      assert a == [a[0]] + a[1..];
    }
  }

  /** Reordering the listing reorders the model files and changes nothing else. */
  lemma ModelFilesPermutation(a: seq<string>, b: seq<string>)
    requires multiset(a) == multiset(b)
    ensures multiset(ModelFiles(a)) == multiset(ModelFiles(b))
    ensures |ModelFiles(a)| == |ModelFiles(b)|
  {
    forall x ensures multiset(ModelFiles(a))[x] == multiset(ModelFiles(b))[x] {
      ModelFilesCount(a, x);
      ModelFilesCount(b, x);
    }
    assert multiset(ModelFiles(a)) == multiset(ModelFiles(b));
    assert |multiset(ModelFiles(a))| == |multiset(ModelFiles(b))|;
  }

  /** Filtering keeps the listing's order. */
  lemma {:induction false} ModelFilesSorted(a: seq<string>)
    requires Sorted(a)
    ensures Sorted(ModelFiles(a))
    decreases |a|
  {
    if |a| > 0 {
      SortedTail(a);
      ModelFilesSorted(a[1..]);
      var tail := ModelFiles(a[1..]);
      forall j | 0 <= j < |tail| ensures StrLe(a[0], tail[j]) {
        assert tail[j] in a[1..];
        var k :| 0 <= k < |a[1..]| && a[1..][k] == tail[j];
        assert a[k + 1] == tail[j];
      }
    }
  }

  /** `f.replace('.onnx', '')`: every occurrence of `.onnx` is removed, not only the suffix. */
  function VoiceId(f: string): string {
    Replace(f, MODEL_EXT, "")
  }

  /** For a plain model file the id is the name without its extension. */
  lemma VoiceIdOfStem(stem: string)
    requires !Contains(stem, MODEL_EXT)
    ensures VoiceId(stem + MODEL_EXT) == stem
  {
    ReplaceFinalOccurrence(stem, MODEL_EXT, "");
  }

  /** Two different model files can give the same voice id. */
  lemma VoiceIdsCollide()
    ensures IsModelFile("a.onnx") && IsModelFile("a.onnx.onnx")
    ensures VoiceId("a.onnx") == VoiceId("a.onnx.onnx") == "a"
  {
    VoiceIdOfStem("a");
  }

  /** A sidecar `<id>.onnx.json` is never taken for a model file. */
  lemma SidecarIsNotModel(f: string)
    requires EndsWith(f, SIDECAR_EXT)
    ensures !IsModelFile(f)
  {
    assert f[|f| - 5..] == f[|f| - 10..][5..];
  }
}

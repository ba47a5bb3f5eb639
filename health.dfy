/**
 * `/health`: whether `piper --help` exits with status 0, how many model files
 * the voices directory holds, and an overall `ok` or `degraded` status.
 */
module Health {
  import opened Wrappers
  import opened VoiceDir
  import opened Catalog

  /** The outcome of the `piper --help` probe: an exit status, or any exception (timeout, missing binary). */
  datatype ProbeOutcome = ProbeExited(code: int) | ProbeRaised

  datatype Status = Ok | Degraded

  function StatusName(s: Status): string {
    match s
    case Ok => "ok"
    case Degraded => "degraded"
  }

  datatype HealthReport = HealthReport(status: Status, piperAvailable: bool, voicesCount: nat, voicesDir: string)

  /** `len([f for f in os.listdir(VOICES_DIR) if f.endswith('.onnx')])`, or 0 without a directory. */
  function VoicesCount(dir: Option<Directory>): nat {
    match dir
    case None => 0
    case Some(d) => |ModelFiles(d.names)|
  }

  /** The report of one `/health` request. */
  function Health(probe: ProbeOutcome, dir: Option<Directory>, voicesDir: string): (r: HealthReport)
    ensures r.piperAvailable <==> probe == ProbeExited(0)
    ensures r.voicesDir == voicesDir
  {
    var available := probe.ProbeExited? && probe.code == 0;
    var count := VoicesCount(dir);
    HealthReport(if available && count > 0 then Ok else Degraded, available, count, voicesDir)
  }

  /**
   * The count is the length of the `/voices` listing of the same directory,
   * although one counts the unsorted listing and the other the sorted one.
   * The status is `ok` exactly when piper answers and that listing is not empty.
   */
  lemma HealthMatchesListing(probe: ProbeOutcome, dir: Option<Directory>, voicesDir: string)
    ensures Health(probe, dir, voicesDir).voicesCount == |Listing(dir)|
    ensures Health(probe, dir, voicesDir).status == Ok <==> probe == ProbeExited(0) && |Listing(dir)| > 0
  {
    if dir.Some? {
      var names := dir.value.names;
      var sorted := PySorted.SortStrings(names);
      PySorted.SortStringsCorrect(names);
      ModelFilesPermutation(sorted, names);
      assert |Listing(dir)| == |ModelFiles(sorted)|;
    }
  }

  /** Without a directory, or without a model file in it, the service is degraded whatever the probe says. */
  lemma DegradedWithoutVoices(probe: ProbeOutcome, dir: Option<Directory>, voicesDir: string)
    requires dir.None? || forall f :: f in dir.value.names ==> !IsModelFile(f)
    ensures Health(probe, dir, voicesDir).voicesCount == 0
    ensures Health(probe, dir, voicesDir).status == Degraded
  {
    if dir.Some? {
      ModelFilesEmpty(dir.value.names);
    }
  }

  /** A probe that raises, or exits with a status other than 0, leaves the service degraded. */
  lemma DegradedWithoutPiper(probe: ProbeOutcome, dir: Option<Directory>, voicesDir: string)
    requires probe != ProbeExited(0)
    ensures !Health(probe, dir, voicesDir).piperAvailable
    ensures StatusName(Health(probe, dir, voicesDir).status) == "degraded"
  {
  }
}

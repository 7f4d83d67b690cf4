/** What the two tensile pages share: the header marker that starts the data
    table of a testing-machine export, and where uploaded files are kept. */
module TensileFormat {
  import opened Seqs
  import opened Text

  /** The text that marks the header line of the data table. */
  const Marker: string := "Time measurement"

  /** Directory under which uploaded tensile files are stored. */
  const UploadDir: string := "uploaded_tensile_files"

  predicate HasMarker(line: string) {
    Contains(line, Marker)
  }

  /** Index of the first line that contains the marker, if any. */
  function FirstMarker(lines: seq<string>): (r: Option<nat>)
    ensures r.Some? ==> r.value < |lines| && HasMarker(lines[r.value])
    ensures r.Some? ==> forall k :: 0 <= k < r.value ==> !HasMarker(lines[k])
    ensures r.None? <==> forall k :: 0 <= k < |lines| ==> !HasMarker(lines[k])
  {
    FirstIndex(lines, HasMarker)
  }

  /** `os.path.join(UPLOAD_DIR, stored)` for a stored file name. */
  function StoredPath(stored: string): (path: string)
    ensures |path| == |UploadDir| + 1 + |stored|
    ensures path[..|UploadDir|] == UploadDir && path[|UploadDir|] == '/'
    ensures path[|UploadDir| + 1..] == stored
  {
    UploadDir + "/" + stored
  }
}

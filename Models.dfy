/** The result record a scan returns (`ClamScanResult` and `ScanFile`). */
module Models {
  import opened Wrappers

  /** The status every reported file carries. */
  const Infected: string := "INFECTED"

  /** One infected file and the signature found in it. */
  datatype ScanFile = ScanFile(filePath: string, virus: string, status: string)

  datatype ClamScanResult = ClamScanResult(
    scannedFiles: int,
    infectedFiles: int,
    errorCode: int,
    errorMessage: Option<string>,
    files: seq<ScanFile>)

  /** `new ClamScanResult() { ErrorCode = code }`: counts 0, no message, no files. */
  function NewResult(code: int): ClamScanResult {
    ClamScanResult(0, 0, code, None, [])
  }

  /** What every result of the service satisfies: the infected count is the
      number of files, the scanned count equals it, every file is marked
      infected, a success carries no message and a failure carries one and
      reports no file. */
  predicate WellFormed(r: ClamScanResult) {
    && r.infectedFiles == |r.files|
    && r.scannedFiles == r.infectedFiles
    && (forall k | 0 <= k < |r.files| :: r.files[k].status == Infected)
    && (r.errorCode == 0 ==> r.errorMessage.None?)
    && (r.errorCode != 0 ==> r.errorMessage.Some? && r.files == [])
  }
}

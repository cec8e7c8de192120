/** What one image validation reports to the admission handler. */
module Outputs {
  import opened Wrappers
  import Workload

  const MUTATE_MODE := "mutate"
  const VALIDATE_MODE := "insecureValidateOnly"

  datatype ValidationOutput = ValidationOutput(
    idxsTypes: seq<Workload.IdxType>,
    rawImage: string,
    newImage: string,
    oldImage: string,
    error: Option<string>,
    validator: string,
    skipped: bool,
    skipReason: string,
    mode: string)
  {
    /** The image is to be written back. */
    predicate Changes() {
      mode == MUTATE_MODE && newImage != oldImage
    }
  }
}

/** Optional values (a C# null reference) and results (a C# exception or a value). */
module Results {

  /** `None` stands for a null reference. */
  datatype Option<+T> = None | Some(value: T)

  /** The exceptions of the external sort that abort the whole run. */
  datatype Fault =
    | NumberFormat      // long.Parse rejects the text before the separator (FormatException/OverflowException)
    | MissingSeparator  // the line has no ". ", so split[1] is out of range
    | ScratchOverflow   // a chunk has more lines than the scratch array has slots
    | EmptyFrontier     // rows[0] on an empty merge frontier (no run to merge)
    | EmptyRun          // a run file has no first line, so FromString receives null
    | MissingFile       // a run file to be merged does not exist

  datatype Result<+T> = Ok(value: T) | Err(error: Fault)
}

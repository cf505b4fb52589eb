/** Option and Result, and the fatal conditions that abort a run (Go's crash/panic). */
module Wrappers {

  datatype Option<T> = None | Some(value: T)

  datatype Result<T, E> = Ok(value: T) | Err(error: E)

  /** Why a run aborts. Only BadPattern can arise in the engine itself; the other two are
      produced only by the members that reproduce two crashes of the code as written. */
  datatype Fatal =
    | BadPattern(pattern: string)      // regexp.Compile failed (crash)
    | NilTargetUrl(line: string)       // nil *url.URL dereferenced by removePortFromHost (panic)
    | ShortExclusion(scope: string)    // outOfScope[0:4] on a string shorter than 4 (panic)
}

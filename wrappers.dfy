/** Result types shared by the models of the scripts.

    Python's `None` results become `Option`; an exception that escapes a
    function becomes `Raised` of an `Outcome`, so that callers that catch it
    (or do not) can be modelled explicitly. */
module Wrappers {

  datatype Option<+T> = None | Some(value: T)

  /** The Python exception classes that the modelled code raises or catches. */
  datatype Exception =
    | ValueError          // float()/int() on a bad token, np.linspace with a negative count, bad CLI input
    | IndexError          // indexing an empty list with [-1]
    | CalledProcessError  // subprocess.run(..., check=True) with a non-zero exit status
    | LibraryError        // any failure inside a library call (reading a CIF, the force field, phonopy)
    | OSError             // opening or reading a file that exists

  datatype Outcome<+T> = Ok(value: T) | Raised(error: Exception)
}

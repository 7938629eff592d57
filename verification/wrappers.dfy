/** Option and Result values used for the failure paths of the model. */
module Wrappers {

  datatype Option<+T> = None | Some(value: T)

  datatype Result<+T, +E> = Ok(value: T) | Err(error: E) {
    predicate IsFailure() { Err? }

    function PropagateFailure<U>(): Result<U, E>
      requires Err?
    {
      Err(error)
    }

    function Extract(): T
      requires Ok?
    {
      value
    }
  }
}

/** The exceptions the data processor can end in, one constructor per cause. */
module Errors {

  datatype Error =
    | DuplicateKeyword(name: string)   // TypeError: a keyword argument given twice
    | NoDirectory                      // TypeError: expanduser(None) for simulated data
    | MissingDirectory(path: string)   // os.walk yields nothing / os.listdir fails
    | NoMatch                          // IndexError: [0] of an empty list of matches
    | UnknownKind                      // UnboundLocalError: type is neither "obs" nor "sim"
    | FileNotFound(path: string)       // pd.read_table of a missing file
    | TimesMissing                     // ValueError("Times are missing.")
    | DuplicateTimeKeys                // ValueError from pd.to_datetime on repeated columns
    | MissingColumn(name: string)      // KeyError on data_[var] in process_data
    | MissingColumns(names: seq<string>) // KeyError on data[vars]
    | NoRunNumber(name: string)        // AttributeError: search(...) returned None
}

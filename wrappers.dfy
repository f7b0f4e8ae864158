/** The optional-value datatype shared by every module of the model: it stands
    for the source's NULL returns and its error paths. */
module Wrappers {

  datatype Option<+T> = None | Some(value: T)

}

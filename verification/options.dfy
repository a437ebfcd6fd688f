/** The optional-value wrapper used throughout the model, standing for a
    JavaScript value that may be absent (`undefined`, or falsy where the
    handlers treat it as absent). */
module Options {

  datatype Option<+T> = None | Some(value: T)
}

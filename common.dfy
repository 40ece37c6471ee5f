/** The optional-value wrapper used for the fields the source marks with `?`. */
module Common {

  datatype Option<T> = None | Some(value: T)
}

/** Small datatypes every other module uses. */
module Common {

  datatype Option<+T> = None | Some(value: T)

}

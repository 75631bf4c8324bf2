/** Datatypes shared by the models of the API's services. */
module Common {

  datatype Option<+T> = None | Some(value: T)
}

/** A reading that may be missing: the temperature sensor can return NaN. */
module Options {

  datatype Option<T> = None | Some(value: T)

}

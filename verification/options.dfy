/** The failure signal the pipeline uses: Python's `None` versus a value. */
module Options {

  datatype Option<+T> = None | Some(value: T)

}

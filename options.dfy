/** An optional value: used for an absent storage entry, a cancelled file
    pick, and a parse that failed. */
module Options {
  datatype Option<T> = None | Some(value: T)
}

/** The optional value of the TypeScript code: `T | null` and `T | undefined` results. */
module Options {

  datatype Option<+T> = None | Some(value: T)
}

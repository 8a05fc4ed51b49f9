/** The nullable-value wrapper used for C# references and `Nullable<T>` values. */
module Wrappers {

  datatype Option<T> = None | Some(value: T)
}

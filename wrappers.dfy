/** Optional values: `None` stands for JavaScript's `undefined` or `false`
    where the source returns "nothing". */
module Wrappers {

  datatype Option<+T> = None | Some(value: T)

}

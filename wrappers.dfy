/** Optional values, standing for JavaScript's `undefined` result of a search
    and for a response that carries no todo body. */
module Wrappers {

  datatype Option<+T> = None | Some(value: T)
}

/** Optional values and results with an error, as the plugin's PHP uses null and error payloads. */
module Wrappers {

  datatype Option<T> = None | Some(value: T)

  datatype Result<T, E> = Success(value: T) | Failure(error: E)
}

/** Optional values: `null`/`undefined` results of the plugin's functions. */
module Wrappers {

  datatype Option<+T> = None | Some(value: T)

}

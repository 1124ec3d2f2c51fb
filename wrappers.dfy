/** Optional values, used wherever the plugin's Python code would raise or return None. */
module Wrappers {

  datatype Option<+T> = None | Some(value: T)
}

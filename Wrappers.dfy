/** Optional values, standing for Java's null returns and failed prompts. */
module Wrappers {
  datatype Option<+T> = None | Some(value: T)
}

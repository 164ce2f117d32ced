/** Optional values shared by the other modules. */
module Wrappers {

  /** `None` stands for the C++ `std::string::npos` and for "absent" results. */
  datatype Option<+T> = None | Some(value: T)
}

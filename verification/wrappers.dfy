/** The optional-value datatype shared by the other modules: a JavaScript
    property that may be absent, or a CSS custom property not yet set inline. */
module Wrappers {

  datatype Option<+T> = None | Some(value: T)
}

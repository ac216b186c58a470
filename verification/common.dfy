/** An optional value, for the pointers the checks test against null. */
module Wrappers {

  datatype Option<T> = None | Some(value: T)
}

/** What a check hands to the diagnostic sink: an anchor location (a source
    offset) and the message text. Severity and rendering are not modelled. */
module Diagnostics {

  datatype Warning = Warning(loc: nat, message: string)
}

/** The optional values the components pass around: `number | null` selections,
    `string | null` identities, and results that may be absent. */
module Wrappers {

  datatype Option<+T> = None | Some(value: T)
}

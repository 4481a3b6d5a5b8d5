/** The optional value used for the nullable results of the repository (`findOne` yields
    `null` when no row matches) and for the nullable `preferredCity` column. */
module Wrappers {

  datatype Option<+T> = None | Some(value: T)
}

/** Points in time, as the nodes of a tree and the formats' timestamps hold them. */
module Instants {
  import opened Wrappers

  /** An instant, with the offset from UTC in minutes it was recorded in. */
  datatype DateTime = DateTime(seconds: int, nanos: nat, offset: Option<int>)
}

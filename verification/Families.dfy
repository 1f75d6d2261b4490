/** The two address families. */
module Families {
  datatype Af = IP4 | IP6
}

/** Names shared by every module. */
module Wrappers {
  datatype Option<+T> = None | Some(value: T)

  /** Some member of a set, whichever. */
  lemma SomeMember<T>(s: set<T>) returns (x: T)
    requires s != {}
    ensures x in s
  {
    x :| x in s;
  }

  /** What becomes of one round trip to the database: carried out and acknowledged; never carried
      out but reported as an error; or carried out while the acknowledgement is lost.  A process
      that dies after k statements leaves the database as if every later one were Lost. */
  datatype Fault = Delivered | Lost | Unacked
}

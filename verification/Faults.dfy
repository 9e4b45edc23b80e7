/** Failures of databases and of remote calls. */
module Faults {
  /** An access may fail at any time, unless what it goes to is sound. */
  method Fault(sound: bool) returns (fault: bool)
    ensures sound ==> !fault
  {
    if sound {
      return false;
    }
    fault := *;
  }
}

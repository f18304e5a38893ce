/** Where the operating system may fail a call. */
module Devices {
  class Device {
    /** How many calls have failed so far. */
    ghost var faults: nat

    constructor ()
      ensures faults == 0
    {
      faults := 0;
    }

    /** The environment decides whether the next call fails. */
    method Fails() returns (fault: bool)
      modifies this
      ensures faults == old(faults) + if fault then 1 else 0
    {
      fault := *;
      if fault { faults := faults + 1; }
    }
  }
}

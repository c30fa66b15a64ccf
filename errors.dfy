/** The process-wide error counter `errCounter` with its accessors. The mutex
    that guards it only serialises the updates, so it is left out. */
module Errors {
  import opened GoInt

  class ErrorCounter {
    var value: Int64

    /** A package-level `int64` starts at zero. */
    constructor ()
      ensures value == 0
    {
      value := 0;
    }

    /** The reset at the start of `LoadTestHandler`. */
    method Reset()
      modifies this
      ensures value == 0
    {
      value := 0;
    }

    /** `incrementErrorCounter`: `errCounter++` on an `int64`. */
    method Increment()
      modifies this
      ensures value == Add(old(value), 1)
    {
      value := Add(value, 1);
    }

    /** `getErrorCounter`. */
    method Get() returns (v: Int64)
      ensures v == value
    {
      v := value;
    }
  }
}

/** Swift optionals, as the title slide uses them for the secondary colour and the animation. */
module Wrappers {

  /** An optional value: `None` plays the part of Swift's `nil`. */
  datatype Option<+T> = None | Some(value: T) {

    /** The number of values held: 1 for `Some`, 0 for `None`. */
    function Count(): (n: nat)
      ensures n <= 1
      ensures n == 1 <==> Some?
    {
      if Some? then 1 else 0
    }
  }
}

/** The postfix `++` operator that the app adds to `Int32`. */
module IncrementDecrement {
  import opened SwiftTypes

  /** `x++` on an `inout Int32`: the variable is incremented with Swift's
      checked `+=` and the value it held before is returned. The `inout`
      parameter is the pair (`x` in, `x'` out). Swift traps when `x` is
      already `Int32.max`, so that is excluded. */
  method PostIncrement(x: int32) returns (x': int32, prior: int32)
    requires x as int < INT32_MAX
    ensures x' as int == x as int + 1
    ensures prior == x
    ensures prior as int == x' as int - 1
  {
    x' := x + 1;
    prior := x' - 1;
  }
}

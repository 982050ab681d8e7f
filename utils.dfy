/** Variadic integer helpers of utils.go. */
module Utils {

  /** minOf: scans the arguments and keeps a running minimum, starting from the first one. */
  method MinOf(vars: seq<int>) returns (min: int)
    requires |vars| > 0
    ensures min in vars
    ensures forall k :: 0 <= k < |vars| ==> min <= vars[k]
  {
    min := vars[0];
    var n := 0;
    while n < |vars|
      invariant 0 <= n <= |vars|
      invariant min in vars
      invariant forall k :: 0 <= k < n ==> min <= vars[k]
    {
      var i := vars[n];
      if min > i {
        min := i;
      }
      n := n + 1;
    }
  }

  /** maxOf: scans the arguments and keeps a running maximum, starting from the first one. */
  method MaxOf(vars: seq<int>) returns (max: int)
    requires |vars| > 0
    ensures max in vars
    ensures forall k :: 0 <= k < |vars| ==> max >= vars[k]
  {
    max := vars[0];
    var n := 0;
    while n < |vars|
      invariant 0 <= n <= |vars|
      invariant max in vars
      invariant forall k :: 0 <= k < n ==> max >= vars[k]
    {
      var i := vars[n];
      if max < i {
        max := i;
      }
      n := n + 1;
    }
  }
}

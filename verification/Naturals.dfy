/** The larger of two numbers, shared by levels and terms. */
module Naturals {
  function MaxNat(x: nat, y: nat): nat { if x >= y then x else y }
}

/** The option type, C strings and bytes used by the other modules. */
module Wrappers {
  datatype Option<+T> = None | Some(value: T) {
    predicate IsFailure() {
      None?
    }

    function PropagateFailure<U>(): Option<U>
      requires None?
    {
      None
    }

    function Extract(): T
      requires Some?
    {
      value
    }
  }

  /** The characters of a C string: NUL only ends it. */
  type NulFree = s: string | '\0' !in s

  /** An unsigned char. */
  type Byte = b: nat | b < 256

  /** std::hex and std::uppercase */
  function HexDigit(d: nat): char
    requires d < 16
  {
    "0123456789ABCDEF"[d]
  }
}

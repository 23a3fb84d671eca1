/** Small shared vocabulary: the optional value used for error paths, `str.join` and the keys of a list of pairs. */
module Common {

  /** `None` stands for a Python exception that ends the current computation. */
  datatype Option<+T> = None | Some(value: T)

  /** `sep.join(parts)`. */
  function Join(sep: string, parts: seq<string>): string
  {
    if parts == [] then ""
    else if |parts| == 1 then parts[0]
    else parts[0] + sep + Join(sep, parts[1..])
  }

  /** The lowercase hexadecimal digit for `n`. */
  function HexDigit(n: nat): char
    requires n < 16
  {
    "0123456789abcdef"[n]
  }
}

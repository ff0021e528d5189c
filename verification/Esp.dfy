/** Result codes and options shared by the firmware's engines. */
module Esp {

  /** The `esp_err_t` values the modelled functions answer with. */
  datatype Err = Ok | InvalidArg | InvalidSize | InvalidState | NotFound | NoMem | Timeout

  datatype Option<+T> = None | Some(value: T)

  type byte = x: int | 0 <= x < 256

  /** A string copied into a buffer of n characters. */
  function Clip(s: string, n: nat): (r: string)
    ensures r <= s && |r| <= n && (|r| == n || r == s)
  {
    if |s| <= n then s else s[..n]
  }

  function Lower(c: char): char {
    if 'A' <= c <= 'Z' then 'a' + (c - 'A') else c
  }

  function Lowercase(s: string): (r: string)
    ensures |r| == |s| && forall i :: 0 <= i < |s| ==> r[i] == Lower(s[i])
  {
    seq(|s|, i requires 0 <= i < |s| => Lower(s[i]))
  }
}

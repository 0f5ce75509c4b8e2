/** Escaping by doubling, used on the mux (Ctrl-A) and on telnet connections (IAC). */
module Escapes {

  /** A payload with every escape byte doubled. */
  function Doubled(escape: bv8, p: seq<bv8>): seq<bv8>
    decreases |p|
  {
    if p == [] then [] else (if p[0] == escape then [escape, escape] else [p[0]]) + Doubled(escape, p[1..])
  }
}

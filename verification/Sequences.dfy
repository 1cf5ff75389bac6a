/** Notions about sequences and numbers that several modules share. */
module Sequences {

  ghost predicate Distinct<T>(s: seq<T>) {
    forall i, j :: 0 <= i < j < |s| ==> s[i] != s[j]
  }

  function ToSet<T(==)>(s: seq<T>): set<T> {
    set x | x in s
  }

  function Least(a: int, b: int): int {
    if a < b then a else b
  }

  /** The parts with dots between them. */
  function Join(parts: seq<string>): string {
    if parts == [] then ""
    else if |parts| == 1 then parts[0]
    else parts[0] + "." + Join(parts[1..])
  }
}

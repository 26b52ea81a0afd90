/** Texts put together from parts. */
module Texts {

  function Concat(parts: seq<string>): string {
    if parts == [] then "" else Concat(parts[..|parts| - 1]) + parts[|parts| - 1]
  }

  lemma Associative(a: string, b: string, c: string)
    ensures (a + b) + c == a + (b + c)
  {}

  lemma {:induction false} ConcatFirst(part: string, rest: seq<string>)
    ensures Concat([part] + rest) == part + Concat(rest)
  {
    if rest == [] {
      assert [part] + rest == [part] && [part][..0] == [];
    } else {
      var n := |rest| - 1;
      ConcatFirst(part, rest[..n]);
      assert ([part] + rest)[..n + 1] == [part] + rest[..n] && ([part] + rest)[n + 1] == rest[n];
      Associative(part, Concat(rest[..n]), rest[n]);
    }
  }
}

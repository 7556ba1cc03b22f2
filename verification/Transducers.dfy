/** Machines that read one byte at a time and may emit bytes as they go. They are the reference
    definitions the resumable parsers are proved against. */
module Transducers {
  import opened Octets

  datatype Machine<!S> = Machine(next: (S, byte) -> S, emit: (S, byte) -> Bytes) {

    /** The state after reading s from state p. */
    function After(p: S, s: Bytes): (q: S) {
      if s == [] then p else next(After(p, s[..|s| - 1]), s[|s| - 1])
    }

    /** Everything emitted while reading s from state p. */
    function Output(p: S, s: Bytes): (out: Bytes) {
      if s == [] then [] else Output(p, s[..|s| - 1]) + emit(After(p, s[..|s| - 1]), s[|s| - 1])
    }

    /** Reading is independent of how the bytes are cut: reading two pieces in turn is reading
        their concatenation. */
    lemma {:induction false} ReadInPieces(p: S, a: Bytes, b: Bytes)
      ensures After(p, a + b) == After(After(p, a), b)
      ensures Output(p, a + b) == Output(p, a) + Output(After(p, a), b)
    {
      if b == [] {
        assert a + b == a;
      } else {
        var s, front, x := a + b, b[..|b| - 1], b[|b| - 1];
        ReadInPieces(p, a, front);
        assert s[..|s| - 1] == a + front && s[|s| - 1] == x;
      }
    }

    lemma ReadOne(p: S, b: byte)
      ensures After(p, [b]) == next(p, b) && Output(p, [b]) == emit(p, b)
    {
      assert [b][..0] == [];
    }

    /** Reading one more byte. */
    lemma ReadMore(p: S, s: Bytes, b: byte)
      ensures After(p, s + [b]) == next(After(p, s), b)
      ensures Output(p, s + [b]) == Output(p, s) + emit(After(p, s), b)
    {
      assert (s + [b])[..|s|] == s;
    }

    /** Reading d from k to m, then on from m to n. */
    lemma ReadSlices(p: S, d: Bytes, k: nat, m: nat, n: nat)
      requires k <= m <= n <= |d|
      ensures After(p, d[k..n]) == After(After(p, d[k..m]), d[m..n])
      ensures Output(p, d[k..n]) == Output(p, d[k..m]) + Output(After(p, d[k..m]), d[m..n])
    {
      JoinSlices(d, k, m, n);
      ReadInPieces(p, d[k..m], d[m..n]);
    }

    lemma ReadNext(p: S, d: Bytes, k: nat, m: nat)
      requires k <= m < |d|
      ensures After(p, d[k..m + 1]) == next(After(p, d[k..m]), d[m])
      ensures Output(p, d[k..m + 1]) == Output(p, d[k..m]) + emit(After(p, d[k..m]), d[m])
    {
      assert d[k..m] + [d[m]] == d[k..m + 1];
      ReadMore(p, d[k..m], d[m]);
    }
  }
}

/**
 Positions in a circular table of n cells.  The tables of the program have a power-of-two
 size, so its `idx & sizeMask` is `idx % n` here.
 */
module Ring {
  predicate PowerOfTwo(n: nat) {
    n == 1 || (n > 0 && n % 2 == 0 && PowerOfTwo(n / 2))
  }

  /** The home position of a hash. */
  function Home(n: nat, h: nat): (b: nat)
    requires n > 0
    ensures b < n
  {
    h % n
  }

  /** The position reached from b by o steps. */
  function Pos(n: nat, b: nat, o: nat): (p: nat)
    requires b < n && o < n
    ensures p < n
  {
    if b + o < n then b + o else b + o - n
  }

  /** The number of steps from b to p. */
  function Off(n: nat, b: nat, p: nat): (o: nat)
    requires b < n && p < n
    ensures o < n && Pos(n, b, o) == p
  {
    if b <= p then p - b else p + n - b
  }

  /** Pos and Off are inverse to each other. */
  lemma OffPos(n: nat, b: nat, o: nat)
    requires b < n && o < n
    ensures Off(n, b, Pos(n, b, o)) == o
  {
  }
}

/** The random source. The source threads `random.Random` objects through
    shuffling, sampling and choosing; here a random source is an oracle of
    naturals read at an advancing position, so every draw is an explicit input
    and every stochastic function is deterministic given its `Rng`. */
module Randomness {

  datatype Rng = Rng(draw: nat -> nat, pos: nat)

  /** `randbelow(n)`: a value in `[0, n)`, and the source advanced by one draw. */
  function RandBelow(rng: Rng, n: nat): (r: (nat, Rng))
    requires n > 0
    ensures r.0 < n
    ensures r.1.pos == rng.pos + 1 && r.1.draw == rng.draw
  {
    (rng.draw(rng.pos) % n, Rng(rng.draw, rng.pos + 1))
  }
}

module Sequences {

  /** One step of a first-in-first-out argument: `got` leaves at the front, `sent` joins at the back. */
  lemma StepInOrder<T>(was: seq<T>, next: seq<T>, got: seq<T>, sent: seq<T>,
                       out: seq<T>, left: seq<T>, taken: seq<T>)
    requires got + next == was + sent && out + left == next + taken
    ensures (got + out) + left == was + (sent + taken)
  {
    assert (got + out) + left == got + (out + left);
    assert got + (next + taken) == (got + next) + taken;
    assert (was + sent) + taken == was + (sent + taken);
  }
}

/** The signature of nothing: mcl/lookup2.c. */
module Hashes {

  datatype Mixed = Mixed(a: bv32, b: bv32, c: bv32)

  /** One line of mix, with its three shifts. */
  function MixRow(m: Mixed, right: bv6, left: bv6, last: bv6): Mixed
    requires right < 32 && left < 32 && last < 32
  {
    var a := (m.a - m.b - m.c) ^ (m.c >> right);
    var b := (m.b - m.c - a) ^ (a << left);
    var c := (m.c - a - b) ^ (b >> last);
    Mixed(a, b, c)
  }

  function Mix(m: Mixed): Mixed {
    MixRow(MixRow(MixRow(m, 13, 8, 13), 12, 16, 5), 3, 10, 15)
  }

  const GOLDEN: bv32 := 0x9e3779b9

  /** hash3 of no bytes and initial value 0. */
  function HashOfNothing(): bv32 {
    Mix(Mixed(GOLDEN, GOLDEN, 0)).c
  }

  const EMPTY_SIG := 0xbd49d10d

  /** It is not the 0 that a new file starts with. */
  lemma NothingIsNotZero()
    ensures HashOfNothing() as int == EMPTY_SIG
  {
    assert HashOfNothing() == 0xbd49d10d;
  }
}

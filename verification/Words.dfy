/** Machine words of the wire protocol and of the console: the widths the source
    computes in, with every wrap-around written out. */
module Words {

  const TWO32: int := 0x1_0000_0000
  const HALF32: int := 0x8000_0000

  type u8 = x: int | 0 <= x < 0x100
  type u16 = x: int | 0 <= x < 0x1_0000
  type u32 = x: int | 0 <= x < 0x1_0000_0000
  type i16 = x: int | -0x8000 <= x < 0x8000
  type i32 = x: int | -0x8000_0000 <= x < 0x8000_0000

  datatype Option<+T> = None | Some(value: T)

  /** Truncation of an unbounded count to an unsigned 32-bit word. */
  function Wrap32(x: int): u32 {
    x % 0x1_0000_0000
  }

  function Wrap16(x: int): u16 {
    x % 0x1_0000
  }

  /** A wrapping counter is the wrap of the unbounded one, step by step. */
  lemma WrapSteps(x: int, step: int)
    ensures Wrap16(Wrap16(x) + step) == Wrap16(x + step)
    ensures Wrap32(Wrap32(x) + step) == Wrap32(x + step)
  {
    var q, r := x / 0x1_0000, x / 0x1_0000_0000;
    assert x + step == q * 0x1_0000 + (Wrap16(x) + step);
    assert x + step == r * 0x1_0000_0000 + (Wrap32(x) + step);
  }

  /** Unsigned 32-bit subtraction. On clock values this is `ageMs`. */
  function Sub32(a: u32, b: u32): u32 {
    (a - b) % 0x1_0000_0000
  }

  /** Subtracting two wrapped counters gives their true distance reduced modulo 2^32;
      the wrapped distance is the true one exactly while the true one is below 2^32. */
  lemma SubOfWraps(x: int, y: int)
    ensures Sub32(Wrap32(x), Wrap32(y)) == (x - y) % TWO32
    ensures y <= x ==> (Sub32(Wrap32(x), Wrap32(y)) == x - y <==> x - y < TWO32)
  {
    var qx, qy := x / TWO32, y / TWO32;
    assert x - y == (qx - qy) * TWO32 + (Wrap32(x) - Wrap32(y));
  }

  /** A wrapped distance never exceeds the true one, so a minimum spacing checked on
      wrapped clock values is a minimum spacing of the true clock. */
  lemma WrappedAgeUnderestimates(later: int, earlier: int)
    requires earlier <= later
    ensures Sub32(Wrap32(later), Wrap32(earlier)) <= later - earlier
  {
    SubOfWraps(later, earlier);
  }

  /** A word is recovered from a reference counter and its wrapped distance to it. */
  lemma LiftIsInverse(reference: int, id: u32)
    ensures Wrap32(reference + Sub32(id, Wrap32(reference))) == id
  {
    var q := reference / TWO32;
    assert reference == q * TWO32 + Wrap32(reference);
  }

  /** Going back from a counter by its wrapped distance to a word gives a counter with that word. */
  lemma EarlierCounter(t: int, x: u32)
    ensures Wrap32(t - Sub32(Wrap32(t), x)) == x
  {
    var q, w := t / 0x1_0000_0000, Wrap32(t);
    assert t == q * 0x1_0000_0000 + w;
    if w < x {
      assert t - Sub32(w, x) == (q - 1) * 0x1_0000_0000 + x;
    }
  }
}

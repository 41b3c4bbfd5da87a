/** The wrap-around comparison of frame ids, which is the serial number comparison of
    section 3.2 of RFC 1982 with 32 bits. */
module FrameIds {
  import opened Words

  /** `static_cast<int32_t>(a - b) > 0`. */
  predicate IdNewer(a: u32, b: u32) {
    0 < Sub32(a, b) < HALF32
  }

  /** Exactly one of "newer", "older" and "equal" holds, except for ids half a ring apart,
      which are neither. */
  lemma Trichotomy(a: u32, b: u32)
    ensures !(IdNewer(a, b) && IdNewer(b, a))
    ensures (IdNewer(a, b) || IdNewer(b, a) || a == b) <==> Sub32(a, b) != HALF32
  {
    if a != b {
      assert Sub32(a, b) + Sub32(b, a) == TWO32;
    }
  }

  /** The comparison is not transitive: three ids can each be newer than the next. */
  lemma NotTransitive()
    ensures exists a: u32, b: u32, c: u32 :: IdNewer(a, b) && IdNewer(b, c) && IdNewer(c, a)
  {
    assert IdNewer(0, 0xB000_0000) && IdNewer(0xB000_0000, 0x5800_0000) && IdNewer(0x5800_0000, 0);
  }

  /** Among ids newer than one base, the comparison is the strict total order of their
      distances from the base. */
  lemma OrderedAfterBase(base: u32, a: u32, b: u32)
    requires IdNewer(a, base) && IdNewer(b, base)
    ensures IdNewer(a, b) <==> Sub32(a, base) > Sub32(b, base)
    ensures Sub32(a, base) == Sub32(b, base) <==> a == b
    ensures IdNewer(a, b) || IdNewer(b, a) || a == b
  {
    assert Sub32(a, b) == (Sub32(a, base) - Sub32(b, base)) % TWO32;
  }

  /** On counters less than half a ring apart, comparing wrapped ids compares the counters. */
  lemma NewerIffGreater(x: int, y: int)
    requires -HALF32 <= x - y < HALF32
    ensures IdNewer(Wrap32(x), Wrap32(y)) <==> x > y
    ensures Wrap32(x) == Wrap32(y) <==> x == y
  {
    SubOfWraps(x, y);
  }
}

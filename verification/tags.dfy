/**
 * The message tag of the exchangers, core and legacy: a message from rank
 * `src` to rank `dst` in a world of `w` ranks carries `src + w * (dst + 1)`.
 * The sender computes it from its own rank and the peer, the receiver from
 * the peer and its own rank, so the two agree. (The bucket rendezvous tags
 * its messages differently, from the bucket size.)
 */
module Tags {

  function Tag(src: int, dst: int, w: int): int
  {
    src + w * (dst + 1)
  }

  /** A positive multiple of `w` is at least `w`. */
  lemma {:induction false} MultipleAtLeast(w: int, k: int)
    requires 0 < w && 1 <= k
    ensures w * k >= w
    decreases k
  {
    if k > 1 {
      MultipleAtLeast(w, k - 1);
      assert w * k == w * (k - 1) + w;
    }
  }

  /** Different destinations are at least `w` apart. */
  lemma ScaledApart(w: int, d1: int, d2: int)
    requires 0 < w && d1 < d2
    ensures w * (d2 + 1) - w * (d1 + 1) >= w
  {
    assert w * (d2 + 1) - w * (d1 + 1) == w * (d2 - d1);
    MultipleAtLeast(w, d2 - d1);
  }

  /**
   * For senders inside the world, the tag determines sender and
   * destination: two messages carry the same tag exactly when they have
   * the same sender and the same destination.
   */
  lemma TagDetermines(s1: int, d1: int, s2: int, d2: int, w: int)
    requires 0 <= s1 < w && 0 <= s2 < w
    ensures Tag(s1, d1, w) == Tag(s2, d2, w) <==> s1 == s2 && d1 == d2
  {
    if d1 < d2 {
      ScaledApart(w, d1, d2);
    } else if d2 < d1 {
      ScaledApart(w, d2, d1);
    }
  }

  /**
   * Tags of ranks inside the world are non-negative and below `w * (w + 1)`;
   * the largest, from rank `w - 1` to rank `w - 1`, is `w * (w + 1) - 1`.
   */
  lemma TagNonNegative(src: int, dst: int, w: int)
    requires 0 <= src < w && 0 <= dst < w
    ensures 0 <= Tag(src, dst, w) < w * (w + 1)
    ensures Tag(w - 1, w - 1, w) == w * (w + 1) - 1
  {
    assert w * (dst + 1) <= w * w by {
      assert dst + 1 <= w;
    }
    assert w * w + w == w * (w + 1);
  }

  /**
   * Every MPI implementation accepts tags up to 32767 (section 8.1.2 of the
   * MPI 3.1 standard, `MPI_TAG_UB`). The tags stay within that bound on up
   * to 180 ranks.
   */
  lemma TagWithinGuaranteedBound(src: int, dst: int, w: int)
    requires 0 <= src < w && 0 <= dst < w && w <= 180
    ensures Tag(src, dst, w) <= 32767
  {
    TagNonNegative(src, dst, w);
    ProductBelow(w, w + 1, 180, 181);
  }

  lemma ProductBelow(a: int, b: int, x: int, y: int)
    requires 0 <= a <= x && 0 <= b <= y
    ensures a * b <= x * y
  {
    assert a * b <= x * b by {
      assert (x - a) * b >= 0;
    }
    assert x * b <= x * y by {
      assert x * (y - b) >= 0;
    }
  }

  /** On 181 ranks the largest tag is past the guaranteed bound. */
  lemma TagPastGuaranteedBound()
    ensures Tag(180, 180, 181) == 32941 > 32767
  {
  }
}

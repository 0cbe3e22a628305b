/** src/protocol_detector.c: the three compiled forms of fast_memmem. The vector forms compare lane k
    of a block with byte k of the needle, so they are not the scalar search; this module proves
    exactly which occurrences they find. A mask is the set of its lanes. */
module ProgramSearch {
  import opened Common
  import opened Strings

  predicate Lanes(lanes: nat) {
    lanes == 16 || lanes == 32
  }

  /** An occurrence whose first byte sits in a lane that holds the same byte of the needle. */
  ghost predicate Seen(hay: seq<byte>, needle: seq<byte>, lanes: nat, p: int)
    requires Lanes(lanes) && lanes <= |needle|
  {
    Occurs(hay, needle, p) && needle[p % lanes] == needle[0]
  }

  /** What the scalar form returns: the leftmost occurrence. */
  ghost predicate ScalarResult(hay: seq<byte>, needle: seq<byte>, r: Option<nat>) {
    match r
    case Some(p) => Occurs(hay, needle, p) && forall q :: 0 <= q < p ==> !Occurs(hay, needle, q)
    case None => forall q :: !Occurs(hay, needle, q)
  }

  /** What the vector forms return: the leftmost occurrence that is seen. */
  ghost predicate VectorResult(hay: seq<byte>, needle: seq<byte>, lanes: nat, r: Option<nat>)
    requires Lanes(lanes) && lanes <= |needle|
  {
    match r
    case Some(p) => Seen(hay, needle, lanes, p) && forall q :: 0 <= q < p ==> !Seen(hay, needle, lanes, q)
    case None => forall q :: !Seen(hay, needle, lanes, q)
  }

  // ---- Scalar form, lines 52-55 ----

  method Scalar(hay: seq<byte>, needle: seq<byte>) returns (r: Option<nat>)
    ensures needle == [] ==> r == None
    ensures needle != [] ==> ScalarResult(hay, needle, r)
  {
    if |needle| == 0 || |hay| < |needle| {
      return None;
    }
    var i := 0;
    while i + |needle| <= |hay|
      invariant 0 <= i <= |hay| - |needle| + 1
      invariant forall q :: 0 <= q < i ==> !Occurs(hay, needle, q)
    {
      if hay[i..i + |needle|] == needle {
        return Some(i);
      }
      i := i + 1;
    }
    return None;
  }

  // ---- Vector forms ----

  /** _mm_loadu, _mm_cmpeq_epi8, _mm_movemask_epi8 on `lanes` bytes at `i`: in bounds because the
      guard leaves room for a needle at least as long as a block. */
  function Mask(hay: seq<byte>, needle: seq<byte>, lanes: nat, i: nat): (mask: set<nat>)
    requires lanes <= |needle| && i + lanes <= |hay|
  {
    set k | 0 <= k < lanes && hay[i + k] == needle[k]
  }

  /** __builtin_ctz */
  method LowestLane(mask: set<nat>) returns (bit: nat)
    requires mask != {}
    ensures bit in mask && forall k :: k in mask ==> bit <= k
  {
    bit :| bit in mask;
    var rest := mask;
    while rest != {}
      invariant bit in mask && rest <= mask
      invariant forall k :: k in mask && k !in rest ==> bit <= k
      decreases |rest|
    {
      var k :| k in rest;
      if k < bit { bit := k; }
      rest := rest - {k};
    }
  }

  lemma WithinBlock16(b: nat, k: nat)
    requires k < 16
    ensures (16 * b + k) % 16 == k
  {
  }

  lemma WithinBlock32(b: nat, k: nat)
    requires k < 32
    ensures (32 * b + k) % 32 == k
  {
  }

  lemma LaneOf(i: nat, q: nat, lanes: nat)
    requires Lanes(lanes) && i % lanes == 0 && i <= q < i + lanes
    ensures q % lanes == q - i
  {
    if lanes == 16 { WithinBlock16(i / 16, q - i); } else { WithinBlock32(i / 32, q - i); }
  }

  lemma OccursHead(hay: seq<byte>, needle: seq<byte>, q: nat)
    requires Occurs(hay, needle, q) && needle != []
    ensures hay[q] == needle[0]
  {
    assert hay[q..q + |needle|][0] == hay[q];
  }

  /** Within the block at `i`, an occurrence is seen exactly when its lane is in the mask. */
  lemma SeenInBlock(hay: seq<byte>, needle: seq<byte>, lanes: nat, i: nat, q: nat)
    requires Lanes(lanes) && lanes <= |needle| && i + |needle| <= |hay| && i % lanes == 0 && i <= q < i + lanes
    ensures Seen(hay, needle, lanes, q) <==> Occurs(hay, needle, q) && q - i in Mask(hay, needle, lanes, i)
  {
    LaneOf(i, q, lanes);
    if Occurs(hay, needle, q) {
      OccursHead(hay, needle, q);
    }
  }

  /** Lines 43-49 and 28-34: try the lanes of the mask from the lowest up. */
  method TryLanes(hay: seq<byte>, needle: seq<byte>, lanes: nat, i: nat) returns (r: Option<nat>)
    requires Lanes(lanes) && lanes <= |needle| && i + |needle| <= |hay| && i % lanes == 0
    ensures match r
      case Some(p) =>
        i <= p < i + lanes && Seen(hay, needle, lanes, p) && forall q :: i <= q < p ==> !Seen(hay, needle, lanes, q)
      case None => forall q :: i <= q < i + lanes ==> !Seen(hay, needle, lanes, q)
  {
    var all := Mask(hay, needle, lanes, i);
    forall q | i <= q < i + lanes
      ensures Seen(hay, needle, lanes, q) <==> Occurs(hay, needle, q) && q - i in all
    {
      SeenInBlock(hay, needle, lanes, i, q);
    }
    hide Seen;
    var mask := all;
    while mask != {}
      invariant mask <= all
      invariant forall q :: i <= q < i + lanes && q - i !in mask ==> !Seen(hay, needle, lanes, q)
      decreases |mask|
    {
      var bit := LowestLane(mask);
      mask := mask - {bit};
      var pos := i + bit;
      if pos + |needle| <= |hay| && hay[pos..pos + |needle|] == needle {
        assert Occurs(hay, needle, pos) && pos - i in all;
        return Some(pos);
      }
      assert !Occurs(hay, needle, pos) && !Seen(hay, needle, lanes, pos);
    }
    return None;
  }

  /** The SSE2 form, lines 38-50, with 16 lanes. */
  method Sse2(hay: seq<byte>, needle: seq<byte>) returns (r: Option<nat>)
    requires 16 <= |needle|
    ensures VectorResult(hay, needle, 16, r)
  {
    if |needle| == 0 || |hay| < |needle| {
      return None;
    }
    var i := 0;
    while i + |needle| <= |hay|
      invariant 0 <= i && i % 16 == 0
      invariant forall q :: 0 <= q < i ==> !Seen(hay, needle, 16, q)
      decreases |hay| - i
    {
      r := TryLanes(hay, needle, 16, i);
      if r.Some? {
        return r;
      }
      i := i + 16;
    }
    return None;
  }

  /** mask == -1 */
  predicate AllSet(mask: set<nat>) {
    forall k :: 0 <= k < 32 ==> k in mask
  }

  /** The AVX2 form, lines 19-36, with 32 lanes and a shortcut when the whole block matches; its only
      caller passes program ids of 32 bytes. */
  method Avx2(hay: seq<byte>, needle: seq<byte>) returns (r: Option<nat>)
    requires |needle| == 32
    ensures VectorResult(hay, needle, 32, r)
  {
    if |needle| == 0 || |hay| < |needle| {
      return None;
    }
    var i := 0;
    while i + |needle| <= |hay|
      invariant 0 <= i && i % 32 == 0
      invariant forall q :: 0 <= q < i ==> !Seen(hay, needle, 32, q)
      decreases |hay| - i
    {
      var mask := Mask(hay, needle, 32, i);
      if AllSet(mask) {
        WholeBlock(hay, needle, i);
        if hay[i..i + |needle|] == needle {
          return Some(i);
        }
      } else if mask != {} {
        r := TryLanes(hay, needle, 32, i);
        if r.Some? {
          return r;
        }
      } else {
        EmptyMask(hay, needle, i);
      }
      i := i + 32;
    }
    return None;
  }

  lemma WholeBlock(hay: seq<byte>, needle: seq<byte>, i: nat)
    requires |needle| == 32 && i + 32 <= |hay| && i % 32 == 0
    requires AllSet(Mask(hay, needle, 32, i))
    ensures hay[i..i + 32] == needle && Seen(hay, needle, 32, i)
  {
    forall k | 0 <= k < 32 ensures hay[i + k] == needle[k] {
      assert k in Mask(hay, needle, 32, i);
    }
  }

  lemma EmptyMask(hay: seq<byte>, needle: seq<byte>, i: nat)
    requires |needle| == 32 && i + 32 <= |hay| && i % 32 == 0
    requires Mask(hay, needle, 32, i) == {}
    ensures forall q :: i <= q < i + 32 ==> !Seen(hay, needle, 32, q)
  {
    forall q | i <= q < i + 32 ensures !Seen(hay, needle, 32, q) {
      SeenInBlock(hay, needle, 32, i, q);
    }
  }

  // ---- The vector forms against the scalar one ----

  /** Sound, and every occurrence at a block boundary guarantees a hit. */
  lemma VectorSound(hay: seq<byte>, needle: seq<byte>, lanes: nat, r: Option<nat>)
    requires Lanes(lanes) && lanes <= |needle| && VectorResult(hay, needle, lanes, r)
    ensures r.Some? ==> Occurs(hay, needle, r.value)
    ensures forall p :: Occurs(hay, needle, p) && p % lanes == 0 ==> r.Some? && r.value <= p
  {
    forall p | Occurs(hay, needle, p) && p % lanes == 0 ensures r.Some? && r.value <= p {
      assert Seen(hay, needle, lanes, p);
    }
  }

  /** The two results agree exactly when there is no occurrence or the leftmost one is seen. */
  lemma VectorAgrees(hay: seq<byte>, needle: seq<byte>, lanes: nat, v: Option<nat>, s: Option<nat>)
    requires Lanes(lanes) && lanes <= |needle|
    requires VectorResult(hay, needle, lanes, v) && ScalarResult(hay, needle, s)
    ensures v == s <==> s.None? || needle[s.value % lanes] == needle[0]
  {
    if s.Some? {
      assert Seen(hay, needle, lanes, s.value) <==> needle[s.value % lanes] == needle[0];
    }
  }

  ghost predicate AgreesEverywhere(needle: seq<byte>, lanes: nat)
    requires Lanes(lanes) && lanes <= |needle|
  {
    forall hay, v, s :: VectorResult(hay, needle, lanes, v) && ScalarResult(hay, needle, s) ==> v == s
  }

  predicate UniformBlock(needle: seq<byte>, lanes: nat)
    requires lanes <= |needle|
  {
    forall k :: 0 <= k < lanes ==> needle[k] == needle[0]
  }

  /** A vector form may replace the scalar search exactly for the needles whose first block repeats
      one byte. */
  lemma AgreesEverywhereIff(needle: seq<byte>, lanes: nat)
    requires Lanes(lanes) && lanes <= |needle|
    ensures AgreesEverywhere(needle, lanes) <==> UniformBlock(needle, lanes)
  {
    if UniformBlock(needle, lanes) {
      forall hay, v, s | VectorResult(hay, needle, lanes, v) && ScalarResult(hay, needle, s) ensures v == s {
        VectorAgrees(hay, needle, lanes, v, s);
      }
    } else {
      var k :| 0 <= k < lanes && needle[k] != needle[0];
      MissedAt(needle, lanes, k);
    }
  }

  /** The needle behind k foreign bytes, with needle[k] unlike needle[0]: the scalar form finds it
      and the vector form does not. */
  lemma MissedAt(needle: seq<byte>, lanes: nat, k: nat)
    requires Lanes(lanes) && lanes <= |needle| && k < lanes && needle[k] != needle[0]
    ensures var hay := seq(k, _ => needle[k]) + needle;
      ScalarResult(hay, needle, Some(k)) && VectorResult(hay, needle, lanes, None)
  {
    var hay := seq(k, _ => needle[k]) + needle;
    assert hay[k..k + |needle|] == needle;
    forall q | 0 <= q < k ensures !Occurs(hay, needle, q) {
      if Occurs(hay, needle, q) {
        OccursHead(hay, needle, q);
      }
    }
    assert k % lanes == k;
  }
}

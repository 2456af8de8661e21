/** The C library's qsort: Bentley and McIlroy's three-way quicksort, in place. */
module QuickSort {

  // ---------- order ----------

  /** A comparator of the C library: the sign of its result is a total preorder. */
  ghost predicate TotalPreorder<T(!new)>(cmp: (T, T) -> int) {
    && (forall x, y :: cmp(x, y) < 0 <==> cmp(y, x) > 0)
    && (forall x, y, z :: cmp(x, y) <= 0 && cmp(y, z) <= 0 ==> cmp(x, z) <= 0)
  }

  lemma Flip<T(!new)>(cmp: (T, T) -> int, x: T, y: T)
    requires TotalPreorder(cmp)
    ensures cmp(x, y) < 0 <==> cmp(y, x) > 0
    ensures cmp(x, y) == 0 <==> cmp(y, x) == 0
    ensures cmp(x, x) == 0
  {
    assert cmp(x, x) < 0 <==> cmp(x, x) > 0;
    assert cmp(y, x) < 0 <==> cmp(x, y) > 0;
  }

  lemma Trans<T(!new)>(cmp: (T, T) -> int, x: T, y: T, z: T)
    requires TotalPreorder(cmp) && cmp(x, y) <= 0 && cmp(y, z) <= 0
    ensures cmp(x, z) <= 0
  {
  }

  ghost predicate Sorted<T(!new)>(cmp: (T, T) -> int, s: seq<T>, lo: int, hi: int) {
    forall i, j :: 0 <= lo <= i < j < hi <= |s| ==> cmp(s[i], s[j]) <= 0
  }

  // ---------- permutation ----------

  /** `t` differs from `s` by a permutation of the positions from `lo` to `hi`. */
  ghost predicate Rearranged<T>(s: seq<T>, t: seq<T>, lo: nat, hi: nat) {
    && |s| == |t| && lo <= hi <= |s|
    && s[..lo] == t[..lo] && s[hi..] == t[hi..]
    && multiset(s[lo..hi]) == multiset(t[lo..hi])
  }

  function Swapped<T>(s: seq<T>, i: nat, j: nat): (t: seq<T>)
    requires i < |s| && j < |s|
    ensures |t| == |s| && t[i] == s[j] && t[j] == s[i]
    ensures forall k :: 0 <= k < |s| && k != i && k != j ==> t[k] == s[k]
  {
    s[i := s[j]][j := s[i]]
  }

  lemma SwapKeepsElements<T>(s: seq<T>, i: nat, j: nat)
    requires i < |s| && j < |s|
    ensures multiset(Swapped(s, i, j)) == multiset(s)
  {
  }

  lemma SwapRearranges<T>(s: seq<T>, i: nat, j: nat, lo: nat, hi: nat)
    requires lo <= i < hi <= |s| && lo <= j < hi
    ensures Rearranged(s, Swapped(s, i, j), lo, hi)
  {
    hide Swapped;
    SwapKeepsElements(s[lo..hi], i - lo, j - lo);
    assert Swapped(s, i, j)[lo..hi] == Swapped(s[lo..hi], i - lo, j - lo);
  }

  lemma RearrangedTwice<T>(s: seq<T>, t: seq<T>, u: seq<T>, lo: nat, hi: nat)
    requires Rearranged(s, t, lo, hi) && Rearranged(t, u, lo, hi)
    ensures Rearranged(s, u, lo, hi)
  {
  }

  lemma RearrangedWider<T>(s: seq<T>, t: seq<T>, lo: nat, hi: nat, lo': nat, hi': nat)
    requires Rearranged(s, t, lo, hi) && lo' <= lo && hi <= hi' <= |s|
    ensures Rearranged(s, t, lo', hi')
  {
    assert s[lo'..hi'] == s[..lo][lo'..] + s[lo..hi] + s[hi..][..hi' - hi];
    assert t[lo'..hi'] == t[..lo][lo'..] + t[lo..hi] + t[hi..][..hi' - hi];
    assert s[..lo'] == s[..lo][..lo'] && t[..lo'] == t[..lo][..lo'];
    assert s[hi'..] == s[hi..][hi' - hi..] && t[hi'..] == t[hi..][hi' - hi..];
  }

  lemma RearrangedOutside<T>(s: seq<T>, t: seq<T>, lo: nat, hi: nat, k: nat)
    requires Rearranged(s, t, lo, hi) && k < |s| && (k < lo || hi <= k)
    ensures s[k] == t[k]
  {
    if k < lo {
      assert s[k] == s[..lo][k] && t[k] == t[..lo][k];
    } else {
      assert s[k] == s[hi..][k - hi] && t[k] == t[hi..][k - hi];
    }
  }

  /** Each element of the rearranged range was there before. */
  lemma RearrangedFrom<T>(s: seq<T>, t: seq<T>, lo: nat, hi: nat, k: nat) returns (j: nat)
    requires Rearranged(s, t, lo, hi) && lo <= k < hi
    ensures lo <= j < hi && t[k] == s[j]
  {
    assert t[k] == t[lo..hi][k - lo];
    assert t[k] in multiset(s[lo..hi]);
    var i :| 0 <= i < hi - lo && s[lo..hi][i] == t[k];
    j := lo + i;
  }

  // ---------- the steps ----------

  method Swap<T>(a: array<T>, i: nat, j: nat)
    requires i < a.Length && j < a.Length
    modifies a
    ensures a[..] == Swapped(old(a[..]), i, j)
  {
    a[i], a[j] := a[j], a[i];
  }

  /** The `n` elements from `i` on swapped with those from `j` on. */
  function VecSwapped<T>(s: seq<T>, i: nat, j: nat, n: nat): (t: seq<T>)
    requires i + n <= j && j + n <= |s|
    ensures |t| == |s|
  {
    if n == 0 then s else Swapped(VecSwapped(s, i, j, n - 1), i + n - 1, j + n - 1)
  }

  method VecSwap<T>(a: array<T>, i: nat, j: nat, n: nat)
    requires i + n <= j && j + n <= a.Length
    modifies a
    ensures a[..] == VecSwapped(old(a[..]), i, j, n)
  {
    hide Swapped;
    for m := 0 to n
      invariant a[..] == VecSwapped(old(a[..]), i, j, m)
    {
      Swap(a, i + m, j + m);
    }
  }

  lemma {:induction false} VecSwappedAt<T>(s: seq<T>, i: nat, j: nat, n: nat, k: nat)
    requires i + n <= j && j + n <= |s| && k < |s|
    ensures VecSwapped(s, i, j, n)[k] ==
      if i <= k < i + n then s[k - i + j] else if j <= k < j + n then s[k - j + i] else s[k]
  {
    hide Swapped;
    if n > 0 {
      VecSwappedAt(s, i, j, n - 1, k);
      VecSwappedAt(s, i, j, n - 1, i + n - 1);
      VecSwappedAt(s, i, j, n - 1, j + n - 1);
    }
  }

  lemma {:induction false} VecSwapRearranges<T>(s: seq<T>, i: nat, j: nat, n: nat, lo: nat, hi: nat)
    requires lo <= i && i + n <= j && j + n <= hi <= |s|
    ensures Rearranged(s, VecSwapped(s, i, j, n), lo, hi)
  {
    hide Swapped, Rearranged;
    if n == 0 {
      RearrangedSelf(s, lo, hi);
    } else {
      var t := VecSwapped(s, i, j, n - 1);
      VecSwapRearranges(s, i, j, n - 1, lo, hi);
      SwapRearranges(t, i + n - 1, j + n - 1, lo, hi);
      RearrangedTwice(s, t, VecSwapped(s, i, j, n), lo, hi);
    }
  }

  /** `x`, `y` or `z`, with one of the other two at most it and the other at least it. */
  function Med3<T>(s: seq<T>, x: nat, y: nat, z: nat, cmp: (T, T) -> int): (m: nat)
    requires x < |s| && y < |s| && z < |s|
    ensures m == x || m == y || m == z
  {
    if cmp(s[x], s[y]) < 0 then
      if cmp(s[y], s[z]) < 0 then y else if cmp(s[x], s[z]) < 0 then z else x
    else
      if cmp(s[y], s[z]) > 0 then y else if cmp(s[x], s[z]) < 0 then x else z
  }

  ghost predicate Between<T>(cmp: (T, T) -> int, lower: T, x: T, upper: T) {
    cmp(lower, x) <= 0 && cmp(x, upper) <= 0
  }

  lemma Med3IsMedian<T(!new)>(s: seq<T>, x: nat, y: nat, z: nat, cmp: (T, T) -> int)
    requires x < |s| && y < |s| && z < |s| && TotalPreorder(cmp)
    ensures var m := Med3(s, x, y, z, cmp);
      || (m == x && (Between(cmp, s[y], s[x], s[z]) || Between(cmp, s[z], s[x], s[y])))
      || (m == y && (Between(cmp, s[x], s[y], s[z]) || Between(cmp, s[z], s[y], s[x])))
      || (m == z && (Between(cmp, s[x], s[z], s[y]) || Between(cmp, s[y], s[z], s[x])))
  {
    Flip(cmp, s[x], s[y]);
    Flip(cmp, s[y], s[z]);
    Flip(cmp, s[x], s[z]);
  }

  /** The inner loop of the insertion sort: the element at `p` sinks to its place. */
  method Sink<T(!new)>(a: array<T>, lo: nat, p: nat, cmp: (T, T) -> int)
    requires lo <= p < a.Length && TotalPreorder(cmp) && Sorted(cmp, a[..], lo, p)
    modifies a
    ensures Sorted(cmp, a[..], lo, p + 1) && Rearranged(old(a[..]), a[..], lo, p + 1)
  {
    hide TotalPreorder, Swapped, Rearranged, Sorted, SortedBut;
    ghost var s := a[..];
    RearrangedSelf(s, lo, p + 1);
    SortedButLast(cmp, s, lo, p);
    var pl := p;
    while pl > lo && cmp(a[pl - 1], a[pl]) > 0
      invariant lo <= pl <= p
      invariant SortedBut(cmp, a[..], lo, p + 1, pl)
      invariant Rearranged(s, a[..], lo, p + 1)
    {
      ghost var t := a[..];
      SinkStep(cmp, t, lo, p + 1, pl);
      SwapRearranges(t, pl, pl - 1, lo, p + 1);
      RearrangedTwice(s, t, Swapped(t, pl, pl - 1), lo, p + 1);
      Swap(a, pl, pl - 1);
      pl := pl - 1;
    }
    SunkIsSorted(cmp, a[..], lo, p + 1, pl);
  }

  /** The fallback, and the sort of fewer than seven elements. */
  method InsertionSort<T(!new)>(a: array<T>, lo: nat, hi: nat, cmp: (T, T) -> int)
    requires lo <= hi <= a.Length && TotalPreorder(cmp)
    modifies a
    ensures Sorted(cmp, a[..], lo, hi) && Rearranged(old(a[..]), a[..], lo, hi)
  {
    hide TotalPreorder, Rearranged;
    ghost var s := a[..];
    RearrangedSelf(s, lo, hi);
    var pm := lo + 1;
    while pm < hi
      invariant lo < pm && Sorted(cmp, a[..], lo, if pm <= hi then pm else hi)
      invariant Rearranged(s, a[..], lo, hi)
    {
      ghost var t := a[..];
      Sink(a, lo, pm, cmp);
      RearrangedWider(t, a[..], lo, pm + 1, lo, hi);
      RearrangedTwice(s, t, a[..], lo, hi);
      pm := pm + 1;
    }
  }

  lemma SortedButLast<T(!new)>(cmp: (T, T) -> int, s: seq<T>, lo: nat, p: nat)
    requires Sorted(cmp, s, lo, p)
    ensures SortedBut(cmp, s, lo, p + 1, p)
  {
  }

  lemma RearrangedSelf<T>(s: seq<T>, lo: nat, hi: nat)
    requires lo <= hi <= |s|
    ensures Rearranged(s, s, lo, hi)
  {
  }

  /** Sorted, but that the element at `p` may be smaller than those before it. */
  ghost predicate SortedBut<T(!new)>(cmp: (T, T) -> int, s: seq<T>, lo: nat, hi: nat, p: nat) {
    forall i, j :: lo <= i < j < hi <= |s| && j != p ==> cmp(s[i], s[j]) <= 0
  }

  lemma SinkStep<T(!new)>(cmp: (T, T) -> int, s: seq<T>, lo: nat, hi: nat, p: nat)
    requires TotalPreorder(cmp) && SortedBut(cmp, s, lo, hi, p) && lo < p < hi <= |s| && cmp(s[p - 1], s[p]) > 0
    ensures SortedBut(cmp, Swapped(s, p, p - 1), lo, hi, p - 1)
  {
    hide TotalPreorder, Swapped;
    Flip(cmp, s[p - 1], s[p]);
  }

  lemma SunkIsSorted<T(!new)>(cmp: (T, T) -> int, s: seq<T>, lo: nat, hi: nat, p: nat)
    requires TotalPreorder(cmp) && SortedBut(cmp, s, lo, hi, p) && lo <= p < hi <= |s|
    requires p == lo || cmp(s[p - 1], s[p]) <= 0
    ensures Sorted(cmp, s, lo, hi)
  {
    hide TotalPreorder;
    forall i | lo <= i < p ensures cmp(s[i], s[p]) <= 0 {
      if i < p - 1 {
        Trans(cmp, s[i], s[p - 1], s[p]);
      }
    }
  }

  // ---------- the partition ----------

  /** The state of the partition around `p`, the element at `lo`: equal elements are parked in
      [lo, pa) and (pd, hi), smaller ones are in [pa, pb), larger ones in (pc, pd]. */
  ghost predicate Parted<T(!new)>(cmp: (T, T) -> int, s: seq<T>, lo: nat, hi: nat, pa: nat, pb: nat, pc: nat, pd: nat, p: T) {
    && lo < pa <= pb <= pc + 1 <= pd + 1 <= hi <= |s| && s[lo] == p
    && (forall k :: lo <= k < pa ==> cmp(s[k], p) == 0)
    && (forall k :: pa <= k < pb ==> cmp(s[k], p) < 0)
    && (forall k :: pc < k <= pd ==> cmp(s[k], p) > 0)
    && (forall k :: pd < k < hi ==> cmp(s[k], p) == 0)
  }

  lemma PartedBounds<T(!new)>(cmp: (T, T) -> int, s: seq<T>, lo: nat, hi: nat, pa: nat, pb: nat, pc: nat, pd: nat, p: T)
    requires Parted(cmp, s, lo, hi, pa, pb, pc, pd, p)
    ensures lo < pa <= pb <= pc + 1 <= pd + 1 <= hi <= |s| && s[lo] == p
  {
  }

  lemma Exchanged<T(!new)>(cmp: (T, T) -> int, s: seq<T>, lo: nat, hi: nat, pa: nat, pb: nat, pc: nat, pd: nat, p: T)
    requires Parted(cmp, s, lo, hi, pa, pb, pc, pd, p) && pb <= pc && cmp(s[pb], p) > 0 && cmp(s[pc], p) < 0
    ensures Parted(cmp, Swapped(s, pb, pc), lo, hi, pa, pb + 1, pc - 1, pd, p) && pb < pc
  {
    hide Swapped;
  }

  /** One turn of the first inner loop. */
  lemma LeftStep<T(!new)>(cmp: (T, T) -> int, s: seq<T>, lo: nat, hi: nat, pa: nat, pb: nat, pc: nat, pd: nat, p: T)
    requires Parted(cmp, s, lo, hi, pa, pb, pc, pd, p) && pb <= pc
    ensures cmp(s[pb], p) == 0 ==> Parted(cmp, Swapped(s, pa, pb), lo, hi, pa + 1, pb + 1, pc, pd, p)
    ensures cmp(s[pb], p) < 0 ==> Parted(cmp, s, lo, hi, pa, pb + 1, pc, pd, p)
  {
    hide Swapped;
  }

  /** One turn of the second inner loop. */
  lemma RightStep<T(!new)>(cmp: (T, T) -> int, s: seq<T>, lo: nat, hi: nat, pa: nat, pb: nat, pc: nat, pd: nat, p: T)
    requires Parted(cmp, s, lo, hi, pa, pb, pc, pd, p) && pb <= pc
    ensures cmp(s[pc], p) == 0 ==> Parted(cmp, Swapped(s, pc, pd), lo, hi, pa, pb, pc - 1, pd - 1, p)
    ensures cmp(s[pc], p) > 0 ==> Parted(cmp, s, lo, hi, pa, pb, pc - 1, pd, p)
  {
    hide Swapped;
  }

  /** The first inner loop: over the elements that are at most the pivot. */
  method ScanLeft<T(!new)>(a: array<T>, lo: nat, hi: nat, cmp: (T, T) -> int, pa0: nat, pb0: nat, pc: nat, pd: nat, ghost p: T)
    returns (pa: nat, pb: nat, swaps: bool)
    requires hi <= a.Length && Parted(cmp, a[..], lo, hi, pa0, pb0, pc, pd, p)
    modifies a
    ensures pb0 <= pb && Parted(cmp, a[..], lo, hi, pa, pb, pc, pd, p) && Rearranged(old(a[..]), a[..], lo, hi)
    ensures pb <= pc ==> cmp(a[pb], p) > 0
    ensures !swaps ==> a[..] == old(a[..])
  {
    hide Swapped, Rearranged, Parted;
    ghost var s := a[..];
    PartedBounds(cmp, s, lo, hi, pa0, pb0, pc, pd, p);
    RearrangedSelf(s, lo, hi);
    pa, pb, swaps := pa0, pb0, false;
    while pb <= pc && cmp(a[pb], a[lo]) <= 0
      invariant pb0 <= pb && Parted(cmp, a[..], lo, hi, pa, pb, pc, pd, p) && Rearranged(s, a[..], lo, hi)
      invariant !swaps ==> a[..] == s
      invariant lo < pa <= pb <= pc + 1 && a[lo] == p
      decreases pc + 1 - pb
    {
      LeftStep(cmp, a[..], lo, hi, pa, pb, pc, pd, p);
      if cmp(a[pb], a[lo]) == 0 {
        swaps := true;
        SwapRearranges(a[..], pa, pb, lo, hi);
        RearrangedTwice(s, a[..], Swapped(a[..], pa, pb), lo, hi);
        Swap(a, pa, pb);
        pa := pa + 1;
      }
      pb := pb + 1;
    }
  }

  /** The second inner loop: over the elements that are at least the pivot. */
  method ScanRight<T(!new)>(a: array<T>, lo: nat, hi: nat, cmp: (T, T) -> int, pa: nat, pb: nat, pc0: nat, pd0: nat, ghost p: T)
    returns (pc: nat, pd: nat, swaps: bool)
    requires hi <= a.Length && Parted(cmp, a[..], lo, hi, pa, pb, pc0, pd0, p)
    modifies a
    ensures pc <= pc0 && Parted(cmp, a[..], lo, hi, pa, pb, pc, pd, p) && Rearranged(old(a[..]), a[..], lo, hi)
    ensures pb <= pc ==> cmp(a[pc], p) < 0 && a[pb] == old(a[pb])
    ensures !swaps ==> a[..] == old(a[..])
  {
    hide Swapped, Rearranged, Parted;
    ghost var s := a[..];
    PartedBounds(cmp, s, lo, hi, pa, pb, pc0, pd0, p);
    RearrangedSelf(s, lo, hi);
    pc, pd, swaps := pc0, pd0, false;
    while pb <= pc && cmp(a[pc], a[lo]) >= 0
      invariant pc <= pc0 && Parted(cmp, a[..], lo, hi, pa, pb, pc, pd, p) && Rearranged(s, a[..], lo, hi)
      invariant pb <= pc ==> a[pb] == s[pb]
      invariant !swaps ==> a[..] == s
      invariant lo < pb <= pc + 1 <= pd + 1 <= hi && a[lo] == p
      decreases pc
    {
      RightStep(cmp, a[..], lo, hi, pa, pb, pc, pd, p);
      if cmp(a[pc], a[lo]) == 0 {
        swaps := true;
        SwapRearranges(a[..], pc, pd, lo, hi);
        RearrangedTwice(s, a[..], Swapped(a[..], pc, pd), lo, hi);
        Swap(a, pc, pd);
        pd := pd - 1;
      }
      pc := pc - 1;
    }
  }

  /** The for loop: the partition around the element at `lo`. */
  method Partition<T(!new)>(a: array<T>, lo: nat, hi: nat, cmp: (T, T) -> int)
    returns (pa: nat, pb: nat, pc: nat, pd: nat, swaps: bool)
    requires lo + 1 < hi <= a.Length && TotalPreorder(cmp)
    modifies a
    ensures Parted(cmp, a[..], lo, hi, pa, pb, pc, pd, old(a[lo])) && pb == pc + 1
    ensures Rearranged(old(a[..]), a[..], lo, hi)
    ensures !swaps ==> a[..] == old(a[..])
  {
    hide Swapped, Rearranged, TotalPreorder;
    ghost var s, p := a[..], a[lo];
    Flip(cmp, p, p);
    RearrangedSelf(s, lo, hi);
    pa, pb, pc, pd, swaps := lo + 1, lo + 1, hi - 1, hi - 1, false;
    while true
      invariant Parted(cmp, a[..], lo, hi, pa, pb, pc, pd, p) && Rearranged(s, a[..], lo, hi)
      invariant !swaps ==> a[..] == s
      decreases pc + 1 - pb
    {
      hide Parted;
      ghost var t := a[..];
      var left, right;
      pa, pb, left := ScanLeft(a, lo, hi, cmp, pa, pb, pc, pd, p);
      RearrangedTwice(s, t, a[..], lo, hi);
      t := a[..];
      pc, pd, right := ScanRight(a, lo, hi, cmp, pa, pb, pc, pd, p);
      RearrangedTwice(s, t, a[..], lo, hi);
      swaps := swaps || left || right;
      PartedBounds(cmp, a[..], lo, hi, pa, pb, pc, pd, p);
      if pb > pc {
        break;
      }
      SwapRearranges(a[..], pb, pc, lo, hi);
      RearrangedTwice(s, a[..], Swapped(a[..], pb, pc), lo, hi);
      Exchanged(cmp, a[..], lo, hi, pa, pb, pc, pd, p);
      Swap(a, pb, pc);
      swaps := true;
      pb := pb + 1;
      pc := pc - 1;
    }
  }

  // ---------- the equal elements go to the middle ----------

  /** Smaller elements, then those equal to `p`, then larger ones. */
  ghost predicate Split<T(!new)>(cmp: (T, T) -> int, s: seq<T>, lo: nat, l: nat, g: nat, hi: nat, p: T) {
    && lo <= l <= g <= hi <= |s|
    && (forall k :: lo <= k < l ==> cmp(s[k], p) < 0)
    && (forall k :: l <= k < g ==> cmp(s[k], p) == 0)
    && (forall k :: g <= k < hi ==> cmp(s[k], p) > 0)
  }

  function Min(x: nat, y: nat): nat {
    if x < y then x else y
  }

  /** The array after the first vecswap. */
  function LeftMoved<T>(s: seq<T>, lo: nat, pa: nat, pb: nat): (t: seq<T>)
    requires lo <= pa <= pb <= |s|
    ensures |t| == |s|
  {
    VecSwapped(s, lo, pb - Min(pa - lo, pb - pa), Min(pa - lo, pb - pa))
  }

  /** The array after the second vecswap. */
  function RightMoved<T>(s: seq<T>, pb: nat, pd: nat, hi: nat): (t: seq<T>)
    requires pb <= pd + 1 <= hi <= |s|
    ensures |t| == |s|
  {
    VecSwapped(s, pb, hi - Min(pd + 1 - pb, hi - 1 - pd), Min(pd + 1 - pb, hi - 1 - pd))
  }

  lemma LeftMovedAt<T>(s: seq<T>, lo: nat, pa: nat, pb: nat, k: nat)
    requires lo <= pa <= pb <= |s| && k < |s|
    ensures !(lo <= k < pb) ==> LeftMoved(s, lo, pa, pb)[k] == s[k]
    ensures lo <= k < lo + (pb - pa) ==> exists j :: pa <= j < pb && LeftMoved(s, lo, pa, pb)[k] == s[j]
    ensures lo + (pb - pa) <= k < pb ==> exists j :: lo <= j < pa && LeftMoved(s, lo, pa, pb)[k] == s[j]
  {
    hide VecSwapped;
    var r := Min(pa - lo, pb - pa);
    VecSwappedAt(s, lo, pb - r, r, k);
  }

  lemma RightMovedAt<T>(s: seq<T>, pb: nat, pd: nat, hi: nat, k: nat)
    requires pb <= pd + 1 <= hi <= |s| && k < |s|
    ensures !(pb <= k < hi) ==> RightMoved(s, pb, pd, hi)[k] == s[k]
    ensures hi - (pd + 1 - pb) <= k < hi ==> exists j :: pb <= j <= pd && RightMoved(s, pb, pd, hi)[k] == s[j]
    ensures pb <= k < hi - (pd + 1 - pb) ==> exists j :: pd < j < hi && RightMoved(s, pb, pd, hi)[k] == s[j]
  {
    hide VecSwapped;
    var r := Min(pd + 1 - pb, hi - 1 - pd);
    VecSwappedAt(s, pb, hi - r, r, k);
  }

  lemma MovedIsSplit<T(!new)>(cmp: (T, T) -> int, s: seq<T>, lo: nat, hi: nat, pa: nat, pb: nat, pc: nat, pd: nat, p: T)
    requires Parted(cmp, s, lo, hi, pa, pb, pc, pd, p) && pb == pc + 1
    ensures Split(cmp, RightMoved(LeftMoved(s, lo, pa, pb), pb, pd, hi), lo, lo + (pb - pa), hi - (pd - pc), hi, p)
  {
    hide LeftMoved, RightMoved;
    var t := LeftMoved(s, lo, pa, pb);
    var u := RightMoved(t, pb, pd, hi);
    forall k | lo <= k < hi
      ensures k < lo + (pb - pa) ==> cmp(u[k], p) < 0
      ensures lo + (pb - pa) <= k < hi - (pd - pc) ==> cmp(u[k], p) == 0
      ensures hi - (pd - pc) <= k ==> cmp(u[k], p) > 0
    {
      RightMovedAt(t, pb, pd, hi, k);
      if k < pb {
        LeftMovedAt(s, lo, pa, pb, k);
      } else {
        forall j | pb <= j < hi ensures t[j] == s[j] {
          LeftMovedAt(s, lo, pa, pb, j);
        }
      }
    }
  }

  /** The two vecswaps. */
  method MoveEqual<T(!new)>(a: array<T>, lo: nat, hi: nat, cmp: (T, T) -> int, pa: nat, pb: nat, pc: nat, pd: nat, ghost p: T)
    requires hi <= a.Length && Parted(cmp, a[..], lo, hi, pa, pb, pc, pd, p) && pb == pc + 1
    modifies a
    ensures Rearranged(old(a[..]), a[..], lo, hi)
    ensures Split(cmp, a[..], lo, lo + (pb - pa), hi - (pd - pc), hi, p)
  {
    hide Rearranged, Split, VecSwapped, Swapped;
    ghost var s := a[..];
    MovedIsSplit(cmp, s, lo, hi, pa, pb, pc, pd, p);
    var r := Min(pa - lo, pb - pa);
    VecSwapRearranges(s, lo, pb - r, r, lo, hi);
    VecSwap(a, lo, pb - r, r);
    ghost var t := a[..];
    r := Min(pd - pc, hi - pd - 1);
    VecSwapRearranges(t, pb, hi - r, r, lo, hi);
    VecSwap(a, pb, hi - r, r);
    RearrangedTwice(s, t, a[..], lo, hi);
  }

  // ---------- qsort ----------

  /** The index of the pivot. */
  function Pivot<T>(s: seq<T>, lo: nat, hi: nat, cmp: (T, T) -> int): (m: nat)
    requires lo + 7 <= hi <= |s|
    ensures lo <= m < hi
  {
    var n := hi - lo;
    var mid, d := lo + n / 2, n / 8;
    if n == 7 then mid
    else if n <= 40 then Med3(s, lo, mid, hi - 1, cmp)
    else Med3(s,
              Med3(s, lo, lo + d, lo + 2 * d, cmp),
              Med3(s, mid - d, mid, mid + d, cmp),
              Med3(s, hi - 1 - 2 * d, hi - 1 - d, hi - 1, cmp),
              cmp)
  }

  /** Nothing in [lo, mid) is larger than anything in [mid, hi). */
  ghost predicate Below<T(!new)>(cmp: (T, T) -> int, s: seq<T>, lo: nat, mid: nat, hi: nat) {
    forall i, j :: lo <= i < mid <= j < hi <= |s| ==> cmp(s[i], s[j]) <= 0
  }

  /** Work on [mid, hi) keeps what is known of [lo, mid). */
  lemma KeepsBelow<T(!new)>(cmp: (T, T) -> int, s: seq<T>, t: seq<T>, lo: nat, mid: nat, hi: nat)
    requires lo <= mid && Sorted(cmp, s, lo, mid) && Below(cmp, s, lo, mid, hi) && Rearranged(s, t, mid, hi)
    ensures Sorted(cmp, t, lo, mid) && Below(cmp, t, lo, mid, hi)
  {
    hide Rearranged;
    RearrangedSize(s, t, mid, hi);
    forall i | lo <= i < mid ensures t[i] == s[i] {
      RearrangedOutside(s, t, mid, hi, i);
    }
    forall j | mid <= j < hi ensures forall i :: lo <= i < mid ==> cmp(t[i], t[j]) <= 0 {
      var at := RearrangedFrom(s, t, mid, hi, j);
    }
  }

  lemma RearrangedSize<T>(s: seq<T>, t: seq<T>, lo: nat, hi: nat)
    requires Rearranged(s, t, lo, hi)
    ensures |s| == |t| && lo <= hi <= |s|
  {
  }

  lemma SortedJoin<T(!new)>(cmp: (T, T) -> int, s: seq<T>, lo: nat, mid: nat, hi: nat)
    requires lo <= mid <= hi <= |s| && Sorted(cmp, s, lo, mid) && Below(cmp, s, lo, mid, hi) && Sorted(cmp, s, mid, hi)
    ensures Sorted(cmp, s, lo, hi)
  {
  }

  /** Sorting the smaller part of a split leaves the larger part as the only work. */
  lemma SplitSorted<T(!new)>(cmp: (T, T) -> int, s: seq<T>, t: seq<T>, lo: nat, l: nat, g: nat, hi: nat, p: T)
    requires TotalPreorder(cmp) && Split(cmp, s, lo, l, g, hi, p) && Rearranged(s, t, lo, l) && Sorted(cmp, t, lo, l)
    ensures Sorted(cmp, t, lo, g) && Below(cmp, t, lo, g, hi)
  {
    hide TotalPreorder, Rearranged;
    RearrangedSize(s, t, lo, l);
    forall k | lo <= k < hi
      ensures k < l ==> cmp(t[k], p) < 0
      ensures k >= l ==> t[k] == s[k]
    {
      if k < l {
        var j := RearrangedFrom(s, t, lo, l, k);
      } else {
        RearrangedOutside(s, t, lo, l, k);
      }
    }
    forall i, j | lo <= i < j < hi && i < g && l <= j ensures cmp(t[i], t[j]) <= 0 {
      Flip(cmp, p, t[j]);
      Flip(cmp, t[j], p);
      Trans(cmp, t[i], p, t[j]);
    }
  }

  /** One turn of `loop` up to the recursive call: either the range is sorted, or it is split at `l`
      and `g`. */
  method SplitRange<T(!new)>(a: array<T>, lo: nat, hi: nat, cmp: (T, T) -> int)
    returns (done: bool, l: nat, g: nat, ghost p: T)
    requires lo + 7 <= hi <= a.Length && TotalPreorder(cmp)
    modifies a
    ensures Rearranged(old(a[..]), a[..], lo, hi)
    ensures done ==> Sorted(cmp, a[..], lo, hi)
    ensures !done ==> Split(cmp, a[..], lo, l, g, hi, p) && lo <= l < g <= hi
  {
    hide TotalPreorder, Rearranged, Swapped, Split, Sorted, Pivot, Parted;
    ghost var s := a[..];
    var pm := Pivot(a[..], lo, hi, cmp);
    SwapRearranges(s, lo, pm, lo, hi);
    Swap(a, lo, pm);
    p := a[lo];
    var pa, pb, pc, pd, swaps;
    ghost var t := a[..];
    pa, pb, pc, pd, swaps := Partition(a, lo, hi, cmp);
    PartedBounds(cmp, a[..], lo, hi, pa, pb, pc, pd, p);
    RearrangedTwice(s, t, a[..], lo, hi);
    l, g := lo + (pb - pa), hi - (pd - pc);
    t := a[..];
    if !swaps {
      InsertionSort(a, lo, hi, cmp);
      RearrangedTwice(s, t, a[..], lo, hi);
      return true, l, g, p;
    }
    MoveEqual(a, lo, hi, cmp, pa, pb, pc, pd, p);
    RearrangedTwice(s, t, a[..], lo, hi);
    done := false;
  }

  method SortRange<T(!new)>(a: array<T>, start: nat, hi: nat, cmp: (T, T) -> int)
    requires start <= hi <= a.Length && TotalPreorder(cmp)
    modifies a
    ensures Sorted(cmp, a[..], start, hi) && Rearranged(old(a[..]), a[..], start, hi)
    decreases hi - start
  {
    hide TotalPreorder, Rearranged, Split, Sorted, Below;
    ghost var s := a[..];
    RearrangedSelf(s, start, hi);
    SortedShort(cmp, s, start, start);
    NothingBelow(cmp, s, start, hi);
    var lo := start;
    while true
      invariant start <= lo <= hi && Sorted(cmp, a[..], start, lo) && Below(cmp, a[..], start, lo, hi)
      invariant Rearranged(s, a[..], start, hi)
      decreases hi - lo
    {
      ghost var t := a[..];
      if hi - lo < 7 {
        InsertionSort(a, lo, hi, cmp);
        FinishRange(cmp, s, t, a[..], start, lo, hi);
        return;
      }
      var done, l, g;
      ghost var p;
      done, l, g, p := SplitRange(a, lo, hi, cmp);
      if done {
        FinishRange(cmp, s, t, a[..], start, lo, hi);
        return;
      }
      ghost var u := a[..];
      if l - lo > 1 {
        SortRange(a, lo, l, cmp);
      } else {
        SortedShort(cmp, u, lo, l);
        RearrangedSelf(u, lo, l);
      }
      NarrowRange(cmp, s, t, u, a[..], start, lo, l, g, hi, p);
      lo := g;
      if hi - lo <= 1 {
        SortedShort(cmp, a[..], lo, hi);
        SortedJoin(cmp, a[..], start, lo, hi);
        return;
      }
    }
  }

  lemma SortedShort<T(!new)>(cmp: (T, T) -> int, s: seq<T>, lo: nat, hi: nat)
    requires hi - lo <= 1
    ensures Sorted(cmp, s, lo, hi)
  {
  }

  lemma NothingBelow<T(!new)>(cmp: (T, T) -> int, s: seq<T>, lo: nat, hi: nat)
    ensures Below(cmp, s, lo, lo, hi)
  {
  }

  /** The rest [lo, hi) has been sorted: all is. */
  lemma FinishRange<T(!new)>(cmp: (T, T) -> int, s: seq<T>, t: seq<T>, u: seq<T>, start: nat, lo: nat, hi: nat)
    requires start <= lo && Sorted(cmp, t, start, lo) && Below(cmp, t, start, lo, hi) && Rearranged(s, t, start, hi)
    requires Rearranged(t, u, lo, hi) && Sorted(cmp, u, lo, hi)
    ensures Sorted(cmp, u, start, hi) && Rearranged(s, u, start, hi)
  {
    hide Sorted, Below, Rearranged;
    RearrangedSize(t, u, lo, hi);
    KeepsBelow(cmp, t, u, start, lo, hi);
    SortedJoin(cmp, u, start, lo, hi);
    RearrangedWider(t, u, lo, hi, start, hi);
    RearrangedTwice(s, t, u, start, hi);
  }

  /** The rest [lo, hi) has been split (from `t` to `u`) and the smaller part sorted (from `u` to
      `v`): [g, hi) is left. */
  lemma NarrowRange<T(!new)>(cmp: (T, T) -> int, s: seq<T>, t: seq<T>, u: seq<T>, v: seq<T>, start: nat, lo: nat, l: nat, g: nat, hi: nat, p: T)
    requires TotalPreorder(cmp)
    requires start <= lo && Sorted(cmp, t, start, lo) && Below(cmp, t, start, lo, hi) && Rearranged(s, t, start, hi)
    requires Rearranged(t, u, lo, hi) && Split(cmp, u, lo, l, g, hi, p) && lo <= l < g <= hi
    requires Rearranged(u, v, lo, l) && Sorted(cmp, v, lo, l)
    ensures Sorted(cmp, v, start, g) && Below(cmp, v, start, g, hi) && Rearranged(s, v, start, hi)
  {
    hide TotalPreorder, Sorted, Below, Rearranged, Split;
    RearrangedSize(t, u, lo, hi);
    RearrangedSize(u, v, lo, l);
    SplitSorted(cmp, u, v, lo, l, g, hi, p);
    RearrangedWider(u, v, lo, l, lo, hi);
    RearrangedTwice(t, u, v, lo, hi);
    KeepsBelow(cmp, t, v, start, lo, hi);
    BelowJoin(cmp, v, start, lo, g, hi);
    RearrangedWider(t, v, lo, hi, start, hi);
    RearrangedTwice(s, t, v, start, hi);
  }

  lemma BelowJoin<T(!new)>(cmp: (T, T) -> int, s: seq<T>, start: nat, lo: nat, g: nat, hi: nat)
    requires start <= lo < g <= hi <= |s|
    requires Sorted(cmp, s, start, lo) && Below(cmp, s, start, lo, hi) && Sorted(cmp, s, lo, g) && Below(cmp, s, lo, g, hi)
    ensures Sorted(cmp, s, start, g) && Below(cmp, s, start, g, hi)
  {
  }

  /** qsort: the whole array ends sorted, with the elements it had. */
  method QSort<T(!new)>(a: array<T>, cmp: (T, T) -> int)
    requires TotalPreorder(cmp)
    modifies a
    ensures Sorted(cmp, a[..], 0, a.Length) && multiset(a[..]) == multiset(old(a[..]))
  {
    SortRange(a, 0, a.Length, cmp);
    assert a[..][0..a.Length] == a[..] && old(a[..])[0..a.Length] == old(a[..]);
  }
}

/**
 * The DownMessage loss benchmark (benchmark_down_msg_loss). Each DownMessage the payloader
 * attaches is decoded and its frame sequence id, truncated to a gint, is prepended to a
 * window list. Once five seconds have passed since the window opened, the list is sorted
 * ascending, the gaps between consecutive ids are summed into the presumed-lost count, the
 * count is reported and the window is emptied.
 */
module DownMsgLoss {
  import opened Wrappers

  /** The (gint) cast of a 64-bit frame sequence id: two's complement truncation to 32 bits. */
  function GintOf(id: nat): (r: int)
    ensures -0x8000_0000 <= r < 0x8000_0000
    ensures id < 0x8000_0000 ==> r == id
    ensures (id - r) % 0x1_0000_0000 == 0
  {
    var m := id % 0x1_0000_0000;
    if m >= 0x8000_0000 then m - 0x1_0000_0000 else m
  }

  /** The ids presumed lost between two consecutive ids of the sorted window. */
  function Gap(prev: int, next: int): nat {
    if next - prev - 1 > 0 then next - prev - 1 else 0
  }

  /** The sum of the gaps over consecutive pairs of `s`. */
  function GapSum(s: seq<int>): nat {
    if |s| < 2 then 0 else GapSum(s[..|s| - 1]) + Gap(s[|s| - 2], s[|s| - 1])
  }

  predicate Ascending(s: seq<int>) {
    forall i, j :: 0 <= i < j < |s| ==> s[i] <= s[j]
  }

  function Insert(x: int, s: seq<int>): (r: seq<int>)
    requires Ascending(s)
    ensures Ascending(r) && multiset(r) == multiset(s) + multiset{x}
  {
    if s == [] then [x]
    else if x <= s[0] then [x] + s
    else
      var rest := Insert(x, s[1..]);
      assert s == [s[0]] + s[1..];
      BoundedByHead(s[0], x, s[1..], rest);
      ConsAscending(s[0], rest);
      [s[0]] + rest
  }

  /** Every element of `t` plus `x` is at least `a` when `t`'s are and `x` is. */
  lemma BoundedByHead(a: int, x: int, t: seq<int>, rest: seq<int>)
    requires a <= x && forall k :: 0 <= k < |t| ==> a <= t[k]
    requires multiset(rest) == multiset(t) + multiset{x}
    ensures forall k :: 0 <= k < |rest| ==> a <= rest[k]
  {
    forall k | 0 <= k < |rest|
      ensures a <= rest[k]
    {
      assert rest[k] in multiset(rest);
      if rest[k] != x {
        assert rest[k] in multiset(t);
      }
    }
  }

  /** A lower bound of an ascending list can be put in front of it. */
  lemma ConsAscending(a: int, rest: seq<int>)
    requires Ascending(rest) && forall k :: 0 <= k < |rest| ==> a <= rest[k]
    ensures Ascending([a] + rest)
  {
    var r := [a] + rest;
    forall i, j | 0 <= i < j < |r|
      ensures r[i] <= r[j]
    {
      assert r[j] == rest[j - 1];
      if i > 0 {
        assert r[i] == rest[i - 1];
      }
    }
  }

  /** The head of an ascending list is its least element. */
  lemma HeadIsLeast(a: seq<int>, x: int)
    requires Ascending(a) && x in multiset(a)
    ensures a[0] <= x
  {
    assert x in a;
  }

  /** The window after g_slist_sort with compare_int_ascending: an ascending permutation. */
  function SortAscending(s: seq<int>): (r: seq<int>)
    ensures Ascending(r) && multiset(r) == multiset(s)
  {
    if s == [] then []
    else
      assert s == [s[0]] + s[1..];
      Insert(s[0], SortAscending(s[1..]))
  }

  /** The ascending permutation of a window is unique, so any correct sort yields the same list. */
  lemma {:induction false} AscendingPermutationUnique(a: seq<int>, b: seq<int>)
    requires Ascending(a) && Ascending(b) && multiset(a) == multiset(b)
    ensures a == b
    decreases |a|
  {
    if a == [] {
      assert |b| == 0 by { assert |multiset(b)| == |b|; }
    } else {
      assert |b| == |a| by { assert |multiset(a)| == |a| && |multiset(b)| == |b|; }
      var x, y := a[0], b[0];
      assert x in multiset(a) && y in multiset(b);
      HeadIsLeast(a, y);
      HeadIsLeast(b, x);
      assert x == y;
      var ta, tb := a[1..], b[1..];
      Tail(a);
      Tail(b);
      assert multiset(ta) == multiset(tb);
      AscendingPermutationUnique(ta, tb);
      assert a == [x] + ta && b == [y] + tb;
    }
  }

  /** Dropping the head keeps a list ascending and removes one occurrence of the head. */
  lemma Tail(a: seq<int>)
    requires Ascending(a) && a != []
    ensures Ascending(a[1..]) && multiset(a[1..]) == multiset(a) - multiset{a[0]}
  {
    assert a == [a[0]] + a[1..];
    assert multiset(a) == multiset{a[0]} + multiset(a[1..]);
  }

  /** The loop over the sorted list (gint last = -1; ...), with -1 as the "no previous id" sentinel. */
  method CountSkipped(ids: seq<int>) returns (loss: int)
    ensures loss >= 0
    ensures (forall k :: 0 <= k < |ids| ==> ids[k] != -1) ==> loss == GapSum(ids)
  {
    ghost var clean := forall k :: 0 <= k < |ids| ==> ids[k] != -1;
    var last := -1;
    loss := 0;
    var i := 0;
    while i < |ids|
      invariant 0 <= i <= |ids|
      invariant loss >= 0
      invariant i == 0 ==> last == -1
      invariant i > 0 ==> last == ids[i - 1]
      invariant clean ==> loss == GapSum(ids[..i])
    {
      var current := ids[i];
      if last != -1 {
        var skipped := (current - last) - 1;
        if skipped > 0 {
          loss := loss + skipped;
        }
      }
      assert ids[..i + 1][..i] == ids[..i];
      last := current;
      i := i + 1;
    }
    assert ids[..|ids|] == ids;
  }

  /** The number of ids in [lo, hi] that do not occur in s. */
  function MissingIn(lo: int, hi: int, s: seq<int>): nat
    decreases hi - lo
  {
    if lo > hi then 0 else (if lo in s then 0 else 1) + MissingIn(lo + 1, hi, s)
  }

  lemma {:induction false} MissingInSplit(lo: int, m: int, hi: int, s: seq<int>)
    requires lo - 1 <= m <= hi
    ensures MissingIn(lo, hi, s) == MissingIn(lo, m, s) + MissingIn(m + 1, hi, s)
    decreases m - lo
  {
    if lo <= m {
      MissingInSplit(lo + 1, m, hi, s);
    }
  }

  lemma {:induction false} MissingInSameMembers(lo: int, hi: int, s: seq<int>, t: seq<int>)
    requires forall x :: lo <= x <= hi ==> (x in s <==> x in t)
    ensures MissingIn(lo, hi, s) == MissingIn(lo, hi, t)
    decreases hi - lo
  {
    if lo <= hi {
      MissingInSameMembers(lo + 1, hi, s, t);
    }
  }

  lemma {:induction false} MissingInAbsent(lo: int, hi: int, s: seq<int>)
    requires forall x :: lo <= x <= hi ==> x !in s
    ensures MissingIn(lo, hi, s) == if lo > hi then 0 else hi - lo + 1
    decreases hi - lo
  {
    if lo <= hi {
      MissingInAbsent(lo + 1, hi, s);
    }
  }

  /**
   * What the reported count means: over an ascending window, the sum of gaps is the number
   * of ids between the smallest and the largest that were never seen.
   */
  lemma {:induction false} GapSumCountsMissing(s: seq<int>)
    requires Ascending(s) && |s| > 0
    ensures GapSum(s) == MissingIn(s[0], s[|s| - 1], s)
    decreases |s|
  {
    if |s| == 1 {
      assert s[0] in s;
    } else {
      var t := s[..|s| - 1];
      var last := s[|s| - 2];
      var y := s[|s| - 1];
      assert t[|t| - 1] == last && t[0] == s[0];
      GapSumCountsMissing(t);
      MissingInSplit(s[0], last, y, s);
      PrefixMembers(s);
      MissingInSameMembers(s[0], last, s, t);
      TailGap(s);
    }
  }

  /** Below the last id, the window and the window without its last id have the same members. */
  lemma PrefixMembers(s: seq<int>)
    requires Ascending(s) && |s| > 1
    ensures forall x :: s[0] <= x <= s[|s| - 2] ==> (x in s <==> x in s[..|s| - 1])
  {
    var t := s[..|s| - 1];
    assert s == t + [s[|s| - 1]];
    forall x | s[0] <= x <= s[|s| - 2]
      ensures x in s <==> x in t
    {
      if x == s[|s| - 1] { assert t[|t| - 1] == s[|s| - 2]; }
    }
  }

  /** Between the last two ids, the missing ids are exactly their gap. */
  lemma TailGap(s: seq<int>)
    requires Ascending(s) && |s| > 1
    ensures MissingIn(s[|s| - 2] + 1, s[|s| - 1], s) == Gap(s[|s| - 2], s[|s| - 1])
  {
    var last := s[|s| - 2];
    var y := s[|s| - 1];
    if y > last {
      MissingInSplit(last + 1, y - 1, y, s);
      forall x | last + 1 <= x <= y - 1
        ensures x !in s
      {
        forall k | 0 <= k < |s|
          ensures s[k] != x
        {
          if k < |s| - 1 { assert s[k] <= s[|s| - 2]; }
        }
      }
      MissingInAbsent(last + 1, y - 1, s);
      assert y in s;
    }
  }

  /** Over a window of distinct ascending ids, the count is the span minus the ids seen. */
  lemma {:induction false} GapSumStrictlyAscending(s: seq<int>)
    requires |s| > 0 && forall i, j :: 0 <= i < j < |s| ==> s[i] < s[j]
    ensures GapSum(s) == s[|s| - 1] - s[0] - (|s| - 1)
    decreases |s|
  {
    if |s| > 1 {
      var t := s[..|s| - 1];
      GapSumStrictlyAscending(t);
    }
  }

  /** The example {1, 2, 4, 7}, prepended in arrival order: three ids (3, 5, 6) are missing. */
  lemma ExampleWindow()
    ensures GapSum(SortAscending([7, 4, 2, 1])) == 3
  {
    var r := SortAscending([7, 4, 2, 1]);
    ExampleSorted(r);
    ExampleGaps();
  }

  lemma ExampleSorted(r: seq<int>)
    requires Ascending(r) && multiset(r) == multiset([7, 4, 2, 1])
    ensures r == [1, 2, 4, 7]
  {
    assert multiset([7, 4, 2, 1]) == multiset([1, 2, 4, 7]);
    AscendingPermutationUnique(r, [1, 2, 4, 7]);
  }

  lemma ExampleGaps()
    ensures GapSum([1, 2, 4, 7]) == 3
  {
    assert [1, 2, 4, 7][..3] == [1, 2, 4];
    assert [1, 2, 4][..2] == [1, 2];
    assert [1, 2][..1] == [1];
  }

  /**
   * The benchmark's state in the streaming pipeline: have_ever_sent_a_down_msg,
   * last_print_time and sent_down_msg_list, plus the counts it has reported so far.
   */
  class LossWindow {
    var haveEverSent: bool
    var lastPrintTime: int
    /** sent_down_msg_list, most recent id first. */
    var window: seq<int>
    /** The presumed-lost count behind each "Skipping DownMsgs at rate" line. */
    var reports: seq<int>

    /** The pipeline struct is zero-allocated. */
    constructor ()
      ensures !haveEverSent && lastPrintTime == 0 && window == [] && reports == []
    {
      haveEverSent := false;
      lastPrintTime := 0;
      window := [];
      reports := [];
    }

    /** Installing a payloader probe re-arms the window (have_ever_sent_a_down_msg = false). */
    method Rearm()
      modifies this
      ensures !haveEverSent
      ensures lastPrintTime == old(lastPrintTime) && window == old(window) && reports == old(reports)
    {
      haveEverSent := false;
    }

    /**
     * One call of benchmark_down_msg_loss. `decoded` is the outcome of decoding the attached
     * bytes (the frame sequence id, or None when decoding fails); `openTime` and `reportTime`
     * are the monotonic clock readings taken when the window opens and when it is reported;
     * `windowElapsed` says whether at least five seconds have passed since last_print_time.
     */
    method Record(decoded: Option<nat>, openTime: int, windowElapsed: bool, reportTime: int) returns (loss: Option<int>)
      modifies this
      ensures decoded.None? ==> loss.None?
      ensures decoded.None? ==>
                haveEverSent == old(haveEverSent) && lastPrintTime == old(lastPrintTime)
                && window == old(window) && reports == old(reports)
      ensures decoded.Some? ==> haveEverSent
      ensures decoded.Some? ==>
                var w := [GintOf(decoded.value)] + (if old(haveEverSent) then old(window) else []);
                if windowElapsed then
                  && loss.Some? && loss.value >= 0
                  && ((forall k :: 0 <= k < |w| ==> w[k] != -1) ==> loss.value == GapSum(SortAscending(w)))
                  && window == [] && lastPrintTime == reportTime && reports == old(reports) + [loss.value]
                else
                  && loss.None? && window == w && reports == old(reports)
                  && lastPrintTime == (if old(haveEverSent) then old(lastPrintTime) else openTime)
    {
      loss := None;
      if decoded.Some? {
        if !haveEverSent {
          lastPrintTime := openTime;
          window := [];
          haveEverSent := true;
        }
        window := [GintOf(decoded.value)] + window;
        if windowElapsed {
          var sorted := SortAscending(window);
          var n := CountSkipped(sorted);
          forall k | 0 <= k < |sorted| && (forall j :: 0 <= j < |window| ==> window[j] != -1)
            ensures sorted[k] != -1
          {
            assert sorted[k] in multiset(window);
          }
          reports := reports + [n];
          lastPrintTime := reportTime;
          window := [];
          loss := Some(n);
        }
      }
    }
  }
}

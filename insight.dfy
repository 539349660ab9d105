/** `renderInsight`: the "top ~10%" speed over every history entry that has a
    speed, read from the speeds sorted fastest first. */
module Insight {
  import opened Seqs
  import opened Records

  ghost predicate SortedDesc(s: seq<real>)
  {
    forall i, j :: 0 <= i < j < |s| ==> s[i] >= s[j]
  }

  /** Inserts `x` before the first element it is at least as large as. */
  function InsertDesc(x: real, s: seq<real>): (r: seq<real>)
    ensures multiset(r) == multiset(s) + multiset{x}
  {
    if s == [] || x >= s[0] then [x] + s
    else
      assert s == [s[0]] + s[1..];
      [s[0]] + InsertDesc(x, s[1..])
  }

  lemma {:induction false} InsertDescSorted(x: real, s: seq<real>)
    requires SortedDesc(s)
    ensures SortedDesc(InsertDesc(x, s))
  {
    if s != [] && x < s[0] {
      var tail := s[1..];
      var rest := InsertDesc(x, tail);
      InsertDescSorted(x, tail);
      assert rest[0] == if tail == [] || x >= tail[0] then x else tail[0];
      assert rest[0] <= s[0];
      var r := [s[0]] + rest;
      assert r == InsertDesc(x, s);
      forall i, j | 0 <= i < j < |r| ensures r[i] >= r[j] {
        assert r[j] == rest[j - 1];
        if i > 0 {
          assert r[i] == rest[i - 1];
        } else {
          assert rest[0] >= rest[j - 1];
        }
      }
    }
  }

  /** `runs.sort((a, b) => b - a)`: the speeds rearranged fastest first. */
  function SortDesc(s: seq<real>): (r: seq<real>)
    ensures SortedDesc(r)
    ensures multiset(r) == multiset(s)
  {
    if s == [] then []
    else
      assert s == [s[0]] + s[1..];
      InsertDescSorted(s[0], SortDesc(s[1..]));
      InsertDesc(s[0], SortDesc(s[1..]))
  }

  /** Sorting fastest first has one outcome: two descending arrangements of the
      same speeds are equal, so any sort routine the browser uses gives
      `SortDesc`'s result. */
  lemma {:induction false} SortedDescUnique(a: seq<real>, b: seq<real>)
    requires SortedDesc(a) && SortedDesc(b)
    requires multiset(a) == multiset(b)
    ensures a == b
    decreases |a|
  {
    if a != [] {
      assert |b| == |multiset(b)| == |multiset(a)| == |a|;
      assert b[0] in multiset(a) && a[0] in multiset(b);
      HeadIsLargest(a, b[0]);
      HeadIsLargest(b, a[0]);
      assert a[0] == b[0];
      assert a == [a[0]] + a[1..] && b == [b[0]] + b[1..];
      assert multiset(a[1..]) == multiset(a) - multiset{a[0]};
      assert multiset(b[1..]) == multiset(b) - multiset{b[0]};
      SortedDescTail(a);
      SortedDescTail(b);
      SortedDescUnique(a[1..], b[1..]);
    }
  }

  lemma SortedDescTail(s: seq<real>)
    requires s != [] && SortedDesc(s)
    ensures SortedDesc(s[1..])
  {
    forall i, j | 0 <= i < j < |s| - 1 ensures s[1..][i] >= s[1..][j] {
      assert s[1..][i] == s[i + 1] && s[1..][j] == s[j + 1];
    }
  }

  /** The head of a descending list is at least every value it holds. */
  lemma HeadIsLargest(s: seq<real>, x: real)
    requires SortedDesc(s)
    requires x in multiset(s)
    ensures s[0] >= x
  {
    var j :| 0 <= j < |s| && s[j] == x;
  }

  /** `h.speed` is truthy. */
  predicate HasSpeed(e: Entry)
  {
    e.speed != 0.0
  }

  /** `hist.filter(h => h.speed).map(h => h.speed)`. */
  function Speeds(hist: seq<Entry>): (s: seq<real>)
    ensures forall i :: 0 <= i < |s| ==> s[i] != 0.0
  {
    Map(Filter(hist, HasSpeed), (e: Entry) => e.speed)
  }

  /** Every listed speed is the speed of some entry, and every non-zero
      speed is listed. */
  lemma SpeedsMembers(hist: seq<Entry>)
    ensures forall x :: x in Speeds(hist) <==> exists i :: 0 <= i < |hist| && hist[i].speed == x && x != 0.0
  {
    var f := Filter(hist, HasSpeed);
    forall x | x in Speeds(hist) ensures exists i :: 0 <= i < |hist| && hist[i].speed == x && x != 0.0 {
      var k :| 0 <= k < |f| && f[k].speed == x;
      assert f[k] in hist;
    }
    forall i | 0 <= i < |hist| && hist[i].speed != 0.0 ensures hist[i].speed in Speeds(hist) {
      assert hist[i] in f;
      var k :| 0 <= k < |f| && f[k] == hist[i];
      assert Speeds(hist)[k] == hist[i].speed;
    }
  }

  /** `Math.max(0, Math.floor(n * 0.1) - 1)`, with n/10 taken as exact. */
  function RankIndex(n: nat): (k: nat)
    ensures n > 0 ==> k < n
    ensures n < 20 ==> k == 0
  {
    if n / 10 - 1 > 0 then n / 10 - 1 else 0
  }

  /** JavaScript's `a || b` on two numbers. */
  function Or(a: real, b: real): real
  {
    if a != 0.0 then a else b
  }

  datatype InsightBox = NoInsightsYet | NoSpeedData | TopSpeed(speed: real)

  /** The insight box: "No insights yet" for an empty history, "No speed data
      yet" when no entry has a speed, else `runs[k] || runs[0]` for the rank k. */
  function InsightOf(hist: seq<Entry>): (r: InsightBox)
    ensures r.NoInsightsYet? <==> hist == []
    ensures r.NoSpeedData? <==> hist != [] && forall i :: 0 <= i < |hist| ==> hist[i].speed == 0.0
    ensures r.TopSpeed? ==> r.speed in Speeds(hist)
  {
    SpeedsMembers(hist);
    if hist == [] then NoInsightsYet
    else
      var runs := SortDesc(Speeds(hist));
      if runs == [] then
        assert multiset(Speeds(hist)) == multiset{};
        NoSpeedData
      else
        assert runs[RankIndex(|runs|)] in multiset(Speeds(hist));
        assert runs[0] in multiset(Speeds(hist));
        TopSpeed(Or(runs[RankIndex(|runs|)], runs[0]))
  }

  /** The insight is the speed at rank `max(0, n/10 - 1)` of the speeds sorted
      fastest first: no more than that many are faster and the rest are not. */
  lemma InsightRank(hist: seq<Entry>)
    requires InsightOf(hist).TopSpeed?
    ensures var runs := SortDesc(Speeds(hist));
            var k := RankIndex(|runs|);
            && k < |runs|
            && InsightOf(hist).speed == runs[k]
            && (forall i :: 0 <= i < k ==> runs[i] >= runs[k])
            && (forall i :: k < i < |runs| ==> runs[i] <= runs[k])
  {
    var runs := SortDesc(Speeds(hist));
    assert runs[RankIndex(|runs|)] in multiset(Speeds(hist));
  }

  /** With fewer than twenty speeds the rank is 0, so the insight is the
      fastest recorded speed. */
  lemma {:induction false} InsightSmallIsMax(hist: seq<Entry>)
    requires InsightOf(hist).TopSpeed?
    requires |Speeds(hist)| < 20
    ensures forall i :: 0 <= i < |hist| && hist[i].speed != 0.0 ==> hist[i].speed <= InsightOf(hist).speed
  {
    var runs := SortDesc(Speeds(hist));
    SpeedsMembers(hist);
    InsightRank(hist);
    assert |runs| == |multiset(runs)| == |Speeds(hist)|;
    forall i | 0 <= i < |hist| && hist[i].speed != 0.0 ensures hist[i].speed <= InsightOf(hist).speed {
      assert hist[i].speed in multiset(runs);
      var j :| 0 <= j < |runs| && runs[j] == hist[i].speed;
    }
  }

  /** Ten runs with speeds 1 through 10: the rank is 10/10 - 1 = 0, so the
      insight is the fastest, 10. */
  lemma InsightOfOneToTen(hist: seq<Entry>)
    requires |hist| == 10
    requires forall i :: 0 <= i < 10 ==> hist[i].speed == (i + 1) as real
    ensures InsightOf(hist) == TopSpeed(10.0)
  {
    var box := InsightOf(hist);
    assert hist[0].speed == 1.0;
    assert box.TopSpeed?;
    assert |Speeds(hist)| <= |Filter(hist, HasSpeed)| <= 10;
    InsightSmallIsMax(hist);
    assert hist[9].speed <= box.speed;
    SpeedsMembers(hist);
    var j :| 0 <= j < |hist| && hist[j].speed == box.speed;
    assert box.speed <= 10.0;
    assert box == TopSpeed(10.0);
  }
}

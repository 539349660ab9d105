/** The views `renderHistoryUI` and `drawHistoryChart` derive from the stored
    history: the last five badges with the record count, and the window of at
    most twelve run entries the chart plots. */
module History {
  import opened Seqs
  import opened Records

  /** One badge: a run shows its speed (`h.speed || ''`, so nothing for a
      zero speed), any other entry shows its type. */
  datatype Badge = RunBadge(speed: Option<real>) | KindBadge(kind: string)

  function BadgeOf(e: Entry): Badge
  {
    if IsRun(e) then RunBadge(if e.speed != 0.0 then Some(e.speed) else None)
    else KindBadge(e.kind)
  }

  /** The badges row and the "Records: n" line. */
  datatype Panel = Panel(badges: seq<Badge>, records: nat)

  const BadgeCount: nat := 5
  const ChartWindowSize: nat := 12

  /** `renderHistoryUI`: badges for the most recent `min(5, n)` entries, oldest
      first, and the count of all records. */
  function HistoryPanel(hist: seq<Entry>): (p: Panel)
    ensures p.records == |hist|
    ensures |p.badges| == if |hist| < BadgeCount then |hist| else BadgeCount
    ensures p.badges == Map(hist[|hist| - |p.badges|..], BadgeOf)
  {
    Panel(Map(Last(hist, BadgeCount), BadgeOf), |hist|)
  }

  /** After one more entry the count grows by one and the badges slide: the
      new entry's badge comes last, after the most recent earlier badges. */
  lemma {:induction false} PanelAfterAppend(hist: seq<Entry>, e: Entry)
    ensures HistoryPanel(hist + [e]).records == HistoryPanel(hist).records + 1
    ensures HistoryPanel(hist + [e]).badges == Last(HistoryPanel(hist).badges + [BadgeOf(e)], BadgeCount)
  {
    var h := hist + [e];
    var recent := hist[|hist| - |HistoryPanel(hist).badges|..];
    MapAppend(recent, e, BadgeOf);
    assert recent + [e] == h[|hist| - |recent|..];
    LastMap(recent + [e], BadgeCount, BadgeOf);
    assert Last(recent + [e], BadgeCount) == h[|h| - |HistoryPanel(h).badges|..];
  }

  /** The entries the chart considers: those of type run or run_manual. */
  function RunEntries(hist: seq<Entry>): (runs: seq<Entry>)
    ensures forall i :: 0 <= i < |runs| ==> IsRun(runs[i]) && runs[i] in hist
    ensures forall i :: 0 <= i < |hist| && IsRun(hist[i]) ==> hist[i] in runs
  {
    Filter(hist, IsRun)
  }

  /** The chart's `hist.slice(-12)` over the run entries. */
  function ChartWindow(hist: seq<Entry>): seq<Entry>
  {
    Last(RunEntries(hist), ChartWindowSize)
  }

  /** What the canvas shows: the "No run history yet" placeholder, or the
      speeds (`h.speed || 0`) of the window in chronological order. */
  datatype Chart = NoRunHistory | Series(speeds: seq<real>)

  function ChartView(hist: seq<Entry>): Chart
  {
    if RunEntries(hist) == [] then NoRunHistory
    else Series(Map(ChartWindow(hist), (e: Entry) => e.speed))
  }

  /** The chart window holds only run entries, in the order they were
      recorded, and is exactly the latest `min(12, m)` of the m run entries. */
  lemma ChartWindowSpec(hist: seq<Entry>)
    ensures var w := ChartWindow(hist);
            var m := |RunEntries(hist)|;
            && (forall i :: 0 <= i < |w| ==> IsRun(w[i]))
            && Subsequence(w, hist)
            && |w| == (if m < ChartWindowSize then m else ChartWindowSize)
            && w == RunEntries(hist)[m - |w|..]
  {
    var runs := RunEntries(hist);
    FilterIsSubsequence(hist, IsRun);
    SuffixOfSubsequence(runs, hist, |runs| - |ChartWindow(hist)|);
  }

  /** The placeholder is shown exactly when no entry is a run; otherwise one
      point is plotted per window entry, the newest run being the last point. */
  lemma ChartViewSpec(hist: seq<Entry>)
    ensures ChartView(hist).NoRunHistory? <==> forall i :: 0 <= i < |hist| ==> !IsRun(hist[i])
    ensures ChartView(hist).Series? ==>
              var w := ChartWindow(hist);
              && 0 < |ChartView(hist).speeds| == |w| <= ChartWindowSize
              && (forall i :: 0 <= i < |w| ==> ChartView(hist).speeds[i] == w[i].speed)
              && w[|w| - 1] == RunEntries(hist)[|RunEntries(hist)| - 1]
  {
    if RunEntries(hist) != [] {
      var r := RunEntries(hist);
      assert r[0] in hist;
    }
  }
}

/** `generateReport`: one CSV row per registered athlete with the top speed
    found in the history. The history filter's `u` conjunct is an object and so
    always truthy: the speeds are never matched to the athlete, and every row
    carries the same top speed. */
module Report {
  import opened Js
  import opened Seqs
  import opened Records

  const ReportHeader: string := "name,age,sport,top_speed_m_s"

  /** One line of the report; `topSpeed` is None where the CSV cell is empty. */
  datatype ReportRow = ReportRow(name: string, age: Number, sport: string, topSpeed: Option<real>)

  /** `h.speed && h.ts && u`, with the always-truthy `u` dropped. */
  predicate Qualifies(e: Entry)
  {
    e.speed != 0.0 && e.ts != 0
  }

  /** `Math.max(...speeds)` on a non-empty list. */
  function MaxOf(s: seq<real>): (m: real)
    requires |s| > 0
    ensures m in s
    ensures forall i :: 0 <= i < |s| ==> s[i] <= m
  {
    if |s| == 1 then s[0]
    else
      var rest := MaxOf(s[1..]);
      assert forall i :: 1 <= i < |s| ==> s[i] == s[1..][i - 1];
      if s[0] >= rest then s[0] else rest
  }

  /** The speeds of the entries that have both a speed and a timestamp. */
  function QualifyingSpeeds(hist: seq<Entry>): seq<real>
  {
    Map(Filter(hist, Qualifies), (e: Entry) => e.speed)
  }

  /** Each listed speed belongs to a qualifying entry and every qualifying
      entry's speed is listed. */
  lemma QualifyingSpeedsMembers(hist: seq<Entry>)
    ensures forall x :: x in QualifyingSpeeds(hist) ==>
              exists i :: 0 <= i < |hist| && Qualifies(hist[i]) && hist[i].speed == x
    ensures forall i :: 0 <= i < |hist| && Qualifies(hist[i]) ==> hist[i].speed in QualifyingSpeeds(hist)
  {
    var q := Filter(hist, Qualifies);
    var speeds := QualifyingSpeeds(hist);
    forall x | x in speeds ensures exists i :: 0 <= i < |hist| && Qualifies(hist[i]) && hist[i].speed == x {
      var k :| 0 <= k < |speeds| && speeds[k] == x;
      assert speeds[k] == q[k].speed && Qualifies(q[k]);
      assert q[k] in hist;
      var i :| 0 <= i < |hist| && hist[i] == q[k];
    }
    forall i | 0 <= i < |hist| && Qualifies(hist[i]) ensures hist[i].speed in speeds {
      assert hist[i] in q;
      var j :| 0 <= j < |q| && q[j] == hist[i];
      assert speeds[j] == hist[i].speed;
    }
  }

  /** The top-speed cell shared by every row: empty when no entry has both a
      speed and a timestamp, otherwise the largest such speed. */
  function TopSpeedOf(hist: seq<Entry>): (top: Option<real>)
    ensures top.None? <==> forall i :: 0 <= i < |hist| ==> !Qualifies(hist[i])
    ensures top.Some? ==>
              (exists i :: 0 <= i < |hist| && Qualifies(hist[i]) && hist[i].speed == top.value)
              && (forall i :: 0 <= i < |hist| && Qualifies(hist[i]) ==> hist[i].speed <= top.value)
  {
    QualifyingSpeedsMembers(hist);
    var speeds := QualifyingSpeeds(hist);
    if speeds == [] then None else Some(MaxOf(speeds))
  }

  /** The rows `generateReport` writes after the header, one per user in
      registration order, each with the shared top speed. */
  method GenerateReport(users: seq<User>, hist: seq<Entry>) returns (rows: seq<ReportRow>)
    ensures |rows| == |users|
    ensures forall i :: 0 <= i < |users| ==>
              rows[i] == ReportRow(users[i].name, users[i].age, users[i].sport, TopSpeedOf(hist))
  {
    rows := [];
    var i := 0;
    while i < |users|
      invariant 0 <= i <= |users|
      invariant |rows| == i
      invariant forall j :: 0 <= j < i ==>
                  rows[j] == ReportRow(users[j].name, users[j].age, users[j].sport, TopSpeedOf(hist))
    {
      var u := users[i];
      rows := rows + [ReportRow(u.name, u.age, u.sport, TopSpeedOf(hist))];
      i := i + 1;
    }
  }
}

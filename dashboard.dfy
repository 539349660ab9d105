/** The dashboard: the sport filter's options (`populateDashboardFilters`) and
    the athlete table (`renderAthleteTable`). */
module Dashboard {
  import opened Js
  import opened Seqs
  import opened Records
  import opened Insight

  predicate Distinct(s: seq<string>)
  {
    forall i, j :: 0 <= i < j < |s| ==> s[i] != s[j]
  }

  /** `Array.from(new Set(xs))`: each value once, at its first occurrence. */
  function Dedup(xs: seq<string>): (r: seq<string>)
    ensures Distinct(r)
    ensures forall i :: 0 <= i < |r| ==> r[i] in xs
    ensures forall i :: 0 <= i < |xs| ==> xs[i] in r
    decreases |xs|
  {
    if xs == [] then []
    else
      var init := xs[..|xs| - 1];
      var d := Dedup(init);
      assert forall i :: 0 <= i < |init| ==> xs[i] == init[i];
      if xs[|xs| - 1] in d then d else d + [xs[|xs| - 1]]
  }

  /** `xs.indexOf(v)`: the position of the first occurrence of `v`. */
  function FirstIndex(xs: seq<string>, v: string): (k: nat)
    requires v in xs
    ensures k < |xs| && xs[k] == v
    ensures forall m :: 0 <= m < k ==> xs[m] != v
  {
    if xs[0] == v then 0 else 1 + FirstIndex(xs[1..], v)
  }

  /** Appending never moves the first occurrence of a value already present. */
  lemma {:induction false} FirstIndexAppend(xs: seq<string>, x: string, v: string)
    requires v in xs
    ensures FirstIndex(xs + [x], v) == FirstIndex(xs, v)
  {
    var k := FirstIndex(xs, v);
    var k' := FirstIndex(xs + [x], v);
    assert (xs + [x])[k] == v;
    assert k' <= k;
    assert xs[k'] == (xs + [x])[k'];
  }

  /** A Set iterates in insertion order, so the deduplicated list gives its
      values in increasing order of their first occurrence in `xs`. */
  lemma {:induction false} DedupFirstSeenOrder(xs: seq<string>)
    ensures forall i, j :: 0 <= i < j < |Dedup(xs)| ==>
              FirstIndex(xs, Dedup(xs)[i]) < FirstIndex(xs, Dedup(xs)[j])
    decreases |xs|
  {
    if xs != [] {
      var init := xs[..|xs| - 1];
      var x := xs[|xs| - 1];
      var d := Dedup(init);
      var r := Dedup(xs);
      assert xs == init + [x];
      DedupFirstSeenOrder(init);
      forall i | 0 <= i < |d| ensures FirstIndex(xs, d[i]) == FirstIndex(init, d[i]) {
        FirstIndexAppend(init, x, d[i]);
      }
      if x !in d {
        assert x !in init;
        assert FirstIndex(xs, x) == |init|;
      }
    }
  }

  /** The new Set keeps first occurrences in order: the deduplicated list is a
      subsequence of the input. */
  lemma {:induction false} DedupSubsequence(xs: seq<string>)
    ensures Subsequence(Dedup(xs), xs)
    decreases |xs|
  {
    if xs != [] {
      var init := xs[..|xs| - 1];
      DedupSubsequence(init);
      SubsequenceExtend(Dedup(init), init, xs[|xs| - 1]);
      assert init + [xs[|xs| - 1]] == xs;
      SubsequenceGrow(Dedup(init), init, [xs[|xs| - 1]]);
    }
  }

  /** Appending the same element to both sides keeps a subsequence. */
  lemma {:induction false} SubsequenceExtend(a: seq<string>, b: seq<string>, x: string)
    requires Subsequence(a, b)
    ensures Subsequence(a + [x], b + [x])
    decreases |b|
  {
    if a == [] {
      assert a + [x] == [x];
      SingletonSubsequence(x, b);
    } else {
      assert (a + [x])[0] == a[0] && (a + [x])[1..] == a[1..] + [x];
      assert (b + [x])[1..] == b[1..] + [x];
      if a[0] == b[0] && Subsequence(a[1..], b[1..]) {
        SubsequenceExtend(a[1..], b[1..], x);
      } else {
        SubsequenceExtend(a, b[1..], x);
      }
    }
  }

  lemma {:induction false} SingletonSubsequence(x: string, b: seq<string>)
    ensures Subsequence([x], b + [x])
    decreases |b|
  {
    if b != [] {
      assert (b + [x])[1..] == b[1..] + [x];
      SingletonSubsequence(x, b[1..]);
    } else {
      assert [x][1..] == [];
    }
  }

  /** Extending the larger sequence keeps a subsequence. */
  lemma {:induction false} SubsequenceGrow(a: seq<string>, b: seq<string>, c: seq<string>)
    requires Subsequence(a, b)
    ensures Subsequence(a, b + c)
    decreases |b|
  {
    if a != [] {
      assert (b + c)[1..] == b[1..] + c;
      if a[0] == b[0] && Subsequence(a[1..], b[1..]) {
        SubsequenceGrow(a[1..], b[1..], c);
      } else {
        SubsequenceGrow(a, b[1..], c);
      }
    }
  }

  function SportOf(u: User): string
  {
    u.sport
  }

  /** `Boolean(s)` on a string. */
  predicate NonEmpty(s: string)
  {
    s != ""
  }

  /** `Array.from(new Set(users.map(u => u.sport))).filter(Boolean)`. */
  function UserSports(users: seq<User>): (sports: seq<string>)
    ensures Distinct(sports)
    ensures forall s :: s in sports <==> s != "" && exists i :: 0 <= i < |users| && users[i].sport == s
  {
    UserSportsFacts(users);
    Filter(Dedup(Map(users, SportOf)), NonEmpty)
  }

  lemma UserSportsFacts(users: seq<User>)
    ensures Distinct(Filter(Dedup(Map(users, SportOf)), NonEmpty))
    ensures forall s :: s in Filter(Dedup(Map(users, SportOf)), NonEmpty) <==>
              s != "" && exists i :: 0 <= i < |users| && users[i].sport == s
  {
    var all := Map(users, SportOf);
    var d := Dedup(all);
    var sports := Filter(d, NonEmpty);
    FilterIsSubsequence(d, NonEmpty);
    SubsequencePairwise(sports, d, (x: string, y: string) => x != y);
    forall s | s in sports ensures s != "" && exists i :: 0 <= i < |users| && users[i].sport == s {
      var k :| 0 <= k < |sports| && sports[k] == s;
      var m :| 0 <= m < |all| && all[m] == s;
    }
    forall i | 0 <= i < |users| && users[i].sport != "" ensures users[i].sport in sports {
      assert all[i] == users[i].sport;
      var m :| 0 <= m < |d| && d[m] == users[i].sport;
    }
  }

  /** `!currentOptions.includes(s)`. */
  function NotOptionYet(current: seq<string>): string -> bool
  {
    (s: string) => s !in current
  }

  /** The loop of `populateDashboardFilters`: each sport that is not one of the
      `current` options is appended, in order. */
  method AppendNewOptions(current: seq<string>, sports: seq<string>) returns (options: seq<string>)
    ensures options == current + Filter(sports, NotOptionYet(current))
  {
    var notYet := NotOptionYet(current);
    options := current;
    var k := 0;
    while k < |sports|
      invariant 0 <= k <= |sports|
      invariant options == current + Filter(sports[..k], notYet)
    {
      var s := sports[k];
      ghost var before := Filter(sports[..k], notYet);
      assert sports[..k + 1] == sports[..k] + [s];
      FilterAppend(sports[..k], s, notYet);
      if s !in current {
        AppendAfter(current, before, s);
        options := options + [s];
      }
      k := k + 1;
    }
    assert sports[..k] == sports;
  }

  /** The options `populateDashboardFilters` leaves in the sport select: the
      current ones, then each non-empty sport of a registered user that is not
      already an option, once, in the order the sports were first registered. */
  method PopulateSportOptions(current: seq<string>, users: seq<User>) returns (options: seq<string>)
    ensures options == current + Filter(UserSports(users), NotOptionYet(current))
    ensures forall s :: s in options[|current|..] <==>
              s != "" && s !in current && exists i :: 0 <= i < |users| && users[i].sport == s
    ensures Distinct(options[|current|..])
  {
    options := AppendNewOptions(current, UserSports(users));
    assert options[|current|..] == Filter(UserSports(users), NotOptionYet(current));
    NewOptionsFacts(current, users);
  }

  lemma AppendAfter(a: seq<string>, b: seq<string>, x: string)
    ensures a + (b + [x]) == (a + b) + [x]
  {
  }

  /** The appended options are the users' non-empty sports that were not yet
      options, each once. */
  lemma NewOptionsFacts(current: seq<string>, users: seq<User>)
    ensures var added := Filter(UserSports(users), NotOptionYet(current));
            && (forall s :: s in added <==>
                  s != "" && s !in current && exists i :: 0 <= i < |users| && users[i].sport == s)
            && Distinct(added)
  {
    var sports := UserSports(users);
    var added := Filter(sports, NotOptionYet(current));
    FilterIsSubsequence(sports, NotOptionYet(current));
    SubsequencePairwise(added, sports, (x: string, y: string) => x != y);
    forall s | s in added ensures s in sports && s !in current {
      var k :| 0 <= k < |added| && added[k] == s;
    }
    forall s | s in sports && s !in current ensures s in added {
      var k :| 0 <= k < |sports| && sports[k] == s;
    }
  }

  /** After the refresh every non-empty sport of a user is an option, and no
      option appears twice if none did before. */
  lemma SportOptionsComplete(current: seq<string>, users: seq<User>, options: seq<string>)
    requires Distinct(current)
    requires |options| >= |current| && options[..|current|] == current
    requires forall s :: s in options[|current|..] <==>
               s != "" && s !in current && exists i :: 0 <= i < |users| && users[i].sport == s
    requires Distinct(options[|current|..])
    ensures forall i :: 0 <= i < |users| && users[i].sport != "" ==> users[i].sport in options
    ensures Distinct(options)
  {
    var added := options[|current|..];
    assert options == current + added;
    forall i | 0 <= i < |users| && users[i].sport != "" ensures users[i].sport in options {
      if users[i].sport !in current {
        assert users[i].sport in added;
      }
    }
    forall i, j | 0 <= i < j < |options| ensures options[i] != options[j] {
      if j >= |current| && i < |current| {
        assert options[j] in added;
        assert options[i] in current;
      } else if i >= |current| {
        assert options[i] == added[i - |current|] && options[j] == added[j - |current|];
      }
    }
  }

  /** One row passes `renderAthleteTable`'s filter: a non-empty name filter
      must occur in the lower-cased name, a non-empty sport filter must equal
      the sport. */
  predicate MatchesFilters(u: User, nameFilter: string, sportFilter: string)
  {
    (nameFilter == "" || Includes(ToLower(u.name), nameFilter))
    && (sportFilter == "" || u.sport == sportFilter)
  }

  /** The table rows for the raw name input (trimmed and lower-cased as the
      script does) and the selected sport. */
  function AthleteRows(users: seq<User>, nameInput: string, sportFilter: string): seq<User>
  {
    var nameFilter := ToLower(Trim(nameInput));
    Filter(users, (u: User) => MatchesFilters(u, nameFilter, sportFilter))
  }

  /** The rows keep the users' order, and a user is shown exactly when it
      matches both filters. */
  lemma AthleteRowsSpec(users: seq<User>, nameInput: string, sportFilter: string)
    ensures Subsequence(AthleteRows(users, nameInput, sportFilter), users)
    ensures forall u :: u in users ==>
              ((u in AthleteRows(users, nameInput, sportFilter))
               <==> MatchesFilters(u, ToLower(Trim(nameInput)), sportFilter))
    ensures forall u :: u in AthleteRows(users, nameInput, sportFilter) ==> u in users
  {
    var nameFilter := ToLower(Trim(nameInput));
    var p := (u: User) => MatchesFilters(u, nameFilter, sportFilter);
    FilterIsSubsequence(users, p);
    var rows := Filter(users, p);
    forall u | u in rows ensures p(u) && u in users {
      var k :| 0 <= k < |rows| && rows[k] == u;
    }
    forall u | u in users && p(u) ensures u in rows {
      var k :| 0 <= k < |users| && users[k] == u;
    }
  }

  /** With a blank name filter and no sport selected every user is listed. */
  lemma AthleteRowsNoFilter(users: seq<User>, nameInput: string)
    requires forall i :: 0 <= i < |nameInput| ==> IsWhitespace(nameInput[i])
    ensures AthleteRows(users, nameInput, "") == users
  {
    assert ToLower(Trim(nameInput)) == "";
    FilterKeepsAll(users, (u: User) => MatchesFilters(u, "", ""));
  }

  /** The name test on its own: a blank input matches every name; otherwise
      the trimmed input, lower-cased, must occur at some position of the
      lower-cased name. */
  lemma NameFilterMeaning(u: User, nameInput: string)
    ensures MatchesFilters(u, ToLower(Trim(nameInput)), "") <==>
              Trim(nameInput) == "" || exists k: nat :: OccursAt(ToLower(u.name), ToLower(Trim(nameInput)), k)
  {
    IncludesIff(ToLower(u.name), ToLower(Trim(nameInput)));
  }

  /** What the athlete table area shows: "No athletes", or the rows followed
      by a refreshed insight box (the insight is only refreshed when there are
      rows). */
  datatype Table = NoAthletes | Rows(rows: seq<User>, insight: InsightBox)

  function RenderAthleteTable(users: seq<User>, hist: seq<Entry>, nameInput: string, sportFilter: string): Table
  {
    var rows := AthleteRows(users, nameInput, sportFilter);
    if rows == [] then NoAthletes else Rows(rows, InsightOf(hist))
  }

  /** "No athletes" is shown exactly when no user matches the filters. */
  lemma RenderAthleteTableSpec(users: seq<User>, hist: seq<Entry>, nameInput: string, sportFilter: string)
    ensures RenderAthleteTable(users, hist, nameInput, sportFilter).NoAthletes? <==>
              forall u :: u in users ==> !MatchesFilters(u, ToLower(Trim(nameInput)), sportFilter)
  {
    AthleteRowsSpec(users, nameInput, sportFilter);
    var rows := AthleteRows(users, nameInput, sportFilter);
    if rows != [] {
      assert rows[0] in rows;
    }
  }
}

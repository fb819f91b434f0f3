/**
 * The summary figures of the analytics dashboard, derived from the aggregate tally:
 * the chart rows sorted by count, the total number of responses, the most common
 * persona and the number of distinct personas.
 *
 * The tally arrives as its own entries in key-insertion order (what `Object.entries`
 * yields); `Enumerates` ties such a list to the tally seen as a map.
 */
module Dashboard {

  /** One chart row: a persona name and its count. */
  datatype Bar = Bar(name: string, value: nat)

  /** No name occurs twice in `entries`. */
  ghost predicate DistinctNames(entries: seq<Bar>)
  {
    forall i, j :: 0 <= i < j < |entries| ==> entries[i].name != entries[j].name
  }

  /** Every row of `entries` is a key of `tally` with its count. */
  ghost predicate ListedIn(entries: seq<Bar>, tally: map<string, nat>)
  {
    forall i :: 0 <= i < |entries| ==> entries[i].name in tally && tally[entries[i].name] == entries[i].value
  }

  /** Every key of `tally` has a row in `entries`. */
  ghost predicate Covers(entries: seq<Bar>, tally: map<string, nat>)
  {
    forall name :: name in tally ==> exists i :: 0 <= i < |entries| && entries[i].name == name
  }

  /** `entries` lists every key of `tally` exactly once, each with its count. */
  ghost predicate Enumerates(entries: seq<Bar>, tally: map<string, nat>)
  {
    DistinctNames(entries) && ListedIn(entries, tally) && Covers(entries, tally)
  }

  /** Counts never increase along the list. */
  ghost predicate NonIncreasing(bars: seq<Bar>)
  {
    forall i, j :: 0 <= i < j < |bars| ==> bars[i].value >= bars[j].value
  }

  /** The rows whose count is `v`, in list order. */
  function WithValue(bars: seq<Bar>, v: nat): seq<Bar>
  {
    if |bars| == 0 then []
    else (if bars[0].value == v then [bars[0]] else []) + WithValue(bars[1..], v)
  }

  // ---------------------------------------------------------------------------
  // chartData: the entries sorted by non-increasing count (a stable sort)
  // ---------------------------------------------------------------------------

  /** Places `x` in front of the first row whose count does not exceed its own. */
  function Insert(x: Bar, bars: seq<Bar>): (r: seq<Bar>)
    ensures |r| == |bars| + 1
  {
    if |bars| == 0 || bars[0].value <= x.value then [x] + bars
    else [bars[0]] + Insert(x, bars[1..])
  }

  /** Inserting yields a permutation of `x` followed by the list. */
  lemma {:induction false} InsertPermutes(x: Bar, bars: seq<Bar>)
    ensures multiset(Insert(x, bars)) == multiset([x] + bars)
  {
    if |bars| > 0 && bars[0].value > x.value {
      InsertPermutes(x, bars[1..]);
      assert bars == [bars[0]] + bars[1..];
    }
  }

  /** A row with a larger count than `x` stays in front of it. */
  lemma InsertPastLarger(x: Bar, bars: seq<Bar>)
    requires |bars| > 0 && bars[0].value > x.value
    ensures Insert(x, bars) == [bars[0]] + Insert(x, bars[1..])
  {
  }

  /** Inserting a row with count at most m into rows with counts at most m keeps every count at most m. */
  lemma {:induction false} InsertBounded(x: Bar, bars: seq<Bar>, m: nat)
    requires x.value <= m && forall k :: 0 <= k < |bars| ==> bars[k].value <= m
    ensures forall k :: 0 <= k < |Insert(x, bars)| ==> Insert(x, bars)[k].value <= m
  {
    if |bars| > 0 && bars[0].value > x.value {
      InsertBounded(x, bars[1..], m);
    }
  }

  /** Inserting into a list sorted by non-increasing count keeps it sorted. */
  lemma {:induction false} InsertSorted(x: Bar, bars: seq<Bar>)
    requires NonIncreasing(bars)
    ensures NonIncreasing(Insert(x, bars))
  {
    if |bars| > 0 && bars[0].value > x.value {
      var rest := bars[1..];
      InsertSorted(x, rest);
      InsertBounded(x, rest, bars[0].value);
      InsertPastLarger(x, bars);
    }
  }

  /** `.sort((a, b) => b.value - a.value)`, which is stable: equal counts keep their order. */
  function SortByCount(bars: seq<Bar>): (r: seq<Bar>)
    ensures |r| == |bars|
    ensures multiset(r) == multiset(bars)
    ensures NonIncreasing(r)
  {
    if |bars| == 0 then []
    else
      assert bars == [bars[0]] + bars[1..];
      InsertSorted(bars[0], SortByCount(bars[1..]));
      InsertPermutes(bars[0], SortByCount(bars[1..]));
      Insert(bars[0], SortByCount(bars[1..]))
  }

  /** The chart rows: one per tally entry, sorted by non-increasing count. */
  function ChartData(entries: seq<Bar>): (chart: seq<Bar>)
    ensures multiset(chart) == multiset(entries)
    ensures NonIncreasing(chart)
  {
    SortByCount(entries)
  }

  /** The rows of count v in a list with `b` in front. */
  lemma WithValueCons(b: Bar, bars: seq<Bar>, v: nat)
    ensures WithValue([b] + bars, v) == (if b.value == v then [b] else []) + WithValue(bars, v)
  {
    assert ([b] + bars)[1..] == bars;
  }

  /** Inserting keeps the rows of every count in the order of `[x] + bars`. */
  lemma {:induction false} InsertStable(x: Bar, bars: seq<Bar>, v: nat)
    ensures WithValue(Insert(x, bars), v) == WithValue([x] + bars, v)
  {
    if |bars| > 0 && bars[0].value > x.value {
      var b := bars[0];
      var rest := bars[1..];
      var inserted := Insert(x, rest);
      InsertPastLarger(x, bars);
      assert bars == [b] + rest;
      InsertStable(x, rest, v);
      WithValueCons(b, inserted, v);
      WithValueCons(x, rest, v);
      WithValueCons(b, rest, v);
      WithValueCons(x, bars, v);
      if v == b.value {
        assert WithValue(Insert(x, bars), v) == [b] + WithValue(rest, v);
      } else if v == x.value {
        assert WithValue(Insert(x, bars), v) == [x] + WithValue(rest, v);
      } else {
        assert WithValue(Insert(x, bars), v) == WithValue(rest, v);
      }
    }
  }

  /** The sort is stable: for every count, its rows appear in their original order. */
  lemma {:induction false} ChartDataStable(entries: seq<Bar>, v: nat)
    ensures WithValue(ChartData(entries), v) == WithValue(entries, v)
  {
    if |entries| > 0 {
      var rest := entries[1..];
      ChartDataStable(rest, v);
      InsertStable(entries[0], SortByCount(rest), v);
      assert ([entries[0]] + SortByCount(rest))[1..] == SortByCount(rest);
    }
  }

  // ---------------------------------------------------------------------------
  // totalResponses
  // ---------------------------------------------------------------------------

  /** `Object.values(aggregateData).reduce((a, b) => a + b, 0)`. */
  function TotalResponses(entries: seq<Bar>): (total: nat)
    ensures forall i :: 0 <= i < |entries| ==> entries[i].value <= total
  {
    if |entries| == 0 then 0 else TotalResponses(entries[..|entries| - 1]) + entries[|entries| - 1].value
  }

  /** Some key of a non-empty tally. */
  ghost function SomeKey(tally: map<string, nat>): (name: string)
    requires |tally| > 0
    ensures name in tally
  {
    var name :| name in tally; name
  }

  /** Taking one key out of a tally leaves one key fewer. */
  lemma RemoveOne(tally: map<string, nat>, name: string)
    requires name in tally
    ensures (tally - {name}).Keys == tally.Keys - {name}
    ensures |tally - {name}| == |tally| - 1
  {
    assert (tally - {name}).Keys == tally.Keys - {name};
  }

  /** The sum of all counts of a tally. */
  ghost function Total(tally: map<string, nat>): nat
    decreases |tally|
  {
    if |tally| == 0 then 0
    else
      var name := SomeKey(tally);
      RemoveOne(tally, name);
      tally[name] + Total(tally - {name})
  }

  /** Any one key can be taken out first when summing a tally. */
  lemma TotalRemove(tally: map<string, nat>, name: string)
    requires name in tally
    ensures Total(tally) == tally[name] + Total(tally - {name})
    decreases |tally|
  {
    var other := SomeKey(tally);
    if other != name {
      RemoveOne(tally, other);
      RemoveOne(tally, name);
      TotalRemove(tally - {other}, name);
      TotalRemove(tally - {name}, other);
      assert tally - {other} - {name} == tally - {name} - {other};
    }
  }

  /** Dropping the last entry enumerates the tally without that key. */
  lemma EnumeratesInit(entries: seq<Bar>, tally: map<string, nat>)
    requires Enumerates(entries, tally) && |entries| > 0
    ensures Enumerates(entries[..|entries| - 1], tally - {entries[|entries| - 1].name})
  {
    var last := entries[|entries| - 1].name;
    var init := entries[..|entries| - 1];
    var rest := tally - {last};
    RemoveOne(tally, last);
    assert DistinctNames(init);
    assert ListedIn(init, rest) by {
      forall i | 0 <= i < |init| ensures init[i].name in rest && rest[init[i].name] == init[i].value {
        assert init[i] == entries[i];
        assert entries[i].name != last;
      }
    }
    assert Covers(init, rest) by {
      forall name | name in rest ensures exists i :: 0 <= i < |init| && init[i].name == name {
        assert name in tally && name != last;
        var i :| 0 <= i < |entries| && entries[i].name == name;
        assert init[i] == entries[i];
      }
    }
  }

  /** The total shown equals the sum of all counts in the tally, and there is one entry per key. */
  lemma {:induction false} TotalResponsesIsTotal(entries: seq<Bar>, tally: map<string, nat>)
    requires Enumerates(entries, tally)
    ensures TotalResponses(entries) == Total(tally)
    ensures |entries| == |tally|
  {
    if |entries| == 0 {
      if |tally| > 0 {
        var name := SomeKey(tally);
        assert false;
      }
    } else {
      var last := entries[|entries| - 1].name;
      EnumeratesInit(entries, tally);
      TotalResponsesIsTotal(entries[..|entries| - 1], tally - {last});
      RemoveOne(tally, last);
      TotalRemove(tally, last);
    }
  }

  // ---------------------------------------------------------------------------
  // Most Common and Unique Personas
  // ---------------------------------------------------------------------------

  /**
   * Row i has the highest count, and no earlier row has it: the same notion as
   * `Scoring.FirstMaxAt`, stated over chart rows instead of score entries.
   */
  ghost predicate FirstMaxAt(bars: seq<Bar>, i: int)
  {
    && 0 <= i < |bars|
    && (forall j :: 0 <= j < |bars| ==> bars[j].value <= bars[i].value)
    && (forall j :: 0 <= j < i ==> bars[j].value < bars[i].value)
  }

  /** `chartData[0]?.name || 'N/A'`: an empty name also shows as 'N/A'. */
  function MostCommon(entries: seq<Bar>): (r: string)
    ensures |entries| == 0 ==> r == "N/A"
  {
    var chart := ChartData(entries);
    if |chart| == 0 || chart[0].name == "" then "N/A" else chart[0].name
  }

  /** `chartData.length`. */
  function UniquePersonas(entries: seq<Bar>): (n: nat)
    ensures n == |entries|
  {
    |ChartData(entries)|
  }

  /** The first row in list order with count v heads the rows of count v. */
  lemma {:induction false} WithValueHead(bars: seq<Bar>, i: nat)
    requires i < |bars| && forall j :: 0 <= j < i ==> bars[j].value != bars[i].value
    ensures WithValue(bars, bars[i].value) != [] && WithValue(bars, bars[i].value)[0] == bars[i]
  {
    if i > 0 {
      WithValueHead(bars[1..], i - 1);
    }
  }

  /** The rows of count v all have count v and come from the list. */
  lemma {:induction false} WithValueHeadIn(bars: seq<Bar>, v: nat)
    requires WithValue(bars, v) != []
    ensures WithValue(bars, v)[0].value == v
    ensures exists j ::
      && 0 <= j < |bars|
      && bars[j] == WithValue(bars, v)[0]
      && forall k :: 0 <= k < j ==> bars[k].value != v
  {
    if bars[0].value != v {
      WithValueHeadIn(bars[1..], v);
      var j :| 0 <= j < |bars[1..]| && bars[1..][j] == WithValue(bars[1..], v)[0]
                && forall k :: 0 <= k < j ==> bars[1..][k].value != v;
      assert bars[j + 1] == WithValue(bars, v)[0];
    }
  }

  /** The head of the chart is the first entry, in insertion order, with the highest count. */
  lemma ChartHeadIsFirstMax(entries: seq<Bar>)
    requires |entries| > 0
    ensures exists i :: FirstMaxAt(entries, i) && ChartData(entries)[0] == entries[i]
  {
    var chart := ChartData(entries);
    assert chart[0] in multiset(entries);
    var m := chart[0].value;
    forall j | 0 <= j < |entries| ensures entries[j].value <= m {
      assert entries[j] in multiset(chart);
    }
    WithValueHead(chart, 0);
    ChartDataStable(entries, m);
    WithValueHeadIn(entries, m);
    var i :| 0 <= i < |entries| && entries[i] == WithValue(entries, m)[0]
             && forall k :: 0 <= k < i ==> entries[k].value != m;
    assert FirstMaxAt(entries, i);
  }

  /**
   * "Most Common" is 'N/A' for an empty tally; otherwise, unless the winning key is the
   * empty string, it is a key with the highest count, the first such in insertion order.
   */
  lemma MostCommonIsMax(entries: seq<Bar>, tally: map<string, nat>)
    requires Enumerates(entries, tally)
    ensures |tally| == 0 ==> MostCommon(entries) == "N/A"
    ensures |tally| > 0 && "" !in tally ==>
      && MostCommon(entries) in tally
      && (forall name :: name in tally ==> tally[name] <= tally[MostCommon(entries)])
      && exists i :: FirstMaxAt(entries, i) && MostCommon(entries) == entries[i].name
  {
    TotalResponsesIsTotal(entries, tally);
    if |entries| > 0 {
      ChartHeadIsFirstMax(entries);
      var i :| FirstMaxAt(entries, i) && ChartData(entries)[0] == entries[i];
      if "" !in tally {
        assert MostCommon(entries) == entries[i].name;
        forall name | name in tally ensures tally[name] <= tally[entries[i].name] {
          var j :| 0 <= j < |entries| && entries[j].name == name;
        }
      }
    }
  }

  /** With pairwise distinct names, no row occurs twice. */
  lemma {:induction false} DistinctNamesOnce(bars: seq<Bar>, b: Bar)
    requires forall i, j :: 0 <= i < j < |bars| ==> bars[i].name != bars[j].name
    ensures multiset(bars)[b] <= 1
  {
    if |bars| > 0 {
      var rest := bars[1..];
      assert bars == [bars[0]] + rest;
      DistinctNamesOnce(rest, b);
      if b == bars[0] {
        assert b !in rest;
      }
    }
  }

  /** A row found at two positions occurs at least twice. */
  lemma RepeatedRow(bars: seq<Bar>, i: nat, j: nat)
    requires i < j < |bars| && bars[i] == bars[j]
    ensures multiset(bars)[bars[i]] >= 2
  {
    assert bars == bars[..j] + bars[j..];
    assert bars[i] in bars[..j];
    assert bars[j] in bars[j..];
  }

  /** The chart holds exactly one row per tally key, carrying that key's count. */
  lemma ChartEnumeratesTally(entries: seq<Bar>, tally: map<string, nat>)
    requires Enumerates(entries, tally)
    ensures Enumerates(ChartData(entries), tally)
  {
    var chart := ChartData(entries);
    forall i | 0 <= i < |chart| ensures chart[i].name in tally && tally[chart[i].name] == chart[i].value {
      assert chart[i] in multiset(entries);
    }
    forall i, j | 0 <= i < j < |chart| ensures chart[i].name != chart[j].name {
      if chart[i].name == chart[j].name {
        RepeatedRow(chart, i, j);
        DistinctNamesOnce(entries, chart[i]);
      }
    }
    forall name | name in tally ensures exists i :: 0 <= i < |chart| && chart[i].name == name {
      var k :| 0 <= k < |entries| && entries[k].name == name;
      assert entries[k] in multiset(chart);
    }
  }

  /** "Unique Personas" is the number of keys in the tally. */
  lemma UniquePersonasIsKeyCount(entries: seq<Bar>, tally: map<string, nat>)
    requires Enumerates(entries, tally)
    ensures UniquePersonas(entries) == |tally|
  {
    TotalResponsesIsTotal(entries, tally);
  }
}

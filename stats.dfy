/** The aggregation helpers of utils/stats.py: the per-subject series that
    feed the chart, and the summary behind the statistics message. The
    message text and the float averages are not modelled; the summary keeps
    the integers the text prints. */
module Stats {
  import opened Models
  import opened Grouping

  /** A chart point: (created_at, score). */
  type Point = (int, int)

  /** The (subject id, point) pair each score contributes to the chart data. */
  function ChartItems(scores: seq<ScoreRow>): seq<(string, Point)> {
    seq(|scores|, i requires 0 <= i < |scores| => (scores[i].subjectId, (scores[i].createdAt, scores[i].score)))
  }

  /** The (subject name, score) pair each score contributes to the summary. */
  function NameItems(scores: seq<ScoreRow>): seq<(string, int)> {
    seq(|scores|, i requires 0 <= i < |scores| => (scores[i].subjectName, scores[i].score))
  }

  function Names(scores: seq<ScoreRow>): seq<string> {
    seq(|scores|, i requires 0 <= i < |scores| => scores[i].subjectName)
  }

  /** How many of the scores carry this subject name. */
  function CountNamed(scores: seq<ScoreRow>, name: string): nat {
    multiset(Names(scores))[name]
  }

  /** prepare_simple_chart_data: one entry per distinct subject id, in the
      order the ids first occur, each listing that subject's points in input
      order. */
  method PrepareSimpleChartData(scores: seq<ScoreRow>) returns (keys: seq<string>, data: map<string, seq<Point>>)
    ensures Grouped(ChartItems(scores), Groups(keys, data))
    ensures forall id :: id in data <==> exists i | 0 <= i < |scores| :: scores[i].subjectId == id
    ensures FirstSeen(ChartItems(scores), keys)
    ensures TotalSize(keys, data) == |scores|
  {
    var items := ChartItems(scores);
    keys, data := GroupInOrder(items);
    GroupByContents(items);
    GroupByFirstSeen(items);
    GroupBySizes(items);
    ChartKeys(scores);
  }

  /** The chart data has an entry exactly for the subject ids that occur. */
  lemma ChartKeys(scores: seq<ScoreRow>)
    ensures forall id :: id in GroupBy(ChartItems(scores)).table <==> exists i | 0 <= i < |scores| :: scores[i].subjectId == id
  {
    var items := ChartItems(scores);
    GroupByContents(items);
    var g := GroupBy(items);
    forall id ensures id in g.table <==> exists i | 0 <= i < |scores| :: scores[i].subjectId == id {
      if id in g.table {
        var i :| 0 <= i < |items| && items[i].0 == id;
        assert scores[i].subjectId == id;
      }
      if exists i | 0 <= i < |scores| :: scores[i].subjectId == id {
        var i :| 0 <= i < |scores| && scores[i].subjectId == id;
        assert items[i].0 == id;
      }
    }
  }

  /** The summary get_simple_stats prints: the attempt count, the best
      result, and per subject name the number of attempts. */
  datatype Summary = NoData | Report(total: nat, best: int, bySubject: seq<(string, nat)>)

  function LineCounts(lines: seq<(string, nat)>): nat {
    if lines == [] then 0 else LineCounts(lines[..|lines| - 1]) + lines[|lines| - 1].1
  }

  lemma {:induction false} ValuesOfCount<V>(items: seq<(string, V)>, keys: seq<string>, k: string)
    requires |keys| == |items| && forall i | 0 <= i < |items| :: keys[i] == items[i].0
    ensures |ValuesOf(items, k)| == multiset(keys)[k]
  {
    if items != [] {
      var n := |items| - 1;
      ValuesOfCount(items[..n], keys[..n], k);
      assert keys == keys[..n] + [keys[n]];
    }
  }

  /** `max(s.score for s in scores)`. */
  method MaxScore(scores: seq<ScoreRow>) returns (best: int)
    requires scores != []
    ensures exists i | 0 <= i < |scores| :: scores[i].score == best
    ensures forall i | 0 <= i < |scores| :: scores[i].score <= best
  {
    best := scores[0].score;
    for i := 1 to |scores|
      invariant exists j | 0 <= j < i :: scores[j].score == best
      invariant forall j | 0 <= j < i :: scores[j].score <= best
    {
      if scores[i].score > best {
        best := scores[i].score;
      }
    }
  }

  function LineNames(lines: seq<(string, nat)>): seq<string> {
    seq(|lines|, i requires 0 <= i < |lines| => lines[i].0)
  }

  /** Grouping by name lists exactly the names that occur, once each and in
      first-seen order, each with as many scores as carry that name. */
  lemma NameGroups(scores: seq<ScoreRow>)
    ensures var g := GroupBy(NameItems(scores));
      Distinct(g.keys) && FirstSeen(NameItems(scores), g.keys)
      && (forall k | k in g.keys :: k in g.table)
      && (forall name :: name in g.keys <==> name in Names(scores))
      && (forall k | k in g.table :: |g.table[k]| == CountNamed(scores, k))
      && TotalSize(g.keys, g.table) == |scores|
  {
    var items := NameItems(scores);
    GroupByContents(items);
    GroupByFirstSeen(items);
    GroupBySizes(items);
    NameKeys(scores);
    NameCounts(scores);
  }

  lemma NameKeys(scores: seq<ScoreRow>)
    ensures forall name :: name in GroupBy(NameItems(scores)).keys <==> name in Names(scores)
  {
    var items := NameItems(scores);
    GroupByContents(items);
    var g := GroupBy(items);
    forall name ensures name in g.keys <==> name in Names(scores) {
      if name in Names(scores) {
        var i :| 0 <= i < |scores| && Names(scores)[i] == name;
        assert items[i].0 == name;
      }
      if name in g.keys {
        assert name in g.table;
        var i :| 0 <= i < |items| && items[i].0 == name;
        assert Names(scores)[i] == name;
      }
    }
  }

  lemma NameCounts(scores: seq<ScoreRow>)
    ensures var g := GroupBy(NameItems(scores));
      forall k | k in g.table :: |g.table[k]| == CountNamed(scores, k)
  {
    var items := NameItems(scores);
    GroupByContents(items);
    var g := GroupBy(items);
    forall k | k in g.table ensures |g.table[k]| == CountNamed(scores, k) {
      ValuesOfCount(items, Names(scores), k);
    }
  }

  /** The loop over the grouped names that prints one line per subject,
      each with the size of its group. */
  method CountLines(names: seq<string>, table: map<string, seq<int>>) returns (lines: seq<(string, nat)>)
    requires forall k | k in names :: k in table
    ensures LineNames(lines) == names
    ensures forall j | 0 <= j < |lines| :: lines[j].1 == |table[names[j]]|
    ensures LineCounts(lines) == TotalSize(names, table)
  {
    lines := [];
    for i := 0 to |names|
      invariant |lines| == i
      invariant forall j | 0 <= j < i :: lines[j] == (names[j], |table[names[j]]|)
      invariant LineCounts(lines) == TotalSize(names[..i], table)
    {
      assert names[..i + 1][..i] == names[..i];
      lines := lines + [(names[i], |table[names[i]]|)];
    }
    assert names[..|names|] == names;
  }

  /** The per-subject part of get_simple_stats: the scores grouped by subject
      name, then one line per name with that group's size. */
  method SubjectLines(scores: seq<ScoreRow>) returns (lines: seq<(string, nat)>)
    ensures Distinct(LineNames(lines)) && FirstSeen(NameItems(scores), LineNames(lines))
    ensures forall name :: name in LineNames(lines) <==> name in Names(scores)
    ensures forall i | 0 <= i < |lines| :: lines[i].1 == CountNamed(scores, lines[i].0)
    ensures LineCounts(lines) == |scores|
  {
    var names, table := GroupInOrder(NameItems(scores));
    NameGroups(scores);
    lines := CountLines(names, table);
  }

  /** get_simple_stats: no data for an empty history; otherwise the count, the
      maximum score, and the attempts per subject name, names in first-seen
      order. */
  method GetSimpleStats(scores: seq<ScoreRow>) returns (r: Summary)
    ensures r.NoData? <==> scores == []
    ensures r.Report? ==>
              r.total == |scores|
              && (exists i | 0 <= i < |scores| :: scores[i].score == r.best)
              && (forall i | 0 <= i < |scores| :: scores[i].score <= r.best)
    ensures r.Report? ==>
              Distinct(LineNames(r.bySubject)) && FirstSeen(NameItems(scores), LineNames(r.bySubject))
              && (forall name :: name in LineNames(r.bySubject) <==> name in Names(scores))
              && (forall i | 0 <= i < |r.bySubject| :: r.bySubject[i].1 == CountNamed(scores, r.bySubject[i].0))
              && LineCounts(r.bySubject) == r.total
  {
    if scores == [] {
      return NoData;
    }
    var best := MaxScore(scores);
    var lines := SubjectLines(scores);
    r := Report(|scores|, best, lines);
  }
}

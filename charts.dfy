/** The per-subject loop of generate_simple_progress_chart in
    utils/simple_charts.py: every non-empty series is sorted in place by
    timestamp, drawn in its subject's colour and given a legend entry. The
    drawing itself is not modelled; a drawn line is recorded as the colour
    and the point lists handed to the plotting call. */
module Charts {
  import opened Results
  import opened Catalog
  import opened TimeSort
  import CrudSpec

  /** SUBJECT_COLORS. */
  const SubjectColors: map<string, string> := map[
    "math_profile" := "#FF6B6B",
    "math_basic" := "#4ECDC4",
    "russian" := "#45B7D1",
    "physics" := "#96CEB4",
    "chemistry" := "#FFEAA7",
    "biology" := "#DDA0DD",
    "informatics" := "#98D8C8",
    "history" := "#F7DC6F",
    "social" := "#BB8FCE",
    "geography" := "#82E0AA",
    "literature" := "#F1948A",
    "english" := "#85C1E9",
    "german" := "#F8C471",
    "french" := "#D7BDE2",
    "spanish" := "#76D7C4",
    "chinese" := "#F9E79F"
  ]

  /** The colour of a subject the table does not know. */
  const DefaultColor := "#000000"

  /** `SUBJECT_COLORS.get(subject_id, "#000000")`. */
  function ColorOf(id: string): string {
    if id in SubjectColors then SubjectColors[id] else DefaultColor
  }

  predicate IsHexDigit(c: char) {
    '0' <= c <= '9' || 'A' <= c <= 'F'
  }

  /** "#RRGGBB" with upper-case hexadecimal digits. */
  predicate IsHexColor(s: string) {
    |s| == 7 && s[0] == '#' && forall i | 1 <= i < 7 :: IsHexDigit(s[i])
  }

  /** Every colour is a "#RRGGBB" string, and a subject is drawn in black
      exactly when the table does not know it. */
  lemma ColorOfIsHex(id: string)
    ensures IsHexColor(ColorOf(id))
    ensures ColorOf(id) == DefaultColor <==> id !in SubjectColors
  {
  }

  /** `EGE_SUBJECTS_DICT.get(subject_id, subject_id)`. */
  function LabelOf(catalog: seq<(string, string)>, id: string): string {
    match Lookup(catalog, id)
    case Some(name) => name
    case None => id
  }

  /** The label is the catalog name of a known subject and the id itself
      otherwise. */
  lemma LabelOfEntries(catalog: seq<(string, string)>, id: string)
    requires CrudSpec.DistinctIds(catalog)
    ensures forall i | 0 <= i < |catalog| && catalog[i].0 == id :: LabelOf(catalog, id) == catalog[i].1
    ensures (forall i | 0 <= i < |catalog| :: catalog[i].0 != id) ==> LabelOf(catalog, id) == id
  {
    forall i | 0 <= i < |catalog| && catalog[i].0 == id
      ensures LabelOf(catalog, id) == catalog[i].1
    {
      LookupEntry(catalog, i);
    }
  }

  /** What one `ax.plot(dates, scores, color=color)` call is given. */
  datatype Line = Line(color: string, dates: seq<int>, scores: seq<int>)

  function Plot(id: string, points: seq<Point>): Line {
    Line(ColorOf(id),
         seq(|points|, i requires 0 <= i < |points| => points[i].0),
         seq(|points|, i requires 0 <= i < |points| => points[i].1))
  }

  /** The legend the loop builds from the series as they were before it ran:
      one (handle, label) per non-empty series, in series order. */
  function Legend(series: seq<(string, seq<Point>)>, catalog: seq<(string, string)>): seq<(Line, string)> {
    if series == [] then []
    else
      var (id, points) := series[|series| - 1];
      Legend(series[..|series| - 1], catalog)
        + (if points == [] then [] else [(Plot(id, SortByTime(points)), LabelOf(catalog, id))])
  }

  function NonEmpty(series: seq<(string, seq<Point>)>): nat {
    if series == [] then 0
    else NonEmpty(series[..|series| - 1]) + (if series[|series| - 1].1 == [] then 0 else 1)
  }

  /** The legend has one entry per non-empty series, each entry a non-empty
      line drawn in date order in that subject's colour under that
      subject's label. */
  lemma {:induction false} LegendEntries(series: seq<(string, seq<Point>)>, catalog: seq<(string, string)>)
    ensures |Legend(series, catalog)| == NonEmpty(series)
    ensures forall k | 0 <= k < |Legend(series, catalog)| ::
              exists i | 0 <= i < |series| ::
                series[i].1 != []
                && Legend(series, catalog)[k] == (Plot(series[i].0, SortByTime(series[i].1)), LabelOf(catalog, series[i].0))
    ensures forall k | 0 <= k < |Legend(series, catalog)| ::
              var line := Legend(series, catalog)[k].0;
              line.dates != [] && forall a, b | 0 <= a < b < |line.dates| :: line.dates[a] <= line.dates[b]
  {
    if series != [] {
      var n := |series| - 1;
      var p := series[..n];
      LegendEntries(p, catalog);
      var (id, points) := series[n];
      var l := Legend(series, catalog);
      var lp := Legend(p, catalog);
      forall k | 0 <= k < |lp|
        ensures exists i | 0 <= i < |series| ::
                  series[i].1 != []
                  && l[k] == (Plot(series[i].0, SortByTime(series[i].1)), LabelOf(catalog, series[i].0))
      {
        var i :| 0 <= i < |p| && p[i].1 != []
                 && lp[k] == (Plot(p[i].0, SortByTime(p[i].1)), LabelOf(catalog, p[i].0));
        assert series[i] == p[i];
      }
      if points != [] {
        SortByTimeSorts(points);
        assert l[|lp|] == (Plot(series[n].0, SortByTime(series[n].1)), LabelOf(catalog, series[n].0));
      }
    }
  }

  /** The series contents, keyed as the dictionary iterates. */
  function Contents(series: seq<(string, array<Point>)>): seq<(string, seq<Point>)>
    reads set i | 0 <= i < |series| :: series[i].1
  {
    seq(|series|, i reads set i | 0 <= i < |series| :: series[i].1
                    requires 0 <= i < |series| => (series[i].0, series[i].1[..]))
  }

  /** The legend entries as (handle, label) pairs. */
  function Zip(handles: seq<Line>, labels: seq<string>): seq<(Line, string)>
    requires |handles| == |labels|
  {
    seq(|handles|, k requires 0 <= k < |handles| => (handles[k], labels[k]))
  }

  /** One iteration of the loop: skip an empty series, otherwise sort it in
      place and return what gets drawn and the label. */
  method DrawOne(id: string, data: array<Point>, catalog: seq<(string, string)>)
    returns (entry: seq<(Line, string)>)
    modifies data
    ensures data[..] == SortByTime(old(data[..]))
    ensures entry == Legend([(id, old(data[..]))], catalog)
  {
    if data.Length == 0 {
      return [];
    }
    SortSeries(data);
    entry := [(Plot(id, data[..]), LabelOf(catalog, id))];
  }

  /** The loop of generate_simple_progress_chart over `scores_data.items()`. */
  method DrawSeries(series: seq<(string, array<Point>)>, catalog: seq<(string, string)>)
    returns (handles: seq<Line>, labels: seq<string>)
    requires forall i, j | 0 <= i < |series| && 0 <= j < |series| && i != j :: series[i].1 != series[j].1
    modifies set i | 0 <= i < |series| :: series[i].1
    ensures forall i | 0 <= i < |series| :: series[i].1[..] == SortByTime(old(series[i].1[..]))
    ensures |handles| == |labels| && Zip(handles, labels) == Legend(old(Contents(series)), catalog)
  {
    ghost var input := Contents(series);
    handles, labels := [], [];
    for i := 0 to |series|
      invariant forall k | 0 <= k < i :: series[k].1[..] == SortByTime(input[k].1)
      invariant forall k | i <= k < |series| :: series[k].1[..] == input[k].1
      invariant |handles| == |labels| && Zip(handles, labels) == Legend(input[..i], catalog)
    {
      handles, labels := DrawStep(series[i].0, series[i].1, catalog, input, i, handles, labels);
    }
    assert input[..|series|] == input;
  }

  /** The loop body: draw series i and append its legend entry, if any. */
  method DrawStep(id: string, data: array<Point>, catalog: seq<(string, string)>,
                  ghost input: seq<(string, seq<Point>)>, ghost i: int,
                  handles: seq<Line>, labels: seq<string>)
    returns (handles': seq<Line>, labels': seq<string>)
    requires 0 <= i < |input| && input[i] == (id, data[..])
    requires |handles| == |labels| && Zip(handles, labels) == Legend(input[..i], catalog)
    modifies data
    ensures data[..] == SortByTime(input[i].1)
    ensures |handles'| == |labels'| && Zip(handles', labels') == Legend(input[..i + 1], catalog)
  {
    var entry := DrawOne(id, data, catalog);
    LegendStep(input, i, catalog);
    handles', labels' := handles, labels;
    if entry != [] {
      handles' := handles + [entry[0].0];
      labels' := labels + [entry[0].1];
    }
  }

  lemma LegendStep(input: seq<(string, seq<Point>)>, i: int, catalog: seq<(string, string)>)
    requires 0 <= i < |input|
    ensures Legend(input[..i + 1], catalog) == Legend(input[..i], catalog) + Legend([input[i]], catalog)
  {
    assert input[..i + 1][..i] == input[..i];
    assert [input[i]][..0] == [];
  }
}

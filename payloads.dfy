/** Callback payloads of the goals and subjects keyboards: how they are built
    from a subject id, how the handlers read the id back, and which handler
    the bot routes each payload to. */
module Payloads {
  import opened Results

  const SetSubjectPrefix: string := "set_subject_"
  const UnsetSubjectPrefix: string := "unset_subject_"
  const DesiredScorePrefix: string := "set_desired_score_"
  const DesiredScoreMenuPrefix: string := "set_desired_score_menu_"
  const AddScorePrefix: string := "add_score_"
  const AddScoreMenuPrefix: string := "add_score_menu_"

  /** Python's `s.startswith(prefix)`. */
  predicate StartsWith(s: string, prefix: string) {
    |prefix| <= |s| && s[..|prefix|] == prefix
  }

  /** Python's `s[k:]`, which is empty when k is past the end. */
  function Drop(s: string, k: nat): (r: string)
    ensures |r| == if k <= |s| then |s| - k else 0
  {
    if k <= |s| then s[k..] else ""
  }

  /** The index of the first `c` in `s`. */
  function Find(s: string, c: char): (r: Option<nat>)
    ensures r.Some? ==> r.value < |s| && s[r.value] == c
  {
    if |s| == 0 then None
    else if s[0] == c then Some(0)
    else
      match Find(s[1..], c)
      case None => None
      case Some(i) => Some(i + 1)
  }

  /** Find fails exactly when the character does not occur. */
  lemma {:induction false} FindAbsent(s: string, c: char)
    ensures Find(s, c).None? <==> c !in s
  {
    if |s| > 0 && s[0] != c {
      FindAbsent(s[1..], c);
      assert s == [s[0]] + s[1..];
    }
  }

  /** Find stops at the first occurrence. */
  lemma {:induction false} FindIsFirst(s: string, c: char)
    ensures Find(s, c).Some? ==> c !in s[..Find(s, c).value]
  {
    if |s| > 0 && s[0] != c {
      FindIsFirst(s[1..], c);
      match Find(s[1..], c)
      case None =>
      case Some(i) => assert s[..i + 1] == [s[0]] + s[1..][..i];
    }
  }

  /** Python's `s.split(sep, maxsplit)` for a one-character separator: at
      most `maxsplit` cuts, taken from the left. */
  function Split(s: string, sep: char, maxsplit: nat): (pieces: seq<string>)
    ensures 1 <= |pieces| <= maxsplit + 1
    decreases |s|
  {
    if maxsplit == 0 then [s]
    else
      match Find(s, sep)
      case None => [s]
      case Some(i) => [s[..i]] + Split(s[i + 1..], sep, maxsplit - 1)
  }

  /** Python's `sep.join(pieces)`. */
  function Join(pieces: seq<string>, sep: char): string
    requires |pieces| >= 1
  {
    if |pieces| == 1 then pieces[0] else pieces[0] + [sep] + Join(pieces[1..], sep)
  }

  /** Python's `pieces[-1]`. */
  function Last(pieces: seq<string>): string
    requires |pieces| >= 1
  {
    pieces[|pieces| - 1]
  }

  /** `text.split("_", 2)[-1]`, how the subjects menu reads the id out of a
      toggle payload. */
  function ToggledSubject(text: string): string {
    Last(Split(text, '_', 2))
  }

  /** One cut: the text before the first separator, then the split of the rest. */
  lemma SplitCut(s: string, sep: char, maxsplit: nat)
    requires maxsplit > 0 && Find(s, sep).Some?
    ensures var i := Find(s, sep).value;
            Split(s, sep, maxsplit) == [s[..i]] + Split(s[i + 1..], sep, maxsplit - 1)
  {
  }

  /** A string is its text before position i, the character at i, and the rest. */
  lemma CutAt(s: string, i: nat)
    requires i < |s|
    ensures s == s[..i] + [s[i]] + s[i + 1..]
  {
  }

  /** No piece but the last holds the separator, nor the last when fewer
      than `maxsplit` cuts were made. */
  predicate Clean(pieces: seq<string>, sep: char, maxsplit: nat) {
    && (forall j | 0 <= j < |pieces| - 1 :: sep !in pieces[j])
    && (1 <= |pieces| <= maxsplit ==> sep !in pieces[|pieces| - 1])
  }

  /** Every cut is made at a separator: no piece but the last holds one,
      and the last holds none either when fewer than `maxsplit` cuts were
      made. */
  lemma {:induction false} SplitPieces(s: string, sep: char, maxsplit: nat)
    ensures Clean(Split(s, sep, maxsplit), sep, maxsplit)
    decreases |s|
  {
    if maxsplit == 0 || Find(s, sep).None? {
      SplitUncut(s, sep, maxsplit);
    } else {
      var i := Find(s, sep).value;
      SplitPieces(s[i + 1..], sep, maxsplit - 1);
      SplitCutClean(s, sep, maxsplit);
    }
  }

  /** Without a cut the one piece is the whole input. */
  lemma SplitUncut(s: string, sep: char, maxsplit: nat)
    requires maxsplit == 0 || Find(s, sep).None?
    ensures Clean(Split(s, sep, maxsplit), sep, maxsplit)
  {
    FindAbsent(s, sep);
    assert Split(s, sep, maxsplit) == [s];
  }

  /** One cut keeps the pieces clean when the rest splits cleanly. */
  lemma SplitCutClean(s: string, sep: char, maxsplit: nat)
    requires maxsplit > 0 && Find(s, sep).Some?
    requires var i := Find(s, sep).value;
             Clean(Split(s[i + 1..], sep, maxsplit - 1), sep, maxsplit - 1)
    ensures Clean(Split(s, sep, maxsplit), sep, maxsplit)
  {
    var i := Find(s, sep).value;
    var rest := Split(s[i + 1..], sep, maxsplit - 1);
    FindIsFirst(s, sep);
    SplitCut(s, sep, maxsplit);
    assert Split(s, sep, maxsplit) == [s[..i]] + rest;
    PiecesCons(s[..i], rest, sep, maxsplit);
  }

  /** A separator-free head in front of pieces cut at separators. */
  lemma PiecesCons(head: string, rest: seq<string>, sep: char, maxsplit: nat)
    requires sep !in head && 1 <= |rest| && maxsplit > 0
    requires Clean(rest, sep, maxsplit - 1)
    ensures Clean([head] + rest, sep, maxsplit)
  {
    var pieces := [head] + rest;
    forall j | 0 <= j < |pieces| - 1
      ensures sep !in pieces[j]
    {
      if j > 0 { assert pieces[j] == rest[j - 1]; }
    }
    assert pieces[|pieces| - 1] == rest[|rest| - 1];
  }

  /** Splitting loses nothing: joining the pieces gives the input back. */
  lemma {:induction false} SplitJoin(s: string, sep: char, maxsplit: nat)
    ensures Join(Split(s, sep, maxsplit), sep) == s
    decreases |s|
  {
    var found := Find(s, sep);
    if maxsplit == 0 || found.None? {
      assert Split(s, sep, maxsplit) == [s];
    } else {
      var i := found.value;
      var rest := Split(s[i + 1..], sep, maxsplit - 1);
      SplitJoin(s[i + 1..], sep, maxsplit - 1);
      assert Join(rest, sep) == s[i + 1..];
      SplitCut(s, sep, maxsplit);
      var pieces := [s[..i]] + rest;
      assert pieces[0] == s[..i] && pieces[1..] == rest;
      assert s[i] == sep;
      CutAt(s, i);
      calc {
        Join(Split(s, sep, maxsplit), sep);
        Join(pieces, sep);
        s[..i] + [sep] + Join(rest, sep);
        s[..i] + [sep] + s[i + 1..];
      }
    }
  }

  lemma {:induction false} FindAfterWord(word: string, rest: string, sep: char)
    requires sep !in word
    ensures Find(word + [sep] + rest, sep) == Some(|word|)
  {
    if |word| > 0 {
      assert (word + [sep] + rest)[1..] == word[1..] + [sep] + rest;
      FindAfterWord(word[1..], rest, sep);
    }
  }

  /** Two separator-free words, then the id: the two cuts fall after the
      words, so the id comes back whole even when it holds separators. */
  lemma SplitTwoWords(first: string, second: string, id: string)
    requires '_' !in first && '_' !in second
    ensures Split(first + "_" + second + "_" + id, '_', 2) == [first, second, id]
  {
    var tail := second + ['_'] + id;
    var s := first + ['_'] + tail;
    assert first + "_" + second + "_" + id == s;
    FindAfterWord(first, tail, '_');
    assert s[..|first|] == first && s[|first| + 1..] == tail;
    assert Split(s, '_', 2) == [first] + Split(tail, '_', 1);
    FindAfterWord(second, id, '_');
    assert tail[..|second|] == second && tail[|second| + 1..] == id;
    assert Split(tail, '_', 1) == [second] + Split(id, '_', 0);
  }

  /** The id put into a subjects-menu button comes back out of it. */
  lemma ToggleRoundTrip(id: string)
    ensures ToggledSubject(SetSubjectPrefix + id) == id
    ensures ToggledSubject(UnsetSubjectPrefix + id) == id
  {
    ToggledSubjectOf(SetSubjectPrefix + id, "set", id);
    ToggledSubjectOf(UnsetSubjectPrefix + id, "unset", id);
  }

  lemma ToggledSubjectOf(payload: string, verb: string, id: string)
    requires '_' !in verb && payload == verb + "_subject_" + id
    ensures ToggledSubject(payload) == id
  {
    assert payload == verb + "_" + "subject" + "_" + id;
    SplitTwoWords(verb, "subject", id);
  }

  /** Slicing off the prefix returns the id of a picker button. */
  lemma PickRoundTrip(prefix: string, id: string)
    ensures StartsWith(prefix + id, prefix)
    ensures Drop(prefix + id, |prefix|) == id
  {
    assert (prefix + id)[..|prefix|] == prefix;
    assert (prefix + id)[|prefix|..] == id;
  }

  /** The callback handlers, in the order they are registered. */
  datatype Route =
    | ToSubjects
    | ToDesiredScoreMenu
    | ToDesiredScorePick
    | ToAddScoreMenu
    | ToAddScorePick
    | Unrouted

  /** The first registered handler whose filter accepts the payload; an empty
      payload is accepted by none. */
  function RouteCallback(data: string): (r: Route)
    ensures r == Unrouted <==>
              data == "" || !(
                || StartsWith(data, SetSubjectPrefix) || StartsWith(data, UnsetSubjectPrefix) || data == "subjects"
                || StartsWith(data, DesiredScorePrefix) || data == "set_desired_score"
                || StartsWith(data, AddScorePrefix) || data == "add_score")
  {
    MenuPrefixes(data);
    if data == "" then Unrouted
    else if StartsWith(data, SetSubjectPrefix) || StartsWith(data, UnsetSubjectPrefix) || data == "subjects" then
      ToSubjects
    else if StartsWith(data, DesiredScoreMenuPrefix) || data == "set_desired_score" then
      ToDesiredScoreMenu
    else if StartsWith(data, DesiredScorePrefix) then
      ToDesiredScorePick
    else if StartsWith(data, AddScoreMenuPrefix) || data == "add_score" then
      ToAddScoreMenu
    else if StartsWith(data, AddScorePrefix) then
      ToAddScorePick
    else
      Unrouted
  }

  /** A menu payload also starts with its picker prefix. */
  lemma MenuPrefixes(data: string)
    ensures StartsWith(data, DesiredScoreMenuPrefix) ==> StartsWith(data, DesiredScorePrefix)
    ensures StartsWith(data, AddScoreMenuPrefix) ==> StartsWith(data, AddScorePrefix)
  {
    assert DesiredScoreMenuPrefix[..|DesiredScorePrefix|] == DesiredScorePrefix;
    assert AddScoreMenuPrefix[..|AddScorePrefix|] == AddScorePrefix;
    if StartsWith(data, DesiredScoreMenuPrefix) {
      assert data[..|DesiredScorePrefix|] == data[..|DesiredScoreMenuPrefix|][..|DesiredScorePrefix|];
    }
    if StartsWith(data, AddScoreMenuPrefix) {
      assert data[..|AddScorePrefix|] == data[..|AddScoreMenuPrefix|][..|AddScorePrefix|];
    }
  }

  lemma StartsWithConcat(prefix: string, id: string, more: string)
    ensures StartsWith(prefix + id, prefix + more) <==> StartsWith(id, more)
  {
    if StartsWith(id, more) {
      assert (prefix + id)[..|prefix + more|] == prefix + id[..|more|];
    }
    if StartsWith(prefix + id, prefix + more) {
      assert id[..|more|] == (prefix + id)[..|prefix + more|][|prefix|..];
    }
  }

  /** Each button payload reaches the handler that reads it, except that a
      picker payload whose id begins with "menu_" is taken by the menu
      handler registered before the picker. */
  lemma RouteOfPayloads(id: string)
    ensures RouteCallback(SetSubjectPrefix + id) == ToSubjects
    ensures RouteCallback(UnsetSubjectPrefix + id) == ToSubjects
    ensures RouteCallback(DesiredScorePrefix + id)
         == if StartsWith(id, "menu_") then ToDesiredScoreMenu else ToDesiredScorePick
    ensures RouteCallback(AddScorePrefix + id)
         == if StartsWith(id, "menu_") then ToAddScoreMenu else ToAddScorePick
  {
    PickRoundTrip(SetSubjectPrefix, id);
    PickRoundTrip(UnsetSubjectPrefix, id);
    RouteOfGoalPayload(id);
    RouteOfScorePayload(id);
  }

  lemma RouteOfGoalPayload(id: string)
    ensures RouteCallback(DesiredScorePrefix + id)
         == if StartsWith(id, "menu_") then ToDesiredScoreMenu else ToDesiredScorePick
  {
    var goal := DesiredScorePrefix + id;
    PickRoundTrip(DesiredScorePrefix, id);
    assert goal[4] == 'd';
    assert !StartsWith(goal, SetSubjectPrefix) && !StartsWith(goal, UnsetSubjectPrefix);
    assert DesiredScoreMenuPrefix == DesiredScorePrefix + "menu_";
    StartsWithConcat(DesiredScorePrefix, id, "menu_");
    assert goal != "set_desired_score" && goal != "subjects";
  }

  lemma RouteOfScorePayload(id: string)
    ensures RouteCallback(AddScorePrefix + id)
         == if StartsWith(id, "menu_") then ToAddScoreMenu else ToAddScorePick
  {
    var score := AddScorePrefix + id;
    PickRoundTrip(AddScorePrefix, id);
    assert score[0] == 'a';
    assert !StartsWith(score, SetSubjectPrefix) && !StartsWith(score, UnsetSubjectPrefix);
    assert !StartsWith(score, DesiredScorePrefix) && !StartsWith(score, DesiredScoreMenuPrefix);
    assert AddScoreMenuPrefix == AddScorePrefix + "menu_";
    StartsWithConcat(AddScorePrefix, id, "menu_");
    assert score != "add_score" && score != "subjects" && score != "set_desired_score";
  }
}

/** The inline keyboards of the goals and subjects handlers: the subjects
    menu (one toggle button per catalog entry, laid out two per row) and the
    subject pickers of the goal and score menus. */
module Keyboard {
  import opened Results
  import opened Models
  import opened Payloads

  datatype Button = Button(text: string, payload: string)

  /** One keyboard row: a button and, unless it is the last odd one, its
      neighbour. */
  datatype Row = Row(left: Button, right: Option<Button>)

  const ChosenMark: string := "✅ "

  /** The subjects-menu button of one catalog entry: marked, and carrying an
      unset payload, exactly when the user has chosen that subject. */
  function SubjectButton(entry: (string, string), chosen: set<string>): Button {
    if entry.0 in chosen then Button(ChosenMark + entry.1, UnsetSubjectPrefix + entry.0)
    else Button(entry.1, SetSubjectPrefix + entry.0)
  }

  /** Every subjects-menu button toggles its own subject: the handler reads
      the entry's id back out of the payload, the payload reaches the
      subjects handler, and it is an unset payload exactly when the subject
      is chosen. */
  lemma SubjectButtonToggles(entry: (string, string), chosen: set<string>)
    ensures var b := SubjectButton(entry, chosen);
            && ToggledSubject(b.payload) == entry.0
            && RouteCallback(b.payload) == ToSubjects
            && (StartsWith(b.payload, UnsetSubjectPrefix) <==> entry.0 in chosen)
            && (StartsWith(b.payload, SetSubjectPrefix) <==> entry.0 !in chosen)
            && (b.text == if entry.0 in chosen then ChosenMark + entry.1 else entry.1)
  {
    var b := SubjectButton(entry, chosen);
    ToggleRoundTrip(entry.0);
    RouteOfPayloads(entry.0);
    PickRoundTrip(SetSubjectPrefix, entry.0);
    PickRoundTrip(UnsetSubjectPrefix, entry.0);
    assert b.payload[0] == if entry.0 in chosen then 'u' else 's';
  }

  /** The catalog walk of the subjects menu, one button per entry in catalog
      order. */
  method BuildSubjectButtons(catalog: seq<(string, string)>, chosen: set<string>) returns (buttons: seq<Button>)
    ensures |buttons| == |catalog|
    ensures forall i | 0 <= i < |catalog| :: buttons[i] == SubjectButton(catalog[i], chosen)
  {
    buttons := [];
    for i := 0 to |catalog|
      invariant |buttons| == i
      invariant forall j | 0 <= j < i :: buttons[j] == SubjectButton(catalog[j], chosen)
    {
      var id, name := catalog[i].0, catalog[i].1;
      var button: Button;
      if id in chosen {
        button := Button(ChosenMark + name, UnsetSubjectPrefix + id);
      } else {
        button := Button(name, SetSubjectPrefix + id);
      }
      buttons := buttons + [button];
    }
  }

  /** Rows of two, the last one possibly single. */
  function Layout(buttons: seq<Button>): seq<Row>
    decreases |buttons|
  {
    if |buttons| == 0 then []
    else if |buttons| == 1 then [Row(buttons[0], None)]
    else [Row(buttons[0], Some(buttons[1]))] + Layout(buttons[2..])
  }

  /** The buttons of the rows, read left to right, top to bottom. */
  function Flatten(rows: seq<Row>): seq<Button> {
    if |rows| == 0 then []
    else
      [rows[0].left] + (if rows[0].right.Some? then [rows[0].right.value] else []) + Flatten(rows[1..])
  }

  /** The layout keeps every button in order, makes ceil(n/2) rows, and only
      the last row of an odd count is single. */
  lemma {:induction false} LayoutShape(buttons: seq<Button>)
    ensures var rows := Layout(buttons);
            && Flatten(rows) == buttons
            && |rows| == (|buttons| + 1) / 2
            && (forall i | 0 <= i < |rows| - 1 :: rows[i].right.Some?)
            && (|rows| > 0 ==> (rows[|rows| - 1].right.None? <==> |buttons| % 2 == 1))
    decreases |buttons|
  {
    if |buttons| >= 2 {
      var rows := Layout(buttons);
      var rest := Layout(buttons[2..]);
      LayoutShape(buttons[2..]);
      assert rows[1..] == rest;
      assert forall i | 1 <= i < |rows| :: rows[i] == rest[i - 1];
    }
  }

  /** `for i in range(0, len(buttons), 2)`: one row per step. */
  method LayoutRows(buttons: seq<Button>) returns (rows: seq<Row>)
    ensures rows == Layout(buttons)
  {
    rows := [];
    var i := 0;
    while i < |buttons|
      invariant i <= |buttons| ==> rows + Layout(buttons[i..]) == Layout(buttons)
      invariant i > |buttons| ==> i == |buttons| + 1 && rows == Layout(buttons)
    {
      var right := if i + 1 < |buttons| then Some(buttons[i + 1]) else None;
      if i + 2 <= |buttons| {
        assert buttons[i..][2..] == buttons[i + 2..];
      }
      rows := rows + [Row(buttons[i], right)];
      i := i + 2;
    }
  }

  /** A goal or score picker button of one subscribed subject. */
  function PickerButton(subject: Subject, prefix: string): Button {
    Button(subject.name, prefix + subject.id)
  }

  /** The subscribed-subjects walk of a picker menu, one button per subject in
      the order the query returned them. */
  method BuildPickerButtons(subjects: seq<Subject>, prefix: string) returns (buttons: seq<Button>)
    ensures |buttons| == |subjects|
    ensures forall i | 0 <= i < |subjects| :: buttons[i] == PickerButton(subjects[i], prefix)
    ensures forall i | 0 <= i < |subjects| ::
              buttons[i].text == subjects[i].name && StartsWith(buttons[i].payload, prefix)
              && Drop(buttons[i].payload, |prefix|) == subjects[i].id
  {
    buttons := [];
    for i := 0 to |subjects|
      invariant |buttons| == i
      invariant forall j | 0 <= j < i :: buttons[j] == PickerButton(subjects[j], prefix)
    {
      buttons := buttons + [Button(subjects[i].name, prefix + subjects[i].id)];
    }
    forall i | 0 <= i < |subjects|
      ensures StartsWith(buttons[i].payload, prefix) && Drop(buttons[i].payload, |prefix|) == subjects[i].id
    {
      PickRoundTrip(prefix, subjects[i].id);
    }
  }
}

/** The state rules of two widgets in modules/widgets.py: the mouse-wheel
    combobox's step through its values, and the collapsible group's flags,
    file list and counter label. Drawing, packing and colours are left out;
    what the widgets show is recorded as plain fields. */
module Widgets {
  import opened Results

  // ---------------------------------------------------------------------------
  // MouseWheelComboBox

  /** The combobox: its values, the text it currently shows, and whether it
      is disabled. */
  datatype Combo = Combo(values: seq<string>, selected: string, disabled: bool)

  /** The combobox after a wheel event, and the value the command was
      called with, if it was. */
  datatype WheelResult = WheelResult(combo: Combo, command: Option<string>)

  /** The delta a binding passes on: `+120` for Button-4, `-120` for Button-5. */
  const Button4Delta: int := 120
  const Button5Delta: int := -120

  /** `linux_delta if linux_delta else event.delta`: a missing or zero Linux
      delta falls back to the event's. */
  function EffectiveDelta(eventDelta: int, linuxDelta: Option<int>): (d: int)
    ensures linuxDelta.Some? && linuxDelta.value != 0 ==> d == linuxDelta.value
    ensures linuxDelta.None? || linuxDelta == Some(0) ==> d == eventDelta
  {
    if linuxDelta.Some? && linuxDelta.value != 0 then linuxDelta.value else eventDelta
  }

  /** `values.index(v)`: the first position holding `v`. */
  function IndexOf(values: seq<string>, v: string): (r: Option<nat>)
    ensures r.Some? <==> v in values
    ensures r.Some? ==> r.value < |values| && values[r.value] == v
                        && forall j :: 0 <= j < r.value ==> values[j] != v
  {
    if |values| == 0 then None
    else if values[0] == v then Some(0)
    else
      var rest := IndexOf(values[1..], v);
      assert values == [values[0]] + values[1..];
      if rest.None? then None else Some(rest.value + 1)
  }

  /** The current index, 0 when the shown text is not among the values. */
  function CurrentIndex(c: Combo): nat {
    var i := IndexOf(c.values, c.selected);
    if i.Some? then i.value else 0
  }

  /** `max(0, min(len(values) - 1, current + step))`, the step being -1
      for a positive delta and +1 otherwise. */
  function NextIndex(len: nat, current: int, delta: int): (r: int)
    ensures len > 0 ==> 0 <= r < len
    ensures 0 <= current < len && delta > 0 ==> r == if current == 0 then 0 else current - 1
    ensures 0 <= current < len && delta <= 0 ==> r == if current == len - 1 then current else current + 1
  {
    var step := if delta > 0 then -1 else 1;
    var target := current + step;
    var capped := if len - 1 < target then len - 1 else target;
    if capped < 0 then 0 else capped
  }

  /** `_on_mouse_wheel(event, linux_delta)`. */
  function OnMouseWheel(c: Combo, hasCommand: bool, eventDelta: int, linuxDelta: Option<int>): (r: WheelResult)
    ensures c.disabled || c.values == [] ==> r == WheelResult(c, None)
    ensures r.combo.values == c.values && r.combo.disabled == c.disabled
    ensures r.combo.selected == c.selected || r.combo.selected in c.values
    ensures r.command.Some? ==> hasCommand && r.command.value == r.combo.selected
  {
    if c.disabled || |c.values| == 0 then WheelResult(c, None)
    else
      var delta := EffectiveDelta(eventDelta, linuxDelta);
      var current := CurrentIndex(c);
      var next := NextIndex(|c.values|, current, delta);
      if next != current then
        var v := c.values[next];
        WheelResult(c.(selected := v), if hasCommand then Some(v) else None)
      else WheelResult(c, None)
  }

  /** A positive delta (scrolling up, Button-4) selects the previous value, a
      zero or negative one (scrolling down, Button-5) the next; the command
      fires with the new value exactly when the index moved, so scrolling past
      either end does nothing. */
  lemma WheelSteps(c: Combo, hasCommand: bool, eventDelta: int, linuxDelta: Option<int>)
    requires !c.disabled && c.values != []
    ensures var r := OnMouseWheel(c, hasCommand, eventDelta, linuxDelta);
            var i := CurrentIndex(c);
            var d := EffectiveDelta(eventDelta, linuxDelta);
            && i < |c.values|
            && (d > 0 && i > 0 ==> r.combo.selected == c.values[i - 1])
            && (d <= 0 && i < |c.values| - 1 ==> r.combo.selected == c.values[i + 1])
            && ((d > 0 && i == 0) || (d <= 0 && i == |c.values| - 1) ==> r == WheelResult(c, None))
            && (r.command.Some? <==> hasCommand && ((d > 0 && i > 0) || (d <= 0 && i < |c.values| - 1)))
  {
  }

  /** Text not among the values counts as the first value: scrolling down
      selects the second value. */
  lemma UnknownTextCountsAsFirst(c: Combo, hasCommand: bool)
    requires !c.disabled && |c.values| >= 2 && c.selected !in c.values
    ensures OnMouseWheel(c, hasCommand, 0, Some(Button5Delta)).combo.selected == c.values[1]
  {
  }

  /** With distinct values, one step down and one step up restore the
      selection, and each step fired the command once. */
  lemma {:induction false} DownThenUpRestores(c: Combo, i: nat)
    requires !c.disabled && i + 1 < |c.values| && c.selected == c.values[i]
    requires forall j, k :: 0 <= j < k < |c.values| ==> c.values[j] != c.values[k]
    ensures var down := OnMouseWheel(c, true, 0, Some(Button5Delta));
            var up := OnMouseWheel(down.combo, true, 0, Some(Button4Delta));
            && down.command == Some(c.values[i + 1])
            && up.combo == c && up.command == Some(c.values[i])
  {
    var down := OnMouseWheel(c, true, 0, Some(Button5Delta));
    assert CurrentIndex(c) == i;
    assert down.combo == c.(selected := c.values[i + 1]);
    assert CurrentIndex(down.combo) == i + 1;
  }

  // ---------------------------------------------------------------------------
  // CollapsibleGroupFrame

  /** What the counter label shows: "(n files)" or "(Completed)". */
  datatype CountsLabel = FileCount(n: nat) | CompletedLabel

  /** The group's state. `contentShown` is whether the content frame is
      packed and `button` the toggle button's text. */
  datatype Group = Group(title: string, isCollapsed: bool, isCompleted: bool, galleryId: string,
                         files: seq<string>, counter: CountsLabel, contentShown: bool, button: string)

  /** The content is shown and the button reads "-" exactly when the group
      is expanded. */
  predicate Consistent(g: Group) {
    g.contentShown == !g.isCollapsed && g.button == (if g.isCollapsed then "+" else "-")
  }

  function NewGroup(title: string): (g: Group)
    ensures Consistent(g) && !g.isCollapsed && !g.isCompleted && g.files == [] && g.counter == FileCount(0)
  {
    Group(title, false, false, "", [], FileCount(0), true, "-")
  }

  /** `toggle`: show or hide the content according to the current flag,
      then flip the flag. */
  function Toggle(g: Group): (r: Group)
    ensures r.isCollapsed == !g.isCollapsed
    ensures Consistent(g) ==> Consistent(r)
    ensures r.files == g.files && r.isCompleted == g.isCompleted && r.counter == g.counter
  {
    if g.isCollapsed then g.(contentShown := true, button := "-", isCollapsed := false)
    else g.(contentShown := false, button := "+", isCollapsed := true)
  }

  /** `add_file`: append the path and show the new count. */
  function AddFile(g: Group, path: string): (r: Group)
    ensures r.files == g.files + [path]
    ensures r.counter == FileCount(|r.files|)
    ensures r.isCollapsed == g.isCollapsed && r.isCompleted == g.isCompleted && r.title == g.title
    ensures r.galleryId == g.galleryId && r.contentShown == g.contentShown && r.button == g.button
    ensures Consistent(g) ==> Consistent(r)
  {
    var files := g.files + [path];
    g.(files := files, counter := FileCount(|files|))
  }

  /** `mark_complete`. */
  function MarkComplete(g: Group): (r: Group)
    ensures r.isCompleted && r.counter == CompletedLabel
    ensures r.files == g.files && r.isCollapsed == g.isCollapsed && r.title == g.title
    ensures r.galleryId == g.galleryId && r.contentShown == g.contentShown && r.button == g.button
    ensures Consistent(g) ==> Consistent(r)
  {
    g.(isCompleted := true, counter := CompletedLabel)
  }

  /** Toggling twice restores a consistent group. */
  lemma ToggleTwice(g: Group)
    requires Consistent(g)
    ensures Toggle(Toggle(g)) == g
  {
  }

  function AddFiles(g: Group, paths: seq<string>): Group
    decreases |paths|
  {
    if |paths| == 0 then g else AddFiles(AddFile(g, paths[0]), paths[1..])
  }

  /** Adding files one by one appends them in order, and the counter then
      counts all of the group's files. */
  lemma {:induction false} AddFilesCounts(g: Group, paths: seq<string>)
    requires |paths| > 0
    ensures AddFiles(g, paths).files == g.files + paths
    ensures AddFiles(g, paths).counter == FileCount(|g.files| + |paths|)
    ensures AddFiles(g, paths).isCompleted == g.isCompleted
    decreases |paths|
  {
    var h := AddFile(g, paths[0]);
    if |paths| > 1 {
      AddFilesCounts(h, paths[1..]);
      assert g.files + [paths[0]] + paths[1..] == g.files + paths;
    } else {
      assert paths == [paths[0]];
    }
  }

  /** Completing twice is the same as completing once, and a completed group
      that gets another file shows its count again. */
  lemma MarkCompleteIdempotent(g: Group, path: string)
    ensures MarkComplete(MarkComplete(g)) == MarkComplete(g)
    ensures AddFile(MarkComplete(g), path).counter == FileCount(|g.files| + 1)
    ensures AddFile(MarkComplete(g), path).isCompleted
  {
  }
}

/** Capturing transition boundaries from the plot (`display_click_data` and the two
    boundary-button callbacks). The state is what the page shows: the selected-point text
    and the two boundary inputs. */
module Selection {
  import opened Base
  import opened TextOps

  datatype SelectionState = SelectionState(selected: Option<string>, left: Option<string>, right: Option<string>)

  /** What can happen on this part of the page. A plot click carries the x coordinate of
      the first clicked point, or nothing when the plot reports no click data. */
  datatype Action = PlotClick(x: Option<int>) | LeftButton | RightButton

  const Initial: SelectionState := SelectionState(None, None, None)

  /** `display_click_data`: the selected-point text becomes `f"{x}"`; without click data
      it is left alone. */
  function DisplayClickData(x: Option<int>): (u: Update<string>)
    ensures x.None? <==> u.NoUpdate?
    ensures x.Some? ==> ParseInt(u.value) == Some(x.value)
  {
    if x.None? then NoUpdate
    else
      ParseIntText(x.value);
      NewValue(IntText(x.value))
  }

  /** One boundary callback: the boundary takes the selected point only when its own button
      fired the callback and a point is selected. */
  function SetBoundary(ownButton: bool, selected: Option<string>): (u: Update<string>)
    ensures u.NewValue? <==> ownButton && selected.Some?
    ensures u.NewValue? ==> u.value == selected.value
  {
    if ownButton && selected.Some? then NewValue(selected.value) else NoUpdate
  }

  /** An input or text element after a callback's output: unchanged on `no_update`. */
  function Shown(u: Update<string>, current: Option<string>): Option<string> {
    if u.NoUpdate? then current else Some(u.value)
  }

  /** The page after one action. A click also notifies both boundary callbacks, but they
      were not fired by their own buttons and leave the boundaries alone. */
  function Step(s: SelectionState, a: Action): SelectionState {
    match a
    case PlotClick(x) =>
      SelectionState(Shown(DisplayClickData(x), s.selected),
                     Shown(SetBoundary(false, s.selected), s.left),
                     Shown(SetBoundary(false, s.selected), s.right))
    case LeftButton =>
      s.(left := Shown(SetBoundary(true, s.selected), s.left))
    case RightButton =>
      s.(right := Shown(SetBoundary(true, s.selected), s.right))
  }

  function Run(s: SelectionState, actions: seq<Action>): SelectionState
    decreases |actions|
  {
    if actions == [] then s else Run(Step(s, actions[0]), actions[1..])
  }

  /** A click without data changes nothing; a click with data changes only the selected
      point. */
  lemma ClickEffect(s: SelectionState, x: Option<int>)
    ensures x.None? ==> Step(s, PlotClick(x)) == s
    ensures x.Some? ==> Step(s, PlotClick(x)) == s.(selected := Some(IntText(x.value)))
  {
  }

  /** A boundary button copies the selected point into its own boundary when there is one,
      and changes nothing else. */
  lemma ButtonEffect(s: SelectionState)
    ensures Step(s, LeftButton) == s.(left := if s.selected.Some? then s.selected else s.left)
    ensures Step(s, RightButton) == s.(right := if s.selected.Some? then s.selected else s.right)
  {
  }

  /** `v` is the text of a coordinate clicked somewhere in `actions`. */
  ghost predicate Clicked(actions: seq<Action>, v: string) {
    exists i, x :: 0 <= i < |actions| && actions[i] == PlotClick(Some(x)) && v == IntText(x)
  }

  /** A value on the page after some actions was already on the page before them, or is
      the text of a point clicked during them. */
  ghost predicate Origin(v: Option<string>, s: SelectionState, actions: seq<Action>) {
    v.None? || v == s.selected || v == s.left || v == s.right || Clicked(actions, v.value)
  }

  lemma ClickedLater(a: Action, rest: seq<Action>, v: string)
    requires Clicked(rest, v)
    ensures Clicked([a] + rest, v)
  {
    var i, x :| 0 <= i < |rest| && rest[i] == PlotClick(Some(x)) && v == IntText(x);
    assert ([a] + rest)[i + 1] == PlotClick(Some(x));
  }

  /** The page only ever shows what it showed before or what was clicked. */
  lemma {:induction false} RunProvenance(s: SelectionState, actions: seq<Action>)
    ensures var t := Run(s, actions);
      Origin(t.selected, s, actions) && Origin(t.left, s, actions) && Origin(t.right, s, actions)
    decreases |actions|
  {
    if actions != [] {
      var a, rest := actions[0], actions[1..];
      var s' := Step(s, a);
      RunProvenance(s', rest);
      assert actions == [a] + rest;
      var t := Run(s, actions);
      assert t == Run(s', rest);
      forall v | v == t.selected || v == t.left || v == t.right
        ensures Origin(v, s, actions)
      {
        if v.Some? && v != s.selected && v != s.left && v != s.right {
          if v == s'.selected || v == s'.left || v == s'.right {
            assert a.PlotClick? && a.x.Some? && v.value == IntText(a.x.value);
            assert actions[0] == PlotClick(Some(a.x.value));
          } else {
            ClickedLater(a, rest, v.value);
          }
        }
      }
    }
  }

  /** From the empty page, both boundaries only ever hold the text of a clicked
      coordinate, which `int(...)` reads back as that coordinate. */
  lemma BoundariesAreClickedPoints(actions: seq<Action>)
    ensures var t := Run(Initial, actions);
      && (t.left.Some? ==> Clicked(actions, t.left.value) && ParseInt(t.left.value).Some?)
      && (t.right.Some? ==> Clicked(actions, t.right.value) && ParseInt(t.right.value).Some?)
  {
    RunProvenance(Initial, actions);
    var t := Run(Initial, actions);
    if t.left.Some? {
      var i, x :| 0 <= i < |actions| && actions[i] == PlotClick(Some(x)) && t.left.value == IntText(x);
      ParseIntText(x);
    }
    if t.right.Some? {
      var i, x :| 0 <= i < |actions| && actions[i] == PlotClick(Some(x)) && t.right.value == IntText(x);
      ParseIntText(x);
    }
  }
}

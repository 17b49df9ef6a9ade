/**
 The manual edit of `add_remove_resident(action, group)`, before the pass that
 follows it: put a new resident on an empty cell, or take one away from a group.
 The cell `random.choice` draws is a parameter, `pick`.
 */
module Editor {
  import opened Grid

  /** `pick` is a possible draw of `random.choice` wherever the edit makes one. */
  predicate ValidPick(s: State, action: string, group: string, pick: Cell) {
    && (action == "add" && s.empty != {} ==> pick in s.empty)
    && (action == "remove" && group == "rich" && s.rich != {} ==> pick in s.rich)
    && (action == "remove" && group == "poor" && s.poor != {} ==> pick in s.poor)
  }

  /**
   Adding takes an empty cell and gives it to the rich when `group` is "rich" and to
   the poor for any other group name; removing empties a cell of the named group;
   every other combination, and an edit whose pool is empty, changes nothing.
   */
  function Edited(s: State, action: string, group: string, pick: Cell): State {
    if action == "add" && s.empty != {} then
      if group == "rich" then State(s.rich + {pick}, s.poor, s.empty - {pick})
      else State(s.rich, s.poor + {pick}, s.empty - {pick})
    else if action == "remove" then
      if group == "rich" && s.rich != {} then State(s.rich - {pick}, s.poor, s.empty + {pick})
      else if group == "poor" && s.poor != {} then State(s.rich, s.poor - {pick}, s.empty + {pick})
      else s
    else s
  }

  /** Every edit leaves the board partitioned. */
  lemma EditPreservesPartition(s: State, action: string, group: string, pick: Cell)
    requires Partition(s)
    requires ValidPick(s, action, group, pick)
    ensures Partition(Edited(s, action, group, pick))
  {
  }

  /** Adding moves one cell from the empty set to the named group (the poor for any name but "rich"). */
  lemma EditAdd(s: State, group: string, pick: Cell)
    requires Partition(s)
    requires s.empty != {}
    requires ValidPick(s, "add", group, pick)
    ensures var s' := Edited(s, "add", group, pick);
      && s'.empty == s.empty - {pick} && |s'.empty| == |s.empty| - 1
      && (group == "rich" ==> s'.rich == s.rich + {pick} && |s'.rich| == |s.rich| + 1 && s'.poor == s.poor)
      && (group != "rich" ==> s'.poor == s.poor + {pick} && |s'.poor| == |s.poor| + 1 && s'.rich == s.rich)
  {
  }

  /** Removing moves one cell of a non-empty named group to the empty set. */
  lemma EditRemove(s: State, group: string, pick: Cell)
    requires Partition(s)
    requires group == "rich" || group == "poor"
    requires (if group == "rich" then s.rich else s.poor) != {}
    requires ValidPick(s, "remove", group, pick)
    ensures var s' := Edited(s, "remove", group, pick);
      && s'.empty == s.empty + {pick} && |s'.empty| == |s.empty| + 1
      && (group == "rich" ==> s'.rich == s.rich - {pick} && |s'.rich| == |s.rich| - 1 && s'.poor == s.poor)
      && (group == "poor" ==> s'.poor == s.poor - {pick} && |s'.poor| == |s.poor| - 1 && s'.rich == s.rich)
  {
  }

  /** The edit changes nothing exactly when its pool is empty or the request is not recognised. */
  lemma EditNoChangeIff(s: State, action: string, group: string, pick: Cell)
    requires Partition(s)
    requires ValidPick(s, action, group, pick)
    ensures Edited(s, action, group, pick) == s
        <==> (&& !(action == "add" && s.empty != {})
              && !(action == "remove" && group == "rich" && s.rich != {})
              && !(action == "remove" && group == "poor" && s.poor != {}))
  {
  }
}

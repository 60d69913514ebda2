/**
 * The roll overlay (`ActiveRollOverlay`): the tallies it shows for a roster
 * and the actions its controls send back to the board.
 */
module ActiveRollOverlay {
  import opened Wrappers
  import opened Models
  import opened Lists

  datatype ActiveRollAction = Filter | Exit

  /** An entry of the state list: an item type ("all" or a roll state) and its tally. */
  datatype StateItem = StateItem(itemType: string, count: nat)

  /** The positions of the roster whose roll is exactly `state`. */
  ghost function RollIndices(students: seq<Person>, state: string): set<int>
  {
    set i | 0 <= i < |students| && students[i].roll == Some(state)
  }

  /**
   * The students whose roll is exactly `state`, as many as there are roster
   * positions holding it; one without a roll matches none.
   */
  function WithRoll(students: seq<Person>, state: string): (r: seq<Person>)
    ensures forall i :: 0 <= i < |r| ==> r[i].roll == Some(state)
    ensures |r| == |RollIndices(students, state)|
  {
    var f := (p: Person) => p.roll == Some(state);
    FilterLengthCountsIndices(students, f);
    assert IndicesWhere(students, f) == RollIndices(students, state);
    Lists.Filter(students, f)
  }

  /** The students whose roll is none of the three tallied states (unmarked, missing or other). */
  function Untallied(students: seq<Person>): seq<Person>
  {
    Lists.Filter(students, (p: Person) =>
      p.roll != Some("present") && p.roll != Some("late") && p.roll != Some("absent"))
  }

  /**
   * The four entries handed to the state list, over the roster given:
   * "all" is the roster size, "present", "late" and "absent" are the
   * numbers of roster positions holding that roll state, and the three
   * never add up to more than "all".
   */
  function StateList(totalStudents: seq<Person>): (r: seq<StateItem>)
    ensures |r| == 4
    ensures r[0] == StateItem("all", |totalStudents|)
    ensures r[1] == StateItem("present", |RollIndices(totalStudents, "present")|)
    ensures r[2] == StateItem("late", |RollIndices(totalStudents, "late")|)
    ensures r[3] == StateItem("absent", |RollIndices(totalStudents, "absent")|)
    ensures r[1].count + r[2].count + r[3].count <= r[0].count
  {
    TalliesPartitionRoster(totalStudents);
    [ StateItem("all", |totalStudents|),
      StateItem("present", |WithRoll(totalStudents, "present")|),
      StateItem("late", |WithRoll(totalStudents, "late")|),
      StateItem("absent", |WithRoll(totalStudents, "absent")|) ]
  }

  /** Every student is tallied once: under one of the three states or not at all. */
  lemma {:induction false} TalliesPartitionRoster(students: seq<Person>)
    ensures |WithRoll(students, "present")| + |WithRoll(students, "late")| +
            |WithRoll(students, "absent")| + |Untallied(students)| == |students|
  {
    if students != [] {
      TalliesPartitionRoster(students[1..]);
    }
  }

  /** The overlay's clickable controls. */
  datatype Control = StateListItem(itemType: string) | ExitButton | CompleteButton

  /** What a click sends to the board: an action and, for "filter", the item type. */
  datatype Emission = Emission(action: ActiveRollAction, value: Option<string>)

  /** The callback each control invokes. */
  function OnClick(control: Control): (e: Emission)
    ensures e.action == Exit <==> control == ExitButton || control == CompleteButton
    ensures e.action == Filter <==> control.StateListItem?
    ensures e.value.Some? <==> control.StateListItem?
    ensures control.StateListItem? ==> e.value == Some(control.itemType)
  {
    match control
    case StateListItem(t) => Emission(Filter, Some(t))
    case ExitButton => Emission(Exit, None)
    case CompleteButton => Emission(Exit, None)
  }
}

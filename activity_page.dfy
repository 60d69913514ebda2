/**
 * The activity page (`ActivityPage`): one table row per past roll, with the
 * number of records in each roll state.
 */
module ActivityPage {
  import opened Wrappers
  import opened Models
  import opened Lists

  /** One student's state in a completed roll, as the server sends it. */
  datatype StudentRollState = StudentRollState(studentId: int, rollState: string)

  datatype ActivityEntity = ActivityEntity(
    id: int, name: string, studentRollStates: seq<StudentRollState>, completedAt: string)

  datatype Activity = Activity(entity: ActivityEntity)

  /** A table row: its React key, the name, the four tallies and the completion time. */
  datatype Row = Row(
    key: int, name: string, present: nat, late: nat, absent: nat, unmarked: nat, completedAt: string)

  /** The positions of `records` holding `state`. */
  ghost function StateIndices(records: seq<StudentRollState>, state: string): set<int>
  {
    set i | 0 <= i < |records| && records[i].rollState == state
  }

  /**
   * The records whose state is exactly the literal `state`, as many as
   * there are positions holding it.
   */
  function InState(records: seq<StudentRollState>, state: string): (r: seq<StudentRollState>)
    ensures forall i :: 0 <= i < |r| ==> r[i].rollState == state
    ensures |r| == |StateIndices(records, state)|
  {
    var f := (st: StudentRollState) => st.rollState == state;
    FilterLengthCountsIndices(records, f);
    assert IndicesWhere(records, f) == StateIndices(records, state);
    Filter(records, f)
  }

  /** The records that fall in none of the four columns. */
  function Uncounted(records: seq<StudentRollState>): seq<StudentRollState>
  {
    Filter(records, (st: StudentRollState) =>
      st.rollState != "present" && st.rollState != "late" &&
      st.rollState != "absent" && st.rollState != "unmark")
  }

  /**
   * The row for one activity: keyed by the entity id, each column counting
   * the positions of the records that hold its literal ("unmark" for the
   * Unmarked column), the four never exceeding the records.
   */
  function RowOf(a: Activity): (r: Row)
    ensures r.key == a.entity.id && r.name == a.entity.name && r.completedAt == a.entity.completedAt
    ensures r.present == |StateIndices(a.entity.studentRollStates, "present")|
    ensures r.late == |StateIndices(a.entity.studentRollStates, "late")|
    ensures r.absent == |StateIndices(a.entity.studentRollStates, "absent")|
    ensures r.unmarked == |StateIndices(a.entity.studentRollStates, "unmark")|
    ensures r.present + r.late + r.absent + r.unmarked <= |a.entity.studentRollStates|
  {
    var records := a.entity.studentRollStates;
    ColumnsPartitionRecords(records);
    Row(a.entity.id, a.entity.name,
        |InState(records, "present")|, |InState(records, "late")|,
        |InState(records, "absent")|, |InState(records, "unmark")|,
        a.entity.completedAt)
  }

  /** `activity.map(...)`: one row per activity, in the order given. */
  function Rows(activities: seq<Activity>): (r: seq<Row>)
    ensures |r| == |activities|
    ensures forall i :: 0 <= i < |r| ==> r[i] == RowOf(activities[i])
  {
    if activities == [] then [] else [RowOf(activities[0])] + Rows(activities[1..])
  }

  /** What the page shows: the table only once loaded, the failure message only on error. */
  datatype Screen = Spinner | Table(rows: seq<Row>) | LoadFailed | Blank

  /** The page for a load state and the hook's data (`None`: no data yet). */
  function Render(loadState: LoadState, data: Option<seq<Activity>>): (v: Screen)
    ensures v.Spinner? <==> loadState == Loading
    ensures v.Table? <==> loadState == Loaded
    ensures v.LoadFailed? <==> loadState == Error
    ensures v.Table? ==> |v.rows| == (if data.Some? then |data.value| else 0)
    ensures v.Table? && data.Some? ==>
              forall i :: 0 <= i < |v.rows| ==>
                v.rows[i].key == data.value[i].entity.id && v.rows[i] == RowOf(data.value[i])
  {
    match loadState
    case Loading => Spinner
    case Loaded => Table(if data.Some? then Rows(data.value) else [])
    case Error => LoadFailed
    case Idle => Blank
  }

  /** Each record lands in at most one column, so the four tallies never exceed the records. */
  lemma {:induction false} ColumnsPartitionRecords(records: seq<StudentRollState>)
    ensures |InState(records, "present")| + |InState(records, "late")| +
            |InState(records, "absent")| + |InState(records, "unmark")| +
            |Uncounted(records)| == |records|
  {
    if records != [] {
      ColumnsPartitionRecords(records[1..]);
    }
  }

  /** Appending a record in another state leaves a column's records as they were. */
  lemma InStateIgnoresOthers(records: seq<StudentRollState>, other: StudentRollState, state: string)
    requires other.rollState != state
    ensures InState(records + [other], state) == InState(records, state)
  {
    FilterConcat(records, [other], (st: StudentRollState) => st.rollState == state);
  }

  /** A record spelled "unmarked" is counted in no column: adding one leaves the row as it was. */
  lemma UnmarkedSpellingNotCounted(e: ActivityEntity, studentId: int)
    ensures RowOf(Activity(e.(studentRollStates := e.studentRollStates + [StudentRollState(studentId, "unmarked")]))) ==
            RowOf(Activity(e))
  {
    var extra := StudentRollState(studentId, "unmarked");
    InStateIgnoresOthers(e.studentRollStates, extra, "present");
    InStateIgnoresOthers(e.studentRollStates, extra, "late");
    InStateIgnoresOthers(e.studentRollStates, extra, "absent");
    InStateIgnoresOthers(e.studentRollStates, extra, "unmark");
  }
}

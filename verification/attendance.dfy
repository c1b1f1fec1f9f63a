/**
 * The driver's attendance list: the students of the driver's route, fetched grouped by
 * pickup point, flattened into one numbered list whose statuses come from today's
 * attendance record; the status filter and its counts; and marking one student.
 */
module Attendance {
  import opened Options

  datatype Status = Waiting | Boarded | Absent

  /** The filter chips: everyone, or one status. */
  datatype Filter = All | Only(status: Status)

  /** A student as the route's student list returns it. */
  datatype Enrolled = Enrolled(fullName: string, regNo: string, phoneNumber: string, feeStatus: string)

  /** Students sharing a pickup point, with that point's timing. */
  datatype Group = Group(pickupPoint: string, timing: string, students: seq<Enrolled>)

  /** One line of the driver's list. */
  datatype Row = Row(
    id: int,
    name: string,
    regNo: string,
    pickupPoint: string,
    pickupPointTiming: string,
    phoneNumber: string,
    status: Status,
    feeStatus: string)

  /** Today's attendance record: registration number to the status last marked. */
  type Record = map<string, Status>

  datatype TripPhase = NotStarted | InProgress | Completed

  /** The trip summary the dashboard keeps next to the list. */
  datatype TripStatus = TripStatus(phase: TripPhase, presentCount: int, absentCount: int)

  const NotSelected: string := "Not Selected"
  const NoTiming: string := "N/A"

  /** `todayAttendance[regNo] || 'Waiting'` */
  function StatusOf(att: Record, regNo: string): (s: Status)
    ensures regNo in att ==> s == att[regNo]
    ensures regNo !in att ==> s == Waiting
  {
    if regNo in att then att[regNo] else Waiting
  }

  // ---------------------------------------------------------------------------------
  // Flattening

  /** A student together with the pickup point and timing the list will show. */
  datatype Slot = Slot(student: Enrolled, point: string, timing: string)

  function Tag(g: Group): (r: seq<Slot>)
    ensures |r| == |g.students|
  {
    seq(|g.students|, k requires 0 <= k < |g.students| => Slot(g.students[k], g.pickupPoint, g.timing))
  }

  /** The grouped students in list order: group by group, each group in its own order. */
  function Slots(groups: seq<Group>): seq<Slot>
  {
    if groups == [] then [] else Slots(groups[..|groups| - 1]) + Tag(groups[|groups| - 1])
  }

  /** Students without a pickup point, shown as 'Not Selected' with timing 'N/A'. */
  function Unassigned(without: seq<Enrolled>): (r: seq<Slot>)
    ensures |r| == |without|
  {
    seq(|without|, k requires 0 <= k < |without| => Slot(without[k], NotSelected, NoTiming))
  }

  /** The number of students over all groups. */
  function TotalSize(groups: seq<Group>): nat
  {
    if groups == [] then 0 else TotalSize(groups[..|groups| - 1]) + |groups[|groups| - 1].students|
  }

  lemma {:induction false} SlotsSize(groups: seq<Group>)
    ensures |Slots(groups)| == TotalSize(groups)
  {
    if groups != [] {
      SlotsSize(groups[..|groups| - 1]);
    }
  }

  function MakeRow(id: int, s: Slot, att: Record): Row {
    Row(id, s.student.fullName, s.student.regNo, s.point, s.timing, s.student.phoneNumber,
        StatusOf(att, s.student.regNo), s.student.feeStatus)
  }

  /** The list `fetchStudents` builds: every grouped student, then every student
      without a pickup point, numbered from 1, with today's status or 'Waiting'. */
  function Flatten(groups: seq<Group>, without: seq<Enrolled>, att: Record): (rows: seq<Row>)
    ensures |rows| == TotalSize(groups) + |without|
    ensures forall i :: 0 <= i < |rows| ==> rows[i].id == i + 1
    ensures forall i :: 0 <= i < |rows| ==> rows[i].status == StatusOf(att, rows[i].regNo)
    ensures forall k :: 0 <= k < |without| ==>
      var row := rows[TotalSize(groups) + k];
      && row.name == without[k].fullName && row.regNo == without[k].regNo
      && row.phoneNumber == without[k].phoneNumber && row.feeStatus == without[k].feeStatus
      && row.pickupPoint == NotSelected && row.pickupPointTiming == NoTiming
  {
    SlotsSize(groups);
    var slots := Slots(groups) + Unassigned(without);
    seq(|slots|, i requires 0 <= i < |slots| => MakeRow(i + 1, slots[i], att))
  }

  /** Student `k` of group `g` sits in the grouped part right after the students of the
      groups before it. */
  lemma {:induction false} SlotsIndex(groups: seq<Group>, g: int, k: int)
    requires 0 <= g < |groups| && 0 <= k < |groups[g].students|
    ensures TotalSize(groups[..g]) + k < |Slots(groups)|
    ensures Slots(groups)[TotalSize(groups[..g]) + k] ==
      Slot(groups[g].students[k], groups[g].pickupPoint, groups[g].timing)
  {
    var init := groups[..|groups| - 1];
    SlotsSize(init);
    if g == |groups| - 1 {
      assert groups[..g] == init;
    } else {
      assert init[..g] == groups[..g];
      SlotsIndex(init, g, k);
    }
  }

  /** What a grouped row holds: student `k` of group `g` is listed, with that group's
      pickup point and timing, after the students of the groups before it. */
  lemma FlattenGrouped(groups: seq<Group>, without: seq<Enrolled>, att: Record, g: int, k: int)
    requires 0 <= g < |groups| && 0 <= k < |groups[g].students|
    ensures TotalSize(groups[..g]) + k < |Flatten(groups, without, att)|
    ensures var row := Flatten(groups, without, att)[TotalSize(groups[..g]) + k];
      var st := groups[g].students[k];
      && row.name == st.fullName && row.regNo == st.regNo
      && row.phoneNumber == st.phoneNumber && row.feeStatus == st.feeStatus
      && row.pickupPoint == groups[g].pickupPoint && row.pickupPointTiming == groups[g].timing
  {
    SlotsIndex(groups, g, k);
    SlotsSize(groups);
    var i := TotalSize(groups[..g]) + k;
    var slots := Slots(groups) + Unassigned(without);
    assert slots[i] == Slots(groups)[i];
  }

  /** The flattening loop of `fetchStudents`, with its running id. */
  method FlattenStudents(groups: seq<Group>, without: seq<Enrolled>, att: Record) returns (rows: seq<Row>)
    ensures rows == Flatten(groups, without, att)
  {
    rows := [];
    var gi := 0;
    while gi < |groups|
      invariant 0 <= gi <= |groups|
      invariant |rows| == |Slots(groups[..gi])|
      invariant forall i :: 0 <= i < |rows| ==> rows[i] == MakeRow(i + 1, Slots(groups[..gi])[i], att)
    {
      var g := groups[gi];
      ghost var done := Slots(groups[..gi]);
      var k := 0;
      while k < |g.students|
        invariant 0 <= k <= |g.students|
        invariant |rows| == |done| + k
        invariant forall i :: 0 <= i < |rows| ==> rows[i] == MakeRow(i + 1, (done + Tag(g)[..k])[i], att)
      {
        var s := g.students[k];
        rows := rows + [MakeRow(|rows| + 1, Slot(s, g.pickupPoint, g.timing), att)];
        k := k + 1;
      }
      assert groups[..gi + 1][..gi] == groups[..gi];
      assert Slots(groups[..gi + 1]) == done + Tag(g);
      assert Tag(g)[..k] == Tag(g);
      gi := gi + 1;
    }
    assert groups[..gi] == groups;
    ghost var grouped := Slots(groups);
    var k := 0;
    while k < |without|
      invariant 0 <= k <= |without|
      invariant |rows| == |grouped| + k
      invariant forall i :: 0 <= i < |rows| ==> rows[i] == MakeRow(i + 1, (grouped + Unassigned(without)[..k])[i], att)
    {
      rows := rows + [MakeRow(|rows| + 1, Slot(without[k], NotSelected, NoTiming), att)];
      k := k + 1;
    }
    assert Unassigned(without)[..k] == Unassigned(without);
  }

  // ---------------------------------------------------------------------------------
  // Counting and filtering

  /** The number of rows with status `t`. */
  function Count(rows: seq<Row>, t: Status): (n: nat)
    ensures n <= |rows|
    ensures n > 0 <==> exists i :: 0 <= i < |rows| && rows[i].status == t
  {
    if rows == [] then 0
    else (if rows[0].status == t then 1 else 0) + Count(rows[1..], t)
  }

  lemma {:induction false} CountAppend(a: seq<Row>, b: seq<Row>, t: Status)
    ensures Count(a + b, t) == Count(a, t) + Count(b, t)
  {
    if a == [] {
      assert a + b == b;
    } else {
      assert (a + b)[0] == a[0];
      assert (a + b)[1..] == a[1..] + b;
      CountAppend(a[1..], b, t);
    }
  }

  /** Every row has exactly one of the three statuses. */
  lemma {:induction false} CountsPartition(rows: seq<Row>)
    ensures Count(rows, Waiting) + Count(rows, Boarded) + Count(rows, Absent) == |rows|
  {
    if rows != [] {
      CountsPartition(rows[1..]);
    }
  }

  /** The list under a filter chip: everyone for 'All', otherwise the rows with that
      status in their original order. */
  function FilterRows(rows: seq<Row>, f: Filter): (r: seq<Row>)
    ensures f == All ==> r == rows
    ensures f.Only? ==> forall x :: x in r <==> x in rows && x.status == f.status
    ensures |r| <= |rows|
  {
    match f
    case All => rows
    case Only(t) =>
      if rows == [] then []
      else (if rows[0].status == t then [rows[0]] else []) + FilterRows(rows[1..], f)
  }

  /** Filtering keeps the order: filtering a concatenation filters each part. */
  lemma FilterAppend(a: seq<Row>, b: seq<Row>, f: Filter)
    ensures FilterRows(a + b, f) == FilterRows(a, f) + FilterRows(b, f)
  {
    if f.Only? {
      OnlyAppend(a, b, f.status);
    }
  }

  lemma {:induction false} OnlyAppend(a: seq<Row>, b: seq<Row>, t: Status)
    ensures FilterRows(a + b, Only(t)) == FilterRows(a, Only(t)) + FilterRows(b, Only(t))
  {
    if a == [] {
      assert a + b == b;
    } else {
      assert (a + b)[0] == a[0];
      assert (a + b)[1..] == a[1..] + b;
      OnlyAppend(a[1..], b, t);
    }
  }

  /** The number on a status chip is the length of the list that chip shows. */
  lemma {:induction false} ChipCountIsFilterSize(rows: seq<Row>, t: Status)
    ensures |FilterRows(rows, Only(t))| == Count(rows, t)
  {
    if rows != [] {
      ChipCountIsFilterSize(rows[1..], t);
    }
  }

  /** The trip summary computed after a fetch: in progress exactly when someone has
      boarded, with the two counts. */
  function TripAfterFetch(rows: seq<Row>): (r: TripStatus)
    ensures r.phase == InProgress <==> exists i :: 0 <= i < |rows| && rows[i].status == Boarded
    ensures r.phase != Completed
    ensures r.presentCount == |FilterRows(rows, Only(Boarded))|
    ensures r.absentCount == |FilterRows(rows, Only(Absent))|
  {
    ChipCountIsFilterSize(rows, Boarded);
    ChipCountIsFilterSize(rows, Absent);
    var present := Count(rows, Boarded);
    TripStatus(if present > 0 then InProgress else NotStarted, present, Count(rows, Absent))
  }

  /** The counts of a trip summary agree with the list. */
  predicate CountsMatch(rows: seq<Row>, trip: TripStatus) {
    trip.presentCount == Count(rows, Boarded) && trip.absentCount == Count(rows, Absent)
  }

  // ---------------------------------------------------------------------------------
  // Marking one student

  predicate UniqueIds(rows: seq<Row>) {
    forall i, j :: 0 <= i < j < |rows| ==> rows[i].id != rows[j].id
  }

  predicate UniqueRegNos(rows: seq<Row>) {
    forall i, j :: 0 <= i < j < |rows| ==> rows[i].regNo != rows[j].regNo
  }

  /** `students.find(s => s.id === id)`: the position of the first row with that id. */
  function FindId(rows: seq<Row>, id: int): (r: Option<nat>)
    ensures r.Some? ==> r.value < |rows| && rows[r.value].id == id
    ensures r.Some? ==> forall i :: 0 <= i < r.value ==> rows[i].id != id
    ensures r == None <==> forall i :: 0 <= i < |rows| ==> rows[i].id != id
  {
    if rows == [] then None
    else if rows[0].id == id then Some(0)
    else match FindId(rows[1..], id)
      case None => None
      case Some(j) => Some(j + 1)
  }

  /** `students.map(s => s.id === id ? { ...s, status } : s)` */
  function SetStatus(rows: seq<Row>, id: int, s: Status): (r: seq<Row>)
    ensures |r| == |rows|
    ensures forall i :: 0 <= i < |rows| && rows[i].id == id ==> r[i] == rows[i].(status := s)
    ensures forall i :: 0 <= i < |rows| && rows[i].id != id ==> r[i] == rows[i]
  {
    seq(|rows|, i requires 0 <= i < |rows| => if rows[i].id == id then rows[i].(status := s) else rows[i])
  }

  /** The present/absent recount of `handleMarkAttendance`, which reads the list as it
      was before the update: a row counts when it already had the target status, or when
      it is the marked row and the new status is the target. */
  function CountMarked(rows: seq<Row>, id: int, s: Status, t: Status): (n: nat)
    ensures n <= |rows|
  {
    if rows == [] then 0
    else (if rows[0].status == t || (rows[0].id == id && s == t) then 1 else 0)
         + CountMarked(rows[1..], id, s, t)
  }

  /** The driver's attendance state: the list, today's record and the trip summary. */
  datatype Board = Board(rows: seq<Row>, att: Record, trip: TripStatus)

  /** `handleMarkAttendance` as written: an unknown id changes nothing; otherwise the
      record is updated at the student's registration number, every row with that id
      takes the new status, and the counts are recomputed from the old list. */
  function MarkAttendance(b: Board, id: int, s: Status): (r: Board)
    ensures FindId(b.rows, id) == None ==> r == b
    ensures FindId(b.rows, id).Some? ==>
      var regNo := b.rows[FindId(b.rows, id).value].regNo;
      && r.att == b.att[regNo := s]
      && r.rows == SetStatus(b.rows, id, s)
      && r.trip.phase == b.trip.phase
  {
    match FindId(b.rows, id)
    case None => b
    case Some(j) =>
      Board(SetStatus(b.rows, id, s), b.att[b.rows[j].regNo := s],
            b.trip.(presentCount := CountMarked(b.rows, id, s, Boarded),
                    absentCount := CountMarked(b.rows, id, s, Absent)))
  }

  /** Marking changes the record only at the marked student's registration number. */
  lemma MarkTouchesOneKey(b: Board, id: int, s: Status, key: string)
    requires FindId(b.rows, id).Some?
    requires key != b.rows[FindId(b.rows, id).value].regNo
    ensures key in MarkAttendance(b, id, s).att <==> key in b.att
    ensures key in b.att ==> MarkAttendance(b, id, s).att[key] == b.att[key]
  {
  }

  lemma {:induction false} CountMarkedAppend(a: seq<Row>, c: seq<Row>, id: int, s: Status, t: Status)
    ensures CountMarked(a + c, id, s, t) == CountMarked(a, id, s, t) + CountMarked(c, id, s, t)
  {
    if a == [] {
      assert a + c == c;
    } else {
      assert (a + c)[0] == a[0];
      assert (a + c)[1..] == a[1..] + c;
      CountMarkedAppend(a[1..], c, id, s, t);
    }
  }

  /** Rows that do not carry the marked id count the same either way. */
  lemma {:induction false} CountMarkedOthers(rows: seq<Row>, id: int, s: Status, t: Status)
    requires forall i :: 0 <= i < |rows| ==> rows[i].id != id
    ensures CountMarked(rows, id, s, t) == Count(rows, t)
  {
    if rows != [] {
      CountMarkedOthers(rows[1..], id, s, t);
    }
  }

  lemma SetStatusAppend(a: seq<Row>, c: seq<Row>, id: int, s: Status)
    ensures SetStatus(a + c, id, s) == SetStatus(a, id, s) + SetStatus(c, id, s)
  {
  }

  /** With distinct ids, the old-list recount and the true counts of the updated list
      differ from the old counts by the marked row alone. */
  lemma MarkCounts(rows: seq<Row>, j: nat, s: Status, t: Status)
    requires UniqueIds(rows) && j < |rows|
    ensures var p := rows[j].status;
      && CountMarked(rows, rows[j].id, s, t)
         == Count(rows, t) + (if s == t && p != t then 1 else 0)
      && Count(SetStatus(rows, rows[j].id, s), t)
         == Count(rows, t) - (if p == t then 1 else 0) + (if s == t then 1 else 0)
  {
    var id := rows[j].id;
    var a, m, c := rows[..j], [rows[j]], rows[j + 1..];
    assert rows == a + m + c;
    assert forall i :: 0 <= i < |a| ==> a[i].id != id;
    assert forall i :: 0 <= i < |c| ==> c[i].id != id;
    RecountAroundMarked(a, rows[j], c, s, t);
    UpdatedCountAroundMarked(a, rows[j], c, s, t);
  }

  /** The old-list recount of `a + [row] + c`, where only `row` carries the marked id. */
  lemma RecountAroundMarked(a: seq<Row>, row: Row, c: seq<Row>, s: Status, t: Status)
    requires forall i :: 0 <= i < |a| ==> a[i].id != row.id
    requires forall i :: 0 <= i < |c| ==> c[i].id != row.id
    ensures CountMarked(a + [row] + c, row.id, s, t)
      == Count(a + [row] + c, t) + (if s == t && row.status != t then 1 else 0)
  {
    var id, m := row.id, [row];
    CountMarkedAppend(a + m, c, id, s, t);
    CountMarkedAppend(a, m, id, s, t);
    CountMarkedOthers(a, id, s, t);
    CountMarkedOthers(c, id, s, t);
    CountAppend(a + m, c, t);
    CountAppend(a, m, t);
  }

  /** The true count of `a + [row] + c` after the update, where only `row` carries the
      marked id. */
  lemma UpdatedCountAroundMarked(a: seq<Row>, row: Row, c: seq<Row>, s: Status, t: Status)
    requires forall i :: 0 <= i < |a| ==> a[i].id != row.id
    requires forall i :: 0 <= i < |c| ==> c[i].id != row.id
    ensures Count(SetStatus(a + [row] + c, row.id, s), t)
      == Count(a + [row] + c, t) - (if row.status == t then 1 else 0) + (if s == t then 1 else 0)
  {
    var id, m := row.id, [row];
    SetStatusAppend(a + m, c, id, s);
    SetStatusAppend(a, m, id, s);
    assert SetStatus(a, id, s) == a;
    assert SetStatus(c, id, s) == c;
    var u := SetStatus(m, id, s);
    assert u == [row.(status := s)];
    CountAppend(a + m, c, t);
    CountAppend(a, m, t);
    CountAppend(a + u, c, t);
    CountAppend(a, u, t);
  }

  /** Exactly when the as-written recount is right: with distinct ids, after marking an
      existing student the present and absent counts equal those of the updated list
      if and only if the student was waiting or already had the new status. */
  lemma MarkCountsRightExactlyWhen(b: Board, j: nat, s: Status)
    requires UniqueIds(b.rows) && j < |b.rows|
    ensures var r := MarkAttendance(b, b.rows[j].id, s);
      CountsMatch(r.rows, r.trip) <==> b.rows[j].status == Waiting || b.rows[j].status == s
  {
    var id := b.rows[j].id;
    assert FindId(b.rows, id).Some?;
    MarkCounts(b.rows, j, s, Boarded);
    MarkCounts(b.rows, j, s, Absent);
  }

  /** A boarded student marked absent is counted both present and absent. */
  lemma BoardedToAbsentDoubleCounts()
    ensures var row := Row(1, "A", "R1", "P", "7:30", "", Boarded, "Paid");
      var r := MarkAttendance(Board([row], map[], TripStatus(InProgress, 1, 0)), 1, Absent);
      r.trip.presentCount == 1 && r.trip.absentCount == 1 && |r.rows| == 1
  {
  }

  /** The recount done on the updated list. */
  function MarkAttendanceCorrected(b: Board, id: int, s: Status): (r: Board)
    ensures FindId(b.rows, id) == None ==> r == b
    ensures FindId(b.rows, id).Some? ==>
      var regNo := b.rows[FindId(b.rows, id).value].regNo;
      && r.att == b.att[regNo := s]
      && r.rows == SetStatus(b.rows, id, s)
      && r.trip.phase == b.trip.phase
    ensures FindId(b.rows, id).Some? ==> CountsMatch(r.rows, r.trip)
  {
    match FindId(b.rows, id)
    case None => b
    case Some(j) =>
      var rows := SetStatus(b.rows, id, s);
      Board(rows, b.att[b.rows[j].regNo := s],
            b.trip.(presentCount := Count(rows, Boarded), absentCount := Count(rows, Absent)))
  }

  /** The corrected recount agrees with the as-written one wherever the latter is right. */
  lemma CorrectedAgreesWhenRight(b: Board, j: nat, s: Status)
    requires UniqueIds(b.rows) && j < |b.rows|
    requires b.rows[j].status == Waiting || b.rows[j].status == s
    ensures MarkAttendanceCorrected(b, b.rows[j].id, s) == MarkAttendance(b, b.rows[j].id, s)
  {
    MarkCountsRightExactlyWhen(b, j, s);
  }

  /** After a fetch the counts agree with the list, and every corrected marking keeps
      them in agreement. */
  lemma CountsStayConsistent(b: Board, id: int, s: Status)
    requires CountsMatch(b.rows, b.trip)
    ensures CountsMatch(MarkAttendanceCorrected(b, id, s).rows, MarkAttendanceCorrected(b, id, s).trip)
  {
  }

  lemma FetchCountsMatch(rows: seq<Row>)
    ensures CountsMatch(rows, TripAfterFetch(rows))
  {
  }

  /** Two fetches under different attendance records differ in the statuses alone. */
  lemma FlattenStatusOnly(groups: seq<Group>, without: seq<Enrolled>, att1: Record, att2: Record)
    ensures |Flatten(groups, without, att2)| == |Flatten(groups, without, att1)|
    ensures forall i :: 0 <= i < |Flatten(groups, without, att1)| ==>
      Flatten(groups, without, att2)[i]
        == Flatten(groups, without, att1)[i].(status := StatusOf(att2, Flatten(groups, without, att1)[i].regNo))
  {
  }

  /** Marking a student and then fetching the list again shows the same list as the
      in-place update, provided no registration number appears twice. */
  lemma MarkThenReload(groups: seq<Group>, without: seq<Enrolled>, b: Board, id: int, s: Status)
    requires b.rows == Flatten(groups, without, b.att)
    requires UniqueRegNos(b.rows)
    requires FindId(b.rows, id).Some?
    ensures Flatten(groups, without, MarkAttendanceCorrected(b, id, s).att) == MarkAttendanceCorrected(b, id, s).rows
  {
    var rows := b.rows;
    var j := FindId(rows, id).value;
    var reg := rows[j].regNo;
    var att2 := b.att[reg := s];
    assert MarkAttendanceCorrected(b, id, s).att == att2;
    var again := Flatten(groups, without, att2);
    var updated := SetStatus(rows, id, s);
    FlattenStatusOnly(groups, without, b.att, att2);
    forall i | 0 <= i < |rows|
      ensures again[i] == updated[i]
    {
      if i != j {
        assert rows[i].regNo != reg;
        assert rows[i].id != id;
      }
    }
    assert again == updated;
  }
}

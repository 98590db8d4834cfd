/**
 * The scheduler core `try_schedule`: a first-fit scan of the catalog for one
 * desired course name, writing into the timetable grid (rows 1..11 and
 * NoTime, columns 一..五) and the occupancy map in place.
 *
 * Two orders of the checks exist. course_utils.py and 07_21.py apply the
 * eligibility filter first and then look at the course's time codes
 * (`FilterThenPlace`); 07_32.py places a course without fixed time from the
 * first class page offering it, before and regardless of the filter, and
 * filters only fixed-time courses (`NoTimeThenFilter`), with its 9-name list.
 */
module Scheduler {
  import opened Optional
  import opened TimeCodes
  import opened Records
  import opened Eligibility

  /** A key of `occupied`: a time code, or the name of a course without fixed time. */
  datatype Key = Slot(code: TimeCode) | Name(course: string)

  type Occupancy = map<Key, string>

  /** A row label of the grid: a period number, or the NoTime row. */
  datatype Row = Period(n: int) | NoTime

  datatype Cell = Cell(row: Row, col: string)

  type Grid = map<Cell, string>

  /** An entry of the catalog: a class label and that class page's course map. */
  type Section = (string, CourseMap)

  /** Where courses without fixed time are listed: row NoTime, column 一. */
  const NoTimeCell: Cell := Cell(NoTime, "一")

  /** The cells of `pd.DataFrame('', index=list(range(1, 12)) + ["NoTime"], columns=cols)`. */
  function AllCells(): set<Cell> {
    (set n, col | 1 <= n <= 11 && col in Columns :: Cell(Period(n), col))
    + (set col | col in Columns :: Cell(NoTime, col))
  }

  /** The grid has exactly the 12 x 5 cells of the timetable. */
  predicate Shaped(grid: Grid) {
    grid.Keys == AllCells()
  }

  /** The timetable before any placement: every cell empty. */
  function EmptyGrid(): (g: Grid)
    ensures Shaped(g)
    ensures forall cell :: cell in g ==> g[cell] == ""
  {
    map cell | cell in AllCells() :: ""
  }

  /** The cell of a time code: its slot's row, its weekday's column. */
  function CellOf(c: TimeCode): (r: Cell)
    ensures r in AllCells() && r != NoTimeCell && r.row.Period?
  {
    var r := Cell(Period(c.slot), Columns[c.day - 1]);
    assert 1 <= c.slot <= 11 && Columns[c.day - 1] in Columns;
    r
  }

  /** Distinct codes have distinct cells. */
  lemma CellOfInjective(a: TimeCode, b: TimeCode)
    ensures CellOf(a) == CellOf(b) ==> a == b
  {
  }

  /** The cell the placement loop computes from a code's text, through `int(p)`/'a'/'b' and DAY_NUM_TO_COL, is the code's cell. */
  lemma DecodedCell(c: TimeCode)
    ensures Text(c)[0] in DayNumToCol
    ensures Cell(Period(SlotIndexOf(Text(c)[1])), DayNumToCol[Text(c)[0]]) == CellOf(c)
  {
    DayNumToColOfCode(c);
    SlotCharRoundTrip(c.slot);
  }

  /** The text a placement writes: `f"{name}({label})"`. */
  function Display(name: string, sectionLabel: string): string {
    name + "(" + sectionLabel + ")"
  }

  /** `text` is a placement entry of course `name`. */
  predicate ShowsCourse(text: string, name: string) {
    |text| > |name| + 1 && text[..|name| + 1] == name + "(" && text[|text| - 1] == ')'
  }

  lemma DisplayShowsCourse(name: string, sectionLabel: string)
    ensures ShowsCourse(Display(name, sectionLabel), name)
  {
    assert Display(name, sectionLabel)[..|name| + 1] == name + "(";
  }

  /** The NoTime cell after appending `entry`: joined with "；" when the cell was not empty. */
  function AppendNoTime(prev: string, entry: string): string {
    if prev != "" then prev + "；" + entry else entry
  }

  /**
   * The grid and `occupied` agree: a code is a key exactly when its cell is
   * non-empty, that cell shows the course recorded for the code, and a
   * no-time entry maps a course name to itself while the NoTime cell holds
   * some entry.
   */
  ghost predicate Synced(grid: Grid, occupied: Occupancy)
    requires Shaped(grid)
  {
    && (forall c: TimeCode :: Slot(c) in occupied <==> grid[CellOf(c)] != "")
    && (forall c: TimeCode :: Slot(c) in occupied ==> ShowsCourse(grid[CellOf(c)], occupied[Slot(c)]))
    && (forall n :: Name(n) in occupied ==> occupied[Name(n)] == n)
    && (forall n :: Name(n) in occupied ==> grid[NoTimeCell] != "")
  }

  /** Some code of the list is already a key of `occupied`. */
  predicate Conflicts(codes: seq<TimeCode>, occupied: Occupancy) {
    exists i :: 0 <= i < |codes| && Slot(codes[i]) in occupied
  }

  /** Which `try_schedule` runs: course_utils.py and 07_21.py, or 07_32.py. */
  datatype Policy = FilterThenPlace | NoTimeThenFilter

  /** The `course_filter` of the policy's source file. */
  predicate Eligible(policy: Policy, sectionLabel: string, name: string, info: CourseRecord) {
    match policy
    case FilterThenPlace => CourseFilter(sectionLabel, name, info)
    case NoTimeThenFilter => CourseFilterShort(sectionLabel, name, info)
  }

  /** The scan stops at this section: it offers the course, and under the policy's checks it is placed here. */
  predicate Qualifies(policy: Policy, sec: Section, name: string, occupied: Occupancy) {
    name in sec.1 &&
    var info := sec.1[name];
    match policy
    case FilterThenPlace =>
      Eligible(policy, sec.0, name, info) && (info.timeCodes == [] || !Conflicts(info.timeCodes, occupied))
    case NoTimeThenFilter =>
      info.timeCodes == [] || (Eligible(policy, sec.0, name, info) && !Conflicts(info.timeCodes, occupied))
  }

  /** The first section from index `from` on at which the scan stops, if any. */
  function FirstFit(policy: Policy, catalog: seq<Section>, name: string, occupied: Occupancy, from: nat): (r: Option<nat>)
    requires from <= |catalog|
    ensures r.Some? ==> from <= r.value < |catalog| && Qualifies(policy, catalog[r.value], name, occupied)
    ensures r.Some? ==> forall j :: from <= j < r.value ==> !Qualifies(policy, catalog[j], name, occupied)
    ensures r.None? ==> forall j :: from <= j < |catalog| ==> !Qualifies(policy, catalog[j], name, occupied)
    decreases |catalog| - from
  {
    if from == |catalog| then None
    else if Qualifies(policy, catalog[from], name, occupied) then Some(from)
    else FirstFit(policy, catalog, name, occupied, from + 1)
  }

  /** The scan stops at the first qualifying section. */
  lemma FirstFitAt(policy: Policy, catalog: seq<Section>, name: string, occupied: Occupancy, i: nat)
    requires i < |catalog| && Qualifies(policy, catalog[i], name, occupied)
    requires forall j :: 0 <= j < i ==> !Qualifies(policy, catalog[j], name, occupied)
    ensures FirstFit(policy, catalog, name, occupied, 0) == Some(i)
  {
  }

  function CellsOf(codes: seq<TimeCode>): set<Cell> {
    set c | c in codes :: CellOf(c)
  }

  function SlotsOf(codes: seq<TimeCode>): set<Key> {
    set c | c in codes :: Slot(c)
  }

  /** The grid after `schedule.at[idx, col] = text` for every code. */
  function WriteCells(grid: Grid, codes: seq<TimeCode>, text: string): Grid {
    WriteSet(grid, CellsOf(codes), text)
  }

  /** The grid with `text` in every cell of `cells`. */
  function WriteSet(grid: Grid, cells: set<Cell>, text: string): Grid {
    map cell | cell in grid.Keys + cells :: if cell in cells then text else grid[cell]
  }

  /** `occupied` after `occupied[code] = name` for every code. */
  function Occupy(occupied: Occupancy, codes: seq<TimeCode>, name: string): Occupancy {
    map k | k in occupied.Keys + SlotsOf(codes) :: if k in SlotsOf(codes) then name else occupied[k]
  }

  /** The result of one `try_schedule` call: its return value and the new grid and `occupied`. */
  datatype Outcome = Outcome(placed: bool, grid: Grid, occupied: Occupancy)

  /** Placing course `name` from section `sec`, without any check. */
  function Place(name: string, sec: Section, grid: Grid, occupied: Occupancy): Outcome
    requires name in sec.1 && NoTimeCell in grid
  {
    var text := Display(name, sec.0);
    var codes := sec.1[name].timeCodes;
    if codes == [] then
      Outcome(true, grid[NoTimeCell := AppendNoTime(grid[NoTimeCell], text)], occupied[Name(name) := name])
    else
      Outcome(true, WriteCells(grid, codes, text), Occupy(occupied, codes, name))
  }

  /** What `try_schedule(name, catalog, schedule, occupied)` does under `policy`. */
  function Schedule(policy: Policy, name: string, catalog: seq<Section>, grid: Grid, occupied: Occupancy): Outcome
    requires Shaped(grid)
  {
    match FirstFit(policy, catalog, name, occupied, 0)
    case None => Outcome(false, grid, occupied)
    case Some(k) => Place(name, catalog[k], grid, occupied)
  }

  /** A scan that stops at section `i` places the course from that section. */
  lemma ScheduleStopsAt(policy: Policy, name: string, catalog: seq<Section>, grid: Grid, occupied: Occupancy, i: nat)
    requires Shaped(grid)
    requires i < |catalog| && Qualifies(policy, catalog[i], name, occupied)
    requires forall j :: 0 <= j < i ==> !Qualifies(policy, catalog[j], name, occupied)
    ensures Schedule(policy, name, catalog, grid, occupied) == Place(name, catalog[i], grid, occupied)
  {
    FirstFitAt(policy, catalog, name, occupied, i);
  }

  /** A scan that passes every section places nothing and changes nothing. */
  lemma ScheduleFindsNone(policy: Policy, name: string, catalog: seq<Section>, grid: Grid, occupied: Occupancy)
    requires Shaped(grid)
    requires forall j :: 0 <= j < |catalog| ==> !Qualifies(policy, catalog[j], name, occupied)
    ensures Schedule(policy, name, catalog, grid, occupied) == Outcome(false, grid, occupied)
  {
  }

  /** Writing one more code of the list is one more cell assignment. */
  lemma WriteCellsStep(grid: Grid, codes: seq<TimeCode>, i: nat, text: string)
    requires i < |codes|
    ensures WriteCells(grid, codes[..i + 1], text) == WriteCells(grid, codes[..i], text)[CellOf(codes[i]) := text]
  {
    CellsOfStep(codes, i);
    WriteSetAdd(grid, CellsOf(codes[..i]), CellOf(codes[i]), text);
  }

  lemma WriteSetAdd(grid: Grid, cells: set<Cell>, c: Cell, text: string)
    ensures WriteSet(grid, cells + {c}, text) == WriteSet(grid, cells, text)[c := text]
  {
  }

  lemma CellsOfStep(codes: seq<TimeCode>, i: nat)
    requires i < |codes|
    ensures CellsOf(codes[..i + 1]) == CellsOf(codes[..i]) + {CellOf(codes[i])}
  {
    assert codes[..i + 1] == codes[..i] + [codes[i]];
  }

  /** Occupying one more code of the list is one more key assignment. */
  lemma OccupyStep(occupied: Occupancy, codes: seq<TimeCode>, i: nat, name: string)
    requires i < |codes|
    ensures Occupy(occupied, codes[..i + 1], name) == Occupy(occupied, codes[..i], name)[Slot(codes[i]) := name]
  {
    assert codes[..i + 1] == codes[..i] + [codes[i]];
    assert SlotsOf(codes[..i + 1]) == SlotsOf(codes[..i]) + {Slot(codes[i])};
  }

  /**
   * Writing the cells of a code list and occupying its codes keeps the grid
   * and `occupied` in agreement. This holds even where a code was taken (its
   * cell and key are both overwritten); that `try_schedule` never overwrites
   * is `FixedPlacementAllOrNothing`.
   */
  lemma FixedPlacementKeepsSync(grid: Grid, occupied: Occupancy, codes: seq<TimeCode>, name: string, text: string)
    requires Shaped(grid) && Synced(grid, occupied)
    requires ShowsCourse(text, name)
    ensures Shaped(WriteCells(grid, codes, text))
    ensures Synced(WriteCells(grid, codes, text), Occupy(occupied, codes, name))
  {
    var g, o := WriteCells(grid, codes, text), Occupy(occupied, codes, name);
    assert g.Keys == AllCells();
    assert NoTimeCell !in CellsOf(codes);
    forall c: TimeCode
      ensures Slot(c) in o <==> g[CellOf(c)] != ""
      ensures Slot(c) in o ==> ShowsCourse(g[CellOf(c)], o[Slot(c)])
    {
      if c in codes {
        assert CellOf(c) in CellsOf(codes) && Slot(c) in SlotsOf(codes);
      } else {
        if CellOf(c) in CellsOf(codes) {
          var c' :| c' in codes && CellOf(c') == CellOf(c);
          CellOfInjective(c, c');
        }
        assert Slot(c) !in SlotsOf(codes);
      }
    }
  }

  /** A no-time placement, which leaves the NoTime cell non-empty, keeps the grid and `occupied` in agreement. */
  lemma NoTimePlacementKeepsSync(grid: Grid, occupied: Occupancy, name: string, entry: string)
    requires Shaped(grid) && Synced(grid, occupied) && entry != ""
    ensures Shaped(grid[NoTimeCell := entry])
    ensures Synced(grid[NoTimeCell := entry], occupied[Name(name) := name])
  {
    var g := grid[NoTimeCell := entry];
    assert g.Keys == AllCells();
    forall c: TimeCode
      ensures g[CellOf(c)] == grid[CellOf(c)]
    {
    }
  }

  /**
   * Every `try_schedule` call keeps the grid and `occupied` in agreement:
   * each occupied code's cell shows the course that occupies it, and every
   * non-empty period cell belongs to an occupied code.
   */
  lemma ScheduleKeepsSync(policy: Policy, name: string, catalog: seq<Section>, grid: Grid, occupied: Occupancy)
    requires Shaped(grid)
    ensures Shaped(Schedule(policy, name, catalog, grid, occupied).grid)
    ensures Synced(grid, occupied) ==>
              Synced(Schedule(policy, name, catalog, grid, occupied).grid, Schedule(policy, name, catalog, grid, occupied).occupied)
  {
    match FirstFit(policy, catalog, name, occupied, 0)
    case None =>
    case Some(k) =>
      var sec := catalog[k];
      var codes := sec.1[name].timeCodes;
      DisplayShowsCourse(name, sec.0);
      if codes == [] {
        assert grid[NoTimeCell := AppendNoTime(grid[NoTimeCell], Display(name, sec.0))].Keys == AllCells();
        if Synced(grid, occupied) {
          NoTimePlacementKeepsSync(grid, occupied, name, AppendNoTime(grid[NoTimeCell], Display(name, sec.0)));
        }
      } else {
        assert WriteCells(grid, codes, Display(name, sec.0)).Keys == AllCells();
        if Synced(grid, occupied) {
          FixedPlacementKeepsSync(grid, occupied, codes, name, Display(name, sec.0));
        }
      }
  }

  /**
   * A fixed-time placement is all or nothing: the chosen section's codes were
   * all free, all of them now map to the course and show it in their cells,
   * no other key is added, no existing entry changes, and no other cell is written.
   */
  lemma FixedPlacementAllOrNothing(policy: Policy, name: string, catalog: seq<Section>, grid: Grid, occupied: Occupancy, k: nat)
    requires Shaped(grid)
    requires FirstFit(policy, catalog, name, occupied, 0) == Some(k)
    requires catalog[k].1[name].timeCodes != []
    ensures var r := Schedule(policy, name, catalog, grid, occupied);
            var codes := catalog[k].1[name].timeCodes;
            && r.placed
            && (forall c :: c in codes ==>
                  Slot(c) !in occupied && Slot(c) in r.occupied && r.occupied[Slot(c)] == name
                  && r.grid[CellOf(c)] == Display(name, catalog[k].0))
            && (forall key :: key in occupied ==> key in r.occupied && r.occupied[key] == occupied[key])
            && (forall key :: key in r.occupied && key !in occupied ==> key.Slot? && key.code in codes)
            && (forall cell :: cell in grid && cell !in CellsOf(codes) ==> r.grid[cell] == grid[cell])
  {
    var codes := catalog[k].1[name].timeCodes;
    forall c | c in codes
      ensures Slot(c) !in occupied
    {
      var i :| 0 <= i < |codes| && codes[i] == c;
    }
    assert forall key :: key in occupied ==> key !in SlotsOf(codes);
    assert forall c :: c in codes ==> CellOf(c) in CellsOf(codes) && Slot(c) in SlotsOf(codes);
  }

  /**
   * A course without fixed time is appended to the NoTime cell and recorded
   * under its name, whether or not that name is already recorded; nothing
   * else changes.
   */
  lemma NoTimePlacementAppends(policy: Policy, name: string, catalog: seq<Section>, grid: Grid, occupied: Occupancy, k: nat)
    requires Shaped(grid)
    requires FirstFit(policy, catalog, name, occupied, 0) == Some(k)
    requires catalog[k].1[name].timeCodes == []
    ensures var r := Schedule(policy, name, catalog, grid, occupied);
            && r.placed
            && r.grid == grid[NoTimeCell := AppendNoTime(grid[NoTimeCell], Display(name, catalog[k].0))]
            && r.occupied == occupied[Name(name) := name]
  {
  }

  /** A course no section qualifies for is not placed, and the grid and `occupied` stay as they were. */
  lemma UnplacedLeavesStateUnchanged(policy: Policy, name: string, catalog: seq<Section>, grid: Grid, occupied: Occupancy)
    requires Shaped(grid)
    ensures var r := Schedule(policy, name, catalog, grid, occupied);
            && (r.placed <==> exists k :: 0 <= k < |catalog| && Qualifies(policy, catalog[k], name, occupied))
            && (!r.placed ==> r.grid == grid && r.occupied == occupied)
  {
    if exists k :: 0 <= k < |catalog| && Qualifies(policy, catalog[k], name, occupied) {
      var k :| 0 <= k < |catalog| && Qualifies(policy, catalog[k], name, occupied);
      assert FirstFit(policy, catalog, name, occupied, 0).Some?;
    }
  }

  /**
   * course_utils.py and 07_21.py: the filter comes first, so a section the
   * filter rejects is passed over even for a course without fixed time, and
   * a section offering the course with a taken code is passed over too.
   */
  lemma FilterThenPlaceSkips(catalog: seq<Section>, name: string, occupied: Occupancy, k: nat)
    requires k < |catalog| && name in catalog[k].1
    requires !CourseFilter(catalog[k].0, name, catalog[k].1[name]) || Conflicts(catalog[k].1[name].timeCodes, occupied)
    requires catalog[k].1[name].timeCodes == [] ==> !CourseFilter(catalog[k].0, name, catalog[k].1[name])
    ensures FirstFit(FilterThenPlace, catalog, name, occupied, 0) != Some(k)
  {
  }

  /**
   * 07_32.py: the no-time check comes first, so a course without fixed time
   * is placed from the first section offering it, even one whose label and
   * course name the filter rejects.
   */
  lemma NoTimeThenFilterTakesFirstOffer(catalog: seq<Section>, name: string, occupied: Occupancy, k: nat)
    requires k < |catalog| && name in catalog[k].1 && catalog[k].1[name].timeCodes == []
    requires forall j :: 0 <= j < k ==> name !in catalog[j].1
    ensures FirstFit(NoTimeThenFilter, catalog, name, occupied, 0) == Some(k)
  {
    FirstFitAt(NoTimeThenFilter, catalog, name, occupied, k);
  }

  /** A course that no section's course map holds is reported unplaced, and nothing changes. */
  lemma NotOfferedIsUnplaced(policy: Policy, name: string, catalog: seq<Section>, grid: Grid, occupied: Occupancy)
    requires Shaped(grid)
    requires forall k :: 0 <= k < |catalog| ==> name !in catalog[k].1
    ensures Schedule(policy, name, catalog, grid, occupied) == Outcome(false, grid, occupied)
  {
    UnplacedLeavesStateUnchanged(policy, name, catalog, grid, occupied);
  }

  /** The class label 電機一 does not name the home department. */
  lemma OutsideHome()
    ensures !Contains("電機一", HomeMarker)
  {
    assert "電機一"[0..2][0] != HomeMarker[0];
    assert "電機一"[1..3][0] != HomeMarker[0];
  }

  /** The display texts of the scenarios below. */
  lemma DisplayTexts()
    ensures Display("A", "資工一") == "A(資工一)"
    ensures Display("作業系統", "資工二") == "作業系統(資工二)"
  {
  }

  /** Placing a course with a single code writes its display text into that code's cell and occupies the code. */
  lemma PlaceSingleCode(name: string, sec: Section, grid: Grid, occupied: Occupancy, c: TimeCode)
    requires name in sec.1 && sec.1[name].timeCodes == [c] && Shaped(grid)
    ensures Place(name, sec, grid, occupied).grid[CellOf(c)] == Display(name, sec.0)
    ensures Slot(c) in Place(name, sec, grid, occupied).occupied
    ensures Place(name, sec, grid, occupied).occupied[Slot(c)] == name
  {
    assert CellOf(c) in CellsOf([c]) && Slot(c) in SlotsOf([c]);
  }

  /**
   * Two courses of one home-department class page at the same slot, requested
   * in turn on a timetable where that slot is free: the first is placed, the
   * second is reported unplaced and changes nothing.
   */
  lemma SameSlotSecondUnplaced(recA: CourseRecord, recB: CourseRecord, grid: Grid, occupied: Occupancy)
    requires recA.timeCodes == [TimeCode(1, 1)] && recB.timeCodes == [TimeCode(1, 1)]
    requires Shaped(grid) && Slot(TimeCode(1, 1)) !in occupied
    ensures var catalog := [("資工一", map["A" := recA, "B" := recB])];
            var r1 := Schedule(FilterThenPlace, "A", catalog, grid, occupied);
            var r2 := Schedule(FilterThenPlace, "B", catalog, r1.grid, r1.occupied);
            && r1.placed && r1.grid[CellOf(TimeCode(1, 1))] == "A(資工一)"
            && Slot(TimeCode(1, 1)) in r1.occupied && r1.occupied[Slot(TimeCode(1, 1))] == "A"
            && !r2.placed && r2.grid == r1.grid && r2.occupied == r1.occupied
  {
    var catalog := [("資工一", map["A" := recA, "B" := recB])];
    var c := TimeCode(1, 1);
    assert Qualifies(FilterThenPlace, catalog[0], "A", occupied) by {
      assert OccursAt("資工一", HomeMarker, 0);
      assert !Conflicts(recA.timeCodes, occupied);
    }
    ScheduleStopsAt(FilterThenPlace, "A", catalog, grid, occupied, 0);
    PlaceSingleCode("A", catalog[0], grid, occupied, c);
    DisplayTexts();
    var r1 := Schedule(FilterThenPlace, "A", catalog, grid, occupied);
    assert !Qualifies(FilterThenPlace, catalog[0], "B", r1.occupied) by {
      assert catalog[0].1["B"] == recB;
      assert Slot(recB.timeCodes[0]) in r1.occupied;
    }
    UnplacedLeavesStateUnchanged(FilterThenPlace, "B", catalog, r1.grid, r1.occupied);
  }

  /** An earlier class page outside the home department is skipped for a course off the allow-list; the next eligible page places it. */
  lemma FilteredPageSkipped(rec1: CourseRecord, rec2: CourseRecord, grid: Grid, occupied: Occupancy)
    requires rec1.timeCodes == [TimeCode(2, 3)] && rec2.timeCodes == [TimeCode(2, 3)]
    requires Shaped(grid) && Slot(TimeCode(2, 3)) !in occupied
    ensures var catalog := [("電機一", map["作業系統" := rec1]), ("資工二", map["作業系統" := rec2])];
            var r := Schedule(FilterThenPlace, "作業系統", catalog, grid, occupied);
            r.placed && r.grid[CellOf(TimeCode(2, 3))] == "作業系統(資工二)"
  {
    var catalog := [("電機一", map["作業系統" := rec1]), ("資工二", map["作業系統" := rec2])];
    var c := TimeCode(2, 3);
    assert !Qualifies(FilterThenPlace, catalog[0], "作業系統", occupied) by {
      OutsideHome();
      assert "作業系統" !in CrossDeptCourses;
    }
    assert Qualifies(FilterThenPlace, catalog[1], "作業系統", occupied) by {
      assert OccursAt("資工二", HomeMarker, 0);
      assert !Conflicts(rec2.timeCodes, occupied);
    }
    ScheduleStopsAt(FilterThenPlace, "作業系統", catalog, grid, occupied, 1);
    PlaceSingleCode("作業系統", catalog[1], grid, occupied, c);
    DisplayTexts();
  }

  /** Requesting the same course without fixed time twice places it twice: the NoTime cell lists it twice. */
  lemma RepeatedNoTimeAppendsAgain(rec: CourseRecord)
    requires rec.timeCodes == []
    ensures var catalog := [("資工三", map["專題" := rec])];
            var r1 := Schedule(FilterThenPlace, "專題", catalog, EmptyGrid(), map[]);
            var r2 := Schedule(FilterThenPlace, "專題", catalog, r1.grid, r1.occupied);
            && r1.placed && r2.placed
            && r2.grid[NoTimeCell] == "專題(資工三)；專題(資工三)"
            && r2.occupied == map[Name("專題") := "專題"]
  {
    var catalog := [("資工三", map["專題" := rec])];
    assert OccursAt("資工三", HomeMarker, 0);
    FirstFitAt(FilterThenPlace, catalog, "專題", map[], 0);
    var r1 := Schedule(FilterThenPlace, "專題", catalog, EmptyGrid(), map[]);
    assert r1.grid[NoTimeCell] == "專題(資工三)";
    FirstFitAt(FilterThenPlace, catalog, "專題", r1.occupied, 0);
  }

  /** A course without fixed time offered only outside the home department: placed by 07_32.py, not by course_utils.py. */
  lemma PoliciesDisagreeOnNoTime(rec: CourseRecord)
    requires rec.timeCodes == []
    ensures var catalog := [("電機一", map["專題" := rec])];
            && !Schedule(FilterThenPlace, "專題", catalog, EmptyGrid(), map[]).placed
            && Schedule(NoTimeThenFilter, "專題", catalog, EmptyGrid(), map[]).placed
  {
    var catalog := [("電機一", map["專題" := rec])];
    OutsideHome();
    FirstFitAt(NoTimeThenFilter, catalog, "專題", map[], 0);
  }

  /** The first code of `codes` that is already a key of `occupied`: `next((c for c in codes if c in occupied), None)`. */
  method FindConflict(codes: seq<TimeCode>, occupied: Occupancy) returns (conflict: Option<TimeCode>)
    ensures conflict.None? <==> !Conflicts(codes, occupied)
    ensures conflict.Some? ==> exists i :: 0 <= i < |codes| && codes[i] == conflict.value && Slot(codes[i]) in occupied
                                && forall j :: 0 <= j < i ==> Slot(codes[j]) !in occupied
  {
    var i := 0;
    while i < |codes|
      invariant 0 <= i <= |codes|
      invariant forall j :: 0 <= j < i ==> Slot(codes[j]) !in occupied
    {
      if Slot(codes[i]) in occupied {
        return Some(codes[i]);
      }
      i := i + 1;
    }
    return None;
  }

  /** The timetable state `try_schedule` updates in place: the schedule grid and `occupied`. */
  class Timetable {
    var grid: Grid
    var occupied: Occupancy

    /** The grid has its 12 x 5 shape, and agrees with `occupied`. */
    ghost predicate Valid()
      reads this
    {
      Shaped(grid) && Synced(grid, occupied)
    }

    /** A fresh run: every cell empty, nothing occupied. */
    constructor ()
      ensures Valid()
      ensures grid == EmptyGrid() && occupied == map[]
    {
      grid := EmptyGrid();
      occupied := map[];
    }

    /** Appends the course to the NoTime cell and records its name. */
    method PlaceNoTime(name: string, sectionLabel: string)
      requires Shaped(grid)
      modifies this
      ensures grid == old(grid)[NoTimeCell := AppendNoTime(old(grid)[NoTimeCell], Display(name, sectionLabel))]
      ensures occupied == old(occupied)[Name(name) := name]
    {
      var prev := grid[NoTimeCell];
      var entry := Display(name, sectionLabel);
      grid := grid[NoTimeCell := if prev != "" then prev + "；" + entry else entry];
      occupied := occupied[Name(name) := name];
    }

    /** Writes the course into the cell of every code, decoding each code's text as the source does, and occupies every code. */
    method PlaceFixed(name: string, sectionLabel: string, codes: seq<TimeCode>)
      requires Shaped(grid)
      modifies this
      ensures grid == WriteCells(old(grid), codes, Display(name, sectionLabel))
      ensures occupied == Occupy(old(occupied), codes, name)
    {
      var text := Display(name, sectionLabel);
      var i := 0;
      while i < |codes|
        invariant 0 <= i <= |codes|
        invariant grid == WriteCells(old(grid), codes[..i], text)
        invariant occupied == Occupy(old(occupied), codes[..i], name)
      {
        WriteCode(codes[i], text, name);
        WriteCellsStep(old(grid), codes, i, text);
        OccupyStep(old(occupied), codes, i, name);
        i := i + 1;
      }
      assert codes[..i] == codes;
    }

    /** One code of a fixed-time placement: decode its text into a row and a column, write the cell, occupy the code. */
    method WriteCode(c: TimeCode, text: string, name: string)
      modifies this
      ensures grid == old(grid)[CellOf(c) := text]
      ensures occupied == old(occupied)[Slot(c) := name]
    {
      var code := Text(c);
      var d, p := code[0], code[1];
      var idx := SlotIndexOf(p);
      DecodedCell(c);
      var col := DayNumToCol[d];
      grid := grid[Cell(Period(idx), col) := text];
      occupied := occupied[Slot(c) := name];
    }

    /** `try_schedule` of course_utils.py and 07_21.py; it keeps the timetable valid. */
    method TrySchedule(name: string, catalog: seq<Section>) returns (placed: bool)
      requires Shaped(grid)
      modifies this
      ensures placed == Schedule(FilterThenPlace, name, catalog, old(grid), old(occupied)).placed
      ensures grid == Schedule(FilterThenPlace, name, catalog, old(grid), old(occupied)).grid
      ensures occupied == Schedule(FilterThenPlace, name, catalog, old(grid), old(occupied)).occupied
      ensures old(Valid()) ==> Valid()
    {
      ScheduleKeepsSync(FilterThenPlace, name, catalog, grid, occupied);
      placed := ScanFilterFirst(name, catalog);
    }

    /** `try_schedule` of 07_32.py; it keeps the timetable valid. */
    method TryScheduleNoTimeFirst(name: string, catalog: seq<Section>) returns (placed: bool)
      requires Shaped(grid)
      modifies this
      ensures placed == Schedule(NoTimeThenFilter, name, catalog, old(grid), old(occupied)).placed
      ensures grid == Schedule(NoTimeThenFilter, name, catalog, old(grid), old(occupied)).grid
      ensures occupied == Schedule(NoTimeThenFilter, name, catalog, old(grid), old(occupied)).occupied
      ensures old(Valid()) ==> Valid()
    {
      ScheduleKeepsSync(NoTimeThenFilter, name, catalog, grid, occupied);
      placed := ScanNoTimeFirst(name, catalog);
    }

    /** The scan of `try_schedule` in course_utils.py and 07_21.py: filter, then no-time check, then conflict check. */
    method ScanFilterFirst(name: string, catalog: seq<Section>) returns (placed: bool)
      requires Shaped(grid)
      modifies this
      ensures placed == Schedule(FilterThenPlace, name, catalog, old(grid), old(occupied)).placed
      ensures grid == Schedule(FilterThenPlace, name, catalog, old(grid), old(occupied)).grid
      ensures occupied == Schedule(FilterThenPlace, name, catalog, old(grid), old(occupied)).occupied
    {
      var i := 0;
      while i < |catalog|
        invariant 0 <= i <= |catalog|
        invariant grid == old(grid) && occupied == old(occupied)
        invariant forall j :: 0 <= j < i ==> !Qualifies(FilterThenPlace, catalog[j], name, occupied)
      {
        var sectionLabel, cmap := catalog[i].0, catalog[i].1;
        if name in cmap {
          var info := cmap[name];
          if CourseFilter(sectionLabel, name, info) {
            if info.timeCodes == [] {
              ScheduleStopsAt(FilterThenPlace, name, catalog, grid, occupied, i);
              PlaceNoTime(name, sectionLabel);
              return true;
            }
            var conflict := FindConflict(info.timeCodes, occupied);
            if conflict.None? {
              ScheduleStopsAt(FilterThenPlace, name, catalog, grid, occupied, i);
              PlaceFixed(name, sectionLabel, info.timeCodes);
              return true;
            }
          }
        }
        i := i + 1;
      }
      ScheduleFindsNone(FilterThenPlace, name, catalog, grid, occupied);
      return false;
    }

    /** The scan of `try_schedule` in 07_32.py: no-time check, then filter, then conflict check. */
    method ScanNoTimeFirst(name: string, catalog: seq<Section>) returns (placed: bool)
      requires Shaped(grid)
      modifies this
      ensures placed == Schedule(NoTimeThenFilter, name, catalog, old(grid), old(occupied)).placed
      ensures grid == Schedule(NoTimeThenFilter, name, catalog, old(grid), old(occupied)).grid
      ensures occupied == Schedule(NoTimeThenFilter, name, catalog, old(grid), old(occupied)).occupied
    {
      var i := 0;
      while i < |catalog|
        invariant 0 <= i <= |catalog|
        invariant grid == old(grid) && occupied == old(occupied)
        invariant forall j :: 0 <= j < i ==> !Qualifies(NoTimeThenFilter, catalog[j], name, occupied)
      {
        var sectionLabel, cmap := catalog[i].0, catalog[i].1;
        if name in cmap {
          var info := cmap[name];
          if info.timeCodes == [] {
            ScheduleStopsAt(NoTimeThenFilter, name, catalog, grid, occupied, i);
            PlaceNoTime(name, sectionLabel);
            return true;
          }
          if CourseFilterShort(sectionLabel, name, info) {
            var conflict := FindConflict(info.timeCodes, occupied);
            if conflict.None? {
              ScheduleStopsAt(NoTimeThenFilter, name, catalog, grid, occupied, i);
              PlaceFixed(name, sectionLabel, info.timeCodes);
              return true;
            }
          }
        }
        i := i + 1;
      }
      ScheduleFindsNone(NoTimeThenFilter, name, catalog, grid, occupied);
      return false;
    }
  }
}

/**
 * The eligibility filter `course_filter`: a class page is always eligible
 * when its label names the home department (contains "資工"); any other
 * class page is eligible only for the cross-department courses of a fixed
 * list. course_utils.py and 07_21.py carry a 12-name list, 07_32.py a
 * 9-name list.
 */
module Eligibility {
  import opened Records

  /** The substring that marks a home-department class label. */
  const HomeMarker: string := "資工"

  /** The allow-list of course_utils.py and 07_21.py. */
  const CrossDeptCourses: seq<string> := [
    "電子學(一)", "電子學(二)", "電路學(一)", "電路學(二)",
    "線性代數", "機率", "數位邏輯設計", "微積分", "離散數學",
    "物理", "專業英文", "體育"]

  /** The shorter allow-list of 07_32.py. */
  const CrossDeptCoursesShort: seq<string> := [
    "電子學(一)", "電子學(二)", "電路學(一)", "電路學(二)",
    "線性代數", "機率", "數位邏輯設計", "微積分", "離散數學"]

  /** `sub` occurs in `s` starting at index `i`. */
  predicate OccursAt(s: string, sub: string, i: int) {
    0 <= i && i + |sub| <= |s| && s[i..i + |sub|] == sub
  }

  /** Python's `sub in s` on strings. */
  function Contains(s: string, sub: string): (r: bool)
    ensures r <==> exists i :: OccursAt(s, sub, i)
    decreases |s|
  {
    if |sub| > |s| then
      false
    else if sub <= s then
      assert OccursAt(s, sub, 0);
      true
    else
      var r := Contains(s[1..], sub);
      assert !OccursAt(s, sub, 0);
      assert forall i :: OccursAt(s[1..], sub, i) <==> OccursAt(s, sub, i + 1);
      assert forall i :: OccursAt(s, sub, i) ==> OccursAt(s[1..], sub, i - 1);
      r
  }

  /** `course_filter` of course_utils.py and 07_21.py; the course record is not consulted. */
  function CourseFilter(deptName: string, courseName: string, info: CourseRecord): (r: bool)
    ensures r <==> (exists i :: OccursAt(deptName, HomeMarker, i)) || courseName in CrossDeptCourses
  {
    if Contains(deptName, HomeMarker) then true
    else if courseName in CrossDeptCourses then true
    else false
  }

  /** `course_filter` of 07_32.py; the course record is not consulted. */
  function CourseFilterShort(deptName: string, courseName: string, info: CourseRecord): (r: bool)
    ensures r <==> (exists i :: OccursAt(deptName, HomeMarker, i)) || courseName in CrossDeptCoursesShort
  {
    if Contains(deptName, HomeMarker) then true
    else if courseName in CrossDeptCoursesShort then true
    else false
  }

  /**
   * The 9-name filter accepts less than the 12-name one, and the difference
   * is exactly 物理, 專業英文 and 體育 offered by a class outside the home department.
   */
  lemma ShortFilterNarrower(deptName: string, courseName: string, info: CourseRecord)
    ensures CourseFilterShort(deptName, courseName, info) ==> CourseFilter(deptName, courseName, info)
    ensures CourseFilter(deptName, courseName, info) && !CourseFilterShort(deptName, courseName, info)
            <==> !Contains(deptName, HomeMarker) && courseName in {"物理", "專業英文", "體育"}
  {
    assert forall n :: n in CrossDeptCoursesShort ==> n in CrossDeptCourses;
    assert forall n :: n in CrossDeptCourses && n !in CrossDeptCoursesShort <==> n in {"物理", "專業英文", "體育"};
  }
}

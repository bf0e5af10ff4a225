/**
 * The semester store of src/stores/semesterStore.js: the in-memory list of
 * semesters, each holding its courses, the actions that edit that list and
 * the getters that compute grade points, unit totals and grade point
 * averages from it. Database calls are left out; only the state the store
 * keeps in memory is modelled. An average is an exact ratio of integer sums.
 */
module SemesterStore {
  import opened Optional

  /** A course as stored: the fields the user or the recogniser gave plus its generated id. */
  datatype Course = Course(id: string, code: string, unit: int, grade: string)

  /** The `course` argument of `addCourse`: everything but the id. */
  datatype CourseInput = CourseInput(code: string, unit: int, grade: string)

  /** A semester; `id` is the key the database assigned to it. */
  datatype Semester = Semester(id: nat, name: string, courses: seq<Course>, order: int)

  /** One entry of `heatmapData`. */
  datatype HeatCell = HeatCell(id: string, code: string, grade: string, unit: int, semesterName: string)

  /** One entry of `gpaTrend`. */
  datatype TrendPoint = TrendPoint(semester: string, gpa: real)

  // ----- grade points -----

  /** The letter grades that earn points. */
  predicate IsPassingLetter(grade: string) {
    grade == "A" || grade == "B" || grade == "C" || grade == "D" || grade == "E"
  }

  /** `getGradePoint` (src/stores/semesterStore.js:80-97). */
  function GradePoint(grade: string): (p: int)
    ensures 0 <= p <= 5
    ensures p > 0 <==> IsPassingLetter(grade)
  {
    match grade
    case "A" => 5
    case "B" => 4
    case "C" => 3
    case "D" => 2
    case "E" => 1
    case "F" => 0
    case _ => 0
  }

  /** The grade-point table: A 5, B 4, C 3, D 2, E 1, F 0, anything else 0. */
  lemma GradePointTable(other: string)
    requires other !in ["A", "B", "C", "D", "E", "F"]
    ensures GradePoint("A") == 5 && GradePoint("B") == 4 && GradePoint("C") == 3
    ensures GradePoint("D") == 2 && GradePoint("E") == 1 && GradePoint("F") == 0
    ensures GradePoint(other) == 0
  {
  }

  // ----- sums over courses -----

  /** Σ point · unit over `cs`, accumulated left to right. */
  function Points(cs: seq<Course>): int {
    if |cs| == 0 then 0 else Points(cs[..|cs| - 1]) + GradePoint(cs[|cs| - 1].grade) * cs[|cs| - 1].unit
  }

  /** Σ unit over `cs`, accumulated left to right. */
  function Units(cs: seq<Course>): int {
    if |cs| == 0 then 0 else Units(cs[..|cs| - 1]) + cs[|cs| - 1].unit
  }

  lemma {:induction false} SumsAppend(a: seq<Course>, b: seq<Course>)
    ensures Points(a + b) == Points(a) + Points(b)
    ensures Units(a + b) == Units(a) + Units(b)
  {
    if |b| == 0 {
      assert a + b == a;
    } else {
      var ab := a + b;
      assert ab[..|ab| - 1] == a + b[..|b| - 1];
      assert ab[|ab| - 1] == b[|b| - 1];
      SumsAppend(a, b[..|b| - 1]);
    }
  }

  predicate NonNegativeUnits(cs: seq<Course>) {
    forall k :: 0 <= k < |cs| ==> cs[k].unit >= 0
  }

  /** With no negative unit, the points lie between 0 and five times the units. */
  lemma {:induction false} PointsBounds(cs: seq<Course>)
    requires NonNegativeUnits(cs)
    ensures 0 <= Units(cs) && 0 <= Points(cs) <= 5 * Units(cs)
  {
    if |cs| > 0 {
      var last := cs[|cs| - 1];
      PointsBounds(cs[..|cs| - 1]);
      assert 0 <= GradePoint(last.grade) * last.unit <= 5 * last.unit;
    }
  }

  /**
   * `totalUnits === 0 ? 0 : totalPoints / totalUnits`, without the rounding
   * of `toFixed(2)`.
   */
  function Ratio(points: int, units: int): real {
    if units == 0 then 0.0 else points as real / units as real
  }

  /** The weighted grade point average of `cs`: Σ point · unit / Σ unit, or 0 without units. */
  function WeightedGpa(cs: seq<Course>): real {
    Ratio(Points(cs), Units(cs))
  }

  /** Multiplying both sides of a strict inequality by a positive real keeps it strict. */
  lemma MulStrict(a: real, b: real, c: real)
    requires a > b && c > 0.0
    ensures a * c > b * c
  {
    assert (a - b) * c > 0.0;
  }

  /** A ratio of a numerator between 0 and 5 times a positive denominator lies between 0 and 5. */
  lemma RatioBounds(p: int, u: int)
    requires u > 0 && 0 <= p <= 5 * u
    ensures 0.0 <= Ratio(p, u) <= 5.0
  {
    var pr, ur := p as real, u as real;
    var q := pr / ur;
    assert q * ur == pr;
    if q > 5.0 {
      MulStrict(q, 5.0, ur);
      assert false;
    }
    if q < 0.0 {
      MulStrict(0.0, q, ur);
      assert false;
    }
  }

  /**
   * The average is 0 when the units add up to 0; when no unit is negative
   * and they add up to more than 0, it lies between 0 and 5.
   */
  lemma GpaBounds(cs: seq<Course>)
    ensures Units(cs) == 0 ==> WeightedGpa(cs) == 0.0
    ensures NonNegativeUnits(cs) && Units(cs) > 0 ==> 0.0 <= WeightedGpa(cs) <= 5.0
  {
    if NonNegativeUnits(cs) && Units(cs) > 0 {
      PointsBounds(cs);
      RatioBounds(Points(cs), Units(cs));
    }
  }

  // ----- sums over semesters -----

  /** Every course of every semester, semester by semester, each in its own order. */
  function AllCourses(sems: seq<Semester>): seq<Course> {
    if |sems| == 0 then [] else AllCourses(sems[..|sems| - 1]) + sems[|sems| - 1].courses
  }

  /** The number of courses before semester `i`: where semester `i`'s courses start in `AllCourses`. */
  lemma {:induction false} AllCoursesAt(sems: seq<Semester>, i: nat, j: nat)
    requires i < |sems| && j < |sems[i].courses|
    ensures |AllCourses(sems[..i])| + j < |AllCourses(sems)|
    ensures AllCourses(sems)[|AllCourses(sems[..i])| + j] == sems[i].courses[j]
  {
    var n := |sems|;
    assert sems[..n - 1][..i] == sems[..i] by { assert i <= n - 1; }
    if i < n - 1 {
      AllCoursesAt(sems[..n - 1], i, j);
    } else {
      assert sems[..n - 1] == sems[..i];
    }
  }

  /** Accumulating course by course, starting from the given sums (the inner `forEach`). */
  method AccumulateCourses(cs: seq<Course>, points0: int, units0: int) returns (points: int, units: int)
    ensures points == points0 + Points(cs)
    ensures units == units0 + Units(cs)
  {
    points, units := points0, units0;
    var j := 0;
    while j < |cs|
      invariant 0 <= j <= |cs|
      invariant points == points0 + Points(cs[..j])
      invariant units == units0 + Units(cs[..j])
    {
      assert cs[..j + 1][..j] == cs[..j];
      points := points + GradePoint(cs[j].grade) * cs[j].unit;
      units := units + cs[j].unit;
      j := j + 1;
    }
    assert cs[..|cs|] == cs;
  }

  /**
   * `getSemesterGpa` (src/stores/semesterStore.js:153-165); `None` is a
   * missing semester. It is 0 for a missing semester, an empty course list or
   * units adding up to 0, and otherwise the semester's weighted average.
   */
  method GetSemesterGpa(semester: Option<Semester>) returns (gpa: real)
    ensures semester.None? ==> gpa == 0.0
    ensures semester.Some? ==> gpa == WeightedGpa(semester.value.courses)
  {
    if semester.None? || |semester.value.courses| == 0 {
      return 0.0;
    }
    var totalPoints, totalUnits := AccumulateCourses(semester.value.courses, 0, 0);
    gpa := if totalUnits == 0 then 0.0 else totalPoints as real / totalUnits as real;
  }

  /** `heatmapData`'s entries for one semester. */
  function Cells(sem: Semester): (r: seq<HeatCell>)
    ensures |r| == |sem.courses|
  {
    seq(|sem.courses|, j requires 0 <= j < |sem.courses| =>
      var c := sem.courses[j];
      HeatCell(c.id, c.code, c.grade, c.unit, sem.name))
  }

  /** `heatmapData`: the entries of every semester, in semester order. */
  function Heatmap(sems: seq<Semester>): seq<HeatCell> {
    if |sems| == 0 then [] else Heatmap(sems[..|sems| - 1]) + Cells(sems[|sems| - 1])
  }

  /** The heat-map has one entry per course, at that course's place in `AllCourses`. */
  lemma {:induction false} HeatmapLength(sems: seq<Semester>)
    ensures |Heatmap(sems)| == |AllCourses(sems)|
  {
    if |sems| > 0 {
      HeatmapLength(sems[..|sems| - 1]);
    }
  }

  /**
   * `heatmapData` has one entry per course, semester by semester and course
   * by course: course `j` of semester `i` is entry `|AllCourses(sems[..i])| + j`,
   * carrying the course's id, code, grade and unit and its semester's name.
   */
  lemma {:induction false} HeatmapAt(sems: seq<Semester>, i: nat, j: nat)
    requires i < |sems| && j < |sems[i].courses|
    ensures |Heatmap(sems)| == |AllCourses(sems)|
    ensures |AllCourses(sems[..i])| + j < |Heatmap(sems)|
    ensures var c := sems[i].courses[j];
      Heatmap(sems)[|AllCourses(sems[..i])| + j] == HeatCell(c.id, c.code, c.grade, c.unit, sems[i].name)
  {
    var n := |sems|;
    HeatmapLength(sems);
    HeatmapLength(sems[..n - 1]);
    AllCoursesAt(sems, i, j);
    assert sems[..n - 1][..i] == sems[..i] by { assert i <= n - 1; }
    if i < n - 1 {
      HeatmapAt(sems[..n - 1], i, j);
    } else {
      assert sems[..n - 1] == sems[..i];
    }
  }

  // ----- list edits -----

  /** `Array.prototype.filter`. */
  function Filter<T>(s: seq<T>, keep: T -> bool): (r: seq<T>)
    ensures |r| <= |s|
  {
    if |s| == 0 then [] else Filter(s[..|s| - 1], keep) + (if keep(s[|s| - 1]) then [s[|s| - 1]] else [])
  }

  /** Filtering distributes over concatenation, so it keeps the order of what passes. */
  lemma {:induction false} FilterAppend<T>(a: seq<T>, b: seq<T>, keep: T -> bool)
    ensures Filter(a + b, keep) == Filter(a, keep) + Filter(b, keep)
  {
    if |b| == 0 {
      assert a + b == a;
    } else {
      var ab := a + b;
      assert ab[..|ab| - 1] == a + b[..|b| - 1];
      assert ab[|ab| - 1] == b[|b| - 1];
      FilterAppend(a, b[..|b| - 1], keep);
    }
  }

  /** Filtering keeps exactly the elements that pass. */
  lemma {:induction false} FilterMembers<T>(a: seq<T>, keep: T -> bool)
    ensures forall x :: x in Filter(a, keep) <==> x in a && keep(x)
  {
    if |a| > 0 {
      FilterMembers(a[..|a| - 1], keep);
      assert a == a[..|a| - 1] + [a[|a| - 1]];
    }
  }

  /** The test of `deleteSemester`'s filter: `s.id !== id`. */
  function OtherSemester(id: nat): Semester -> bool {
    (s: Semester) => s.id != id
  }

  /** The test of `removeCourse`'s filter: `c.id !== courseId`. */
  function OtherCourse(courseId: string): Course -> bool {
    (c: Course) => c.id != courseId
  }

  /** `semesters.value.find((s) => s.id === semesterId)`, as an index. */
  function FindSemester(sems: seq<Semester>, id: nat): (k: Option<nat>)
    ensures k.Some? ==> k.value < |sems| && sems[k.value].id == id
                        && forall j :: 0 <= j < k.value ==> sems[j].id != id
    ensures k.None? ==> forall j :: 0 <= j < |sems| ==> sems[j].id != id
  {
    if |sems| == 0 then None
    else if sems[0].id == id then Some(0)
    else match FindSemester(sems[1..], id)
      case None => None
      case Some(k) => Some(k + 1)
  }

  /** The semester list with the courses of the found semester replaced by `courses`. */
  function SetCourses(sems: seq<Semester>, k: nat, courses: seq<Course>): seq<Semester>
    requires k < |sems|
  {
    sems[k := sems[k].(courses := courses)]
  }

  /** The list after `addCourse(semesterId, course)`, `courseId` being the generated id. */
  function WithCourseAdded(sems: seq<Semester>, semesterId: nat, course: CourseInput, courseId: string): seq<Semester> {
    match FindSemester(sems, semesterId)
    case None => sems
    case Some(k) =>
      SetCourses(sems, k, sems[k].courses + [Course(courseId, course.code, course.unit, course.grade)])
  }

  /** The list after `removeCourse(semesterId, courseId)`. */
  function WithCourseRemoved(sems: seq<Semester>, semesterId: nat, courseId: string): seq<Semester> {
    match FindSemester(sems, semesterId)
    case None => sems
    case Some(k) => SetCourses(sems, k, Filter(sems[k].courses, OtherCourse(courseId)))
  }

  /**
   * `addCourse` changes only the first semester with the given id: it gets
   * exactly one more course, the given fields with the new id, at the end of
   * its list, and the total of units grows by that course's unit. With no
   * such semester nothing changes.
   */
  lemma AddCourseSpec(sems: seq<Semester>, semesterId: nat, course: CourseInput, courseId: string)
    ensures var r := WithCourseAdded(sems, semesterId, course, courseId);
      |r| == |sems| &&
      (forall j :: 0 <= j < |sems| && sems[j].id != semesterId ==> r[j] == sems[j]) &&
      (forall j :: 0 <= j < |sems| ==> r[j].id == sems[j].id && r[j].name == sems[j].name && r[j].order == sems[j].order)
    ensures (forall j :: 0 <= j < |sems| ==> sems[j].id != semesterId) ==>
      WithCourseAdded(sems, semesterId, course, courseId) == sems
    ensures var r := WithCourseAdded(sems, semesterId, course, courseId);
      forall j :: 0 <= j < |sems| && sems[j].id == semesterId && (forall l :: 0 <= l < j ==> sems[l].id != semesterId) ==>
        r[j].courses == sems[j].courses + [Course(courseId, course.code, course.unit, course.grade)]
    ensures Units(AllCourses(WithCourseAdded(sems, semesterId, course, courseId)))
            == Units(AllCourses(sems)) + (if FindSemester(sems, semesterId).Some? then course.unit else 0)
  {
    var found := FindSemester(sems, semesterId);
    if found.Some? {
      var k := found.value;
      var added := Course(courseId, course.code, course.unit, course.grade);
      UnitsAfterSetCourses(sems, k, sems[k].courses + [added]);
      SumsAppend(sems[k].courses, [added]);
      assert Units([added]) == course.unit by { assert [added][..0] == []; }
    }
  }

  /** Replacing one semester's courses changes the total of units by the change in that semester. */
  lemma {:induction false} UnitsAfterSetCourses(sems: seq<Semester>, k: nat, courses: seq<Course>)
    requires k < |sems|
    ensures Units(AllCourses(SetCourses(sems, k, courses)))
            == Units(AllCourses(sems)) - Units(sems[k].courses) + Units(courses)
  {
    var n := |sems|;
    var r := SetCourses(sems, k, courses);
    assert AllCourses(r) == AllCourses(r[..n - 1]) + r[n - 1].courses;
    assert AllCourses(sems) == AllCourses(sems[..n - 1]) + sems[n - 1].courses;
    SumsAppend(AllCourses(r[..n - 1]), r[n - 1].courses);
    SumsAppend(AllCourses(sems[..n - 1]), sems[n - 1].courses);
    if k < n - 1 {
      assert r[..n - 1] == SetCourses(sems[..n - 1], k, courses);
      assert r[n - 1] == sems[n - 1];
      UnitsAfterSetCourses(sems[..n - 1], k, courses);
    } else {
      assert r[..n - 1] == sems[..n - 1];
      assert r[n - 1].courses == courses;
    }
  }

  /**
   * `removeCourse` changes only the first semester with the given id: its
   * list keeps exactly the courses with another id, in their order. With no
   * such semester nothing changes.
   */
  lemma RemoveCourseSpec(sems: seq<Semester>, semesterId: nat, courseId: string)
    ensures var r := WithCourseRemoved(sems, semesterId, courseId);
      |r| == |sems| &&
      (forall j :: 0 <= j < |sems| && sems[j].id != semesterId ==> r[j] == sems[j]) &&
      (forall j :: 0 <= j < |sems| ==> r[j].id == sems[j].id && r[j].name == sems[j].name && r[j].order == sems[j].order)
    ensures (forall j :: 0 <= j < |sems| ==> sems[j].id != semesterId) ==>
      WithCourseRemoved(sems, semesterId, courseId) == sems
    ensures var r := WithCourseRemoved(sems, semesterId, courseId);
      forall j :: 0 <= j < |sems| && sems[j].id == semesterId && (forall l :: 0 <= l < j ==> sems[l].id != semesterId) ==>
        r[j].courses == Filter(sems[j].courses, OtherCourse(courseId)) &&
        forall c :: c in r[j].courses <==> c in sems[j].courses && c.id != courseId
  {
    var found := FindSemester(sems, semesterId);
    if found.Some? {
      var k := found.value;
      FilterMembers(sems[k].courses, OtherCourse(courseId));
    }
  }

  /**
   * `deleteSemester` keeps exactly the semesters with another id, in their
   * order: filtering distributes over the list, and a semester stays exactly
   * when its id differs.
   */
  lemma DeleteSemesterSpec(a: seq<Semester>, b: seq<Semester>, id: nat)
    ensures Filter(a + b, OtherSemester(id)) == Filter(a, OtherSemester(id)) + Filter(b, OtherSemester(id))
    ensures forall s :: s in Filter(a, OtherSemester(id)) <==> s in a && s.id != id
    ensures forall s :: Filter([s], OtherSemester(id)) == if s.id != id then [s] else []
  {
    FilterAppend(a, b, OtherSemester(id));
    FilterMembers(a, OtherSemester(id));
    forall s ensures Filter([s], OtherSemester(id)) == if s.id != id then [s] else [] {
      assert [s][..0] == [];
    }
  }

  /** Every semester's `order` is its position in the list. */
  predicate OrderIsPosition(sems: seq<Semester>) {
    forall i :: 0 <= i < |sems| ==> sems[i].order == i
  }

  /**
   * The records `reorderSemesters` writes back: the same semesters in the
   * same places, with ids, names and courses untouched, each carrying its
   * position as its `order`.
   */
  function Reordered(sems: seq<Semester>): (r: seq<Semester>)
    ensures |r| == |sems| && OrderIsPosition(r)
    ensures forall i :: 0 <= i < |sems| ==>
              r[i].id == sems[i].id && r[i].name == sems[i].name && r[i].courses == sems[i].courses
  {
    seq(|sems|, i requires 0 <= i < |sems| => sems[i].(order := i))
  }

  /** Writing back a list whose orders already are positions changes nothing. */
  lemma ReorderedKeepsPositions(sems: seq<Semester>)
    requires OrderIsPosition(sems)
    ensures Reordered(sems) == sems
  {
    var r := Reordered(sems);
    assert forall i :: 0 <= i < |sems| ==> r[i] == sems[i];
  }

  // ----- the store -----

  /** The store's state: `semesters.value`. */
  class Store {
    var semesters: seq<Semester>

    constructor ()
      ensures semesters == []
    {
      semesters := [];
    }

    /**
     * `addSemester(name)` (src/stores/semesterStore.js:15-25): the database
     * stores a new semester with no courses and `order` equal to the current
     * count under the key `id`, which is returned; the list then holds it at
     * the end. The key is the store's auto-incremented one, so no semester
     * already has it.
     */
    method AddSemester(name: string, id: nat) returns (newId: nat)
      requires forall s :: s in semesters ==> s.id != id
      modifies this
      ensures newId == id
      ensures semesters == old(semesters) + [Semester(id, name, [], |old(semesters)|)]
      ensures OrderIsPosition(old(semesters)) ==> OrderIsPosition(semesters)
      ensures FindSemester(semesters, id) == Some(|old(semesters)|)
    {
      var newSem := Semester(id, name, [], |semesters|);
      ghost var before := semesters;
      semesters := semesters + [newSem];
      newId := id;
      forall j | 0 <= j < |before|
        ensures semesters[j].id != id
      {
        assert semesters[j] == before[j] && before[j] in before;
      }
      ghost var found := FindSemester(semesters, id);
      assert semesters[|before|].id == id;
      assert found.Some?;
      assert found.value == |before|;
    }

    /**
     * `reorderSemesters(newSemesters)` (src/stores/semesterStore.js:28-40):
     * the list becomes `newSemesters` as given; the copies written to the
     * database, returned here, carry `order` equal to their position.
     */
    method ReorderSemesters(newSemesters: seq<Semester>) returns (written: seq<Semester>)
      modifies this
      ensures semesters == newSemesters
      ensures written == Reordered(newSemesters)
    {
      semesters := newSemesters;
      written := Reordered(newSemesters);
    }

    /** `deleteSemester(id)` (src/stores/semesterStore.js:43-46). */
    method DeleteSemester(id: nat)
      modifies this
      ensures semesters == Filter(old(semesters), OtherSemester(id))
    {
      semesters := Filter(semesters, OtherSemester(id));
    }

    /** `addCourse(semesterId, course)` (src/stores/semesterStore.js:49-63); `courseId` is the generated UUID. */
    method AddCourse(semesterId: nat, course: CourseInput, courseId: string)
      modifies this
      ensures semesters == WithCourseAdded(old(semesters), semesterId, course, courseId)
    {
      var found := FindSemester(semesters, semesterId);
      if found.None? {
        return;
      }
      var k := found.value;
      var updated := semesters[k].courses + [Course(courseId, course.code, course.unit, course.grade)];
      semesters := SetCourses(semesters, k, updated);
    }

    /** `removeCourse(semesterId, courseId)` (src/stores/semesterStore.js:66-75). */
    method RemoveCourse(semesterId: nat, courseId: string)
      modifies this
      ensures semesters == WithCourseRemoved(old(semesters), semesterId, courseId)
    {
      var found := FindSemester(semesters, semesterId);
      if found.None? {
        return;
      }
      var k := found.value;
      var updated := Filter(semesters[k].courses, OtherCourse(courseId));
      semesters := SetCourses(semesters, k, updated);
    }

    /** `clearAllSemesters` (src/stores/semesterStore.js:167-170). */
    method ClearAllSemesters()
      modifies this
      ensures semesters == []
    {
      semesters := [];
    }

    /** `cgpa` (src/stores/semesterStore.js:99-111): the weighted average over every course. */
    method Cgpa() returns (cgpa: real)
      ensures cgpa == WeightedGpa(AllCourses(semesters))
    {
      var totalPoints, totalUnits := 0, 0;
      var i := 0;
      while i < |semesters|
        invariant 0 <= i <= |semesters|
        invariant totalPoints == Points(AllCourses(semesters[..i]))
        invariant totalUnits == Units(AllCourses(semesters[..i]))
      {
        assert semesters[..i + 1][..i] == semesters[..i];
        SumsAppend(AllCourses(semesters[..i]), semesters[i].courses);
        totalPoints, totalUnits := AccumulateCourses(semesters[i].courses, totalPoints, totalUnits);
        i := i + 1;
      }
      assert semesters[..|semesters|] == semesters;
      cgpa := if totalUnits == 0 then 0.0 else totalPoints as real / totalUnits as real;
    }

    /** `totalUnits` (src/stores/semesterStore.js:113-119): the units of every course added up. */
    method TotalUnits() returns (units: int)
      ensures units == Units(AllCourses(semesters))
    {
      units := 0;
      var i := 0;
      while i < |semesters|
        invariant 0 <= i <= |semesters|
        invariant units == Units(AllCourses(semesters[..i]))
      {
        assert semesters[..i + 1][..i] == semesters[..i];
        var cs := semesters[i].courses;
        SumsAppend(AllCourses(semesters[..i]), cs);
        var j := 0;
        while j < |cs|
          invariant 0 <= j <= |cs|
          invariant units == Units(AllCourses(semesters[..i])) + Units(cs[..j])
        {
          assert cs[..j + 1][..j] == cs[..j];
          units := units + cs[j].unit;
          j := j + 1;
        }
        assert cs[..|cs|] == cs;
        i := i + 1;
      }
      assert semesters[..|semesters|] == semesters;
    }

    /** `heatmapData` (src/stores/semesterStore.js:121-135). */
    method HeatmapData() returns (allCourses: seq<HeatCell>)
      ensures allCourses == Heatmap(semesters)
    {
      allCourses := [];
      var i := 0;
      while i < |semesters|
        invariant 0 <= i <= |semesters|
        invariant allCourses == Heatmap(semesters[..i])
      {
        assert semesters[..i + 1][..i] == semesters[..i];
        var sem := semesters[i];
        var j := 0;
        while j < |sem.courses|
          invariant 0 <= j <= |sem.courses|
          invariant allCourses == Heatmap(semesters[..i]) + Cells(sem)[..j]
        {
          var course := sem.courses[j];
          assert Cells(sem)[..j + 1] == Cells(sem)[..j] + [HeatCell(course.id, course.code, course.grade, course.unit, sem.name)];
          allCourses := allCourses + [HeatCell(course.id, course.code, course.grade, course.unit, sem.name)];
          j := j + 1;
        }
        assert Cells(sem)[..|sem.courses|] == Cells(sem);
        i := i + 1;
      }
      assert semesters[..|semesters|] == semesters;
    }

    /**
     * `gpaTrend` (src/stores/semesterStore.js:137-150): one entry per
     * semester, in order, with its name and its weighted average.
     */
    method GpaTrend() returns (trend: seq<TrendPoint>)
      ensures |trend| == |semesters|
      ensures forall i :: 0 <= i < |semesters| ==>
                trend[i] == TrendPoint(semesters[i].name, WeightedGpa(semesters[i].courses))
    {
      trend := [];
      var i := 0;
      while i < |semesters|
        invariant 0 <= i <= |semesters|
        invariant |trend| == i
        invariant forall l :: 0 <= l < i ==>
                    trend[l] == TrendPoint(semesters[l].name, WeightedGpa(semesters[l].courses))
      {
        var sem := semesters[i];
        var semPoints, semUnits := AccumulateCourses(sem.courses, 0, 0);
        trend := trend + [TrendPoint(sem.name, if semUnits == 0 then 0.0 else semPoints as real / semUnits as real)];
        i := i + 1;
      }
    }
  }
}

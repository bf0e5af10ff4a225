/**
 * The row stitcher of `parseZones` (src/services/ocr.js:204-241): the three
 * per-zone line arrays the recogniser returned are zipped by index into
 * course records. Each row's grade line is cleaned by the artifact corrector
 * and reduced to a letter, the code gets a space before a trailing
 * three-digit number, the unit is read as a decimal number, and a row whose
 * three fields are all empty is dropped.
 */
module Stitch {
  import opened Text
  import opened Optional
  import opened Artifacts

  /** A value returned by `crypto.randomUUID()`. */
  type Uuid = string

  /** One record pushed into `courses`. */
  datatype CourseRecord = CourseRecord(id: Uuid, code: string, unit: nat, grade: char)

  /** A letter matched by the class `[A-F]`. */
  predicate IsGradeLetter(c: char) {
    'A' <= c <= 'F'
  }

  // ----- one row -----

  /** `(lines[i] || '').trim()`: an index past the end reads `undefined`, which becomes the empty string. */
  function Field(lines: seq<string>, i: nat): (r: string)
    ensures i >= |lines| ==> |r| == 0
  {
    Trim(if i < |lines| then lines[i] else "")
  }

  /**
   * The grade letter of a corrected grade field (src/services/ocr.js:217-224):
   * the last character when `/[A-F]$/` matches, and the initial 'A' otherwise.
   */
  function ResolveGrade(g: string): (c: char)
    ensures IsGradeLetter(c)
    ensures |g| > 0 && IsGradeLetter(g[|g| - 1]) ==> c == g[|g| - 1]
    ensures !(|g| > 0 && IsGradeLetter(g[|g| - 1])) ==> c == 'A'
  {
    if |g| > 0 && IsGradeLetter(g[|g| - 1]) then g[|g| - 1] else 'A'
  }

  /**
   * The fallback `/^[A-F]$/.test(g)` (src/services/ocr.js:223) is only
   * reached when `/[A-F]$/` failed, and a string matching the former matches
   * the latter, so the fallback never changes the letter: a one-letter field
   * resolves to that letter.
   */
  lemma FallbackSubsumed(g: string)
    requires |g| == 1 && IsGradeLetter(g[0])
    ensures ResolveGrade(g) == g[0]
  {
  }

  /** The last three characters of `c` are digits. */
  predicate EndsInThreeDigits(c: string) {
    |c| >= 3 && AllDigits(c[|c| - 3..])
  }

  /** `c.replace(/(\d{3})$/, ' $1')`: a space goes in before a trailing run of three digits. */
  function SpaceBeforeLastThreeDigits(c: string): (r: string)
    ensures EndsInThreeDigits(c) ==> |r| == |c| + 1 && r[..|c| - 3] == c[..|c| - 3]
                                     && r[|c| - 3] == ' ' && r[|c| - 2..] == c[|c| - 3..]
    ensures !EndsInThreeDigits(c) ==> r == c
  {
    if EndsInThreeDigits(c) then c[..|c| - 3] + " " + c[|c| - 3..] else c
  }

  /** The code formatting of src/services/ocr.js:227-229. */
  function FormatCode(c: string): (r: string)
    ensures |r| >= |c|
  {
    if |c| >= 6 && ' ' !in c then SpaceBeforeLastThreeDigits(c) else c
  }

  /** The shape the formatting rewrites: six characters or more, no space, three digits at the end. */
  predicate SplitsCode(c: string) {
    |c| >= 6 && ' ' !in c && EndsInThreeDigits(c)
  }

  /**
   * A code of the rewritten shape gets exactly one space, right before its
   * last three digits, and taking that space out gives the code back; any
   * other code is left as it is.
   */
  lemma FormatCodeSpec(c: string)
    ensures SplitsCode(c) ==> |FormatCode(c)| == |c| + 1 && FormatCode(c)[|c| - 3] == ' '
                              && FormatCode(c)[..|c| - 3] + FormatCode(c)[|c| - 2..] == c
    ensures !SplitsCode(c) ==> FormatCode(c) == c
  {
    if SplitsCode(c) {
      var r := FormatCode(c);
      assert r[..|c| - 3] + r[|c| - 2..] == c[..|c| - 3] + c[|c| - 3..];
    }
  }

  /** A formatted code contains a space or was left alone, so formatting it again changes nothing. */
  lemma FormatCodeIdempotent(c: string)
    ensures FormatCode(FormatCode(c)) == FormatCode(c)
  {
    if SplitsCode(c) {
      FormatCodeSpec(c);
      assert ' ' in FormatCode(c);
    }
  }

  lemma FormatCodeExamples()
    ensures FormatCode("CSC101") == "CSC 101"
    ensures FormatCode("CSC1011") == "CSC1 011"
    ensures FormatCode("CSC 101") == "CSC 101"
    ensures FormatCode("MTH") == "MTH"
    ensures FormatCode("ABCDEF") == "ABCDEF"
  {
    assert "CSC101"[3..] == "101";
    assert "CSC1011"[4..] == "011";
    assert ' ' in "CSC 101" by { assert "CSC 101"[3] == ' '; }
    assert !AllDigits("ABCDEF"[3..]) by { assert "ABCDEF"[3..][0] == 'D'; }
  }

  // ----- the unit field -----

  function DigitValue(c: char): nat
    requires IsDigit(c)
  {
    (c - '0') as nat
  }

  /** The value of a string of decimal digits, most significant first. */
  function DecimalValue(s: string): nat
    requires AllDigits(s)
  {
    if s == [] then 0 else DecimalValue(s[..|s| - 1]) * 10 + DigitValue(s[|s| - 1])
  }

  /**
   * `Number(u) || 0` for the trimmed unit field: a non-empty run of digits is
   * read in decimal; the empty string (which `Number` reads as 0) and anything
   * else (`NaN`) give 0.
   */
  function ParseUnit(u: string): (n: nat)
    ensures |u| == 0 || !AllDigits(u) ==> n == 0
  {
    if |u| > 0 && AllDigits(u) then DecimalValue(u) else 0
  }

  /** The decimal digits of `n`, as `String(n)` writes them. */
  function Decimal(n: nat): (s: string)
    ensures |s| > 0 && AllDigits(s)
  {
    var d := ['0' + (n % 10) as char];
    if n < 10 then d else Decimal(n / 10) + d
  }

  /** Reading back the decimal digits of any unit count gives that count. */
  lemma {:induction false} ParseUnitDecimal(n: nat)
    ensures ParseUnit(Decimal(n)) == n
  {
    var s := Decimal(n);
    var d := '0' + (n % 10) as char;
    assert s[|s| - 1] == d;
    assert DigitValue(d) == n % 10;
    assert DecimalValue(s) == DecimalValue(s[..|s| - 1]) * 10 + n % 10;
    if n < 10 {
      assert s[..|s| - 1] == [];
    } else {
      assert s[..|s| - 1] == Decimal(n / 10);
      ParseUnitDecimal(n / 10);
    }
  }

  // ----- the stitcher -----

  /** `Math.max(codeLines.length, unitLines.length, gradeLines.length)`. */
  function MaxLines(codeLines: seq<string>, unitLines: seq<string>, gradeLines: seq<string>): (m: nat)
    ensures m >= |codeLines| && m >= |unitLines| && m >= |gradeLines|
    ensures m == |codeLines| || m == |unitLines| || m == |gradeLines|
  {
    var m := if |codeLines| >= |unitLines| then |codeLines| else |unitLines|;
    if m >= |gradeLines| then m else |gradeLines|
  }

  /** The corrected grade field of row `i`. */
  function GradeField(gradeLines: seq<string>, i: nat): string {
    FixCommonErrors(Some(Field(gradeLines, i)), Grade)
  }

  /** `if (c || u || g)`: row `i` yields a record. */
  predicate Kept(codeLines: seq<string>, unitLines: seq<string>, gradeLines: seq<string>, i: nat) {
    |FormatCode(Field(codeLines, i))| > 0 || |Field(unitLines, i)| > 0 || |GradeField(gradeLines, i)| > 0
  }

  /** The record row `i` yields, with the id `crypto.randomUUID()` gave it. */
  function RowRecord(codeLines: seq<string>, unitLines: seq<string>, gradeLines: seq<string>, i: nat, id: Uuid): (r: CourseRecord)
    ensures r.id == id && IsGradeLetter(r.grade)
    ensures |Field(unitLines, i)| == 0 ==> r.unit == 0
  {
    CourseRecord(id, FormatCode(Field(codeLines, i)), ParseUnit(Field(unitLines, i)),
                 ResolveGrade(GradeField(gradeLines, i)))
  }

  /**
   * What a loop over rows `0 .. n - 1` pushes when it pushes `make(i, id)`
   * for each row `i` that satisfies `keep`, `id` being the k-th value of
   * `ids` for the k-th push.
   */
  function Emit(keep: nat -> bool, make: (nat, Uuid) -> CourseRecord, n: nat, ids: nat -> Uuid): seq<CourseRecord> {
    if n == 0 then []
    else
      var before := Emit(keep, make, n - 1, ids);
      if keep(n - 1) then before + [make(n - 1, ids(|before|))] else before
  }

  /** The rows below `n` that satisfy `keep`, in increasing order. */
  function Positions(keep: nat -> bool, n: nat): seq<nat> {
    if n == 0 then [] else Positions(keep, n - 1) + (if keep(n - 1) then [n - 1] else [])
  }

  /**
   * The positions are exactly the rows below `n` that satisfy `keep`, each
   * listed once in increasing order, so there are at most `n` of them.
   */
  lemma {:induction false} PositionsSpec(keep: nat -> bool, n: nat)
    ensures var rows := Positions(keep, n);
      |rows| <= n &&
      (forall k, l :: 0 <= k < l < |rows| ==> rows[k] < rows[l]) &&
      (forall i: nat :: i in rows <==> i < n && keep(i))
  {
    if n > 0 {
      PositionsSpec(keep, n - 1);
      var before := Positions(keep, n - 1);
      assert forall k :: 0 <= k < |before| ==> before[k] in before;
    }
  }

  /** Push `k` is the record of the k-th kept row and carries the k-th id. */
  lemma {:induction false} EmitByPosition(keep: nat -> bool, make: (nat, Uuid) -> CourseRecord, n: nat, ids: nat -> Uuid)
    ensures var rows := Positions(keep, n);
      var recs := Emit(keep, make, n, ids);
      |recs| == |rows| && forall k :: 0 <= k < |recs| ==> recs[k] == make(rows[k], ids(k))
  {
    if n > 0 {
      EmitByPosition(keep, make, n - 1, ids);
    }
  }

  /** One more row: pushed when it is kept, skipped otherwise. */
  lemma EmitStep(keep: nat -> bool, make: (nat, Uuid) -> CourseRecord, n: nat, ids: nat -> Uuid)
    ensures var before := Emit(keep, make, n, ids);
      Emit(keep, make, n + 1, ids) == if keep(n) then before + [make(n, ids(|before|))] else before
  {
  }

  function KeepRow(codeLines: seq<string>, unitLines: seq<string>, gradeLines: seq<string>): nat -> bool {
    (i: nat) => Kept(codeLines, unitLines, gradeLines, i)
  }

  function MakeRow(codeLines: seq<string>, unitLines: seq<string>, gradeLines: seq<string>): (nat, Uuid) -> CourseRecord {
    (i: nat, id: Uuid) => RowRecord(codeLines, unitLines, gradeLines, i, id)
  }

  /**
   * `courses` after the first `n` rows; `ids(k)` is the value the k-th call of
   * `crypto.randomUUID()` returns, one call per record pushed.
   */
  function Records(codeLines: seq<string>, unitLines: seq<string>, gradeLines: seq<string>, n: nat, ids: nat -> Uuid): seq<CourseRecord> {
    Emit(KeepRow(codeLines, unitLines, gradeLines), MakeRow(codeLines, unitLines, gradeLines), n, ids)
  }

  /** The indices, below `n`, of the rows that yield a record. */
  function KeptRows(codeLines: seq<string>, unitLines: seq<string>, gradeLines: seq<string>, n: nat): seq<nat> {
    Positions(KeepRow(codeLines, unitLines, gradeLines), n)
  }

  /** Formatting empties no code. */
  lemma FormatCodeLength(c: string)
    ensures |FormatCode(c)| > 0 <==> |c| > 0
  {
  }

  /** The corrector keeps the length of the trimmed grade line, so it empties exactly the empty ones. */
  lemma GradeFieldLength(gradeLines: seq<string>, i: nat)
    ensures |GradeField(gradeLines, i)| == |Field(gradeLines, i)|
  {
    var g := Field(gradeLines, i);
    assert |GradeField(gradeLines, i)| == |Trim(g)|;
    TrimSpec(if i < |gradeLines| then gradeLines[i] else "");
    TrimOfTrimmed(g);
  }

  /** A row is kept exactly when one of its trimmed code, unit and grade lines is non-empty. */
  lemma KeptIff(codeLines: seq<string>, unitLines: seq<string>, gradeLines: seq<string>, i: nat)
    ensures Kept(codeLines, unitLines, gradeLines, i)
            <==> |Field(codeLines, i)| > 0 || |Field(unitLines, i)| > 0 || |Field(gradeLines, i)| > 0
  {
    FormatCodeLength(Field(codeLines, i));
    GradeFieldLength(gradeLines, i);
  }

  /**
   * The body of the stitching loop for row `i` (src/services/ocr.js:209-237):
   * whether the row yields a record, and the record it yields.
   */
  method StitchRow(codeLines: seq<string>, unitLines: seq<string>, gradeLines: seq<string>, i: nat, id: Uuid)
    returns (kept: bool, course: CourseRecord)
    ensures kept == KeepRow(codeLines, unitLines, gradeLines)(i)
    ensures course == MakeRow(codeLines, unitLines, gradeLines)(i, id)
  {
    var c := Field(codeLines, i);
    var u := Field(unitLines, i);
    var g := Field(gradeLines, i);
    g := FixCommonErrors(Some(g), Grade);
    var gradeChar := ResolveGrade(g);
    c := FormatCode(c);
    kept := |c| > 0 || |u| > 0 || |g| > 0;
    course := CourseRecord(id, c, ParseUnit(u), gradeChar);
  }

  /**
   * The loop of src/services/ocr.js:205-239: walks the rows up to the longest
   * line array and pushes one record per row that has any content.
   */
  method StitchRows(codeLines: seq<string>, unitLines: seq<string>, gradeLines: seq<string>, ids: nat -> Uuid)
    returns (courses: seq<CourseRecord>)
    ensures courses == Records(codeLines, unitLines, gradeLines, MaxLines(codeLines, unitLines, gradeLines), ids)
  {
    ghost var keep, make := KeepRow(codeLines, unitLines, gradeLines), MakeRow(codeLines, unitLines, gradeLines);
    courses := [];
    var maxLines := MaxLines(codeLines, unitLines, gradeLines);
    var i := 0;
    while i < maxLines
      invariant 0 <= i <= maxLines
      invariant courses == Emit(keep, make, i, ids)
    {
      var kept, course := StitchRow(codeLines, unitLines, gradeLines, i, ids(|courses|));
      EmitStep(keep, make, i, ids);
      if kept {
        courses := courses + [course];
      }
      i := i + 1;
    }
  }

  /**
   * What the stitcher returns: at most one record per row of the longest line
   * array, in row order, one for each row with a non-empty field; every grade
   * is a letter from A to F and every unit is at least 0.
   */
  lemma StitchSpec(codeLines: seq<string>, unitLines: seq<string>, gradeLines: seq<string>, ids: nat -> Uuid)
    ensures var n := MaxLines(codeLines, unitLines, gradeLines);
      var recs := Records(codeLines, unitLines, gradeLines, n, ids);
      var rows := KeptRows(codeLines, unitLines, gradeLines, n);
      |recs| <= n && |recs| == |rows| &&
      (forall k, l :: 0 <= k < l < |rows| ==> rows[k] < rows[l]) &&
      (forall i: nat :: i in rows <==>
         i < n && (|Field(codeLines, i)| > 0 || |Field(unitLines, i)| > 0 || |Field(gradeLines, i)| > 0)) &&
      (forall k :: 0 <= k < |recs| ==>
         recs[k] == RowRecord(codeLines, unitLines, gradeLines, rows[k], ids(k)) && IsGradeLetter(recs[k].grade))
  {
    var n := MaxLines(codeLines, unitLines, gradeLines);
    var keep := KeepRow(codeLines, unitLines, gradeLines);
    PositionsSpec(keep, n);
    EmitByPosition(keep, MakeRow(codeLines, unitLines, gradeLines), n, ids);
    forall i: nat
      ensures keep(i) <==> |Field(codeLines, i)| > 0 || |Field(unitLines, i)| > 0 || |Field(gradeLines, i)| > 0
    {
      KeptIff(codeLines, unitLines, gradeLines, i);
    }
  }

  /**
   * Grade resolution on corrected grade lines: a field ending in a letter A-F
   * keeps it ("76B" gives B); "TE" becomes "76" and a lone "E" becomes "6",
   * which end in no letter and so resolve to the default A, as does an empty
   * field.
   */
  lemma GradeExamples()
    ensures ResolveGrade(FixGrade("76B")) == 'B'
    ensures ResolveGrade(FixGrade("TE")) == 'A'
    ensures ResolveGrade(FixGrade("E")) == 'A'
    ensures ResolveGrade(FixGrade("A")) == 'A'
    ensures ResolveGrade(FixCommonErrors(Some(""), Grade)) == 'A'
  {
    FixGradeExamples();
    assert ReplaceTE("76B") == "76B";
    assert FixGrade("76B")[2] == 'B' by { FixGradeKeepsOthers("76B", 2); }
  }

  /** The field of a line with no whitespace at either end is that line itself. */
  lemma FieldOfTrimmed(lines: seq<string>, i: nat)
    requires i < |lines| && IsTrimmed(lines[i])
    ensures Field(lines, i) == lines[i]
  {
    TrimOfTrimmed(lines[i]);
  }

  /** A row with trimmed lines, given the values its code, unit and grade lines turn into. */
  lemma RowOfTrimmed(codeLines: seq<string>, unitLines: seq<string>, gradeLines: seq<string>, i: nat, id: Uuid,
                     code: string, unit: nat, grade: string)
    requires i < |codeLines| && i < |unitLines| && i < |gradeLines|
    requires IsTrimmed(codeLines[i]) && IsTrimmed(unitLines[i]) && IsTrimmed(gradeLines[i])
    requires |codeLines[i]| > 0
    requires FormatCode(codeLines[i]) == code && ParseUnit(unitLines[i]) == unit
    requires FixGrade(gradeLines[i]) == grade
    ensures Kept(codeLines, unitLines, gradeLines, i)
    ensures RowRecord(codeLines, unitLines, gradeLines, i, id) == CourseRecord(id, code, unit, ResolveGrade(grade))
  {
    FieldOfTrimmed(codeLines, i);
    FieldOfTrimmed(unitLines, i);
    FieldOfTrimmed(gradeLines, i);
    FormatCodeLength(codeLines[i]);
  }

  /** The first row of the example below. */
  lemma ExampleRow0(id: Uuid)
    ensures var cl, ul, gl := ["CSC101", "MTH102"], ["3", "4"], ["TE", "B"];
      Kept(cl, ul, gl, 0) && RowRecord(cl, ul, gl, 0, id) == CourseRecord(id, "CSC 101", 3, 'A')
  {
    var cl, ul, gl := ["CSC101", "MTH102"], ["3", "4"], ["TE", "B"];
    assert FormatCode("CSC101") == "CSC 101" by { FormatCodeExamples(); }
    assert ParseUnit("3") == 3 by { assert "3"[..0] == []; }
    assert FixGrade("TE") == "76" by { FixGradeExamples(); }
    RowOfTrimmed(cl, ul, gl, 0, id, "CSC 101", 3, "76");
  }

  /** The second row of the example below. */
  lemma ExampleRow1(id: Uuid)
    ensures var cl, ul, gl := ["CSC101", "MTH102"], ["3", "4"], ["TE", "B"];
      Kept(cl, ul, gl, 1) && RowRecord(cl, ul, gl, 1, id) == CourseRecord(id, "MTH 102", 4, 'B')
  {
    var cl, ul, gl := ["CSC101", "MTH102"], ["3", "4"], ["TE", "B"];
    assert FormatCode("MTH102") == "MTH 102" by { assert "MTH102"[3..] == "102"; }
    assert ParseUnit("4") == 4 by { assert "4"[..0] == []; }
    assert FixGrade("B") == "B" by { assert ReplaceTE("B") == "B"; }
    RowOfTrimmed(cl, ul, gl, 1, id, "MTH 102", 4, "B");
  }

  /** Two rows that are both kept give their two records, in order. */
  lemma EmitTwo(keep: nat -> bool, make: (nat, Uuid) -> CourseRecord, ids: nat -> Uuid, r0: CourseRecord, r1: CourseRecord)
    requires keep(0) && make(0, ids(0)) == r0
    requires keep(1) && make(1, ids(1)) == r1
    ensures Emit(keep, make, 2, ids) == [r0, r1]
  {
    EmitStep(keep, make, 0, ids);
    EmitStep(keep, make, 1, ids);
  }

  /**
   * Two rows read as "CSC101" | "3" | "TE" and "MTH102" | "4" | "B" give
   * CSC 101 with 3 units and grade A, then MTH 102 with 4 units and grade B.
   */
  lemma StitchExample(ids: nat -> Uuid)
    ensures Records(["CSC101", "MTH102"], ["3", "4"], ["TE", "B"], 2, ids)
            == [CourseRecord(ids(0), "CSC 101", 3, 'A'), CourseRecord(ids(1), "MTH 102", 4, 'B')]
  {
    var cl, ul, gl := ["CSC101", "MTH102"], ["3", "4"], ["TE", "B"];
    var r0, r1 := CourseRecord(ids(0), "CSC 101", 3, 'A'), CourseRecord(ids(1), "MTH 102", 4, 'B');
    ExampleRow0(ids(0));
    ExampleRow1(ids(1));
    EmitTwo(KeepRow(cl, ul, gl), MakeRow(cl, ul, gl), ids, r0, r1);
  }
}

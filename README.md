# CGPA calculator: transcript recognition and semester store

A model, in Dafny, of the two core parts of a browser-based CGPA calculator.

**Transcript recognition** (`src/services/ocr.js`) turns a photographed
result slip into course records. The model covers its pure logic:

- the split of the image into a code zone, a unit zone and a grade zone;
- the 3×3 sharpening convolution applied to each upscaled strip;
- the "leetspeak" corrector for recognised text;
- the stitcher that zips the three per-zone line arrays into records.

**The semester store** (`src/stores/semesterStore.js`) keeps the user's
semesters and their courses in memory. The model covers:

- its grade-point table;
- the getters: cumulative average, total units, heat-map and per-semester trend;
- `getSemesterGpa`;
- the in-memory effect of each action that edits the list.

Files:

- `text.dfy`: ASCII whitespace, digits, word characters and `String.prototype.trim`.
- `zones.dfy`: the zone widths of `parseZones`.
- `sharpen.dfy`: `applySharpenFilter`.
  - The pixel buffer is an `array` of clamped bytes.
  - The nested loops are methods proved equal to a specification function `Sharpened`.
  - Lemmas about `Sharpened` state the convolution per pixel and channel, with zero-contribution borders.
- `artifacts.dfy`: `fixCommonErrors`.
  - Each global regular-expression replacement is a function that decides every match against that call's input, as JavaScript does.
- `stitch.dfy`: the row stitcher of `parseZones`.
  - `StitchRows` is the loop.
  - `Records` is the specification it meets.
- `store.dfy`: the semester store.
  - The state is class `Store`, whose field `semesters` the actions reassign.
  - The getters are loop methods proved equal to specification functions (`Points`, `Units`, `WeightedGpa`, `Heatmap`).

Behaviour of the code worth knowing, which the model follows:

- An unresolved grade becomes `A`, the initial value of `gradeChar` (src/services/ocr.js:217). It is not the lowest grade.
- There is no score-to-letter table. A numeric grade field such as `76` ends in no letter, so it also resolves to `A`.
- Every strip goes through the same preprocessing: contrast, greyscale and sharpening (src/services/ocr.js:78-86). There is no thresholding step.
- `reorderSemesters` leaves the `order` fields of the in-memory list as they were. Only the copies written to the database carry their new positions.

## Model

| member | source | states |
|---|---|---|
| Text.Trim | src/services/ocr.js:100 | `trim` never lengthens its input; it drops leading and trailing ASCII whitespace, as TrimSpec characterises |
| Text.TrimSpec | src/services/ocr.js:100 | trimming yields a trimmed string that is a contiguous slice of the input with only whitespace cut from either end |
| Text.TrimOfTrimmed | src/services/ocr.js:209-211 | trimming a string with no whitespace at either end gives it back unchanged |
| Text.TrimEmptyIff | src/services/ocr.js:231 | a trimmed field is empty exactly when the raw line is all whitespace |
| Zones.ZoneLayout | src/services/ocr.js:141-149 | code strip starts at 0, unit strip at xB and grade strip at xC, and the grade strip ends at the right edge; the widths add up to w minus the skipped gap xB-xA; with ordered cut points they are non-negative and fit in w |
| Zones.ZonesDisjoint | src/services/ocr.js:147-154 | with ordered cut points no column lies in two strips or outside the image, and the columns from xA to xB lie in none |
| Sharpen.Clamp | src/services/ocr.js:23 | storing into a Uint8ClampedArray keeps values 0..255 and saturates the rest to 0 or 255 |
| Sharpen.ConvolvePixel | src/services/ocr.js:30-46 | the three kernel loops accumulate, per colour channel, the kernel sum over the in-bounds taps |
| Sharpen.SharpenPixel | src/services/ocr.js:26-51 | writing one pixel extends the finished prefix of the output by that pixel's four bytes |
| Sharpen.SharpenRow | src/services/ocr.js:25-52 | the x loop finishes one full row of the output after the rows already done |
| Sharpen.ApplySharpenFilter | src/services/ocr.js:10-57 | returns a fresh buffer of the source's length equal to the sharpened image |
| Sharpen.ConvolutionFormula | src/services/ocr.js:15-46 | the kernel sum is 5 times the centre minus the four edge neighbours, an out-of-image neighbour counting 0 |
| Sharpen.SharpenedSpec | src/services/ocr.js:15-50 | every colour byte of the output is the clamp of 5·centre minus up, down, left and right neighbours, at offset (y·w+x)·4+ch |
| Sharpen.SharpenedAlpha | src/services/ocr.js:50 | every alpha byte of the output is 255 |
| Sharpen.FlatRegionUnchanged | src/services/ocr.js:15-49 | an interior pixel equal to its four neighbours keeps its value (the kernel weights sum to 1) |
| Artifacts.ReplaceTE | src/services/ocr.js:108 | each non-overlapping "TE", taken left to right, becomes "76" and every other character stays |
| Artifacts.ReplaceLoneE | src/services/ocr.js:109 | keeps the length; an E with no word character on either side becomes 6 |
| Artifacts.ReplaceChar | src/services/ocr.js:110 | keeps the length; every occurrence of one character becomes another (T to 7 here, O to 0 for units) |
| Artifacts.ReplaceABeforeDigit | src/services/ocr.js:113 | keeps the length; an A directly followed by a digit of the same input becomes 4 |
| Artifacts.ReplaceAAfterDigit | src/services/ocr.js:114 | keeps the length; an A directly preceded by a digit of the same input becomes 4 |
| Artifacts.FixGrade | src/services/ocr.js:107-114 | the five grade rewrites in the source's order keep the length; their per-character effect is stated by FixGradeE, FixGradeA and FixGradeKeepsOthers |
| Artifacts.FixGradeSameClasses | src/services/ocr.js:107-114 | the grade fixes only change characters in place, so whitespace stays whitespace and nothing else becomes whitespace |
| Artifacts.ReplaceOnes | src/services/ocr.js:120 | keeps the length; every l, I and pipe becomes 1 |
| Artifacts.FixUnit | src/services/ocr.js:120 | the unit fixes keep whitespace positions and leave no l, I, pipe or O |
| Artifacts.FixCommonErrors | src/services/ocr.js:98-124 | the result has the length of the trimmed input |
| Artifacts.FixEmptyInput | src/services/ocr.js:99 | a missing or empty text gives the empty string for every field type |
| Artifacts.FixIsTrimmed | src/services/ocr.js:99-123 | the corrected text never starts or ends with whitespace, for every field type |
| Artifacts.FixCodeIsTrim | src/services/ocr.js:98-123 | a code field is only trimmed |
| Artifacts.FixUnitRemovesArtifacts | src/services/ocr.js:118-121 | a corrected unit field contains no l, I, pipe or O |
| Artifacts.FixUnitIdempotent | src/services/ocr.js:118-121 | correcting a unit field twice gives the same as once |
| Artifacts.FixGradeRemovesT | src/services/ocr.js:108-110 | a corrected grade field contains no T |
| Artifacts.FixGradeE | src/services/ocr.js:108-109 | an E becomes 6 exactly when it follows a T or stands alone between word boundaries |
| Artifacts.FixGradeA | src/services/ocr.js:113-114 | an A becomes 4 exactly when a digit is next to it after the score fixes |
| Artifacts.FixGradeKeepsOthers | src/services/ocr.js:107-114 | characters other than T, E and A are never changed |
| Artifacts.FixGradeExamples | src/services/ocr.js:104-114 | TE gives 76, E gives 6, 6E is kept, A5 gives 45, 7A gives 74, A is kept |
| Artifacts.FixGradeNotIdempotent | src/services/ocr.js:113-114 | AA5 gives A45 but A45 gives 445: the grade fixes are not idempotent |
| Stitch.Field | src/services/ocr.js:209-211 | a row past the end of a line array reads as the empty field |
| Stitch.ResolveGrade | src/services/ocr.js:217-224 | the grade is always a letter A-F: the field's last character if it is one, otherwise A |
| Stitch.FallbackSubsumed | src/services/ocr.js:222-223 | the single-letter fallback can never change the result of the last-letter match |
| Stitch.SpaceBeforeLastThreeDigits | src/services/ocr.js:228 | a code ending in three digits gets exactly one space inserted before them, the rest kept; any other code is unchanged |
| Stitch.FormatCode | src/services/ocr.js:227-229 | the formatted code is never shorter than the code |
| Stitch.FormatCodeSpec | src/services/ocr.js:227-229 | a code of six or more characters with no space and ending in three digits gets one space before them; any other code is unchanged |
| Stitch.FormatCodeIdempotent | src/services/ocr.js:227-229 | formatting a formatted code changes nothing |
| Stitch.FormatCodeExamples | src/services/ocr.js:226-229 | CSC101 gives CSC 101, CSC1011 gives CSC1 011; CSC 101, MTH and ABCDEF are unchanged |
| Stitch.ParseUnit | src/services/ocr.js:235 | an empty or non-numeric unit reads as 0 |
| Stitch.ParseUnitDecimal | src/services/ocr.js:235 | the decimal numeral of any n reads back as n |
| Stitch.MaxLines | src/services/ocr.js:206 | the row count is the largest of the three line counts |
| Stitch.KeptIff | src/services/ocr.js:231 | a row is kept exactly when its trimmed code, unit or grade line is non-empty |
| Stitch.RowRecord | src/services/ocr.js:231-237 | the record of a row carries the given id and a grade letter A-F; an empty unit field gives unit 0 |
| Stitch.StitchRow | src/services/ocr.js:209-238 | one iteration decides whether the row is kept and builds the record the specification gives for that row |
| Stitch.StitchRows | src/services/ocr.js:204-241 | the loop returns exactly the specified record sequence over all rows |
| Stitch.StitchSpec | src/services/ocr.js:204-241 | at most one record per row, in row order; a row gives a record exactly when one of its fields is non-empty; each record is built from its own row and has a grade letter A-F |
| Stitch.GradeExamples | src/services/ocr.js:214-224 | 76B resolves to B; TE, E, A and the empty field resolve to A |
| Stitch.StitchExample | src/services/ocr.js:204-241 | lines CSC101/MTH102, 3/4, TE/B give the records CSC 101 with 3 units and grade A, and MTH 102 with 4 units and grade B |
| SemesterStore.GradePoint | src/stores/semesterStore.js:80-97 | points lie in 0..5 and are positive exactly for the letters A to E |
| SemesterStore.GradePointTable | src/stores/semesterStore.js:80-97 | A 5, B 4, C 3, D 2, E 1, F 0, and 0 for any other grade |
| SemesterStore.PointsBounds | src/stores/semesterStore.js:104-107 | with no negative unit, the point total lies between 0 and five times the unit total |
| SemesterStore.GpaBounds | src/stores/semesterStore.js:110 | the average is 0 when the units add up to 0, and lies between 0 and 5 when the units are non-negative and not all 0 |
| SemesterStore.AccumulateCourses | src/stores/semesterStore.js:159-162 | the course loop adds each course's points and unit to the running sums |
| SemesterStore.GetSemesterGpa | src/stores/semesterStore.js:153-165 | 0 for a missing semester, otherwise the semester's weighted average (0 for no courses or zero units) |
| SemesterStore.HeatmapLength | src/stores/semesterStore.js:121-135 | the heat-map has one entry per course of every semester |
| SemesterStore.HeatmapAt | src/stores/semesterStore.js:121-135 | course j of semester i sits at the entry after all earlier semesters' courses and carries the course's id, code, grade and unit and the semester's name |
| SemesterStore.FindSemester | src/stores/semesterStore.js:50 | finds the first semester with the id, or reports that none has it |
| SemesterStore.AddCourseSpec | src/stores/semesterStore.js:49-63 | only the first semester with the id changes, gaining exactly the new course at the end; ids, names and orders stay; unknown id changes nothing; total units grow by the course's unit |
| SemesterStore.RemoveCourseSpec | src/stores/semesterStore.js:66-75 | only the first semester with the id changes, keeping exactly its courses with another id in their order; unknown id changes nothing |
| SemesterStore.DeleteSemesterSpec | src/stores/semesterStore.js:45 | deletion keeps exactly the semesters with another id, in their order |
| SemesterStore.Reordered | src/stores/semesterStore.js:32-37 | the written copies are the same semesters in the same places, each with its position as order |
| SemesterStore.ReorderedKeepsPositions | src/stores/semesterStore.js:32-37 | writing back a list whose orders already are positions changes nothing |
| SemesterStore.Store.constructor | src/stores/semesterStore.js:6 | the store starts with no semesters |
| SemesterStore.Store.AddSemester | src/stores/semesterStore.js:15-25 | returns the new key; the list gains an empty semester at the end whose order is the old count, so orders that were positions stay positions; given a key no semester has, the new semester is the one found under that key |
| SemesterStore.Store.ReorderSemesters | src/stores/semesterStore.js:28-40 | the list becomes the given one as is; the written copies carry their positions as order |
| SemesterStore.Store.DeleteSemester | src/stores/semesterStore.js:43-46 | the list keeps the semesters with another id |
| SemesterStore.Store.AddCourse | src/stores/semesterStore.js:49-63 | the list becomes the one specified for adding the course |
| SemesterStore.Store.RemoveCourse | src/stores/semesterStore.js:66-75 | the list becomes the one specified for removing the course |
| SemesterStore.Store.ClearAllSemesters | src/stores/semesterStore.js:167-170 | the list becomes empty |
| SemesterStore.Store.Cgpa | src/stores/semesterStore.js:99-111 | the weighted average over every course of every semester |
| SemesterStore.Store.TotalUnits | src/stores/semesterStore.js:113-119 | the units of every course of every semester added up |
| SemesterStore.Store.HeatmapData | src/stores/semesterStore.js:121-135 | the heat-map entries of every semester, in order |
| SemesterStore.Store.GpaTrend | src/stores/semesterStore.js:137-150 | one entry per semester, in order, with its name and weighted average |

## Left out

- Loading the image, canvas drawing, `createStrip` (upscaling, the contrast and greyscale filters, the PNG blob) and Tesseract recognition are I/O or foreign calls. The stitcher receives the three line arrays as parameters.
- Progress reporting (`updateProgress`) and `console.log` are side effects with no bearing on the result.
- Sharpen.ApplySharpenFilter: for a width or height of 0 the model returns an empty buffer. In the source, `getImageData` (src/services/ocr.js:11) throws for a zero size, so that strip's promise rejects and `parseZones` fails (src/services/ocr.js:152-154).
- Zones.ZoneLayout: a zero width is a valid layout here. In the source a zero-width zone (xA = 0, xB = xC or xC = w) makes `parseZones` fail at the sharpening of that strip, as stated for `Sharpen.ApplySharpenFilter`.
- `Math.floor(zones.lineX * w)` works on floating point. Zones.ZoneLayout takes the floored integer cut points.
- `crypto.randomUUID()` is randomness. Ids come from a parameter: a function from the record's position for the stitcher, an argument for `addCourse`.
- Stitch.ParseUnit: only digit strings are read as numbers; every other string reads as 0. The recogniser's unit whitelist allows only digits. `Number(u)` would also accept signs, fractions, exponents, hexadecimal and `Infinity`, and loses precision above 2^53; those are not modelled.
- SemesterStore.Store.Cgpa: the result is the exact ratio. The `toFixed(2)` rounding to a two-decimal string is not modelled, nor is the number/string mix of the result.
- SemesterStore.Store.GpaTrend: `toFixed(2)` is not modelled, as for `Cgpa`.
- SemesterStore.GetSemesterGpa: returns the exact ratio instead of the string `toFixed(2)` gives. A semester object without a `courses` list cannot be expressed, because every modelled semester has one.
- SemesterStore.Store.AddSemester: the database write and the `loadAll` reload that follows it are not modelled. The model appends the new semester at the end of the list. The reload yields that same list when the database mirrors the list and its orders are positions.
- `loadAll` and its sort by `order ?? id` are not modelled. It reads the database, which is not part of this model.
- The database calls in every action are left out. So are the JSON deep copies: the model works on values, so reactivity and aliasing between the list and its copies are not modelled.
- Course units are integers. `Number(course.unit)` on non-numeric units (giving `NaN`) is not modelled.

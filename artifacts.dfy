/**
 * `fixCommonErrors` of src/services/ocr.js: trims a recognised line and, for
 * the grade and unit fields, rewrites characters the recogniser is known to
 * confuse. Every `String.prototype.replace` with a global regular expression
 * is one function below. Such a call decides every match against the string it
 * was given, left to right and without overlap, so lookarounds see that input
 * and not the partly rewritten one.
 */
module Artifacts {
  import opened Optional
  import opened Text

  /** The `type` argument. Any other value behaves as `Code` (trim only). */
  datatype FieldType = Code | Unit | Grade

  /** `r` agrees with `s` position by position on being whitespace and on being a word character. */
  predicate SameClasses(s: string, r: string) {
    |r| == |s| &&
    forall i :: 0 <= i < |s| ==>
      (IsSpace(r[i]) <==> IsSpace(s[i])) && (IsWordChar(r[i]) <==> IsWordChar(s[i]))
  }

  /** `r` agrees with `s` position by position on being whitespace. */
  predicate SameSpacing(s: string, r: string) {
    |r| == |s| && forall i :: 0 <= i < |s| ==> (IsSpace(r[i]) <==> IsSpace(s[i]))
  }

  /** A rewrite that keeps whitespace where it was keeps a trimmed string trimmed. */
  lemma SameSpacingKeepsTrimmed(s: string, r: string)
    requires IsTrimmed(s) && SameSpacing(s, r)
    ensures IsTrimmed(r)
  {
    if r != [] {
      assert IsSpace(r[0]) <==> IsSpace(s[0]);
      assert IsSpace(r[|r| - 1]) <==> IsSpace(s[|s| - 1]);
    }
  }

  // ----- grade field -----

  /** What `/TE/g -> "76"` puts at position `i`: the T of a "TE" becomes 7, its E becomes 6. */
  function TEAt(s: string, i: nat): char
    requires i < |s|
  {
    if s[i] == 'T' && i + 1 < |s| && s[i + 1] == 'E' then '7'
    else if s[i] == 'E' && i > 0 && s[i - 1] == 'T' then '6'
    else s[i]
  }

  /** `.replace(/TE/g, '76')`: a left-to-right scan that skips past each match. */
  function ReplaceTE(s: string): (r: string)
    ensures |r| == |s|
    ensures forall i :: 0 <= i < |s| ==> r[i] == TEAt(s, i)
  {
    if |s| >= 2 && s[0] == 'T' && s[1] == 'E' then
      var rest := ReplaceTE(s[2..]);
      assert forall i :: 2 <= i < |s| ==> TEAt(s[2..], i - 2) == TEAt(s, i);
      "76" + rest
    else if s == [] then
      []
    else
      var rest := ReplaceTE(s[1..]);
      assert forall i :: 1 <= i < |s| ==> TEAt(s[1..], i - 1) == TEAt(s, i);
      [s[0]] + rest
  }

  /** An E matched by `\bE\b`: no word character on either side of it. */
  predicate IsLoneE(s: string, i: nat)
    requires i < |s|
  {
    s[i] == 'E' &&
    (i == 0 || !IsWordChar(s[i - 1])) &&
    (i + 1 == |s| || !IsWordChar(s[i + 1]))
  }

  /** `.replace(/\bE\b/g, '6')`. */
  function ReplaceLoneE(s: string): (r: string)
    ensures |r| == |s|
  {
    seq(|s|, i requires 0 <= i < |s| => if IsLoneE(s, i) then '6' else s[i])
  }

  /** A global single-character replacement: `.replace(/T/g, '7')` and `.replace(/[O]/g, '0')`. */
  function ReplaceChar(s: string, from: char, to: char): (r: string)
    ensures |r| == |s|
  {
    seq(|s|, i requires 0 <= i < |s| => if s[i] == from then to else s[i])
  }

  /** An A matched by `A(?=\d)`. */
  predicate IsABeforeDigit(s: string, i: nat)
    requires i < |s|
  {
    s[i] == 'A' && i + 1 < |s| && IsDigit(s[i + 1])
  }

  /** `.replace(/A(?=\d)/g, '4')`. */
  function ReplaceABeforeDigit(s: string): (r: string)
    ensures |r| == |s|
  {
    seq(|s|, i requires 0 <= i < |s| => if IsABeforeDigit(s, i) then '4' else s[i])
  }

  /** An A matched by `(?<=\d)A`. */
  predicate IsAAfterDigit(s: string, i: nat)
    requires i < |s|
  {
    s[i] == 'A' && i > 0 && IsDigit(s[i - 1])
  }

  /** `.replace(/(?<=\d)A/g, '4')`. */
  function ReplaceAAfterDigit(s: string): (r: string)
    ensures |r| == |s|
  {
    seq(|s|, i requires 0 <= i < |s| => if IsAAfterDigit(s, i) then '4' else s[i])
  }

  /** The first three grade rewrites, which turn misread score digits back into digits. */
  function ScoreFixes(s: string): (r: string)
    ensures |r| == |s|
  {
    ReplaceChar(ReplaceLoneE(ReplaceTE(s)), 'T', '7')
  }

  /** The whole chain applied to a grade line (src/services/ocr.js:107-114). */
  function FixGrade(s: string): (r: string)
    ensures |r| == |s|
  {
    ReplaceAAfterDigit(ReplaceABeforeDigit(ScoreFixes(s)))
  }

  /**
   * Every grade rewrite puts a digit in place of a letter, so whitespace and
   * word characters stay where they were.
   */
  lemma FixGradeSameClasses(s: string)
    ensures SameClasses(s, FixGrade(s))
  {
    var t1 := ReplaceTE(s);
    var t2 := ReplaceLoneE(t1);
    var t3 := ReplaceChar(t2, 'T', '7');
    var t4 := ReplaceABeforeDigit(t3);
    var r := ReplaceAAfterDigit(t4);
    forall i | 0 <= i < |s|
      ensures (IsSpace(r[i]) <==> IsSpace(s[i])) && (IsWordChar(r[i]) <==> IsWordChar(s[i]))
    {
      assert t1[i] == TEAt(s, i);
      assert t2[i] == (if IsLoneE(t1, i) then '6' else t1[i]);
      assert t3[i] == (if t2[i] == 'T' then '7' else t2[i]);
      assert t4[i] == (if IsABeforeDigit(t3, i) then '4' else t3[i]);
      assert r[i] == (if IsAAfterDigit(t4, i) then '4' else t4[i]);
    }
  }

  // ----- unit field -----

  /** `.replace(/[lI|]/g, '1')`. */
  function ReplaceOnes(s: string): (r: string)
    ensures |r| == |s|
  {
    seq(|s|, i requires 0 <= i < |s| => if s[i] == 'l' || s[i] == 'I' || s[i] == '|' then '1' else s[i])
  }

  /** A character the unit chain rewrites. */
  predicate IsUnitArtifact(c: char) {
    c == 'l' || c == 'I' || c == '|' || c == 'O'
  }

  /** The unit-line chain (src/services/ocr.js:120): digits replace the letters that look like them. */
  function FixUnit(s: string): (r: string)
    ensures SameSpacing(s, r)
    ensures forall i :: 0 <= i < |r| ==> !IsUnitArtifact(r[i])
  {
    var t := ReplaceOnes(s);
    var r := ReplaceChar(t, 'O', '0');
    forall i | 0 <= i < |s|
      ensures r[i] == (if IsUnitArtifact(s[i]) then (if s[i] == 'O' then '0' else '1') else s[i])
      ensures IsSpace(r[i]) <==> IsSpace(s[i])
    {
      assert r[i] == ReplaceChar(t, 'O', '0')[i] && t[i] == ReplaceOnes(s)[i];
    }
    r
  }

  // ----- the corrector -----

  /**
   * `fixCommonErrors(text, type)`; `None` stands for `undefined`. The result is
   * the trimmed text with the field's rewrites applied, which never change its
   * length.
   */
  function FixCommonErrors(text: Option<string>, fieldType: FieldType): (r: string)
    ensures text.Some? ==> |r| == |Trim(text.value)|
  {
    if text.None? || text.value == "" then ""
    else
      var fixed := Trim(text.value);
      match fieldType
      case Grade => FixGrade(fixed)
      case Unit => FixUnit(fixed)
      case Code => fixed
  }

  /** Missing or empty input gives the empty string, whatever the field. */
  lemma FixEmptyInput(fieldType: FieldType)
    ensures FixCommonErrors(None, fieldType) == ""
    ensures FixCommonErrors(Some(""), fieldType) == ""
  {
  }

  /** The classes of the trimmed text survive, so the result neither starts nor ends with whitespace. */
  lemma FixIsTrimmed(text: Option<string>, fieldType: FieldType)
    ensures IsTrimmed(FixCommonErrors(text, fieldType))
  {
    if text.Some? && text.value != "" {
      var fixed := Trim(text.value);
      TrimSpec(text.value);
      var r := FixCommonErrors(text, fieldType);
      match fieldType {
        case Grade =>
          assert r == FixGrade(fixed);
          FixGradeSameClasses(fixed);
          assert SameSpacing(fixed, r);
        case Unit => assert r == FixUnit(fixed);
        case Code => assert r == fixed;
      }
      SameSpacingKeepsTrimmed(fixed, r);
    }
  }

  /** For the code field the corrector only trims. */
  lemma FixCodeIsTrim(text: string)
    ensures FixCommonErrors(Some(text), Code) == Trim(text)
  {
    if text == "" {
      assert Trim(text) == "";
    }
  }

  /** No l, I, | or O survives the unit chain. */
  lemma FixUnitRemovesArtifacts(text: string)
    ensures forall i :: 0 <= i < |FixCommonErrors(Some(text), Unit)| ==> !IsUnitArtifact(FixCommonErrors(Some(text), Unit)[i])
  {
  }

  /** Running the unit chain on its own output changes nothing. */
  lemma FixUnitIdempotent(text: string)
    ensures FixCommonErrors(Some(FixCommonErrors(Some(text), Unit)), Unit) == FixCommonErrors(Some(text), Unit)
  {
    var r := FixCommonErrors(Some(text), Unit);
    FixIsTrimmed(Some(text), Unit);
    if r != "" {
      TrimOfTrimmed(r);
      assert FixUnit(r) == r;
    }
  }

  /** No T survives the grade chain: "TE" becomes "76" and every other T becomes 7. */
  lemma FixGradeRemovesT(s: string)
    ensures 'T' !in FixGrade(s)
  {
    var t := ScoreFixes(s);
    var r := FixGrade(s);
    forall i | 0 <= i < |r| ensures r[i] != 'T' {
      assert t[i] != 'T';
    }
  }

  /**
   * An E is rewritten to 6 exactly when it closes a "TE" or stands alone
   * between non-word characters; an E next to a letter or digit is kept.
   */
  lemma {:induction false} FixGradeE(s: string, i: nat)
    requires i < |s| && s[i] == 'E'
    ensures FixGrade(s)[i] == (if (i > 0 && s[i - 1] == 'T') || IsLoneE(s, i) then '6' else 'E')
  {
    var t := ReplaceTE(s);
    assert t[i] == TEAt(s, i);
    if !(i > 0 && s[i - 1] == 'T') {
      assert i > 0 ==> t[i - 1] == TEAt(s, i - 1);
      assert i + 1 < |s| ==> t[i + 1] == TEAt(s, i + 1);
      assert IsLoneE(t, i) <==> IsLoneE(s, i);
    }
  }

  /** A digit on either side of A, once the score rewrites are done. */
  predicate HasDigitNeighbour(s: string, i: nat)
    requires i < |s|
  {
    (i + 1 < |s| && IsDigit(s[i + 1])) || (i > 0 && IsDigit(s[i - 1]))
  }

  /**
   * An A turns into 4 exactly when a digit stands directly before or after it
   * after the score rewrites; otherwise, as a genuine letter grade, it stays A.
   */
  lemma FixGradeA(s: string, i: nat)
    requires i < |s| && s[i] == 'A'
    ensures FixGrade(s)[i] == (if HasDigitNeighbour(ScoreFixes(s), i) then '4' else 'A')
  {
    var t := ScoreFixes(s);
    assert ReplaceTE(s)[i] == TEAt(s, i);
    assert t[i] == 'A';
    var u := ReplaceABeforeDigit(t);
    if i > 0 {
      assert IsDigit(u[i - 1]) <==> IsDigit(t[i - 1]);
    }
  }

  /** Characters other than T, E and A pass through the grade chain unchanged. */
  lemma FixGradeKeepsOthers(s: string, i: nat)
    requires i < |s| && s[i] != 'T' && s[i] != 'E' && s[i] != 'A'
    ensures FixGrade(s)[i] == s[i]
  {
    assert ReplaceTE(s)[i] == TEAt(s, i);
  }

  /** Worked examples of the grade chain. */
  lemma FixGradeExamples()
    ensures FixGrade("TE") == "76"
    ensures FixGrade("E") == "6"
    ensures FixGrade("6E") == "6E"
    ensures FixGrade("A5") == "45"
    ensures FixGrade("7A") == "74"
    ensures FixGrade("A") == "A"
  {
    assert ReplaceTE("TE") == "76";
    assert ReplaceTE("E") == "E";
    assert ReplaceTE("6E") == "6E";
    assert ReplaceTE("A5") == "A5";
    assert ReplaceTE("7A") == "7A";
    assert ReplaceTE("A") == "A";
  }

  /**
   * The grade chain is not idempotent. The lookahead `A(?=\d)` decides its
   * matches on the line as it was before its own pass, so in "AA5" the first
   * A, then followed by a letter, is kept, and the lookbehind `(?<=\d)A`
   * has nothing to its left; only a second run sees the freshly written 4
   * after it.
   */
  lemma FixGradeNotIdempotent()
    ensures FixGrade("AA5") == "A45"
    ensures FixGrade("A45") == "445"
  {
    assert ReplaceTE("AA5") == "AA5";
    assert ReplaceTE("A45") == "A45";
  }
}

/** The Option type used where the source tests for `undefined`. */
module Optional {
  datatype Option<+T> = None | Some(value: T)
}

/**
 * Character classes and `String.prototype.trim`, as used by the OCR
 * post-processing in src/services/ocr.js.
 */
module Text {

  /** The whitespace `trim` removes, restricted to ASCII. */
  predicate IsSpace(c: char) {
    c == ' ' || c == '\t' || c == '\n' || c == '\r' || c == '\U{000B}' || c == '\U{000C}'
  }

  /** `\d` in a regular expression without the `u` flag. */
  predicate IsDigit(c: char) {
    '0' <= c <= '9'
  }

  /** A word character for `\b`: `[A-Za-z0-9_]`. */
  predicate IsWordChar(c: char) {
    ('A' <= c <= 'Z') || ('a' <= c <= 'z') || IsDigit(c) || c == '_'
  }

  predicate AllSpace(s: string) {
    forall i :: 0 <= i < |s| ==> IsSpace(s[i])
  }

  predicate AllDigits(s: string) {
    forall i :: 0 <= i < |s| ==> IsDigit(s[i])
  }

  /** No leading and no trailing whitespace. */
  predicate IsTrimmed(s: string) {
    |s| == 0 || (!IsSpace(s[0]) && !IsSpace(s[|s| - 1]))
  }

  /** Drops leading whitespace. */
  function TrimStart(s: string): (r: string)
    ensures |r| <= |s|
  {
    if |s| > 0 && IsSpace(s[0]) then TrimStart(s[1..]) else s
  }

  /** Drops trailing whitespace. */
  function TrimEnd(s: string): (r: string)
    ensures |r| <= |s|
  {
    if |s| > 0 && IsSpace(s[|s| - 1]) then TrimEnd(s[..|s| - 1]) else s
  }

  /** `String.prototype.trim`. */
  function Trim(s: string): (r: string)
    ensures |r| <= |s|
  {
    TrimStart(TrimEnd(s))
  }

  /** TrimStart keeps the suffix after the longest all-space prefix. */
  lemma {:induction false} TrimStartSpec(s: string)
    ensures var r := TrimStart(s);
      r == s[|s| - |r|..] && AllSpace(s[..|s| - |r|]) && (|r| > 0 ==> !IsSpace(r[0]))
  {
    if |s| > 0 && IsSpace(s[0]) {
      TrimStartSpec(s[1..]);
      var r := TrimStart(s);
      assert s[..|s| - |r|] == [s[0]] + s[1..][..|s| - 1 - |r|];
    }
  }

  /** TrimEnd keeps the prefix before the longest all-space suffix. */
  lemma {:induction false} TrimEndSpec(s: string)
    ensures var r := TrimEnd(s);
      r == s[..|r|] && AllSpace(s[|r|..]) && (|r| > 0 ==> !IsSpace(r[|r| - 1]))
  {
    if |s| > 0 && IsSpace(s[|s| - 1]) {
      var t := s[..|s| - 1];
      TrimEndSpec(t);
      var r := TrimEnd(s);
      assert s[|r|..] == t[|r|..] + [s[|s| - 1]];
    }
  }

  /**
   * `trim` gives a slice of `s` with only whitespace around it in `s`, and
   * that slice neither starts nor ends with whitespace.
   */
  lemma TrimSpec(s: string)
    ensures IsTrimmed(Trim(s))
    ensures var r := Trim(s);
      exists i :: 0 <= i <= |s| - |r| && r == s[i..i + |r|] && AllSpace(s[..i]) && AllSpace(s[i + |r|..])
  {
    var e := TrimEnd(s);
    var r := TrimStart(e);
    TrimEndSpec(s);
    TrimStartSpec(e);
    var i := |e| - |r|;
    assert r == s[i..i + |r|];
    assert AllSpace(s[..i]) by {
      assert s[..i] == e[..i];
    }
    assert AllSpace(s[i + |r|..]);
    assert |r| > 0 ==> r[|r| - 1] == e[|e| - 1];
  }

  /** Trimming an already trimmed string changes nothing. */
  lemma TrimOfTrimmed(s: string)
    requires IsTrimmed(s)
    ensures Trim(s) == s
  {
  }

  /** A string trims to the empty string exactly when it is all whitespace. */
  lemma TrimEmptyIff(s: string)
    ensures |Trim(s)| == 0 <==> AllSpace(s)
  {
    var e := TrimEnd(s);
    TrimEndSpec(s);
    TrimStartSpec(e);
    if AllSpace(s) {
      if |e| > 0 {
        assert false;
      }
    } else {
      var k :| 0 <= k < |s| && !IsSpace(s[k]);
      if k < |e| {
        assert e[k] == s[k];
      }
    }
  }
}

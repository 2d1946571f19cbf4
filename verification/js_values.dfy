/** The few pieces of JavaScript value semantics the handlers depend on:
    nullish values, truthiness of strings, `String.prototype.trim` and
    `String.prototype.replace` with a string pattern. Strings are sequences
    of code points; every character these functions test lies in the Basic
    Multilingual Plane, so UTF-16 and code-point views agree on them. */
module JsValues {

  /** A JavaScript value that may be `undefined` or `null`: both are
      `Nullish`, any other value is `Present`. Absent request fields, missing
      claims and unresolved lookups all take this type. */
  datatype Nullable<+T> = Nullish | Present(value: T) {

    /** `this ?? fallback`. Only a nullish value falls back: `""`, `0` and
        `false` are kept. */
    function Coalesce(fallback: T): T {
      if this.Present? then this.value else fallback
    }
  }

  /** A string value is truthy exactly when it is present and non-empty. */
  predicate Truthy(v: Nullable<string>) {
    v.Present? && v.value != ""
  }

  /** The code points `trim` removes: the WhiteSpace and LineTerminator
      code points of ECMA-262. */
  predicate IsJsSpace(c: char) {
    var n := c as int;
    || n == 0x09 || n == 0x0A || n == 0x0B || n == 0x0C || n == 0x0D
    || n == 0x20 || n == 0xA0 || n == 0x1680
    || (0x2000 <= n && n <= 0x200A)
    || n == 0x2028 || n == 0x2029 || n == 0x202F || n == 0x205F
    || n == 0x3000 || n == 0xFEFF
  }

  predicate AllSpace(s: string) {
    forall i :: 0 <= i < |s| ==> IsJsSpace(s[i])
  }

  /** Leading white space removed: the result is the longest suffix of `s`
      that does not start with white space. */
  function TrimStart(s: string): (r: string)
    ensures |r| <= |s| && r == s[|s| - |r|..]
    ensures AllSpace(s[..|s| - |r|])
    ensures r == [] || !IsJsSpace(r[0])
  {
    if |s| > 0 && IsJsSpace(s[0]) then
      var r := TrimStart(s[1..]);
      assert s[1..][..|s| - 1 - |r|] == s[1..|s| - |r|];
      r
    else s
  }

  /** Trailing white space removed: the result is the longest prefix of `s`
      that does not end with white space. */
  function TrimEnd(s: string): (r: string)
    ensures |r| <= |s| && r == s[..|r|]
    ensures AllSpace(s[|r|..])
    ensures r == [] || !IsJsSpace(r[|r| - 1])
  {
    if |s| > 0 && IsJsSpace(s[|s| - 1]) then
      var r := TrimEnd(s[..|s| - 1]);
      assert s[..|s| - 1][|r|..] == s[|r|..|s| - 1];
      r
    else s
  }

  /** `s.trim()` */
  function Trim(s: string): string {
    TrimEnd(TrimStart(s))
  }

  /** `s.trim()` is the empty string exactly when `s` is white space only. */
  lemma TrimEmptyIffAllSpace(s: string)
    ensures Trim(s) == [] <==> AllSpace(s)
  {
    var t := TrimStart(s);
    var k := |s| - |t|;
    if Trim(s) == [] {
      forall i | 0 <= i < |s|
        ensures IsJsSpace(s[i])
      {
        assert s[..k][i] == s[i];
      }
    }
  }

  /** The validation both controllers apply to a field: `!val || !val.trim()`
      (written `!val || val.trim() === ""` in registration). */
  predicate FailsTrimCheck(v: Nullable<string>) {
    !Truthy(v) || Trim(v.value) == ""
  }

  /** The same test stated without `trim`: the field is missing or consists
      of white space only (the empty string included). The handlers use this
      form; BlankIsTrimCheck shows the two agree on every value. */
  predicate Blank(v: Nullable<string>) {
    v.Nullish? || AllSpace(v.value)
  }

  lemma BlankIsTrimCheck(v: Nullable<string>)
    ensures Blank(v) <==> FailsTrimCheck(v)
  {
    if v.Present? {
      TrimEmptyIffAllSpace(v.value);
    }
  }

  /** `pat` occurs in `s` starting at index `i`. */
  predicate OccursAt(s: string, pat: string, i: int) {
    0 <= i && i + |pat| <= |s| && s[i..i + |pat|] == pat
  }

  /** `i` is the index of the first occurrence of `pat` in `s`. */
  predicate FirstOccurrence(s: string, pat: string, i: int) {
    OccursAt(s, pat, i) && forall j :: 0 <= j < i ==> !OccursAt(s, pat, j)
  }

  predicate NoOccurrence(s: string, pat: string) {
    forall i :: 0 <= i <= |s| ==> !OccursAt(s, pat, i)
  }

  /** `s.replace(pat, rep)` for a string `pat`: JavaScript replaces the first
      occurrence only, scanning from the left. */
  function ReplaceFirst(s: string, pat: string, rep: string): string
    decreases |s|
  {
    if OccursAt(s, pat, 0) then rep + s[|pat|..]
    else if s == [] then s
    else [s[0]] + ReplaceFirst(s[1..], pat, rep)
  }

  lemma OccursAtShift(s: string, pat: string, i: int)
    requires |s| > 0 && 1 <= i
    ensures OccursAt(s, pat, i) <==> OccursAt(s[1..], pat, i - 1)
  {
    if i + |pat| <= |s| {
      assert s[1..][i - 1..i - 1 + |pat|] == s[i..i + |pat|];
    }
  }

  lemma NoOccurrenceInTail(s: string, pat: string)
    requires |s| > 0 && NoOccurrence(s, pat)
    ensures NoOccurrence(s[1..], pat)
  {
    forall i | 0 <= i <= |s[1..]|
      ensures !OccursAt(s[1..], pat, i)
    {
      OccursAtShift(s, pat, i + 1);
    }
  }

  lemma FirstOccurrenceInTail(s: string, pat: string, i: int)
    requires |s| > 0 && FirstOccurrence(s, pat, i) && i >= 1
    ensures FirstOccurrence(s[1..], pat, i - 1)
  {
    OccursAtShift(s, pat, i);
    forall j | 0 <= j < i - 1
      ensures !OccursAt(s[1..], pat, j)
    {
      OccursAtShift(s, pat, j + 1);
    }
  }

  /** `replace` leaves a string without the pattern as it is. */
  lemma {:induction false} ReplaceFirstWithoutMatch(s: string, pat: string, rep: string)
    requires NoOccurrence(s, pat)
    ensures ReplaceFirst(s, pat, rep) == s
    decreases |s|
  {
    if s == [] {
      assert s[0..0] == [];
    } else {
      assert !OccursAt(s, pat, 0);
      NoOccurrenceInTail(s, pat);
      ReplaceFirstWithoutMatch(s[1..], pat, rep);
      assert [s[0]] + s[1..] == s;
    }
  }

  /** `replace` splices `rep` in place of the first occurrence of `pat` and
      keeps everything before and after it. */
  lemma {:induction false} ReplaceFirstAtFirstMatch(s: string, pat: string, rep: string, i: int)
    requires FirstOccurrence(s, pat, i)
    ensures ReplaceFirst(s, pat, rep) == s[..i] + rep + s[i + |pat|..]
    decreases |s|
  {
    if i == 0 {
      assert s[..0] == [];
    } else {
      assert !OccursAt(s, pat, 0);
      var t := s[1..];
      FirstOccurrenceInTail(s, pat, i);
      ReplaceFirstAtFirstMatch(t, pat, rep, i - 1);
      var r' := ReplaceFirst(t, pat, rep);
      assert ReplaceFirst(s, pat, rep) == [s[0]] + r';
      assert r' == t[..i - 1] + rep + t[i - 1 + |pat|..];
      assert [s[0]] + t[..i - 1] == s[..i];
      assert t[i - 1 + |pat|..] == s[i + |pat|..];
    }
  }
}

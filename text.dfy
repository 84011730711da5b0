/**
 * String predicates the roster relies on: Ruby's `blank?`, the numericality
 * test, and the case-insensitive substring test of a SQL `LIKE '%term%'`.
 */
module Text {
  import opened Wrappers

  /** A character of Ruby's `[[:space:]]` class (the Unicode White_Space set). */
  predicate IsSpace(c: char) {
    ('\U{9}' <= c <= '\U{D}') || c == ' ' || c == '\U{85}' || c == '\U{A0}'
    || c == '\U{1680}' || ('\U{2000}' <= c <= '\U{200A}') || c == '\U{2028}'
    || c == '\U{2029}' || c == '\U{202F}' || c == '\U{205F}' || c == '\U{3000}'
  }

  /** `blank?` on a nullable string: nil, empty, or whitespace only. */
  predicate IsBlank(v: Option<string>) {
    match v
    case None => true
    case Some(s) => forall i :: 0 <= i < |s| ==> IsSpace(s[i])
  }

  /** A string that starts with a non-space character is not blank. */
  lemma NotBlankWhenLeadingNonSpace(s: string)
    requires |s| > 0 && !IsSpace(s[0])
    ensures !IsBlank(Some(s))
  {
  }

  predicate IsDigit(c: char) {
    '0' <= c <= '9'
  }

  predicate AllDigits(s: string) {
    forall i :: 0 <= i < |s| ==> IsDigit(s[i])
  }

  /** An unsigned decimal: one or more digits, optionally a '.' and one or more digits. */
  predicate IsDecimal(s: string) {
    (|s| > 0 && AllDigits(s))
    || exists k :: 0 < k < |s| - 1 && s[k] == '.' && AllDigits(s[..k]) && AllDigits(s[k + 1..])
  }

  /** The numbers the model accepts as numeric: an optional sign followed by a decimal. */
  predicate IsNumeric(s: string) {
    if |s| > 0 && (s[0] == '+' || s[0] == '-') then IsDecimal(s[1..]) else IsDecimal(s)
  }

  /** Sample values: letters are not numbers, digit strings and signed digit strings are. */
  lemma NumericExamples()
    ensures !IsNumeric("ss") && !IsNumeric("sa")
    ensures IsNumeric("90212") && IsNumeric("9000000000") && IsNumeric("-902123456")
  {
    assert !IsDigit("ss"[0]) && !IsDigit("sa"[0]);
    assert "-902123456"[1..] == "902123456";
  }

  /** ASCII case folding: a capital becomes the lower-case letter at its place in the alphabet. */
  function LowerChar(c: char): (r: char)
    ensures 'A' <= c <= 'Z' ==> 'a' <= r <= 'z' && r as int - 'a' as int == c as int - 'A' as int
    ensures !('A' <= c <= 'Z') ==> r == c
  {
    if 'A' <= c <= 'Z' then (c as int + 32) as char else c
  }

  function Lower(s: string): (r: string)
    ensures |r| == |s|
    ensures forall i :: 0 <= i < |s| ==> r[i] == LowerChar(s[i])
  {
    if s == [] then [] else [LowerChar(s[0])] + Lower(s[1..])
  }

  /** `t` occurs in `s` starting at position `k`. */
  predicate OccursAt(t: string, s: string, k: int) {
    0 <= k <= |s| - |t| && s[k..k + |t|] == t
  }

  /** `t` occurs in `s` as a contiguous block. */
  predicate IsSubstring(t: string, s: string) {
    exists k | 0 <= k <= |s| :: OccursAt(t, s, k)
  }

  /** `s LIKE '%t%'` with `t` taken literally and ASCII case folded on both sides. */
  predicate ContainsIgnoringCase(s: string, t: string) {
    IsSubstring(Lower(t), Lower(s))
  }

  /** A SQL `LIKE '%t%'` on a nullable column: NULL never matches. */
  predicate Like(v: Option<string>, t: string) {
    v.Some? && ContainsIgnoringCase(v.value, t)
  }

  /** `LIKE '%%'` accepts every non-NULL value, and only those. */
  lemma EmptyTermMatchesAnyValue(v: Option<string>)
    ensures Like(v, "") <==> v.Some?
  {
    if v.Some? {
      assert OccursAt(Lower(""), Lower(v.value), 0);
    }
  }

  /** A block of `s` that equals `t` up to ASCII case is found by the match. */
  lemma ContainsIgnoringCaseAt(s: string, t: string, k: nat)
    requires k + |t| <= |s|
    requires forall i :: 0 <= i < |t| ==> LowerChar(s[k + i]) == LowerChar(t[i])
    ensures ContainsIgnoringCase(s, t)
  {
    var ls, lt := Lower(s), Lower(t);
    assert ls[k..k + |lt|] == lt;
    assert OccursAt(lt, ls, k);
  }

  lemma {:induction false} LowerIdempotent(s: string)
    ensures Lower(Lower(s)) == Lower(s)
  {
    if s != [] {
      LowerIdempotent(s[1..]);
    }
  }

  /** The case of the term does not matter to `LIKE`. */
  lemma LikeIgnoresTermCase(v: Option<string>, t: string)
    ensures Like(v, t) <==> Like(v, Lower(t))
  {
    LowerIdempotent(t);
  }

  /** "last" is found in "Last Name". */
  lemma LastFoundInLastName()
    ensures ContainsIgnoringCase("Last Name", "last")
  {
    ContainsIgnoringCaseAt("Last Name", "last", 0);
  }
}

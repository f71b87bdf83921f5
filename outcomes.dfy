/** Shared result types, JavaScript's truthiness of a string that may be
    missing, and the substring test JavaScript's
    `String.prototype.includes` and `indexOf(...) !== -1` perform. */
module Outcomes {
  datatype Option<+T> = None | Some(value: T)
  datatype Error = Error(message: string)
  datatype Result<+T> = Success(value: T) | Failure(error: Error)

  /** A string that may be missing (`null` or `undefined`) as JavaScript
      tests it with `if (value)` or `!value`: a missing string and the
      empty string are false. */
  predicate Truthy(value: Option<string>)
  {
    value.Some? && value.value != ""
  }

  predicate OccursAt(s: string, part: string, i: int)
  {
    0 <= i <= |s| - |part| && s[i..i + |part|] == part
  }

  lemma OccursLater(s: string, part: string)
    requires |s| > 0
    ensures (exists i :: OccursAt(s, part, i)) <==>
            OccursAt(s, part, 0) || exists i :: OccursAt(s[1..], part, i)
  {
    if i :| OccursAt(s, part, i) {
      if i > 0 {
        assert s[1..][i - 1..i - 1 + |part|] == s[i..i + |part|];
        assert OccursAt(s[1..], part, i - 1);
      }
    }
    if j :| OccursAt(s[1..], part, j) {
      assert s[1..][j..j + |part|] == s[j + 1..j + 1 + |part|];
      assert OccursAt(s, part, j + 1);
    }
  }

  function Contains(s: string, part: string): (b: bool)
    ensures b <==> exists i :: OccursAt(s, part, i)
    decreases |s|
  {
    if |part| > |s| then false
    else if s[..|part|] == part then assert OccursAt(s, part, 0); true
    else OccursLater(s, part); Contains(s[1..], part)
  }
}

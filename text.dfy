/** Case mapping and substring search over rendered source text. */
module Text {

  function UpperChar(c: char): char {
    if 'a' <= c <= 'z' then (c as int - 32) as char else c
  }

  function LowerChar(c: char): char {
    if 'A' <= c <= 'Z' then (c as int + 32) as char else c
  }

  /** `str.upper()` restricted to ASCII letters. */
  function Upper(s: string): (r: string)
    ensures |r| == |s| && forall k :: 0 <= k < |s| ==> r[k] == UpperChar(s[k])
  {
    seq(|s|, k requires 0 <= k < |s| => UpperChar(s[k]))
  }

  /** `str.lower()` restricted to ASCII letters. */
  function Lower(s: string): (r: string)
    ensures |r| == |s| && forall k :: 0 <= k < |s| ==> r[k] == LowerChar(s[k])
  {
    seq(|s|, k requires 0 <= k < |s| => LowerChar(s[k]))
  }

  /**
   * Case does not matter to either test: upper-casing forgets whether the
   * text was lower-cased first, and the other way round.
   */
  lemma CaseInsensitive(s: string)
    ensures Upper(Lower(s)) == Upper(s) && Lower(Upper(s)) == Lower(s)
  {
    assert forall k :: 0 <= k < |s| ==> Upper(Lower(s))[k] == UpperChar(LowerChar(s[k])) == UpperChar(s[k]);
    assert forall k :: 0 <= k < |s| ==> Lower(Upper(s))[k] == LowerChar(UpperChar(s[k])) == LowerChar(s[k]);
  }

  /** Upper-cased text holds no lower-case ASCII letter, and lower-cased text no upper-case one. */
  lemma CaseMapped(s: string)
    ensures forall k :: 0 <= k < |s| ==> !('a' <= Upper(s)[k] <= 'z') && !('A' <= Lower(s)[k] <= 'Z')
  {
  }

  /** `p` occurs in `s` starting at position `k`. */
  predicate OccursAt(p: string, s: string, k: int) {
    0 <= k && k + |p| <= |s| && s[k..k + |p|] == p
  }

  lemma OccursShift(p: string, s: string, k: int)
    requires |s| > 0 && k >= 0
    ensures OccursAt(p, s[1..], k) <==> OccursAt(p, s, k + 1)
  {
    if 0 <= k && k + |p| <= |s| - 1 {
      assert s[1..][k..k + |p|] == s[k + 1..k + 1 + |p|];
    }
  }

  /** Python's `p in s` for strings: some window of `s` equals `p`. */
  function Occurs(p: string, s: string): (r: bool)
    ensures r <==> exists k :: OccursAt(p, s, k)
    decreases |s|
  {
    if |s| < |p| then
      false
    else if s[..|p|] == p then
      assert OccursAt(p, s, 0);
      true
    else
      var rest := Occurs(p, s[1..]);
      assert rest ==> exists k :: OccursAt(p, s, k) by {
        if rest {
          var k :| OccursAt(p, s[1..], k);
          OccursShift(p, s, k);
        }
      }
      assert (exists k :: OccursAt(p, s, k)) ==> rest by {
        if exists k :: OccursAt(p, s, k) {
          var k :| OccursAt(p, s, k);
          assert k != 0;
          OccursShift(p, s, k - 1);
        }
      }
      rest
  }
}

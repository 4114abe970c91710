/** The string operations the harness relies on: upper-casing, substring search, suffix test. */
module Text {

  /** Upper-casing of one character; only ASCII letters change. */
  function UpperChar(c: char): char
  {
    if 'a' <= c <= 'z' then (c as int - 32) as char else c
  }

  /** `s.upper()`, restricted to ASCII letters. */
  function Upper(s: string): string
  {
    seq(|s|, k requires 0 <= k < |s| => UpperChar(s[k]))
  }

  /** `t in s`: t occurs in s as a contiguous substring. */
  predicate Contains(s: string, t: string)
    decreases |s|
  {
    t <= s || (|s| > 0 && Contains(s[1..], t))
  }

  /** `s.endswith(suffix)`. */
  predicate EndsWith(s: string, suffix: string)
  {
    |suffix| <= |s| && s[|s| - |suffix|..] == suffix
  }

  /** t occurs in s starting at position k. */
  predicate OccursAt(s: string, t: string, k: int)
  {
    0 <= k && k + |t| <= |s| && s[k..k + |t|] == t
  }

  lemma SliceOfTail(s: string, a: nat, b: nat)
    requires 0 < |s| && a <= b <= |s| - 1
    ensures s[1..][a..b] == s[a + 1..b + 1]
  {
    assert forall q :: 0 <= q < b - a ==> s[1..][a..b][q] == s[a + 1 + q];
  }

  /** The recursive search agrees with "there is a position where t starts". */
  lemma {:induction false} ContainsAt(s: string, t: string)
    ensures Contains(s, t) <==> exists k :: OccursAt(s, t, k)
  {
    if t <= s {
      assert OccursAt(s, t, 0);
    } else if |s| == 0 {
      assert forall k :: !OccursAt(s, t, k);
    } else {
      ContainsAt(s[1..], t);
      if Contains(s[1..], t) {
        var k :| OccursAt(s[1..], t, k);
        SliceOfTail(s, k, k + |t|);
        assert OccursAt(s, t, k + 1);
      } else {
        forall k | OccursAt(s, t, k)
          ensures false
        {
          if k > 0 {
            SliceOfTail(s, k - 1, k - 1 + |t|);
            assert OccursAt(s[1..], t, k - 1);
          }
        }
      }
    }
  }

  /** Upper-casing commutes with containment: a marker found in any casing is found upper-cased. */
  lemma {:induction false} ContainsUpper(s: string, t: string)
    requires Contains(s, t)
    ensures Contains(Upper(s), Upper(t))
  {
    if t <= s {
      assert Upper(t) <= Upper(s);
    } else {
      ContainsUpper(s[1..], t);
      assert Upper(s)[1..] == Upper(s[1..]);
    }
  }
}

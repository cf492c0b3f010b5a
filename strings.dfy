/**
 * The two string operations the search box relies on: `toLowerCase` and
 * `includes`. Lower-casing is ASCII-only here (see README, "Left out").
 */
module Strings {

  /** Lower-cases one character: 'A'..'Z' become 'a'..'z', all else is kept. */
  function LowerChar(c: char): char
  {
    if 'A' <= c <= 'Z' then (c as int - 'A' as int + 'a' as int) as char else c
  }

  predicate IsUpper(c: char)
  {
    'A' <= c <= 'Z'
  }

  /** `s.toLowerCase()`, character by character. */
  function Lower(s: string): string
  {
    seq(|s|, i requires 0 <= i < |s| => LowerChar(s[i]))
  }

  /** The result of lower-casing has no upper-case letter: each one becomes
      its own lower-case letter, and every other character is where it was. */
  lemma LowerIsLowerCase(s: string)
    ensures |Lower(s)| == |s|
    ensures forall i :: 0 <= i < |s| ==> !IsUpper(Lower(s)[i])
    ensures forall i :: 0 <= i < |s| && !IsUpper(s[i]) ==> Lower(s)[i] == s[i]
    ensures forall i :: 0 <= i < |s| && IsUpper(s[i]) ==> Lower(s)[i] as int == s[i] as int + 32
  {
  }

  /** Lower-casing twice is lower-casing once. */
  lemma LowerIdempotent(s: string)
    ensures Lower(Lower(s)) == Lower(s)
  {
  }

  /** Lower-casing works piecewise. */
  lemma LowerAppend(a: string, b: string)
    ensures Lower(a + b) == Lower(a) + Lower(b)
  {
  }

  /** Only the letter itself and its upper-case form lower-case to a
      lower-case letter. */
  lemma LowerCharPreimage(c: char, d: char)
    requires 'a' <= d <= 'z' && LowerChar(c) == d
    ensures c == d || c as int == d as int - 32
  {
  }

  /** A lower-case letter whose two forms `s` lacks is not in `Lower(s)`. */
  lemma LowerMissingLetter(s: string, d: char, u: char)
    requires 'a' <= d <= 'z' && u as int == d as int - 32
    requires d !in s && u !in s
    ensures d !in Lower(s)
  {
    forall j | 0 <= j < |s| ensures Lower(s)[j] != d {
      if LowerChar(s[j]) == d {
        LowerCharPreimage(s[j], d);
      }
    }
  }

  /** Every character of an occurrence is a character of the string. */
  lemma OccurrenceHolds(t: string, s: string, j: int, i: int)
    requires OccursAt(t, s, j) && 0 <= i < |t|
    ensures s[j + i] == t[i] && t[i] in s
  {
    assert s[j..j + |t|][i] == s[j + i];
  }

  /** A term holding a letter that a string lacks in both cases is not
      included in it, whatever the case of either. */
  lemma MissingLetterExcludes(s: string, term: string, i: nat, d: char, u: char)
    requires i < |term| && LowerChar(term[i]) == d
    requires 'a' <= d <= 'z' && u as int == d as int - 32
    requires d !in s && u !in s
    ensures !Includes(Lower(s), Lower(term))
  {
    LowerMissingLetter(s, d, u);
    forall j | OccursAt(Lower(term), Lower(s), j) ensures false {
      OccurrenceHolds(Lower(term), Lower(s), j, i);
    }
  }

  /** `t` occurs in `s` starting at index `i`. */
  ghost predicate OccursAt(t: string, s: string, i: int)
  {
    0 <= i && i + |t| <= |s| && s[i..i + |t|] == t
  }

  /** `t` is a contiguous substring of `s`. */
  ghost predicate IsSubstring(t: string, s: string)
  {
    exists i :: OccursAt(t, s, i)
  }

  /** An occurrence in `s[1..]` is an occurrence in `s` one position later. */
  lemma OccursInTail(t: string, s: string, i: int)
    requires |s| > 0 && 0 <= i
    ensures OccursAt(t, s[1..], i) <==> OccursAt(t, s, i + 1)
  {
    if i + 1 + |t| <= |s| {
      assert s[1..][i..i + |t|] == s[i + 1..i + 1 + |t|];
    }
  }

  /** `s.includes(t)`: true exactly when `t` is a substring of `s`; the
      empty string is a substring of every string. */
  function Includes(s: string, t: string): (b: bool)
    ensures b <==> IsSubstring(t, s)
    decreases |s|
  {
    if |t| > |s| then
      false
    else if s[..|t|] == t then
      assert OccursAt(t, s, 0);
      true
    else
      var b := Includes(s[1..], t);
      assert b ==> IsSubstring(t, s) by {
        if b {
          var i :| OccursAt(t, s[1..], i);
          OccursInTail(t, s, i);
        }
      }
      assert IsSubstring(t, s) ==> b by {
        if IsSubstring(t, s) {
          var i :| OccursAt(t, s, i);
          assert i != 0;
          OccursInTail(t, s, i - 1);
        }
      }
      b
  }

  /** The empty search term occurs everywhere. */
  lemma IncludesEmpty(s: string)
    ensures Includes(s, "")
  {
    assert OccursAt("", s, 0);
  }
}

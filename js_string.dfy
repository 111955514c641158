/**
 * The two JavaScript string operations the error classifier relies on:
 * `String.prototype.toLowerCase` (over the ASCII letters only) and
 * `String.prototype.includes` (substring search).
 */
module JsString {

  predicate IsUpperAscii(c: char) {
    'A' <= c <= 'Z'
  }

  /** Lower-cases one ASCII letter; every other character is returned unchanged. */
  function LowerChar(c: char): (r: char)
    ensures !IsUpperAscii(r)
    ensures !IsUpperAscii(c) ==> r == c
  {
    if IsUpperAscii(c) then (c as int + ('a' as int - 'A' as int)) as char else c
  }

  /** `s.toLowerCase()`, restricted to the ASCII letters A-Z. */
  function ToLowerCase(s: string): (r: string)
    ensures |r| == |s|
    ensures forall i :: 0 <= i < |s| ==> r[i] == LowerChar(s[i])
  {
    if s == [] then [] else [LowerChar(s[0])] + ToLowerCase(s[1..])
  }

  /** A string whose letters are all lower case already. */
  predicate IsLowerCase(s: string) {
    forall i :: 0 <= i < |s| ==> !IsUpperAscii(s[i])
  }

  /** Lower-casing leaves no upper-case letter, and lower-casing twice is lower-casing once. */
  lemma LowerCaseIdempotent(s: string)
    ensures IsLowerCase(ToLowerCase(s))
    ensures ToLowerCase(ToLowerCase(s)) == ToLowerCase(s)
  {
  }

  /** Lower-casing commutes with taking a slice. */
  lemma LowerCaseSlice(s: string, i: nat, j: nat)
    requires i <= j <= |s|
    ensures ToLowerCase(s)[i..j] == ToLowerCase(s[i..j])
  {
  }

  /** `s.includes(t)`: `t` occurs in `s` starting at some position. */
  predicate Includes(s: string, t: string) {
    t <= s || (s != [] && Includes(s[1..], t))
  }

  /** The reference meaning of substring search: `t` occurs in `s` at position `i`. */
  ghost predicate OccursAt(s: string, t: string, i: nat) {
    i + |t| <= |s| && s[i..i + |t|] == t
  }

  lemma OccursAtTail(s: string, t: string, i: nat)
    requires s != []
    ensures OccursAt(s[1..], t, i) <==> OccursAt(s, t, i + 1)
  {
  }

  /** The recursive search finds `t` exactly when `t` occurs somewhere in `s`. */
  lemma {:induction false} IncludesIff(s: string, t: string)
    ensures Includes(s, t) <==> exists i: nat :: OccursAt(s, t, i)
    decreases |s|
  {
    if t <= s {
      assert s[0..|t|] == t;
      assert OccursAt(s, t, 0);
    } else if s == [] {
      assert forall i: nat :: !OccursAt(s, t, i);
    } else {
      IncludesIff(s[1..], t);
      assert !OccursAt(s, t, 0) by {
        if |t| <= |s| { assert s[..|t|] == s[0..|t|]; }
      }
      if Includes(s, t) {
        var i: nat :| OccursAt(s[1..], t, i);
        OccursAtTail(s, t, i);
      } else {
        forall i: nat | OccursAt(s, t, i) ensures false {
          OccursAtTail(s, t, i - 1);
        }
      }
    }
  }

  /** Whatever `s` contains, its lower-cased form contains in lower case. */
  lemma {:induction false} IncludesLowerCase(s: string, t: string)
    requires Includes(s, t)
    ensures Includes(ToLowerCase(s), ToLowerCase(t))
  {
    IncludesIff(s, t);
    var i: nat :| OccursAt(s, t, i);
    LowerCaseSlice(s, i, i + |t|);
    assert OccursAt(ToLowerCase(s), ToLowerCase(t), i);
    IncludesIff(ToLowerCase(s), ToLowerCase(t));
  }

  /** A text lacking one of the characters of `t` does not contain `t`. */
  lemma IncludesNeedsChar(s: string, t: string, k: nat)
    requires k < |t| && forall j :: 0 <= j < |s| ==> s[j] != t[k]
    ensures !Includes(s, t)
  {
    IncludesIff(s, t);
  }
}

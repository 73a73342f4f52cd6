/**
 * The parts of java.lang.String that the offer service relies on: `trim`,
 * the service's own `isBlank`, `toUpperCase` and `equalsIgnoreCase`,
 * restricted to ASCII case folding.
 */
module JavaStrings {
  import opened Wrappers

  /** `String.trim` removes every character at or below U+0020 from both ends. */
  predicate IsSpace(c: char) {
    c <= ' '
  }

  /** Index of the first character that `trim` keeps (or |s| if there is none). */
  function TrimStart(s: string): (i: nat)
    ensures i <= |s|
    ensures forall k :: 0 <= k < i ==> IsSpace(s[k])
    ensures i < |s| ==> !IsSpace(s[i])
    decreases |s|
  {
    if s == [] || !IsSpace(s[0]) then 0 else 1 + TrimStart(s[1..])
  }

  /** Index just past the last character at or after `i` that `trim` keeps. */
  function TrimEnd(s: string, i: nat): (j: nat)
    requires i <= |s|
    ensures i <= j <= |s|
    ensures forall k :: j <= k < |s| ==> IsSpace(s[k])
    ensures i < j ==> !IsSpace(s[j - 1])
    decreases |s|
  {
    if |s| == i || !IsSpace(s[|s| - 1]) then |s| else TrimEnd(s[..|s| - 1], i)
  }

  /** A string that `trim` leaves alone: it neither starts nor ends with a space. */
  predicate IsTrimmed(s: string) {
    s != [] ==> !IsSpace(s[0]) && !IsSpace(s[|s| - 1])
  }

  /** Java's `s.trim()`. */
  function Trim(s: string): (r: string)
    ensures IsTrimmed(r)
    ensures |r| <= |s|
    ensures r == [] <==> forall k :: 0 <= k < |s| ==> IsSpace(s[k])
  {
    var i := TrimStart(s);
    var j := TrimEnd(s, i);
    assert i < |s| ==> i < j;
    s[i..j]
  }

  /** Whatever spaces surround a trimmed string, `trim` gives back exactly that string. */
  lemma TrimPadded(pre: string, t: string, post: string)
    requires forall k :: 0 <= k < |pre| ==> IsSpace(pre[k])
    requires forall k :: 0 <= k < |post| ==> IsSpace(post[k])
    requires IsTrimmed(t)
    ensures Trim(pre + t + post) == t
  {
    var s := pre + t + post;
    if t == [] {
      assert forall k :: 0 <= k < |s| ==> IsSpace(s[k]) by {
        forall k | 0 <= k < |s| ensures IsSpace(s[k]) {
          if k < |pre| { assert s[k] == pre[k]; } else { assert s[k] == post[k - |pre|]; }
        }
      }
    } else {
      var i := TrimStart(s);
      assert s[|pre|] == t[0];
      assert i == |pre|;
      var j := TrimEnd(s, i);
      assert s[|pre| + |t| - 1] == t[|t| - 1];
      assert j == |pre| + |t|;
      assert s[i..j] == t;
    }
  }

  /** `trim` leaves a trimmed string alone. */
  lemma TrimOfTrimmed(t: string)
    requires IsTrimmed(t)
    ensures Trim(t) == t
  {
    TrimPadded([], t, []);
    assert [] + t + [] == t;
  }

  /** Trimming twice is trimming once. */
  lemma TrimIdempotent(s: string)
    ensures Trim(Trim(s)) == Trim(s)
  {
    TrimOfTrimmed(Trim(s));
  }

  /**
   * The service's `isBlank`: null, or nothing left after `trim`, that is,
   * made only of characters that `trim` removes.
   */
  function IsBlank(value: Option<string>): (blank: bool)
    ensures blank <==> value.None? || Trim(value.value) == []
  {
    value.None? || forall k :: 0 <= k < |value.value| ==> IsSpace(value.value[k])
  }

  /** ASCII `Character.toUpperCase`. */
  function UpperChar(c: char): char {
    if 'a' <= c <= 'z' then (c as int - 32) as char else c
  }

  /** `String.toUpperCase`, on ASCII letters only. */
  function ToUpper(s: string): (r: string)
    ensures |r| == |s|
    ensures forall k :: 0 <= k < |s| ==> r[k] == UpperChar(s[k])
  {
    if s == [] then [] else [UpperChar(s[0])] + ToUpper(s[1..])
  }

  /** Upper-casing never turns a space into a letter or a letter into a space. */
  lemma ToUpperKeepsTrimmed(s: string)
    requires IsTrimmed(s)
    ensures IsTrimmed(ToUpper(s))
  {
  }

  /** Upper-casing twice is upper-casing once. */
  lemma ToUpperIdempotent(s: string)
    ensures ToUpper(ToUpper(s)) == ToUpper(s)
  {
    var u := ToUpper(s);
    assert forall k :: 0 <= k < |u| ==> ToUpper(u)[k] == u[k];
  }

  /** `String.equalsIgnoreCase` with ASCII case folding: same length and the same letters up to case. */
  predicate EqualsIgnoreCase(a: string, b: string) {
    |a| == |b| && forall k :: 0 <= k < |a| ==> UpperChar(a[k]) == UpperChar(b[k])
  }

  /** Comparing ignoring case is comparing the upper-cased forms. */
  lemma EqualsIgnoreCaseIsUpperEquality(a: string, b: string)
    ensures EqualsIgnoreCase(a, b) <==> ToUpper(a) == ToUpper(b)
  {
    if ToUpper(a) == ToUpper(b) {
      assert forall k :: 0 <= k < |a| ==> UpperChar(a[k]) == ToUpper(a)[k] == ToUpper(b)[k] == UpperChar(b[k]);
    }
  }
}

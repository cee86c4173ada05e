/** String helpers that mirror the JavaScript string methods the core relies on. */
module Text {

  /** `pat` occurs in `s` starting at index `i`. */
  predicate StartsAt(s: string, i: nat, pat: string) {
    i + |pat| <= |s| && s[i..i + |pat|] == pat
  }

  /** `pat` is a substring of `s`. */
  ghost predicate Occurs(s: string, pat: string) {
    exists i: nat :: StartsAt(s, i, pat)
  }

  /** The first index at or after `from` where `pat` occurs, or -1. */
  function IndexOfFrom(s: string, pat: string, from: nat): (r: int)
    decreases |s| + 1 - from
    ensures r == -1 || (from <= r && StartsAt(s, r, pat))
    ensures forall j: nat :: from <= j && (r == -1 || j < r) ==> !StartsAt(s, j, pat)
  {
    if from > |s| then -1
    else if StartsAt(s, from, pat) then from
    else IndexOfFrom(s, pat, from + 1)
  }

  /** `s.indexOf(pat)`: the first occurrence of `pat` in `s`, or -1 when there is none. */
  function IndexOf(s: string, pat: string): (r: int)
    ensures r == -1 <==> !Occurs(s, pat)
    ensures r >= 0 ==> StartsAt(s, r, pat) && forall j: nat :: j < r ==> !StartsAt(s, j, pat)
  {
    IndexOfFrom(s, pat, 0)
  }

  /** `s.replace(pat, rep)` with a string pattern: only the first occurrence is replaced. */
  function ReplaceFirst(s: string, pat: string, rep: string): (r: string)
    ensures !Occurs(s, pat) ==> r == s
    ensures Occurs(s, pat) ==> exists i: nat ::
      && StartsAt(s, i, pat)
      && (forall j: nat :: j < i ==> !StartsAt(s, j, pat))
      && r == s[..i] + rep + s[i + |pat|..]
  {
    var i := IndexOf(s, pat);
    if i == -1 then s else s[..i] + rep + s[i + |pat|..]
  }

  /** The index of the first space in `s`, or `|s|` when there is none. */
  function FirstSpace(s: string): (r: nat)
    ensures r <= |s|
    ensures r < |s| ==> s[r] == ' '
    ensures ' ' !in s[..r]
  {
    if s == [] then 0
    else if s[0] == ' ' then 0
    else
      assert s[..1 + FirstSpace(s[1..])] == [s[0]] + s[1..][..FirstSpace(s[1..])];
      1 + FirstSpace(s[1..])
  }

  /** `parts.join(' ')`. */
  function JoinSpace(parts: seq<string>): string
  {
    if |parts| == 0 then ""
    else if |parts| == 1 then parts[0]
    else parts[0] + " " + JoinSpace(parts[1..])
  }

  /** `s.split(' ')`: the pieces between single spaces (always at least one piece). */
  function SplitSpace(s: string): (r: seq<string>)
    decreases |s|
    ensures |r| >= 1
  {
    var i := FirstSpace(s);
    if i == |s| then [s] else [s[..i]] + SplitSpace(s[i + 1..])
  }

  lemma FirstSpaceAfterWord(a: string, b: string)
    requires ' ' !in a
    ensures FirstSpace(a + " " + b) == |a|
  {
    var s := a + " " + b;
    var i := FirstSpace(s);
    assert s[|a|] == ' ';
  }

  /** Joining with single spaces is undone by splitting on spaces, as long as no part holds a space. */
  lemma {:induction false} SplitJoin(parts: seq<string>)
    requires |parts| >= 1
    requires forall k :: 0 <= k < |parts| ==> ' ' !in parts[k]
    ensures SplitSpace(JoinSpace(parts)) == parts
  {
    if |parts| == 1 {
      assert FirstSpace(parts[0]) == |parts[0]|;
    } else {
      var a, rest := parts[0], JoinSpace(parts[1..]);
      var s := a + " " + rest;
      FirstSpaceAfterWord(a, rest);
      assert s[..|a|] == a;
      assert s[|a| + 1..] == rest;
      SplitJoin(parts[1..]);
      assert parts == [a] + parts[1..];
    }
  }
}

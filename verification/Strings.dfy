/** Searching for a character in a string. */
module Strings {
  import opened Bits
  import opened Errors

  predicate Avoids(s: string, c: char) {
    forall i :: 0 <= i < |s| ==> s[i] != c
  }

  /** The length of the longest prefix without `stop`; all of `s` if there is no stop character. */
  function Until(s: string, stop: Option<char>): (n: nat)
    ensures n <= |s|
  {
    if s == "" || Some(s[0]) == stop then 0 else 1 + Until(s[1..], stop)
  }

  lemma {:induction false} UntilMeans(s: string, stop: Option<char>)
    ensures var n := Until(s, stop);
      && (stop.Some? ==> Avoids(s[..n], stop.value) && (n < |s| ==> s[n] == stop.value))
      && (stop.None? ==> n == |s|)
    decreases |s|
  {
    if s != "" && Some(s[0]) != stop {
      UntilMeans(s[1..], stop);
      var n := Until(s, stop);
      assert s[..n] == [s[0]] + s[1..][..n - 1];
    }
  }

  function First(s: string): Option<char> {
    if s == "" then None else Some(s[0])
  }

  lemma {:induction false} UntilIs(s: string, n: nat, stop: Option<char>)
    requires n <= |s|
    requires stop.Some? ==> Avoids(s[..n], stop.value) && (n < |s| ==> s[n] == stop.value)
    requires stop.None? ==> n == |s|
    ensures Until(s, stop) == n
  {
    var m := Until(s, stop);
    UntilMeans(s, stop);
    assert forall i :: 0 <= i < n ==> s[..n][i] == s[i];
    assert forall i :: 0 <= i < m ==> s[..m][i] == s[i];
  }

  lemma {:induction false} UntilBehind(v: string, stop: char, rest: string)
    requires Avoids(v, stop) && (rest != "" ==> rest[0] == stop)
    ensures Until(v + rest, Some(stop)) == |v|
  {
    Splits(v, rest);
    UntilIs(v + rest, |v|, Some(stop));
  }
}

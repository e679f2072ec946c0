/** What the modules share: optional values, and sequences without repetition. */
module Collections {

  datatype Option<T> = None | Some(value: T)

  ghost predicate NoDup<T>(s: seq<T>) {
    forall i, j :: 0 <= i < j < |s| ==> s[i] != s[j]
  }

  /** `list_del`: the entry leaves the list it is on. */
  function Without(s: seq<nat>, x: nat): seq<nat> {
    if s == [] then [] else if s[0] == x then s[1..] else [s[0]] + Without(s[1..], x)
  }

  lemma {:induction false} WithoutMembers(s: seq<nat>, x: nat)
    requires NoDup(s)
    ensures NoDup(Without(s, x)) && forall y :: y in Without(s, x) <==> y in s && y != x
  {
    if s != [] {
      assert s == [s[0]] + s[1..];
      if s[0] == x {
        assert x !in s[1..];
      } else {
        WithoutMembers(s[1..], x);
        assert s[0] !in s[1..];
        PushedMembers(Without(s[1..], x), s[0]);
      }
    }
  }

  lemma PushedMembers(s: seq<nat>, x: nat)
    requires x !in s && NoDup(s)
    ensures NoDup([x] + s) && forall y :: y in [x] + s <==> y in s || y == x
  {
  }
}

/** Looking for a character in a string, from its start or from a place on. */
module TextSearch {
  /** The first place of c, or the length. */
  function Index(s: string, c: char): (k: nat)
    ensures k <= |s| && (k < |s| ==> s[k] == c)
  {
    if s == "" || s[0] == c then 0 else 1 + Index(s[1..], c)
  }

  /** The same from a place on. */
  function Find(s: string, c: char, from: nat): (k: nat)
    requires from <= |s|
    ensures from <= k <= |s| && (k < |s| ==> s[k] == c)
  {
    from + Index(s[from..], c)
  }

  lemma {:induction false} NotBefore(s: string, c: char)
    ensures c !in s[..Index(s, c)]
  {
    if s != "" && s[0] != c {
      NotBefore(s[1..], c);
      assert s[..Index(s, c)] == [s[0]] + s[1..][..Index(s[1..], c)];
    }
  }

  lemma {:induction false} IndexIs(a: string, rest: string, c: char)
    requires c !in a && (rest != "" ==> rest[0] == c)
    ensures Index(a + rest, c) == |a|
  {
    if a == "" {
      assert a + rest == rest;
    } else {
      assert (a + rest)[1..] == a[1..] + rest;
      IndexIs(a[1..], rest, c);
    }
  }

  lemma {:induction false} FindIsIndex(s: string, c: char, from: nat)
    requires from <= |s|
    ensures Find(s, c, from) == from + Index(s[from..], c)
  {
  }

  lemma {:induction false} SliceOfRest(s: string, from: nat, n: nat)
    requires from + n <= |s|
    ensures s[from..][..n] == s[from..from + n] && s[from..][n..] == s[from + n..]
  {
  }
}

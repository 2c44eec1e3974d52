/** Scope strings: the whitespace-split check of a client and the substring tests of the code grant. */
module Scopes {

  /** The characters Python's `str.split()` treats as whitespace. */
  predicate IsSpace(c: char) {
    var n := c as int;
    || 0x09 <= n <= 0x0D || 0x1C <= n <= 0x20 || n == 0x85 || n == 0xA0 || n == 0x1680
    || 0x2000 <= n <= 0x200A || n == 0x2028 || n == 0x2029 || n == 0x202F || n == 0x205F || n == 0x3000
  }

  predicate IsWord(s: string) {
    s != [] && forall c :: c in s ==> !IsSpace(c)
  }

  /** Length of the longest prefix without whitespace. */
  function WordLength(s: string): (n: nat)
    ensures n <= |s|
    ensures forall i :: 0 <= i < n ==> !IsSpace(s[i])
    ensures n < |s| ==> IsSpace(s[n])
  {
    if s == [] || IsSpace(s[0]) then 0 else 1 + WordLength(s[1..])
  }

  /** `scope.split()` */
  function Split(s: string): (pieces: seq<string>)
    ensures forall p :: p in pieces ==> IsWord(p)
    decreases |s|
  {
    if s == [] then []
    else if IsSpace(s[0]) then Split(s[1..])
    else var n := WordLength(s); [s[..n]] + Split(s[n..])
  }

  /** `w in s` on strings */
  function Contains(s: string, w: string): (found: bool)
    ensures found ==> |w| <= |s|
  {
    w <= s || (s != [] && Contains(s[1..], w))
  }

  /** `OAuthClient.check_scope` */
  predicate CheckScope(scope: string, allowed: seq<string>) {
    forall p :: p in Split(scope) ==> p in allowed
  }

  /** A whitespace-free prefix of a + rest does not reach into rest. */
  lemma PrefixStopsAtSpace(a: string, rest: string, w: string)
    requires IsWord(w) && (rest == [] || IsSpace(rest[0]))
    ensures w <= a + rest <==> w <= a
  {
    if |w| <= |a| {
      assert (a + rest)[..|w|] == a[..|w|];
    } else if rest != [] {
      assert (a + rest)[|a|] == rest[0];
      assert w[|a|] in w;
    }
  }

  lemma {:induction false} ContainsAcrossSpace(a: string, rest: string, w: string)
    requires IsWord(w) && (rest == [] || IsSpace(rest[0]))
    ensures Contains(a + rest, w) <==> Contains(a, w) || Contains(rest, w)
  {
    if a == [] {
      assert a + rest == rest;
    } else {
      assert (a + rest)[1..] == a[1..] + rest;
      ContainsAcrossSpace(a[1..], rest, w);
      PrefixStopsAtSpace(a, rest, w);
    }
  }

  /** A whitespace-free word occurs in a string exactly when it occurs inside one of the split pieces. */
  lemma {:induction false} OccursInsideOnePiece(s: string, w: string)
    requires IsWord(w)
    ensures Contains(s, w) <==> exists p :: p in Split(s) && Contains(p, w)
    decreases |s|
  {
    if s == [] {
    } else if IsSpace(s[0]) {
      OccursInsideOnePiece(s[1..], w);
      assert w[0] in w;
    } else {
      var n := WordLength(s);
      OccursInsideOnePiece(s[n..], w);
      assert s == s[..n] + s[n..];
      ContainsAcrossSpace(s[..n], s[n..], w);
    }
  }

  lemma SplitWord(a: string)
    requires IsWord(a)
    ensures Split(a) == [a]
  {
    var n := WordLength(a);
    assert forall i :: 0 <= i < |a| ==> a[i] in a;
    assert a[..n] == a && a[n..] == [];
  }

  lemma WordLengthAcross(a: string, rest: string)
    requires rest != [] && IsSpace(rest[0])
    ensures WordLength(a + rest) == WordLength(a)
  {
    assert (a + rest)[|a|] == rest[0];
    assert forall i :: 0 <= i < |a| ==> (a + rest)[i] == a[i];
  }

  lemma SplitFirstWord(s: string)
    requires s != [] && !IsSpace(s[0])
    ensures var n := WordLength(s); 0 < n && Split(s) == [s[..n]] + Split(s[n..])
  {
  }

  lemma CutWithin(a: string, rest: string, n: nat)
    requires n <= |a|
    ensures (a + rest)[..n] == a[..n] && (a + rest)[n..] == a[n..] + rest
  {
  }

  lemma {:induction false} SplitAfterWord(a: string, rest: string)
    requires a != [] && !IsSpace(a[0]) && rest != [] && IsSpace(rest[0])
    ensures var n := WordLength(a);
            0 < n <= |a| && Split(a + rest) == [a[..n]] + Split(a[n..] + rest) && Split(a) == [a[..n]] + Split(a[n..])
  {
    WordLengthAcross(a, rest);
    SplitFirstWord(a);
    SplitFirstWord(a + rest);
    var n := WordLength(a);
    CutWithin(a, rest, n);
  }

  /** Whitespace separates and nothing else does: with SplitWord this determines Split. */
  lemma {:induction false} SplitAtSpace(a: string, rest: string)
    requires rest != [] && IsSpace(rest[0])
    ensures Split(a + rest) == Split(a) + Split(rest[1..])
    decreases |a|
  {
    if a == [] {
      assert a + rest == rest;
    } else if IsSpace(a[0]) {
      assert (a + rest)[1..] == a[1..] + rest;
      SplitAtSpace(a[1..], rest);
    } else {
      SplitAfterWord(a, rest);
      SplitAtSpace(a[WordLength(a)..], rest);
    }
  }

  /** The client registers no scope that contains w without being w. */
  ghost predicate NoStrictSuperword(allowed: seq<string>, w: string) {
    forall a :: a in allowed && IsWord(a) && Contains(a, w) ==> a == w
  }

  /** For every scope string the client accepts, the substring test gives the membership answer. */
  ghost predicate SubstringTestExact(allowed: seq<string>, w: string) {
    forall scope :: CheckScope(scope, allowed) ==> (Contains(scope, w) <==> w in Split(scope))
  }

  /**
   The grants test for "offline_access" and "openid" by substring. For a given client that is the same as
   asking for scope membership, on every scope string that passes `check_scope`, if and only if no scope
   registered for the client strictly contains the word.
   */
  lemma SubstringTestIsMembership(allowed: seq<string>, w: string)
    requires IsWord(w)
    ensures SubstringTestExact(allowed, w) <==> NoStrictSuperword(allowed, w)
  {
    if NoStrictSuperword(allowed, w) {
      forall scope | CheckScope(scope, allowed)
        ensures Contains(scope, w) <==> w in Split(scope)
      {
        OccursInsideOnePiece(scope, w);
      }
    }
    if SubstringTestExact(allowed, w) {
      forall a | a in allowed && IsWord(a) && Contains(a, w)
        ensures a == w
      {
        SplitWord(a);
        assert CheckScope(a, allowed);
      }
    }
  }
}

/**
The counterpart seal: the server a device enrolled against, remembered at every start and compared
at the next one, over any sequence of starts that may stop between any two writes.
*/
module Seal {
  import opened Text

  // ---- Two addresses of one server ------------------------------------------------------------------

  function Lower(c: char): char {
    if 'A' <= c <= 'Z' then (c as int + 32) as char else c
  }

  function LowerAll(s: string): (r: string)
    ensures |r| == |s| && forall i :: 0 <= i < |s| ==> r[i] == Lower(s[i])
  {
    seq(|s|, i requires 0 <= i < |s| => Lower(s[i]))
  }

  /** Where the authority begins: behind the first "://", or at the front. */
  function AuthorityStart(s: string): (i: nat)
    ensures i <= |s|
  {
    if |s| < 3 then 0
    else if s[..3] == "://" then 3
    else
      var i := AuthorityStart(s[1..]);
      if i == 0 then 0 else 1 + i
  }

  /** Where scheme and authority end. */
  function AuthorityEnd(s: string): (i: nat)
    ensures i <= |s|
  {
    var start := AuthorityStart(s);
    start + IndexOf(s[start..], '/')
  }

  /** Scheme and authority without regard to case, everything behind them as it stands. */
  predicate SameAddress(stored: string, now: string) {
    var left, right := AuthorityEnd(stored), AuthorityEnd(now);
    LowerAll(stored[..left]) == LowerAll(now[..right]) && stored[left..] == now[right..]
  }

  lemma {:induction false} CaseMovesNoAuthority(a: string, b: string)
    requires LowerAll(a) == LowerAll(b)
    ensures AuthorityStart(a) == AuthorityStart(b)
  {
    assert |a| == |LowerAll(b)|;
    if |a| >= 3 {
      forall i | 0 <= i < |a| ensures Lower(a[i]) == Lower(b[i]) {
        assert LowerAll(a)[i] == LowerAll(b)[i];
      }
      assert a[..3] == "://" <==> a[0] == ':' && a[1] == '/' && a[2] == '/';
      assert b[..3] == "://" <==> b[0] == ':' && b[1] == '/' && b[2] == '/';
      assert LowerAll(a[1..]) == LowerAll(b[1..]);
      CaseMovesNoAuthority(a[1..], b[1..]);
    }
  }

  lemma {:induction false} CaseMovesNoSlash(a: string, b: string)
    requires LowerAll(a) == LowerAll(b)
    ensures IndexOf(a, '/') == IndexOf(b, '/')
  {
    assert |a| == |LowerAll(b)|;
    if a != [] {
      assert LowerAll(a)[0] == LowerAll(b)[0];
      assert LowerAll(a[1..]) == LowerAll(a)[1..] && LowerAll(b[1..]) == LowerAll(b)[1..];
      CaseMovesNoSlash(a[1..], b[1..]);
    }
  }

  /** Equal up to ASCII case before `end`, and equal behind it. */
  ghost predicate EqualUpToCaseBefore(a: string, b: string, end: nat) {
    && |a| == |b|
    && (forall i :: 0 <= i < end && i < |a| ==> Lower(a[i]) == Lower(b[i]))
    && (forall i :: end <= i < |a| ==> a[i] == b[i])
  }

  /** What it means, character by character: case is ignored up to the end of the authority, and there alone. */
  lemma SameAddressMeans(a: string, b: string)
    ensures SameAddress(a, b) <==> EqualUpToCaseBefore(a, b, AuthorityEnd(a))
  {
    if SameAddress(a, b) { SameAddressIsEqual(a, b); }
    if EqualUpToCaseBefore(a, b, AuthorityEnd(a)) { EqualIsSameAddress(a, b); }
  }

  lemma SameAddressIsEqual(a: string, b: string)
    requires SameAddress(a, b)
    ensures EqualUpToCaseBefore(a, b, AuthorityEnd(a))
  {
    var end := AuthorityEnd(a);
    assert |LowerAll(a[..end])| == end && |a[end..]| == |b[AuthorityEnd(b)..]|;
    forall i | 0 <= i < end ensures Lower(a[i]) == Lower(b[i]) {
      assert LowerAll(a[..end])[i] == LowerAll(b[..AuthorityEnd(b)])[i];
    }
    forall i | end <= i < |a| ensures a[i] == b[i] {
      assert a[end..][i - end] == b[end..][i - end];
    }
  }

  lemma CaseMovesNoEnd(a: string, b: string)
    requires LowerAll(a) == LowerAll(b)
    ensures AuthorityEnd(a) == AuthorityEnd(b)
  {
    var start := AuthorityStart(a);
    CaseMovesNoAuthority(a, b);
    assert |a| == |LowerAll(a)| == |b|;
    assert LowerAll(a[start..]) == LowerAll(a)[start..];
    assert LowerAll(b[start..]) == LowerAll(b)[start..];
    CaseMovesNoSlash(a[start..], b[start..]);
  }

  lemma EqualIsSameAddress(a: string, b: string)
    requires EqualUpToCaseBefore(a, b, AuthorityEnd(a))
    ensures SameAddress(a, b)
  {
    var end := AuthorityEnd(a);
    assert LowerAll(a) == LowerAll(b);
    CaseMovesNoEnd(a, b);
    assert LowerAll(a[..end]) == LowerAll(b[..end]);
    assert a[end..] == b[end..];
  }

  datatype Addresses = Addresses(api: string, auth: string, app: string)

  predicate SameServer(stored: Addresses, now: Addresses) {
    SameAddress(stored.api, now.api) && SameAddress(stored.auth, now.auth) && SameAddress(stored.app, now.app)
  }

  lemma SameAddressIsAnEquivalence(a: string, b: string, c: string)
    ensures SameAddress(a, a)
    ensures SameAddress(a, b) ==> SameAddress(b, a)
    ensures SameAddress(a, b) && SameAddress(b, c) ==> SameAddress(a, c)
  {
  }

  /** The classes the seal speaks about are classes: re-spelling an address never leads out of one. */
  lemma SameServerIsAnEquivalence(a: Addresses, b: Addresses, c: Addresses)
    ensures SameServer(a, a)
    ensures SameServer(a, b) ==> SameServer(b, a)
    ensures SameServer(a, b) && SameServer(b, c) ==> SameServer(a, c)
  {
  }
}

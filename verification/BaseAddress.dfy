/** Which base addresses this client accepts, and the one form it writes them in. */
module BaseAddress {
  import opened Wrappers
  import opened Text
  import opened Seal

  const LOOP: seq<string> := ["127.0.0.1", "localhost", "[::1]"]

  datatype AddressError = WithoutScheme | WithoutHost | QueryOrFragment | UserInfo | Plaintext | OtherScheme

  function CutSlashes(s: string): (r: string)
    ensures r <= s
    ensures r == [] || r[|r| - 1] != '/'
    ensures s == [] || s[|s| - 1] != '/' ==> r == s
  {
    if s != [] && s[|s| - 1] == '/' then CutSlashes(s[..|s| - 1]) else s
  }

  /** What stands between "://" and the first slash. */
  function Authority(rest: string): string {
    rest[..IndexOf(rest, '/')]
  }

  /** The host: through the closing bracket, or up to the first colon. */
  function Host(authority: string): string {
    var bracket := IndexOf(authority, ']');
    if bracket < |authority| then authority[..bracket + 1] else authority[..IndexOf(authority, ':')]
  }

  /** The address as it is to be stored, or why it is none. */
  function Check(address: string): Result<string, AddressError> {
    var cut := CutSlashes(address);
    var start := AuthorityStart(cut);
    if start < 3 then Failure(WithoutScheme)
    else
      var scheme, rest := LowerAll(cut[..start - 3]), cut[start..];
      if rest == "" || rest[0] == '/' then Failure(WithoutHost)
      else if '?' in rest || '#' in rest then Failure(QueryOrFragment)
      else if '@' in Authority(rest) then Failure(UserInfo)
      else if scheme == "https" || (scheme == "http" && Host(Authority(rest)) in LOOP) then Success(cut)
      else if scheme == "http" then Failure(Plaintext)
      else Failure(OtherScheme)
  }

  /** What was accepted once is accepted again, in the same form. */
  lemma CheckIsIdempotent(address: string)
    requires Check(address).Success?
    ensures Check(Check(address).value) == Check(address)
    ensures Check(address).value == CutSlashes(address)
  {
    var cut := CutSlashes(address);
    assert CutSlashes(cut) == cut;
  }
}

/**
 * Basic proxy authentication as `checkHttpBasicAuth` (proxy/proxy.go)
 * performs it: the credentials of section 2 of RFC 7617, sent in the
 * `Proxy-Authorization` header of section 4.4 of RFC 7235.
 */
module BasicAuth {
  import opened Wrappers
  import opened GoBytes
  import opened GoStrings
  import Base64

  /** The scheme prefix, matched case-sensitively. */
  const Prefix := "Basic "

  /**
   * `checkHttpBasicAuth` against the configured `user` and `pass`: the value
   * starts with "Basic ", the rest is standard base64, and the decoded text
   * splits at its first ':' into exactly `user` and `pass`.
   */
  function CheckHttpBasicAuth(auth: string, user: string, pass: string): bool
  {
    HasPrefix(auth, Prefix) &&
    match Base64.Decode(auth[|Prefix|..])
    case None => false
    case Some(decoded) =>
      var values := Cut(ToString(decoded), ':');
      values.2 && values.0 == user && values.1 == pass
  }

  /** The header value a client sends for `user` and `pass` (section 2 of RFC 7617). */
  function Credentials(user: string, pass: string): (auth: string)
    requires IsByteString(user + ":" + pass)
    ensures HasPrefix(auth, Prefix)
  {
    Prefix + Base64.Encode(FromString(user + ":" + pass))
  }

  /** Accepted credentials decode to exactly `user:pass`. */
  lemma Sound(auth: string, user: string, pass: string)
    requires CheckHttpBasicAuth(auth, user, pass)
    ensures HasPrefix(auth, Prefix)
    ensures Base64.Decode(auth[|Prefix|..]).Some? && ToString(Base64.Decode(auth[|Prefix|..]).value) == user + ":" + pass
  {
  }

  /** The value a client builds from the configured pair is accepted, and a different pair is not. */
  lemma CredentialsAccepted(user: string, pass: string, user': string, pass': string)
    requires IsByteString(user + ":" + pass) && ':' !in user
    ensures CheckHttpBasicAuth(Credentials(user, pass), user', pass') <==> user' == user && pass' == pass
  {
    var s := user + ":" + pass;
    var auth := Credentials(user, pass);
    assert auth[|Prefix|..] == Base64.Encode(FromString(s));
    Base64.DecodeEncode(FromString(s));
    ToStringFromString(s);
    CutAt(user, ':', pass);
  }

  /** A user name containing ':' can never authenticate: the split happens inside it. */
  lemma ColonInUserNeverAccepted(auth: string, user: string, pass: string)
    requires ':' in user
    ensures !CheckHttpBasicAuth(auth, user, pass)
  {
  }

  /** Any other capitalisation of the scheme is refused. */
  lemma SchemeIsCaseSensitive(auth: string, user: string, pass: string)
    requires |auth| >= |Prefix| && auth[..|Prefix|] != Prefix
    ensures !CheckHttpBasicAuth(auth, user, pass)
  {
  }
}

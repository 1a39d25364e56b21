/**
 * The token and password service the auth routes call (`auth_service`).
 * Its implementation is not part of this model; this module gives it a
 * concrete, minimal meaning: a password hash that verifies exactly its own
 * plaintext, and signed tokens that carry a purpose, a subject and a serial
 * number standing for their issue instant.
 */
module Codec {
  import opened Wrappers

  /** The purpose claim a token carries. */
  datatype Purpose = AccessPurpose | RefreshPurpose | EmailPurpose

  /**
   * A bearer string as a route receives it: either a token the service
   * signed, or anything else (forged, truncated, expired beyond decoding).
   */
  datatype Token =
    | Signed(purpose: Purpose, sub: string, serial: nat)
    | Garbled(raw: string)

  /** What the users table stores in place of a password. */
  datatype PasswordHash = Digest(secret: string)

  /** `get_password_hash`: no other password gives the same hash. */
  function Hash(password: string): (h: PasswordHash)
    ensures forall q :: Digest(q) == h <==> q == password
  {
    Digest(password)
  }

  /** `verify_password`: does the plaintext match the stored hash? Exactly when the hash was made from it. */
  function Verify(password: string, hash: PasswordHash): (b: bool)
    ensures b <==> hash.secret == password
  {
    hash == Hash(password)
  }

  /** The single property the routes rely on: a hash verifies its own plaintext and no other. */
  lemma VerifyHash(p: string, q: string)
    ensures Verify(p, Hash(q)) <==> p == q
  {
  }

  /** `create_access_token(data={"sub": email})`, the `serial`-th token minted. */
  function MintAccess(email: string, serial: nat): (t: Token)
    ensures t.Signed? && t.purpose == AccessPurpose && t.sub == email
    ensures t.serial == serial
  {
    Signed(AccessPurpose, email, serial)
  }

  /** `create_refresh_token(data={"sub": email})`, the `serial`-th token minted. */
  function MintRefresh(email: string, serial: nat): (t: Token)
    ensures t.Signed? && t.purpose == RefreshPurpose && t.sub == email
    ensures t.serial == serial
  {
    Signed(RefreshPurpose, email, serial)
  }

  /** The token the confirmation and reset mails carry. */
  function MintEmail(email: string, serial: nat): (t: Token)
    ensures t.Signed? && t.purpose == EmailPurpose && t.sub == email
    ensures t.serial == serial
  {
    Signed(EmailPurpose, email, serial)
  }

  /** `decode_refresh_token`: the subject of a signed refresh token, nothing otherwise. */
  function DecodeRefresh(t: Token): (r: Option<string>)
    ensures r.Some? <==> t.Signed? && t.purpose == RefreshPurpose
    ensures r.Some? ==> r.value == t.sub
  {
    match t
    case Signed(RefreshPurpose, sub, _) => Some(sub)
    case _ => None
  }

  /** `get_email_from_token`: the subject of a signed email-action token, nothing otherwise. */
  function EmailFromToken(t: Token): (r: Option<string>)
    ensures r.Some? <==> t.Signed? && t.purpose == EmailPurpose
    ensures r.Some? ==> r.value == t.sub
  {
    match t
    case Signed(EmailPurpose, sub, _) => Some(sub)
    case _ => None
  }

  /** Minting then decoding gives back the subject, for each kind with its own decoder. */
  lemma MintDecodeRoundTrip(email: string, serial: nat)
    ensures DecodeRefresh(MintRefresh(email, serial)) == Some(email)
    ensures EmailFromToken(MintEmail(email, serial)) == Some(email)
  {
  }

  /** A token minted for one purpose is refused by the decoder of another. */
  lemma PurposeIsChecked(email: string, serial: nat)
    ensures DecodeRefresh(MintAccess(email, serial)) == None
    ensures DecodeRefresh(MintEmail(email, serial)) == None
    ensures EmailFromToken(MintAccess(email, serial)) == None
    ensures EmailFromToken(MintRefresh(email, serial)) == None
  {
  }

  /** Two refresh tokens coincide exactly when they were minted for the same email with the same serial. */
  lemma MintedTokensDiffer(e1: string, n1: nat, e2: string, n2: nat)
    ensures MintRefresh(e1, n1) == MintRefresh(e2, n2) <==> e1 == e2 && n1 == n2
  {
  }
}

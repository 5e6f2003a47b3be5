/** `User.set_password` and `User.check_password` (app.py lines 38-42). The source calls bcrypt; here a
    digest is a salt together with the password sealed under that salt, a stand-in that keeps the one
    property the handlers rely on: a digest verifies exactly the password it was made from. */
module Password {

  /** A stored password hash: never the password itself. */
  datatype Digest = Digest(salt: nat, sealed: seq<int>)

  /** Seals a password under a salt, character by character. */
  function Seal(password: string, salt: nat): (r: seq<int>)
    ensures |r| == |password|
    ensures forall i :: 0 <= i < |r| ==> r[i] > password[i] as int
  {
    seq(|password|, i requires 0 <= i < |password| => password[i] as int + salt + 1)
  }

  /** `bcrypt.hash(password)`, with the random salt passed in. */
  function HashPassword(password: string, salt: nat): (d: Digest)
    ensures d.salt == salt
    ensures CheckPassword(password, d)
  {
    Digest(salt, Seal(password, salt))
  }

  /** `bcrypt.verify(password, digest)`: the digest is what sealing this password under the digest's
      own salt gives; in particular the two have the same length. */
  predicate CheckPassword(password: string, d: Digest): (b: bool)
    ensures b <==> d == Digest(d.salt, Seal(password, d.salt))
    ensures b ==> |d.sealed| == |password|
  {
    Seal(password, d.salt) == d.sealed
  }

  /** Two passwords sealed under one salt are equal only if the passwords are. */
  lemma {:induction false} SealInjective(p: string, q: string, salt: nat)
    requires Seal(p, salt) == Seal(q, salt)
    ensures p == q
  {
    forall i | 0 <= i < |p| ensures p[i] == q[i] {
      assert Seal(p, salt)[i] == Seal(q, salt)[i];
    }
  }

  /** The hash of `q` verifies `p` if and only if `p` is `q`, whatever the salt. */
  lemma CheckIffSame(p: string, q: string, salt: nat)
    ensures CheckPassword(p, HashPassword(q, salt)) <==> p == q
  {
    if CheckPassword(p, HashPassword(q, salt)) {
      SealInjective(p, q, salt);
    }
  }
}

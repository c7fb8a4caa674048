/** The session token, seen from outside the jsonwebtoken library: `jwt.sign(payload, secret,
    { expiresIn: '1d' })` and `jwt.verify(token, secret)`. The routes receive both as function
    parameters; the one property they rely on is `LifetimeLaw`. */
module Jwt {
  import opened Http

  /** The payload login signs and the self-check reads back: `{ email, role }`. */
  datatype Claims = Claims(email: string, role: string)

  /** `jwt.sign(payload, secret, { expiresIn: '1d' })` when called at `iat` (seconds since the epoch). */
  type Signer = (Claims, string, nat) -> string

  /** `jwt.verify(token, secret)` at time `now`: the decoded claims, or None where it throws
      (bad signature, malformed token, or expired). */
  type Verifier = (string, string, nat) -> Option<Claims>

  /** The contract the routes rely on from the library: a signed token is never empty, and it
      verifies under the same secret, yielding exactly the signed claims, precisely until one day
      after it was issued (jsonwebtoken rejects a token once `now >= exp`, with `exp = iat + 86400`). */
  ghost predicate LifetimeLaw(sign: Signer, verify: Verifier) {
    && (forall p: Claims, key: string, iat: nat :: sign(p, key, iat) != "")
    && (forall p: Claims, key: string, iat: nat, now: nat ::
          verify(sign(p, key, iat), key, now) == if now < iat + SessionLifetime then Some(p) else None)
  }

  // A reference codec (no cryptography) showing that LifetimeLaw can be met. Each field is
  // written character by character, each character followed by '1', and closed by "$0".

  function Field(s: string): (t: string)
    ensures |t| == 2 * |s| + 2
  {
    if s == [] then ['$', '0'] else [s[0], '1'] + Field(s[1..])
  }

  /** Read one field written by `Field` off the front of `t`, returning it and what follows. */
  function ReadField(t: string): Option<(string, string)>
    decreases |t|
  {
    if |t| < 2 then None
    else if t[1] == '0' then Some(("", t[2..]))
    else if t[1] != '1' then None
    else match ReadField(t[2..])
      case None => None
      case Some(fr) => Some(([t[0]] + fr.0, fr.1))
  }

  /** Reading a written field gives back the field and leaves the rest untouched. */
  lemma {:induction false} ReadFieldOfField(s: string, rest: string)
    ensures ReadField(Field(s) + rest) == Some((s, rest))
  {
    if s == [] {
      assert (Field(s) + rest)[2..] == rest;
    } else {
      ReadFieldOfField(s[1..], rest);
      assert (Field(s) + rest)[2..] == Field(s[1..]) + rest;
      assert [s[0]] + s[1..] == s;
    }
  }

  /** `n` written in unary. */
  function Unary(n: nat): (t: string)
    ensures |t| == n
  {
    seq(n, _ => '|')
  }

  /** email, role, secret and expiry time, one field each. */
  function ReferenceSign(p: Claims, key: string, iat: nat): string {
    Field(p.email) + Field(p.role) + Field(key) + Field(Unary(iat + SessionLifetime))
  }

  function ReferenceVerify(token: string, key: string, now: nat): Option<Claims> {
    match ReadField(token)
    case None => None
    case Some(f1) =>
      match ReadField(f1.1)
      case None => None
      case Some(f2) =>
        match ReadField(f2.1)
        case None => None
        case Some(f3) =>
          match ReadField(f3.1)
          case None => None
          case Some(f4) =>
            if f4.1 == [] && f3.0 == key && now < |f4.0| then Some(Claims(f1.0, f2.0)) else None
  }

  /** The reference codec obeys the lifetime law, so requiring the law is consistent. */
  lemma ReferenceCodecObeysLifetimeLaw()
    ensures LifetimeLaw(ReferenceSign, ReferenceVerify)
  {
    forall p: Claims, key: string, iat: nat, now: nat
      ensures ReferenceVerify(ReferenceSign(p, key, iat), key, now)
              == if now < iat + SessionLifetime then Some(p) else None
    {
      var e := Unary(iat + SessionLifetime);
      var t4 := Field(e);
      var t3 := Field(key) + t4;
      var t2 := Field(p.role) + t3;
      var t1 := Field(p.email) + t2;
      assert ReferenceSign(p, key, iat) == t1;
      ReadFieldOfField(p.email, t2);
      ReadFieldOfField(p.role, t3);
      ReadFieldOfField(key, t4);
      ReadFieldOfField(e, []);
      assert t4 + [] == t4;
    }
  }
}

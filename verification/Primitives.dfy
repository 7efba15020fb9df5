/**
 * The foreign primitives (X25519, HKDF-SHA256, Ed25519, AES-256-GCM and Python's UTF-8 codec) as
 * uninterpreted functions, with the few laws the rest of the model relies on.  A theorem that needs a law names it
 * in a requires clause; nothing is assumed globally.
 */
module Primitives {
  import opened Wrappers
  import opened Bytes

  datatype Suite = Suite(
    /** X25519 public key of a private key. */
    publicOf: Bytes -> Bytes,
    /** X25519 exchange; None when the library refuses the peer key. */
    exchange: (Bytes, Bytes) -> Option<Bytes>,
    /** HKDF-SHA256 of a secret under an info string, expanded to a length. */
    hkdf: (Bytes, Bytes, nat) -> Bytes,
    identityOf: Bytes -> Bytes,
    sign: (Bytes, Bytes) -> Bytes,
    verify: (Bytes, Bytes, Bytes) -> bool,
    /** AES-GCM: key, plaintext, nonce. */
    seal: (Bytes, Bytes, Bytes) -> Bytes,
    /** AES-GCM: key, ciphertext, nonce; None when authentication fails. */
    open: (Bytes, Bytes, Bytes) -> Option<Bytes>,
    utf8Encode: string -> Bytes,
    utf8Decode: Bytes -> Option<string>
  )

  ghost predicate FixedSizes(s: Suite) {
    && (forall sk :: |s.publicOf(sk)| == 32)
    && (forall sk :: |s.identityOf(sk)| == 32)
    && (forall sk, m :: |s.sign(sk, m)| == 64)
    && (forall z, info, n :: |s.hkdf(z, info, n)| == n)
    && (forall k, pt, n :: |s.seal(k, pt, n)| == |pt| + 16)
  }

  /** Section 6.1 of RFC 7748: both ends compute the same shared secret. */
  ghost predicate ExchangeCommutes(s: Suite) {
    forall a, b :: s.exchange(a, s.publicOf(b)) == s.exchange(b, s.publicOf(a))
  }

  ghost predicate SignaturesVerify(s: Suite) {
    forall sk, m :: s.verify(s.identityOf(sk), s.sign(sk, m), m)
  }

  ghost predicate SealOpens(s: Suite) {
    forall k, pt, n :: s.open(k, s.seal(k, pt, n), n) == Some(pt)
  }

  ghost predicate Utf8RoundTrips(s: Suite) {
    && (forall t :: s.utf8Decode(s.utf8Encode(t)) == Some(t))
    && (forall b :: s.utf8Decode(b).Some? ==> s.utf8Encode(s.utf8Decode(b).value) == b)
  }

  ghost predicate Lawful(s: Suite) {
    FixedSizes(s) && ExchangeCommutes(s) && SignaturesVerify(s) && SealOpens(s) && Utf8RoundTrips(s)
  }

  // ---------------------------------------------------------------------------
  // The laws are consistent: a toy suite satisfies them all
  // ---------------------------------------------------------------------------

  /** A fixed-width text codec standing in for UTF-8 in the witness. */
  function ToyEncode(t: string): Bytes {
    if t == "" then [] else BigEndian(t[0] as int, 4) + ToyEncode(t[1..])
  }

  function ToyDecode(b: Bytes): Option<string> {
    if b == [] then Some("")
    else if |b| < 4 then None
    else
      var code := ReadBigEndian(b[..4]);
      if !(code < 0xD800 || 0xE000 <= code < 0x11_0000) then None
      else
        match ToyDecode(b[4..])
        case None => None
        case Some(rest) => Some([code as char] + rest)
  }

  lemma {:induction false} ToyDecodesEncoded(t: string)
    ensures ToyDecode(ToyEncode(t)) == Some(t)
  {
    if t != "" {
      FieldSizes();
      ReadAfterPack(t[0] as int, 4);
      ToyDecodesEncoded(t[1..]);
      var b := ToyEncode(t);
      assert b[..4] == BigEndian(t[0] as int, 4) && b[4..] == ToyEncode(t[1..]);
      assert t == [t[0]] + t[1..];
    }
  }

  lemma {:induction false} ToyEncodesDecoded(b: Bytes)
    requires ToyDecode(b).Some?
    ensures ToyEncode(ToyDecode(b).value) == b
  {
    if b != [] {
      PackAfterRead(b[..4]);
      ToyEncodesDecoded(b[4..]);
      var t := ToyDecode(b).value;
      assert t[1..] == ToyDecode(b[4..]).value;
      assert b == b[..4] + b[4..];
    }
  }

  function ToySuite(): Suite {
    Suite(
      sk => Zeros(32),
      (sk, pk) => Some(Zeros(32)),
      (z, info, n) => Zeros(n),
      sk => Zeros(32),
      (sk, m) => Zeros(64),
      (pk, sig, m) => true,
      (k, pt, n) => pt + Zeros(16),
      (k, ct, n) => if |ct| < 16 then None else Some(ct[..|ct| - 16]),
      ToyEncode,
      ToyDecode
    )
  }

  lemma {:induction false} LawsAreConsistent()
    ensures Lawful(ToySuite())
  {
    var s := ToySuite();
    forall k: Bytes, pt: Bytes, n: Bytes ensures s.open(k, s.seal(k, pt, n), n) == Some(pt) {
      assert s.seal(k, pt, n)[..|pt|] == pt;
    }
    forall t ensures s.utf8Decode(s.utf8Encode(t)) == Some(t) {
      ToyDecodesEncoded(t);
    }
    forall b | s.utf8Decode(b).Some? ensures s.utf8Encode(s.utf8Decode(b).value) == b {
      ToyEncodesDecoded(b);
    }
  }
}

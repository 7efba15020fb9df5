/**
 * The parts of torcall/core/crypto.py that are not foreign code: directional keys, the signed handshake messages,
 * the short authentication string, frame padding, nonces, and the wiping of key buffers.
 */
module Crypto {
  import opened Wrappers
  import opened Bytes
  import opened Primitives

  // ---------------------------------------------------------------------------
  // Session keys
  // ---------------------------------------------------------------------------

  const SESSION_INFO := Ascii("torcall-voice-e2e-v2-directional")

  datatype SessionKeys = SessionKeys(send: Bytes, recv: Bytes)

  /** None stands for the exceptions: a key of the wrong size, or one that the exchange refuses. */
  function DeriveSessionKeys(s: Suite, myPrivate: Bytes, peerPublic: Bytes, isCaller: bool): Option<SessionKeys> {
    if |myPrivate| != 32 || |peerPublic| != 32 then None
    else
      match s.exchange(myPrivate, peerPublic)
      case None => None
      case Some(secret) =>
        var okm := s.hkdf(secret, SESSION_INFO, 64);
        if |okm| != 64 then None
        else if isCaller then Some(SessionKeys(okm[..32], okm[32..]))
        else Some(SessionKeys(okm[32..], okm[..32]))
  }

  /** The 64 bytes that a shared secret expands to have two different halves, one for each direction. */
  predicate Separates(s: Suite, secret: Bytes) {
    var okm := s.hkdf(secret, SESSION_INFO, 64);
    |okm| == 64 && okm[..32] != okm[32..]
  }

  /**
   * Each side sends with the key the other receives with; neither can fail alone.  The two directions share a key only
   * when the two halves of the expansion are equal.
   */
  lemma DirectionalKeysAgree(s: Suite, callerPrivate: Bytes, calleePrivate: Bytes)
    requires ExchangeCommutes(s) && FixedSizes(s)
    requires |callerPrivate| == 32 && |calleePrivate| == 32
    ensures var caller := DeriveSessionKeys(s, callerPrivate, s.publicOf(calleePrivate), true);
            var callee := DeriveSessionKeys(s, calleePrivate, s.publicOf(callerPrivate), false);
            && caller.Some? == callee.Some?
            && (caller.Some? ==>
                  && caller.value.send == callee.value.recv
                  && caller.value.recv == callee.value.send
                  && |caller.value.send| == 32 && |caller.value.recv| == 32
                  && var secret := s.exchange(callerPrivate, s.publicOf(calleePrivate)).value;
                     && caller.value.send + caller.value.recv == s.hkdf(secret, SESSION_INFO, 64)
                     && (caller.value.send != caller.value.recv <==> Separates(s, secret)))
  {
    assert s.exchange(callerPrivate, s.publicOf(calleePrivate))
        == s.exchange(calleePrivate, s.publicOf(callerPrivate));
  }

  // ---------------------------------------------------------------------------
  // Signed handshakes
  // ---------------------------------------------------------------------------

  const CONTEXT_V1 := Ascii("torcall-handshake-id-v1:")
  const CONTEXT_V2 := Ascii("torcall-handshake-id-v2:")
  const CONTEXT_V3 := Ascii("torcall-handshake-id-v3:")

  const HANDSHAKE_NONCE_LEN := 16
  const MAX_SKEW := 120

  /** The byte string that an identity signs. */
  function SignedMessage(s: Suite, ephemeral: Bytes, nonce: Option<Bytes>, address: Option<string>): Bytes {
    if nonce.None? then CONTEXT_V1 + ephemeral
    else if address.None? then CONTEXT_V2 + nonce.value + ephemeral
    else CONTEXT_V3 + nonce.value + ephemeral + s.utf8Encode(address.value)
  }

  /** sign_handshake; None stands for the ValueError of a bad length. */
  function SignHandshake(s: Suite, identityPrivate: Bytes, ephemeral: Bytes, nonce: Option<Bytes>,
                         address: Option<string>): Option<Bytes> {
    if |identityPrivate| != 32 then None
    else if nonce.Some? && |nonce.value| != HANDSHAKE_NONCE_LEN then None
    else Some(s.sign(identityPrivate, SignedMessage(s, ephemeral, nonce, address)))
  }

  predicate NonceIsFresh(now: int, nonce: Bytes) {
    && |nonce| == HANDSHAKE_NONCE_LEN
    && var age := now - ReadBigEndian(nonce[..8]);
       -MAX_SKEW <= age <= MAX_SKEW
  }

  predicate VerifyHandshake(s: Suite, now: int, identity: Bytes, ephemeral: Bytes, signature: Bytes,
                            nonce: Option<Bytes>, address: Option<string>) {
    && |identity| == 32 && |signature| == 64
    && (nonce.Some? ==> NonceIsFresh(now, nonce.value))
    && s.verify(identity, signature, SignedMessage(s, ephemeral, nonce, address))
  }

  /** make_handshake_nonce: the clock in seconds, then eight random bytes. */
  function HandshakeNonce(now: nat, random: Bytes): (r: Bytes)
    requires |random| == 8
    ensures |r| == HANDSHAKE_NONCE_LEN
  {
    BigEndian(now, 8) + random
  }

  /** A nonce is accepted exactly within two minutes of the clock that made it, either way. */
  lemma FreshnessWindow(made: nat, random: Bytes, now: int)
    requires |random| == 8 && made < 0x1_0000_0000_0000_0000
    ensures NonceIsFresh(now, HandshakeNonce(made, random)) <==> made - MAX_SKEW <= now <= made + MAX_SKEW
  {
    FieldSizes();
    ReadAfterPack(made, 8);
    assert HandshakeNonce(made, random)[..8] == BigEndian(made, 8);
  }

  lemma ContextsDiffer()
    ensures |CONTEXT_V1| == |CONTEXT_V2| == |CONTEXT_V3| == 24
    ensures CONTEXT_V1 != CONTEXT_V2 && CONTEXT_V1 != CONTEXT_V3 && CONTEXT_V2 != CONTEXT_V3
  {
    assert CONTEXT_V1[22] == '1' as int && CONTEXT_V2[22] == '2' as int && CONTEXT_V3[22] == '3' as int;
  }

  ghost predicate WellSized(ephemeral: Bytes, nonce: Option<Bytes>) {
    |ephemeral| == 32 && (nonce.Some? ==> |nonce.value| == HANDSHAKE_NONCE_LEN)
  }

  /** The first 24 bytes of a signed message are the context of its version, and of no other. */
  lemma VersionOfSignedMessage(s: Suite, ephemeral: Bytes, nonce: Option<Bytes>, address: Option<string>)
    requires WellSized(ephemeral, nonce)
    ensures var m := SignedMessage(s, ephemeral, nonce, address);
            && |m| >= 24
            && (m[..24] == CONTEXT_V1 <==> nonce.None?)
            && (m[..24] == CONTEXT_V2 <==> nonce.Some? && address.None?)
            && (m[..24] == CONTEXT_V3 <==> nonce.Some? && address.Some?)
  {
    ContextsDiffer();
    var m := SignedMessage(s, ephemeral, nonce, address);
    if nonce.None? {
      assert m[..24] == CONTEXT_V1;
    } else if address.None? {
      assert m[..24] == CONTEXT_V2;
    } else {
      assert m[..24] == CONTEXT_V3;
    }
  }

  /** A signed message determines its version, nonce, key and address: no signature serves two handshakes. */
  lemma SignedMessageInjective(s: Suite, e1: Bytes, n1: Option<Bytes>, a1: Option<string>,
                               e2: Bytes, n2: Option<Bytes>, a2: Option<string>)
    requires Utf8RoundTrips(s) && WellSized(e1, n1) && WellSized(e2, n2)
    requires SignedMessage(s, e1, n1, a1) == SignedMessage(s, e2, n2, a2)
    ensures e1 == e2 && n1 == n2
    ensures n1.Some? ==> a1 == a2
  {
    var m := SignedMessage(s, e1, n1, a1);
    VersionOfSignedMessage(s, e1, n1, a1);
    VersionOfSignedMessage(s, e2, n2, a2);
    if n1.None? {
      assert m[24..] == e1 && m[24..] == e2;
    } else {
      assert m[24..40] == n1.value && m[24..40] == n2.value;
      assert m[40..72] == e1 && m[40..72] == e2;
      if a1.Some? {
        assert m[72..] == s.utf8Encode(a1.value) && m[72..] == s.utf8Encode(a2.value);
        assert s.utf8Decode(m[72..]) == Some(a1.value) && s.utf8Decode(m[72..]) == Some(a2.value);
      }
    }
  }

  // ---------------------------------------------------------------------------
  // Short authentication string
  // ---------------------------------------------------------------------------

  const SAS_INFO := Ascii("torcall-sas-v1")

  /** The table both programs ship. */
  type WordList = w: seq<string> | |w| > 0 witness ["alpha"]

  /** The words of the string, in order; the space between them is left to the display. */
  function ComputeSas(s: Suite, words: WordList, publicA: Bytes, publicB: Bytes): seq<string> {
    var (lo, hi) := SortedPair(publicA, publicB);
    var digest := s.hkdf(lo + hi, SAS_INFO, 4);
    seq(|digest|, i requires 0 <= i < |digest| => words[digest[i] % |words|])
  }

  /** Both ends read the same words, whoever called. */
  lemma SasIsSymmetric(s: Suite, words: WordList, publicA: Bytes, publicB: Bytes)
    ensures ComputeSas(s, words, publicA, publicB) == ComputeSas(s, words, publicB, publicA)
  {
    SortedPairSymmetric(publicA, publicB);
  }

  lemma SasHasFourWords(s: Suite, words: WordList, publicA: Bytes, publicB: Bytes)
    requires FixedSizes(s)
    ensures |ComputeSas(s, words, publicA, publicB)| == 4
    ensures forall i :: 0 <= i < 4 ==> ComputeSas(s, words, publicA, publicB)[i] in words
  {
  }

  type Digest = d: seq<Byte> | |d| == 4 witness [0, 0, 0, 0]

  /** A suite whose four-byte expansion tells one input from all others. */
  function TellingSuite(input: Bytes, one: Digest, other: Digest): Suite {
    ToySuite().(
      hkdf := (z: Bytes, info: Bytes, n: nat) => if n != 4 then Zeros(n) else if z == input then one else other)
  }

  lemma TellingSuiteIsLawful(input: Bytes, one: Digest, other: Digest)
    ensures Lawful(TellingSuite(input, one, other))
  {
    var s, toy := TellingSuite(input, one, other), ToySuite();
    LawsAreConsistent();
    assert s.seal == toy.seal && s.open == toy.open && s.sign == toy.sign && s.verify == toy.verify;
    assert s.publicOf == toy.publicOf && s.exchange == toy.exchange && s.identityOf == toy.identityOf;
    assert s.utf8Encode == toy.utf8Encode && s.utf8Decode == toy.utf8Decode;
  }

  function Joined(a: Bytes, b: Bytes): Bytes {
    SortedPair(a, b).0 + SortedPair(a, b).1
  }

  lemma SortedPairTells(a: Bytes, b: Bytes, x: Bytes, y: Bytes)
    requires |a| == |b| == |x| == |y|
    ensures Joined(a, b) == Joined(x, y) <==> {a, b} == {x, y}
  {
    var p, q := SortedPair(a, b), SortedPair(x, y);
    assert {p.0, p.1} == {a, b} && {q.0, q.1} == {x, y};
    if p.0 + p.1 == q.0 + q.1 {
      assert p.0 == (p.0 + p.1)[..|a|] == q.0 && p.1 == (p.0 + p.1)[|a|..] == q.1;
    }
    if {a, b} == {x, y} {
      SortedPairSymmetric(a, b);
      assert a in {x, y} && b in {x, y} && x in {a, b} && y in {a, b};
      assert (a == x && b == y) || (a == y && b == x);
    }
  }

  lemma SamePairSameWords(s: Suite, words: WordList, a: Bytes, b: Bytes, x: Bytes, y: Bytes)
    requires {a, b} == {x, y}
    ensures ComputeSas(s, words, a, b) == ComputeSas(s, words, x, y)
  {
    assert a in {x, y} && b in {x, y} && x in {a, b} && y in {a, b};
    assert (a == x && b == y) || (a == y && b == x);
    SortedPairSymmetric(a, b);
  }

  lemma SmallRemainder(x: nat, m: nat)
    requires x < m
    ensures x % m == x
  {
  }

  lemma TellingWords(words: WordList, input: Bytes, one: Digest, other: Digest, a: Bytes, b: Bytes)
    requires forall k :: 0 <= k < 4 ==> one[k] < |words| && other[k] < |words|
    ensures var sas := ComputeSas(TellingSuite(input, one, other), words, a, b);
            var digest := if Joined(a, b) == input then one else other;
            |sas| == 4 && forall k :: 0 <= k < 4 ==> sas[k] == words[digest[k]]
  {
    var digest := if Joined(a, b) == input then one else other;
    assert TellingSuite(input, one, other).hkdf(Joined(a, b), SAS_INFO, 4) == digest;
    forall k | 0 <= k < 4 ensures words[digest[k] % |words|] == words[digest[k]] {
      SmallRemainder(digest[k], |words|);
    }
  }

  /** Each word has a byte of its own: any four words that bytes can point at are shown by some lawful suite. */
  lemma AnyWordsCanShow(words: WordList, a: Bytes, b: Bytes, d: Digest) returns (s: Suite)
    requires forall k :: 0 <= k < 4 ==> d[k] < |words|
    ensures Lawful(s) && ComputeSas(s, words, a, b) == [words[d[0]], words[d[1]], words[d[2]], words[d[3]]]
  {
    s := TellingSuite(Joined(a, b), d, d);
    TellingSuiteIsLawful(Joined(a, b), d, d);
    TellingWords(words, Joined(a, b), d, d, a, b);
  }

  /**
   * The words are bound to both keys: they are the same under every lawful suite exactly when the two pairs of keys are
   * the same.  The two words that differ stand where a byte can point.
   */
  lemma {:induction false} SasBindsBothKeys(words: WordList, a: Bytes, b: Bytes, x: Bytes, y: Bytes, one: Byte,
                                            other: Byte)
    requires |a| == |b| == |x| == |y| == 32
    requires one < |words| && other < |words| && words[one] != words[other]
    ensures (forall s: Suite :: Lawful(s) ==> ComputeSas(s, words, a, b) == ComputeSas(s, words, x, y))
       <==> {a, b} == {x, y}
  {
    SortedPairTells(a, b, x, y);
    if {a, b} != {x, y} {
      var d, e: Digest := [one, one, one, one], [other, other, other, other];
      TellingSuiteIsLawful(Joined(a, b), d, e);
      TellingWords(words, Joined(a, b), d, e, a, b);
      TellingWords(words, Joined(a, b), d, e, x, y);
      var s := TellingSuite(Joined(a, b), d, e);
      assert ComputeSas(s, words, a, b)[0] == words[one] && ComputeSas(s, words, x, y)[0] == words[other];
    } else {
      forall s: Suite ensures ComputeSas(s, words, a, b) == ComputeSas(s, words, x, y) {
        SamePairSameWords(s, words, a, b, x, y);
      }
    }
  }

  // ---------------------------------------------------------------------------
  // Padding
  // ---------------------------------------------------------------------------

  /** pad_frame; None stands for the ValueError. */
  function PadFrame(data: Bytes, block: int): Option<Bytes> {
    if block < 1 || |data| > 0xFFFF then None
    else
      var body := BigEndian(|data|, 2) + data;
      var remainder := |body| % block;
      if remainder == 0 then Some(body) else Some(body + Zeros(block - remainder))
  }

  function UnpadFrame(padded: Bytes): Option<Bytes> {
    if |padded| < 2 then None
    else
      var length := ReadBigEndian(padded[..2]);
      if 2 + length > |padded| then None else Some(padded[2..2 + length])
  }

  lemma UnpadInvertsPad(data: Bytes, block: int)
    requires block >= 1 && |data| <= 0xFFFF
    ensures PadFrame(data, block).Some?
    ensures UnpadFrame(PadFrame(data, block).value) == Some(data)
  {
    FieldSizes();
    ReadAfterPack(|data|, 2);
    var padded := PadFrame(data, block).value;
    assert padded[..2] == BigEndian(|data|, 2);
    assert padded[2..2 + |data|] == data;
  }

  /** Multiples of the block are ordered as their quotients, a whole block apart. */
  lemma {:induction false} NextMultiple(block: nat, q: nat, k: nat)
    ensures q < k ==> q * block + block <= k * block
    ensures k <= q ==> k * block <= q * block
    decreases q + k
  {
    if q > 0 && k > 0 {
      NextMultiple(block, q - 1, k - 1);
      assert q * block == (q - 1) * block + block;
      assert k * block == (k - 1) * block + block;
    } else if k > 1 {
      NextMultiple(block, q, k - 1);
      assert k * block == (k - 1) * block + block;
    }
  }

  lemma MultipleLeavesNothing(q: nat, block: nat)
    requires block >= 1
    ensures (q * block) % block == 0
  {
    var n := q * block;
    var k, r := n / block, n % block;
    assert n == k * block + r;
    NextMultiple(block, k, q);
    NextMultiple(block, q, k);
  }

  /** The padded length is the least multiple of the block that holds the frame and its prefix. */
  lemma {:induction false} PaddedLengthIsLeast(data: Bytes, block: int, k: nat)
    requires block >= 1 && |data| <= 0xFFFF
    ensures |PadFrame(data, block).value| % block == 0
    ensures |data| + 2 <= |PadFrame(data, block).value|
    ensures |data| + 2 <= k * block ==> |PadFrame(data, block).value| <= k * block
  {
    var n := |data| + 2;
    var q, remainder := n / block, n % block;
    assert n == q * block + remainder;
    if remainder > 0 {
      assert |PadFrame(data, block).value| == q * block + block == (q + 1) * block;
      MultipleLeavesNothing(q + 1, block);
      NextMultiple(block, q, k);
    }
  }

  const NONCE_SIZE := 12
  const TRAFFIC_PAD_BLOCK := 256

  /** With nonce and tag the padded frame fits the 16-bit length of a packet exactly up to 65278 bytes. */
  lemma LargestFrame(s: Suite, key: Bytes, nonce: Bytes, data: Bytes)
    requires FixedSizes(s) && |nonce| == NONCE_SIZE && |data| <= 0xFFFF
    ensures |nonce + s.seal(key, PadFrame(data, TRAFFIC_PAD_BLOCK).value, nonce)| <= 0xFFFF <==> |data| <= 65278
  {
    PaddedLengthIsLeast(data, TRAFFIC_PAD_BLOCK, 255);
  }

  // ---------------------------------------------------------------------------
  // Nonces
  // ---------------------------------------------------------------------------

  function MakeNonce(counter: nat): (r: Bytes)
    ensures |r| == NONCE_SIZE
  {
    Zeros(4) + BigEndian(counter, 8)
  }

  lemma NonceReadsBack(i: nat)
    requires i < 0x1_0000_0000_0000_0000
    ensures ReadBigEndian(MakeNonce(i)) == i
  {
    FieldSizes();
    ReadAfterPack(i, 8);
    LeadingZeros(4, BigEndian(i, 8));
  }

  lemma MakeNonceInjective(i: nat, j: nat)
    requires i < 0x1_0000_0000_0000_0000 && j < 0x1_0000_0000_0000_0000
    requires MakeNonce(i) == MakeNonce(j)
    ensures i == j
  {
    FieldSizes();
    ReadAfterPack(i, 8);
    ReadAfterPack(j, 8);
    assert MakeNonce(i)[4..] == BigEndian(i, 8) && MakeNonce(j)[4..] == BigEndian(j, 8);
  }

  // ---------------------------------------------------------------------------
  // Memory hygiene
  // ---------------------------------------------------------------------------

  /** wipe_bytes: zero a buffer in place; a missing one is ignored. */
  method WipeBytes(buffer: array?<Byte>)
    modifies buffer
    ensures buffer != null ==> AllZero(buffer[..])
  {
    if buffer != null {
      for i := 0 to buffer.Length
        invariant forall j :: 0 <= j < i ==> buffer[j] == 0
      {
        buffer[i] := 0;
      }
    }
  }
}

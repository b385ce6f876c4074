/**
 The BN254 certificate scheme "in the exponent": a group element is its discrete logarithm, a
 residue modulo the group order. A key is its secret in both groups, hashing to the curve is an
 arbitrary function of the 32-byte digest, and the pairing multiplies one exponent by the other.
 */
module Bn254 {
  import opened Common
  import opened Consensus
  import opened Wire

  /** The order of the BN254 groups. */
  const ORDER: nat := 21888242871839275222246405745257275088548364400416034343698204186575808495617

  type Element = x: int | 0 <= x < ORDER

  function Add(a: Element, b: Element): Element {
    (a + b) % ORDER
  }

  /** Scalar multiplication, and the pairing: h added to itself k times. */
  function Mul(h: Element, k: nat): Element {
    if k == 0 then 0 else Add(Mul(h, k - 1), h)
  }

  /** The generator of G2. */
  const GENERATOR: Element := 1

  lemma ModShift(x: int, k: int)
    ensures (x + ORDER * k) % ORDER == x % ORDER
  {
  }

  lemma AddReduced(x: int, y: int)
    ensures (x % ORDER + y) % ORDER == (x + y) % ORDER
  {
    var q := x / ORDER;
    assert x == x % ORDER + ORDER * q;
    ModShift(x % ORDER + y, q);
  }

  lemma AddAssociative(a: Element, b: Element, c: Element)
    ensures Add(Add(a, b), c) == Add(a, Add(b, c))
  {
    AddReduced(a + b, c);
    AddReduced(b + c, a);
  }

  /** The last of three summands can be added in the middle. */
  lemma AddSwap(a: Element, b: Element, c: Element)
    ensures Add(Add(a, b), c) == Add(Add(a, c), b)
  {
    AddReduced(a + b, c);
    AddReduced(a + c, b);
  }

  lemma {:induction false} MulOfSum(h: Element, a: nat, b: nat)
    ensures Mul(h, a + b) == Add(Mul(h, a), Mul(h, b))
  {
    if b > 0 {
      MulOfSum(h, a, b - 1);
      assert a + b - 1 == a + (b - 1);
      AddAssociative(Mul(h, a), Mul(h, b - 1), h);
    }
  }

  lemma {:induction false} MulIsProduct(h: Element, k: nat)
    ensures Mul(h, k) == (h * k) % ORDER
  {
    if k > 0 {
      MulIsProduct(h, k - 1);
      AddReduced(h * (k - 1), h);
      assert h * (k - 1) + h == h * k;
    }
  }

  /** The group has order ORDER: adding h that many times more changes nothing. */
  lemma MulWraps(h: Element, k: nat)
    ensures Mul(h, k % ORDER) == Mul(h, k)
  {
    MulIsProduct(h, k);
    MulIsProduct(h, k % ORDER);
    ProductWraps(h, k % ORDER, k / ORDER);
  }

  lemma ProductWraps(h: int, r: int, q: int)
    ensures (h * (r + ORDER * q)) % ORDER == (h * r) % ORDER
  {
    assert h * (r + ORDER * q) == h * r + ORDER * (h * q);
    ModShift(h * r, h * q);
  }

  /** Bilinearity. */
  lemma MulDistributes(h: Element, a: Element, b: Element)
    ensures Mul(h, Add(a, b)) == Add(Mul(h, a), Mul(h, b))
  {
    MulOfSum(h, a, b);
    MulWraps(h, a + b);
  }

  /** Pairing with the generator loses nothing. */
  lemma MulGenerator(a: Element)
    ensures Mul(a, GENERATOR) == a
  {
  }

  // ---- sums ----

  /** The accumulating loops: the sum of the elements from left to right. */
  function Sum(s: seq<Element>): Element {
    if s == [] then 0 else Add(Sum(s[..|s| - 1]), s[|s| - 1])
  }

  function MulAll(h: Element, s: seq<Element>): seq<Element> {
    seq(|s|, i requires 0 <= i < |s| => Mul(h, s[i]))
  }

  lemma {:induction false} SumLinear(h: Element, s: seq<Element>)
    ensures Mul(h, Sum(s)) == Sum(MulAll(h, s))
  {
    if s != [] {
      var p := s[..|s| - 1];
      SumLinear(h, p);
      MulDistributes(h, Sum(p), s[|s| - 1]);
      assert MulAll(h, s)[..|s| - 1] == MulAll(h, p);
    }
  }

  lemma {:induction false} SumRemove(s: seq<Element>, i: nat)
    requires i < |s|
    ensures Sum(s) == Add(Sum(s[..i] + s[i + 1..]), s[i])
  {
    var p, last := s[..|s| - 1], s[|s| - 1];
    if i == |s| - 1 {
      assert s[..i] + s[i + 1..] == p;
    } else {
      SumRemove(p, i);
      var rest := s[..i] + s[i + 1..];
      assert rest[..|rest| - 1] == p[..i] + p[i + 1..];
      assert rest[|rest| - 1] == last;
      var r := Sum(p[..i] + p[i + 1..]);
      AddSwap(r, s[i], last);
    }
  }

  /** The sum does not depend on the order. */
  lemma {:induction false} SumPermutation(a: seq<Element>, b: seq<Element>)
    requires multiset(a) == multiset(b)
    ensures Sum(a) == Sum(b)
  {
    if a == [] {
      assert |multiset(b)| == 0;
    } else {
      var p, x := a[..|a| - 1], a[|a| - 1];
      assert a == p + [x];
      assert x in multiset(b);
      var i :| 0 <= i < |b| && b[i] == x;
      var rest := b[..i] + b[i + 1..];
      assert b == b[..i] + [x] + b[i + 1..];
      assert multiset(b) == multiset(b[..i]) + multiset{x} + multiset(b[i + 1..]);
      assert multiset(a) == multiset(p) + multiset{x};
      assert multiset(rest) == multiset(b[..i]) + multiset(b[i + 1..]);
      assert multiset(rest) == multiset(b) - multiset{x};
      SumPermutation(p, rest);
      SumRemove(b, i);
    }
  }

  // ---- signer bitmaps ----

  function Count(bitmap: seq<bool>): nat {
    if bitmap == [] then 0 else Count(bitmap[..|bitmap| - 1]) + if bitmap[|bitmap| - 1] then 1 else 0
  }

  /** The participants whose bit is set, in participant order. */
  function Indices(bitmap: seq<bool>): (r: seq<nat>)
    ensures forall k :: 0 <= k < |r| ==> r[k] < |bitmap| && bitmap[r[k]]
    ensures |r| == Count(bitmap)
  {
    if bitmap == [] then []
    else Indices(bitmap[..|bitmap| - 1]) + if bitmap[|bitmap| - 1] then [|bitmap| - 1] else []
  }

  /** The entries of `keys` whose bit is set, in participant order; bits out of range are skipped. */
  function Select(keys: seq<Element>, bitmap: seq<bool>): seq<Element> {
    if bitmap == [] then []
    else
      var i := |bitmap| - 1;
      Select(keys, bitmap[..i]) + if bitmap[i] && i < |keys| then [keys[i]] else []
  }

  /** The bitmap of n participants with exactly the given bits set. */
  function BitmapOf(n: nat, signers: seq<nat>): seq<bool> {
    seq(n, i => i in signers)
  }

  lemma {:induction false} SelectAtIndices(keys: seq<Element>, bitmap: seq<bool>)
    requires |bitmap| <= |keys|
    ensures |Select(keys, bitmap)| == |Indices(bitmap)|
    ensures forall k :: 0 <= k < |Indices(bitmap)| ==> Select(keys, bitmap)[k] == keys[Indices(bitmap)[k]]
  {
    if bitmap != [] {
      SelectAtIndices(keys, bitmap[..|bitmap| - 1]);
    }
  }

  lemma {:induction false} NoneSet(n: nat, keys: seq<Element>)
    ensures Count(BitmapOf(n, [])) == 0 && Select(keys, BitmapOf(n, [])) == []
  {
    if n > 0 {
      NoneSet(n - 1, keys);
      assert BitmapOf(n, [])[..n - 1] == BitmapOf(n - 1, []);
    }
  }

  /** Setting one more bit adds one signer to the count and one key to the sum. */
  lemma {:induction false} SetBit(keys: seq<Element>, bitmap: seq<bool>, i: nat)
    requires |bitmap| <= |keys| && i < |bitmap| && !bitmap[i]
    ensures Count(bitmap[i := true]) == Count(bitmap) + 1
    ensures Sum(Select(keys, bitmap[i := true])) == Add(Sum(Select(keys, bitmap)), keys[i])
  {
    var n, set' := |bitmap| - 1, bitmap[i := true];
    if i == n {
      assert set'[..n] == bitmap[..n];
      assert Select(keys, set') == Select(keys, bitmap) + [keys[i]];
      assert Select(keys, set')[..|Select(keys, bitmap)|] == Select(keys, bitmap);
    } else {
      assert set'[..n] == bitmap[..n][i := true];
      SetBit(keys, bitmap[..n], i);
      if bitmap[n] {
        var s, s' := Select(keys, bitmap[..n]), Select(keys, set'[..n]);
        assert (s + [keys[n]])[..|s|] == s && (s' + [keys[n]])[..|s'|] == s';
        AddSwap(Sum(s), keys[i], keys[n]);
        assert Select(keys, bitmap) == s + [keys[n]] && Select(keys, set') == s' + [keys[n]];
      } else {
        assert Select(keys, bitmap) == Select(keys, bitmap[..n]);
        assert Select(keys, set') == Select(keys, set'[..n]);
      }
    }
  }

  predicate Distinct(s: seq<nat>) {
    forall i, j :: 0 <= i < j < |s| ==> s[i] != s[j]
  }

  function KeysAt(keys: seq<Element>, signers: seq<nat>): seq<Element>
    requires forall i :: 0 <= i < |signers| ==> signers[i] < |keys|
  {
    seq(|signers|, i requires 0 <= i < |signers| => keys[signers[i]])
  }

  /** Distinct signers in any arrival order are counted, and their keys summed, as in bitmap order. */
  lemma {:induction false} ArrivalOrder(keys: seq<Element>, signers: seq<nat>)
    requires Distinct(signers)
    requires forall i :: 0 <= i < |signers| ==> signers[i] < |keys|
    ensures Count(BitmapOf(|keys|, signers)) == |signers|
    ensures Sum(Select(keys, BitmapOf(|keys|, signers))) == Sum(KeysAt(keys, signers))
  {
    if signers == [] {
      NoneSet(|keys|, keys);
    } else {
      var p, x := signers[..|signers| - 1], signers[|signers| - 1];
      ArrivalOrder(keys, p);
      assert signers == p + [x];
      BitmapOfMore(|keys|, p, x);
      SetBit(keys, BitmapOf(|keys|, p), x);
      assert KeysAt(keys, signers)[..|p|] == KeysAt(keys, p);
    }
  }

  lemma BitmapOfMore(n: nat, signers: seq<nat>, x: nat)
    requires x < n && forall i :: 0 <= i < |signers| ==> signers[i] != x
    ensures !BitmapOf(n, signers)[x]
    ensures BitmapOf(n, signers + [x]) == BitmapOf(n, signers)[x := true]
  {
  }

  // ---- the scheme ----

  /** `signature` is None when its bytes do not decode. */
  datatype Attestation = Attestation(signer: nat, signature: Option<Element>)

  datatype Certificate = Certificate(signers: seq<bool>, signature: Element)

  /** The raw digest bytes, if there are 32 of them. */
  function ItemDigest(digest: seq<Byte>): Option<seq<Byte>> {
    if |digest| == 32 then Some(digest) else None
  }

  function Signatures(atts: seq<Attestation>): seq<Element>
    requires forall i :: 0 <= i < |atts| ==> atts[i].signature.Some?
  {
    seq(|atts|, i requires 0 <= i < |atts| => atts[i].signature.value)
  }

  function SignersOf(atts: seq<Attestation>): seq<nat> {
    seq(|atts|, i requires 0 <= i < |atts| => atts[i].signer)
  }

  /** The participants' G2 keys and, aligned with them, their G1 keys; the signer's index and secret if it signs. */
  datatype Scheme = Scheme(
    participants: seq<Element>,
    g1Keys: seq<Element>,
    signer: Option<(nat, Element)>,
    mapToCurve: seq<Byte> -> Element
  ) {
    /** What construction demands: participants there are, the key lists are aligned, the signer is one of them. */
    ghost predicate Valid() {
      && participants != []
      && g1Keys == participants
      && (signer.Some? ==> signer.value.0 < |participants| && participants[signer.value.0] == signer.value.1)
    }

    function Sign(digest: seq<Byte>): Option<Attestation> {
      if signer.None? || ItemDigest(digest).None? then None
      else Some(Attestation(signer.value.0, Some(Mul(mapToCurve(digest), signer.value.1))))
    }

    predicate VerifyDigest(key: Element, digest: seq<Byte>, signature: Element) {
      Mul(mapToCurve(digest), key) == Mul(signature, GENERATOR)
    }

    predicate VerifyAttestation(digest: seq<Byte>, a: Attestation) {
      a.signer < |participants| && a.signature.Some? && ItemDigest(digest).Some? &&
      VerifyDigest(participants[a.signer], digest, a.signature.value)
    }

    /** What `assemble` returns: refused if any attestation is malformed or there are too few. */
    function Assembled(atts: seq<Attestation>): Option<Certificate> {
      if (exists i :: 0 <= i < |atts| && (atts[i].signer >= |participants| || atts[i].signature.None?))
         || |atts| < Quorum(|participants|)
      then None
      else Some(Certificate(BitmapOf(|participants|, SignersOf(atts)), Sum(Signatures(atts))))
    }

    /** What `verify_certificate` checks, with one pairing of the aggregated key. */
    predicate Verifies(digest: seq<Byte>, c: Certificate) {
      && |c.signers| == |participants|
      && Count(c.signers) >= Quorum(|participants|)
      && ItemDigest(digest).Some?
      && VerifyDigest(Sum(Select(participants, c.signers)), digest, c.signature)
    }

    method AggregateSignatures(signatures: seq<Element>) returns (sum: Element)
      ensures sum == Sum(signatures)
    {
      sum := 0;
      for i := 0 to |signatures|
        invariant sum == Sum(signatures[..i])
      {
        assert signatures[..i + 1][..i] == signatures[..i];
        sum := Add(sum, signatures[i]);
      }
      assert signatures[..|signatures|] == signatures;
    }

    method AggregateVerify(publics: seq<Element>, digest: seq<Byte>, signature: Element) returns (ok: bool)
      ensures ok == VerifyDigest(Sum(publics), digest, signature)
    {
      var sum: Element := 0;
      for i := 0 to |publics|
        invariant sum == Sum(publics[..i])
      {
        assert publics[..i + 1][..i] == publics[..i];
        sum := Add(sum, publics[i]);
      }
      assert publics[..|publics|] == publics;
      ok := VerifyDigest(sum, digest, signature);
    }

    method Assemble(atts: seq<Attestation>) returns (c: Option<Certificate>)
      ensures c == Assembled(atts)
    {
      var signers: seq<nat> := [];
      var signatures: seq<Element> := [];
      for i := 0 to |atts|
        invariant forall j :: 0 <= j < i ==> atts[j].signer < |participants| && atts[j].signature.Some?
        invariant signers == SignersOf(atts[..i])
        invariant signatures == Signatures(atts[..i])
      {
        if atts[i].signer >= |participants| {
          return None;
        }
        if atts[i].signature.None? {
          return None;
        }
        signers := signers + [atts[i].signer];
        signatures := signatures + [atts[i].signature.value];
      }
      assert atts[..|atts|] == atts;
      if |signers| < Quorum(|participants|) {
        return None;
      }
      var signature := AggregateSignatures(signatures);
      return Some(Certificate(BitmapOf(|participants|, signers), signature));
    }

    method VerifyCertificate(digest: seq<Byte>, c: Certificate) returns (ok: bool)
      ensures ok == Verifies(digest, c)
    {
      if |c.signers| != |participants| {
        return false;
      }
      if Count(c.signers) < Quorum(|participants|) {
        return false;
      }
      if ItemDigest(digest).None? {
        return false;
      }
      var publics: seq<Element> := [];
      for i := 0 to |c.signers|
        invariant publics == Select(participants, c.signers[..i])
      {
        assert c.signers[..i + 1][..i] == c.signers[..i];
        if c.signers[i] {
          publics := publics + [participants[i]];
        }
      }
      assert c.signers[..|c.signers|] == c.signers;
      ok := AggregateVerify(publics, digest, c.signature);
    }

    function SignerG1Points(bitmap: seq<bool>): seq<Element> {
      Select(g1Keys, bitmap)
    }

    function SignerG2Keys(bitmap: seq<bool>): seq<Element> {
      Select(participants, bitmap)
    }

    // ---- what the scheme promises ----

    /** A participant's own attestation of a 32-byte digest verifies, under its own index. */
    lemma SignedVerifies(digest: seq<Byte>)
      requires Valid()
      ensures Sign(digest).Some? <==> signer.Some? && |digest| == 32
      ensures Sign(digest).Some? ==>
                VerifyAttestation(digest, Sign(digest).value) && Sign(digest).value.signer == signer.value.0
    {
    }

    lemma VerifyDigestExact(key: Element, digest: seq<Byte>, signature: Element)
      ensures VerifyDigest(key, digest, signature) <==> signature == Mul(mapToCurve(digest), key)
    {
      MulGenerator(signature);
    }

    /**
     MAIN RESULT. A certificate is accepted if and only if its bitmap has one bit per participant and
     a quorum of them set, and its signature is the sum of the set participants' own signatures.
     */
    lemma CertificateExact(digest: seq<Byte>, c: Certificate)
      ensures Verifies(digest, c) <==>
              && |c.signers| == |participants|
              && Count(c.signers) >= Quorum(|participants|)
              && |digest| == 32
              && c.signature == Sum(MulAll(mapToCurve(digest), Select(participants, c.signers)))
    {
      SumLinear(mapToCurve(digest), Select(participants, c.signers));
      VerifyDigestExact(Sum(Select(participants, c.signers)), digest, c.signature);
    }

    /**
     MAIN RESULT. For every n, digest and arrival order: a quorum of valid attestations from distinct
     signers assembles into a certificate whose bitmap is exactly those signers, and it verifies.
     */
    lemma AssembleThenVerify(digest: seq<Byte>, atts: seq<Attestation>)
      requires |atts| >= Quorum(|participants|)
      requires |digest| == 32
      requires Distinct(SignersOf(atts))
      requires forall i :: 0 <= i < |atts| ==> VerifyAttestation(digest, atts[i])
      ensures Assembled(atts).Some?
      ensures var c := Assembled(atts).value;
              && Verifies(digest, c)
              && Count(c.signers) == |atts|
              && |c.signers| == |participants|
              && forall i :: 0 <= i < |participants| ==>
                   (c.signers[i] <==> exists j :: 0 <= j < |atts| && atts[j].signer == i)
    {
      var signers := SignersOf(atts);
      ArrivalOrder(participants, signers);
      ValidSignatures(digest, atts);
      VerifyDigestExact(Sum(KeysAt(participants, signers)), digest, Sum(Signatures(atts)));
      var c := Assembled(atts).value;
      forall i | 0 <= i < |participants|
        ensures c.signers[i] <==> exists j :: 0 <= j < |atts| && atts[j].signer == i
      {
        if j :| 0 <= j < |atts| && atts[j].signer == i {
          assert signers[j] == i;
        }
        if i in signers {
          var j :| 0 <= j < |signers| && signers[j] == i;
          assert atts[j].signer == i;
        }
      }
    }

    /** The participants that are not among the signers. */
    function Missing(bitmap: seq<bool>): set<nat> {
      Absent(|participants|, SetBits(bitmap))
    }

    /** MAIN RESULT. The same in terms of who is missing: at most f = (n-1)/3 bits are clear. */
    lemma AcceptedIffFewMissing(digest: seq<Byte>, c: Certificate)
      requires participants != []
      ensures Verifies(digest, c) <==>
                && |c.signers| == |participants|
                && |Missing(c.signers)| <= MaxFaults(|participants|)
                && |digest| == 32
                && c.signature == Sum(MulAll(mapToCurve(digest), Select(participants, c.signers)))
    {
      CertificateExact(digest, c);
      if |c.signers| == |participants| {
        SetBitsCounted(c.signers);
        QuorumIffFewAbsent(|participants|, SetBits(c.signers));
      }
    }

    /** What is refused, for any attestations of distinct signers: a malformed one, or more than f missing. */
    lemma AssembledIffFewMissing(atts: seq<Attestation>)
      requires participants != [] && Distinct(SignersOf(atts))
      ensures Assembled(atts).Some? <==>
                && (forall i :: 0 <= i < |atts| ==> atts[i].signer < |participants| && atts[i].signature.Some?)
                && |Absent(|participants|, set i | 0 <= i < |atts| :: atts[i].signer)| <= MaxFaults(|participants|)
    {
      var who := set i | 0 <= i < |atts| :: atts[i].signer;
      DistinctCounted(atts);
      if forall i :: 0 <= i < |atts| ==> atts[i].signer < |participants| {
        QuorumIffFewAbsent(|participants|, who);
      }
    }

    lemma {:induction false} DistinctCounted(atts: seq<Attestation>)
      requires Distinct(SignersOf(atts))
      ensures |(set i | 0 <= i < |atts| :: atts[i].signer)| == |atts|
    {
      if atts != [] {
        var p, last := atts[..|atts| - 1], atts[|atts| - 1];
        assert SignersOf(p) == SignersOf(atts)[..|p|];
        DistinctCounted(p);
        var before, after := set i | 0 <= i < |p| :: p[i].signer, set i | 0 <= i < |atts| :: atts[i].signer;
        forall x | x in before ensures x in after {
          var i :| 0 <= i < |p| && p[i].signer == x;
          assert atts[i].signer == x;
        }
        assert last.signer in after by {
          assert atts[|p|].signer == last.signer;
        }
        forall x | x in after ensures x in before + {last.signer} {
          var i :| 0 <= i < |atts| && atts[i].signer == x;
          if i < |p| {
            assert p[i].signer == x;
          }
        }
        assert after == before + {last.signer};
        forall i | 0 <= i < |p| ensures p[i].signer != last.signer {
          assert SignersOf(atts)[i] != SignersOf(atts)[|p|];
        }
      }
    }

    /** An attestation is accepted exactly if it is the signer's own signature of a 32-byte digest. */
    lemma AttestationExact(digest: seq<Byte>, a: Attestation)
      ensures VerifyAttestation(digest, a) <==>
                a.signer < |participants| && |digest| == 32 &&
                a.signature == Some(Mul(mapToCurve(digest), participants[a.signer]))
    {
      if a.signer < |participants| && a.signature.Some? {
        VerifyDigestExact(participants[a.signer], digest, a.signature.value);
      }
    }

    /** Valid attestations sum to the signature of the summed keys. */
    lemma ValidSignatures(digest: seq<Byte>, atts: seq<Attestation>)
      requires forall i :: 0 <= i < |atts| ==>
                 VerifyAttestation(digest, atts[i]) && atts[i].signer < |participants| && atts[i].signature.Some?
      ensures Sum(Signatures(atts)) == Mul(mapToCurve(digest), Sum(KeysAt(participants, SignersOf(atts))))
    {
      var keys, h := KeysAt(participants, SignersOf(atts)), mapToCurve(digest);
      forall i | 0 <= i < |atts| ensures Signatures(atts)[i] == MulAll(h, keys)[i] {
        assert VerifyAttestation(digest, atts[i]);
        VerifyDigestExact(keys[i], digest, atts[i].signature.value);
      }
      assert Signatures(atts) == MulAll(h, keys);
      SumLinear(h, keys);
    }

    /** What participant i's own scheme instance signs. */
    function OwnAttestation(i: nat, digest: seq<Byte>): Attestation
      requires i < |participants|
    {
      Attestation(i, Some(Mul(mapToCurve(digest), participants[i])))
    }

    /**
     MAIN RESULT. Any quorum of distinct participants signing the same 32-byte digest, in any order,
     makes a certificate that verifies: whoever holds a quorum of honest acks can always certify.
     */
    lemma QuorumCertifies(signers: seq<nat>, digest: seq<Byte>)
      requires Distinct(signers) && |signers| >= Quorum(|participants|) && |digest| == 32
      requires forall k :: 0 <= k < |signers| ==> signers[k] < |participants|
      ensures var atts := seq(|signers|, k requires 0 <= k < |signers| => OwnAttestation(signers[k], digest));
              && Assembled(atts).Some? && Verifies(digest, Assembled(atts).value)
              && forall i :: 0 <= i < |participants| ==> (Assembled(atts).value.signers[i] <==> i in signers)
    {
      var atts := seq(|signers|, k requires 0 <= k < |signers| => OwnAttestation(signers[k], digest));
      forall k | 0 <= k < |atts| ensures VerifyAttestation(digest, atts[k]) {
        VerifyDigestExact(participants[signers[k]], digest, atts[k].signature.value);
      }
      assert SignersOf(atts) == signers;
      AssembleThenVerify(digest, atts);
    }

    /**
     MAIN RESULT (f silent participants never stop certification). For every n, every 32-byte digest and
     every set of at most f = (n-1)/3 participants: the signatures of all the others assemble into a
     certificate that verifies.
     */
    lemma OthersCertify(digest: seq<Byte>, faulty: set<nat>) returns (signers: seq<nat>)
      requires participants != [] && |digest| == 32 && |faulty| <= MaxFaults(|participants|)
      ensures Distinct(signers) && forall i :: i in signers <==> i in Absent(|participants|, faulty)
      ensures forall k :: 0 <= k < |signers| ==> signers[k] < |participants|
      ensures var atts := seq(|signers|, k requires 0 <= k < |signers| => OwnAttestation(signers[k], digest));
              Assembled(atts).Some? && Verifies(digest, Assembled(atts).value)
    {
      OthersAreQuorum(|participants|, faulty);
      signers := Listed(Absent(|participants|, faulty));
      forall k | 0 <= k < |signers| ensures signers[k] < |participants| {
        assert signers[k] in signers;
      }
      QuorumCertifies(signers, digest);
    }

    /** MAIN RESULT. The certificate does not depend on the order the attestations arrive in. */
    lemma AssembleOrderInvariant(a: seq<Attestation>, b: seq<Attestation>)
      requires multiset(a) == multiset(b)
      ensures Assembled(a) == Assembled(b)
    {
      assert |a| == |multiset(a)| == |multiset(b)| == |b|;
      assert forall x :: x in a <==> x in multiset(a);
      assert forall x :: x in b <==> x in multiset(b);
      if Assembled(a).Some? {
        SameMembers(a, b);
      } else if Assembled(b).Some? {
        SameMembers(b, a);
      }
    }

    lemma SameMembers(a: seq<Attestation>, b: seq<Attestation>)
      requires multiset(a) == multiset(b) && |a| == |b|
      requires forall x :: x in a <==> x in b
      requires Assembled(a).Some?
      ensures Assembled(b) == Assembled(a)
    {
      forall i | 0 <= i < |b| ensures b[i].signer < |participants| && b[i].signature.Some? {
        assert b[i] in a;
        var j :| 0 <= j < |a| && a[j] == b[i];
      }
      SignersPermuted(a, b);
      SignersPermuted(b, a);
      assert BitmapOf(|participants|, SignersOf(a)) == BitmapOf(|participants|, SignersOf(b));
      SignaturesPermuted(a, b);
      SumPermutation(Signatures(a), Signatures(b));
    }

    /** MAIN RESULT. For a verifying certificate the G1 and G2 lists name the same participants, slot by slot. */
    lemma SignerListsAligned(digest: seq<Byte>, c: Certificate)
      requires Valid() && Verifies(digest, c)
      ensures var g1, g2, who := SignerG1Points(c.signers), SignerG2Keys(c.signers), Indices(c.signers);
              && |g1| == |g2| == |who| >= Quorum(|participants|)
              && (forall k :: 0 <= k < |who| ==>
                    who[k] < |participants| && c.signers[who[k]] &&
                    g2[k] == participants[who[k]] && g1[k] == g1Keys[who[k]])
              && (forall j, k :: 0 <= j < k < |who| ==> who[j] < who[k])
    {
      SelectAtIndices(g1Keys, c.signers);
      SelectAtIndices(participants, c.signers);
      IndicesAscend(c.signers);
    }

    /**
     MAIN RESULT. For every n: any two verifying certificates, whatever they certify, carry the signature
     of a common participant outside any faulty set of at most f = (n-1)/3.
     */
    lemma CertificatesIntersect(d1: seq<Byte>, c1: Certificate, d2: seq<Byte>, c2: Certificate, faulty: set<nat>)
      returns (i: nat)
      requires Valid() && Verifies(d1, c1) && Verifies(d2, c2)
      requires |faulty| <= MaxFaults(|participants|)
      ensures i < |participants| && c1.signers[i] && c2.signers[i] && i !in faulty
    {
      SetBitsCounted(c1.signers);
      SetBitsCounted(c2.signers);
      i := QuorumIntersection(|participants|, SetBits(c1.signers), SetBits(c2.signers), faulty);
    }
  }

  lemma {:induction false} Listed(who: set<nat>) returns (list: seq<nat>)
    ensures Distinct(list) && |list| == |who| && forall i :: i in list <==> i in who
    decreases |who|
  {
    if who == {} {
      list := [];
    } else {
      var x :| x in who;
      list := Listed(who - {x});
      list := list + [x];
    }
  }

  function SetBits(bitmap: seq<bool>): set<nat> {
    set i | 0 <= i < |bitmap| && bitmap[i]
  }

  lemma {:induction false} SetBitsCounted(bitmap: seq<bool>)
    ensures |SetBits(bitmap)| == Count(bitmap)
  {
    if bitmap != [] {
      var p := bitmap[..|bitmap| - 1];
      SetBitsCounted(p);
      assert SetBits(bitmap) == SetBits(p) + if bitmap[|p|] then {|p|} else {};
    }
  }

  lemma {:induction false} IndicesAscend(bitmap: seq<bool>)
    ensures forall j, k :: 0 <= j < k < |Indices(bitmap)| ==> Indices(bitmap)[j] < Indices(bitmap)[k]
  {
    if bitmap != [] {
      IndicesAscend(bitmap[..|bitmap| - 1]);
    }
  }

  lemma SignersPermuted(a: seq<Attestation>, b: seq<Attestation>)
    requires forall x :: x in a ==> x in b
    ensures forall s :: s in SignersOf(a) ==> s in SignersOf(b)
  {
    forall s | s in SignersOf(a) ensures s in SignersOf(b) {
      var i :| 0 <= i < |a| && SignersOf(a)[i] == s;
      assert a[i] in b;
      var j :| 0 <= j < |b| && b[j] == a[i];
      assert SignersOf(b)[j] == s;
    }
  }

  lemma {:induction false} SignaturesPermuted(a: seq<Attestation>, b: seq<Attestation>)
    requires multiset(a) == multiset(b)
    requires forall i :: 0 <= i < |a| ==> a[i].signature.Some?
    requires forall i :: 0 <= i < |b| ==> b[i].signature.Some?
    ensures multiset(Signatures(a)) == multiset(Signatures(b))
  {
    if a == [] {
      assert |multiset(b)| == 0;
    } else {
      var i := LastIn(a, b);
      RemoveOne(a, b, i);
      SignaturesPermuted(a[..|a| - 1], b[..i] + b[i + 1..]);
      SignaturesWithout(a, |a| - 1);
      SignaturesWithout(b, i);
      assert a[..|a| - 1] + a[|a| - 1 + 1..] == a[..|a| - 1];
    }
  }

  lemma LastIn(a: seq<Attestation>, b: seq<Attestation>) returns (i: nat)
    requires a != [] && multiset(a) == multiset(b)
    ensures i < |b| && b[i] == a[|a| - 1]
  {
    assert a[|a| - 1] in multiset(b);
    i :| 0 <= i < |b| && b[i] == a[|a| - 1];
  }

  lemma SignaturesWithout(a: seq<Attestation>, i: nat)
    requires i < |a| && forall j :: 0 <= j < |a| ==> a[j].signature.Some?
    ensures multiset(Signatures(a)) == multiset(Signatures(a[..i] + a[i + 1..])) + multiset{a[i].signature.value}
  {
    assert a == a[..i] + [a[i]] + a[i + 1..];
    SignaturesConcat(a[..i], [a[i]]);
    SignaturesConcat(a[..i] + [a[i]], a[i + 1..]);
    SignaturesConcat(a[..i], a[i + 1..]);
    assert Signatures([a[i]]) == [a[i].signature.value];
  }

  lemma SignaturesConcat(a: seq<Attestation>, b: seq<Attestation>)
    requires forall i :: 0 <= i < |a| ==> a[i].signature.Some?
    requires forall i :: 0 <= i < |b| ==> b[i].signature.Some?
    ensures Signatures(a + b) == Signatures(a) + Signatures(b)
  {
  }

  /** A sequence without one of its elements, up to order. */
  lemma RemoveOne(a: seq<Attestation>, b: seq<Attestation>, i: nat)
    requires a != [] && multiset(a) == multiset(b) && i < |b| && b[i] == a[|a| - 1]
    ensures multiset(a[..|a| - 1]) == multiset(b[..i] + b[i + 1..])
    ensures b == b[..i] + [b[i]] + b[i + 1..]
  {
    assert b == b[..i] + [b[i]] + b[i + 1..];
    assert a == a[..|a| - 1] + [b[i]];
    assert multiset(b) == multiset(b[..i]) + multiset{b[i]} + multiset(b[i + 1..]);
    assert multiset(a) == multiset(a[..|a| - 1]) + multiset{b[i]};
    assert multiset(b[..i] + b[i + 1..]) == multiset(b[..i]) + multiset(b[i + 1..]);
    assert multiset(a[..|a| - 1]) == multiset(a) - multiset{b[i]};
    assert multiset(b[..i]) + multiset(b[i + 1..]) == multiset(b) - multiset{b[i]};
  }
}

/**
 Merkle signatures: many messages signed with one-time Lamport keys whose public keys are the
 leaves of one Merkle tree. `SignDataVec` signs a batch and pairs each signature with the
 inclusion proof of its key; `VerifyDataVecSignature` checks one message against its pair and
 a trusted root hash.
 */
module Signatures {
  import opened Wrappers
  import opened Primitives

  // ---------------------------------------------------------------------------------------
  // The hashable key wrapper
  // ---------------------------------------------------------------------------------------

  /** A Lamport public key as a Merkle leaf; `MerklePublicKey::new` is the constructor. */
  datatype MerklePublicKey = MerklePublicKey(key: PublicKey)

  /** `Into<Vec<u8>>`: the wrapped key's canonical encoding. */
  function IntoBytes(ots: OneTimeScheme, k: MerklePublicKey): (b: Bytes)
    ensures EncodingLossless(ots) ==> ots.fromBytes(b, ots.algorithmOf(k.key)) == Some(k.key)
  {
    ots.toBytes(k.key)
  }

  /** `Hashable::update_context`: the tree's digest input grows by exactly the byte conversion. */
  function UpdateContext(ots: OneTimeScheme, k: MerklePublicKey, ctx: Context): (c: Context)
    ensures c.algorithm == ctx.algorithm
    ensures c.input == ctx.input + IntoBytes(ots, k)
  {
    Update(ctx, ots.toBytes(k.key))
  }

  // ---------------------------------------------------------------------------------------
  // Results and errors
  // ---------------------------------------------------------------------------------------

  /** `MerkleSignature`: a Lamport signature and the inclusion proof of the key that made it. */
  datatype MerkleSignature = MerkleSignature(sig: Signature, proof: Proof<MerklePublicKey>)

  /** The two ways `sign_data_vec` fails. */
  datatype SigningError = ProofGenerationFailed | SigningFailed(cause: SignError)

  /** The two ways `verify_data_vec_signature` fails. */
  datatype VerifyError = InclusionProofInvalid | SignatureInvalid

  // ---------------------------------------------------------------------------------------
  // The pipelines of sign_data_vec
  // ---------------------------------------------------------------------------------------

  /** The secret values of the n leaf keys; `random(algorithm, i)` is what `PrivateKey::new` draws i-th. */
  function LeafMaterials(random: (Algorithm, nat) -> KeyMaterial, algorithm: Algorithm, n: nat): (ms: seq<KeyMaterial>)
  {
    seq(n, (i: int) requires 0 <= i => random(algorithm, i))
  }

  /**
   A key drawn for a digest algorithm (`PrivateKey::new(algorithm)`) has a public key made with
   that algorithm, which `from_vec` must be given to rebuild it.
   */
  ghost predicate KeysKeepAlgorithm(ots: OneTimeScheme, random: (Algorithm, nat) -> KeyMaterial)
  {
    forall a, i :: ots.algorithmOf(ots.publicKey(random(a, i))) == a
  }

  /** The public keys derived from the leaf keys, in the same order. */
  function PublicKeys(ots: OneTimeScheme, ms: seq<KeyMaterial>): (pks: seq<PublicKey>)
  {
    seq(|ms|, i requires 0 <= i < |ms| => ots.publicKey(ms[i]))
  }

  /** The public keys wrapped as tree leaves, in the same order. */
  function Wrap(pks: seq<PublicKey>): (leaves: seq<MerklePublicKey>)
  {
    seq(|pks|, i requires 0 <= i < |pks| => MerklePublicKey(pks[i]))
  }

  /**
   One proof per public key, collected all-or-nothing (`collect::<Option<Vec<_>>>`): there is a
   vector exactly when every key has a proof, and then proof i is the one generated for key i.
   */
  function CollectProofs(mt: MerkleScheme<MerklePublicKey>, tree: MerkleTree<MerklePublicKey>, pks: seq<PublicKey>)
    : (r: Option<seq<Proof<MerklePublicKey>>>)
    ensures r.Some? <==> forall i :: 0 <= i < |pks| ==> mt.genProof(tree, MerklePublicKey(pks[i])).Some?
    ensures r.Some? ==> |r.value| == |pks|
    ensures r.Some? ==> forall i :: 0 <= i < |pks| ==> Some(r.value[i]) == mt.genProof(tree, MerklePublicKey(pks[i]))
    decreases |pks|
  {
    if pks == [] then Some([])
    else
      match mt.genProof(tree, MerklePublicKey(pks[0]))
      case None => None
      case Some(p) =>
        match CollectProofs(mt, tree, pks[1..])
        case None => None
        case Some(ps) => Some([p] + ps)
  }

  /**
   Key i signs message i, collected with `collect::<Result<Vec<_>, _>>`: the result is a vector
   exactly when every signature succeeds, and then signature i is the one key i made.
   */
  function SignAll(ots: OneTimeScheme, ms: seq<KeyMaterial>, data: seq<Bytes>): (r: Result<seq<Signature>, SignError>)
    requires |ms| == |data|
    ensures r.Ok? <==> forall i :: 0 <= i < |data| ==> SignOnce(ots, ms[i], data[i]).Ok?
    ensures r.Ok? ==> |r.value| == |data|
    ensures r.Ok? ==> forall i :: 0 <= i < |data| ==> Ok(r.value[i]) == SignOnce(ots, ms[i], data[i])
    ensures r.Err? ==> r.error.Failed?
    decreases |data|
  {
    if data == [] then Ok([])
    else
      match SignOnce(ots, ms[0], data[0])
      case Err(e) => Err(e)
      case Ok(s) =>
        match SignAll(ots, ms[1..], data[1..])
        case Err(e) => Err(e)
        case Ok(ss) => Ok([s] + ss)
  }

  /** How many keys `SignAll` asks to sign: all of them, or up to and including the first that fails. */
  ghost function SignAttempts(ots: OneTimeScheme, ms: seq<KeyMaterial>, data: seq<Bytes>): nat
    requires |ms| == |data|
    decreases |data|
  {
    if data == [] then 0
    else if SignOnce(ots, ms[0], data[0]).Err? then 1
    else 1 + SignAttempts(ots, ms[1..], data[1..])
  }

  /**
   When keys 0..k-1 sign and key k is the first to fail, signing reports key k's failure and
   k + 1 keys have been asked; when no key fails, all of them have.
   */
  lemma {:induction false} SignAllStopsAtFirstFailure(ots: OneTimeScheme, ms: seq<KeyMaterial>, data: seq<Bytes>, k: nat)
    requires |ms| == |data| && k <= |data|
    requires forall j :: 0 <= j < k ==> SignOnce(ots, ms[j], data[j]).Ok?
    requires k < |data| ==> SignOnce(ots, ms[k], data[k]).Err?
    ensures k < |data| ==> SignAll(ots, ms, data) == Err(SignOnce(ots, ms[k], data[k]).error)
    ensures SignAttempts(ots, ms, data) == if k < |data| then k + 1 else k
    decreases k
  {
    if k > 0 {
      SignAllStopsAtFirstFailure(ots, ms[1..], data[1..], k - 1);
    }
  }

  /** Rust's `zip` followed by `collect`: pairs by position, as long as the shorter input. */
  function Zip(sigs: seq<Signature>, proofs: seq<Proof<MerklePublicKey>>): (r: seq<MerkleSignature>)
    ensures |r| == if |sigs| <= |proofs| then |sigs| else |proofs|
    ensures forall i :: 0 <= i < |r| ==> r[i] == MerkleSignature(sigs[i], proofs[i])
    decreases |sigs|
  {
    if sigs == [] || proofs == [] then []
    else [MerkleSignature(sigs[0], proofs[0])] + Zip(sigs[1..], proofs[1..])
  }

  /** The final `match`: a missing proof wins over a signing error, which wins over success. */
  function Combine(signatures: Result<seq<Signature>, SignError>, proofs: Option<seq<Proof<MerklePublicKey>>>)
    : (r: Result<seq<MerkleSignature>, SigningError>)
    ensures proofs.None? ==> r == Err(ProofGenerationFailed)
    ensures proofs.Some? && signatures.Err? ==> r == Err(SigningFailed(signatures.error))
    ensures r.Ok? <==> proofs.Some? && signatures.Ok?
    ensures r.Ok? ==> |r.value| == if |signatures.value| <= |proofs.value| then |signatures.value| else |proofs.value|
    ensures r.Ok? ==> forall i :: 0 <= i < |r.value| ==> r.value[i] == MerkleSignature(signatures.value[i], proofs.value[i])
  {
    match (signatures, proofs)
    case (_, None) => Err(ProofGenerationFailed)
    case (Err(e), _) => Err(SigningFailed(e))
    case (Ok(sigs), Some(ps)) => Ok(Zip(sigs, ps))
  }

  /** The tree `sign_data_vec` builds for a batch of n messages. */
  function LeafTree(ots: OneTimeScheme, mt: MerkleScheme<MerklePublicKey>, algorithm: Algorithm,
                    random: (Algorithm, nat) -> KeyMaterial, n: nat): MerkleTree<MerklePublicKey>
  {
    mt.fromVec(algorithm, Wrap(PublicKeys(ots, LeafMaterials(random, algorithm, n))))
  }

  /** What `sign_data_vec` returns, as a function of its inputs and of the keys drawn. */
  function SignDataVecSpec(ots: OneTimeScheme, mt: MerkleScheme<MerklePublicKey>, data: seq<Bytes>,
                           algorithm: Algorithm, random: (Algorithm, nat) -> KeyMaterial)
    : (r: Result<seq<MerkleSignature>, SigningError>)
    ensures r.Ok? ==> |r.value| == |data|
    ensures r.Err? && r.error.SigningFailed? ==> r.error.cause.Failed?
    ensures |data| == 0 ==> r == Ok([])
  {
    var ms := LeafMaterials(random, algorithm, |data|);
    var tree := LeafTree(ots, mt, algorithm, random, |data|);
    Combine(SignAll(ots, ms, data), CollectProofs(mt, tree, PublicKeys(ots, ms)))
  }

  // ---------------------------------------------------------------------------------------
  // sign_data_vec
  // ---------------------------------------------------------------------------------------

  /** The secret values of a sequence of keys. */
  function Materials(keys: seq<PrivateKey>): (ms: seq<KeyMaterial>)
  {
    seq(|keys|, i requires 0 <= i < |keys| => keys[i].material)
  }

  /** `(0..n).map(|_| PrivateKey::new(algorithm)).collect()`: n new, distinct, unused keys. */
  method NewLeafKeys(n: nat, algorithm: Algorithm, random: (Algorithm, nat) -> KeyMaterial)
    returns (keys: seq<PrivateKey>)
    ensures |keys| == n
    ensures forall i :: 0 <= i < n ==> fresh(keys[i])
    ensures forall i :: 0 <= i < n ==> keys[i].Valid() && !keys[i].used && keys[i].signed == []
    ensures Materials(keys) == LeafMaterials(random, algorithm, n)
    ensures forall i, j :: 0 <= i < j < n ==> keys[i] != keys[j]
  {
    keys := [];
    var i := 0;
    while i < n
      invariant 0 <= i <= n && |keys| == i
      invariant forall j :: 0 <= j < i ==> fresh(keys[j])
      invariant forall j :: 0 <= j < i ==> keys[j].Valid() && !keys[j].used && keys[j].signed == []
      invariant forall j :: 0 <= j < i ==> keys[j].material == random(algorithm, j)
      invariant forall j, l :: 0 <= j < l < i ==> keys[j] != keys[l]
    {
      var k := new PrivateKey(random(algorithm, i));
      keys := keys + [k];
      i := i + 1;
    }
  }

  /**
   `leaf_keys.iter_mut().zip(data).map(|(k, d)| k.sign(d)).collect()`: signs message i with
   key i, in order, and stops at the first failure. Keys 0..SignAttempts-1 have each signed
   exactly their own message; the keys after the first failure are left untouched.
   */
  method SignLeaves(ots: OneTimeScheme, keys: seq<PrivateKey>, data: seq<Bytes>)
    returns (r: Result<seq<Signature>, SignError>)
    requires |keys| == |data|
    requires forall i, j :: 0 <= i < j < |keys| ==> keys[i] != keys[j]
    requires forall i :: 0 <= i < |keys| ==> keys[i].Valid() && !keys[i].used
    modifies keys
    ensures r == SignAll(ots, Materials(keys), data)
    ensures forall i :: 0 <= i < |keys| ==> keys[i].Valid()
    ensures forall i :: 0 <= i < |keys| ==>
      keys[i].used == (i < SignAttempts(ots, Materials(keys), data)) &&
      keys[i].signed == if i < SignAttempts(ots, Materials(keys), data) then [data[i]] else []
  {
    ghost var ms := Materials(keys);
    var sigs: seq<Signature> := [];
    var i := 0;
    while i < |keys|
      invariant 0 <= i <= |keys| && |sigs| == i
      invariant forall j :: 0 <= j < i ==> Ok(sigs[j]) == SignOnce(ots, ms[j], data[j])
      invariant forall j :: 0 <= j < |keys| ==> keys[j].Valid()
      invariant forall j :: 0 <= j < i ==> keys[j].used && keys[j].signed == [data[j]]
      invariant forall j :: i <= j < |keys| ==> !keys[j].used && keys[j].signed == []
    {
      var s := keys[i].Sign(ots, data[i]);
      if s.Err? {
        SignAllStopsAtFirstFailure(ots, ms, data, i);
        return Err(s.error);
      }
      sigs := sigs + [s.value];
      i := i + 1;
    }
    SignAllStopsAtFirstFailure(ots, ms, data, |keys|);
    assert SignAll(ots, ms, data).value == sigs;
    r := Ok(sigs);
  }

  /**
   `sign_data_vec`: one new key per message, the tree over their public keys, one proof per
   key and one signature per message, combined by position.
   */
  method SignDataVec(ots: OneTimeScheme, mt: MerkleScheme<MerklePublicKey>, data: seq<Bytes>,
                     algorithm: Algorithm, random: (Algorithm, nat) -> KeyMaterial)
    returns (r: Result<seq<MerkleSignature>, SigningError>)
    ensures r == SignDataVecSpec(ots, mt, data, algorithm, random)
  {
    var leafKeys := NewLeafKeys(|data|, algorithm, random);
    var leafPubKeys := seq(|leafKeys|, i requires 0 <= i < |leafKeys| => leafKeys[i].DerivePublicKey(ots));
    assert leafPubKeys == PublicKeys(ots, Materials(leafKeys));
    var wrappedLeafs := Wrap(leafPubKeys);
    var tree := mt.fromVec(algorithm, wrappedLeafs);
    var proofsOpt := CollectProofs(mt, tree, leafPubKeys);
    var signaturesOpt := SignLeaves(ots, leafKeys, data);
    r := Combine(signaturesOpt, proofsOpt);
  }

  // ---------------------------------------------------------------------------------------
  // verify_data_vec_signature
  // ---------------------------------------------------------------------------------------

  /**
   `verify_data_vec_signature`: both checks are made, the signature under the key embedded in
   the proof; an invalid proof is reported before an invalid signature.
   */
  function VerifyDataVecSignature(ots: OneTimeScheme, mt: MerkleScheme<MerklePublicKey>, data: Bytes,
                                  signature: MerkleSignature, rootHash: Bytes): (r: Result<(), VerifyError>)
    ensures r.Ok? <==>
      mt.validate(signature.proof, rootHash) && ots.verify(signature.proof.value.key, signature.sig, data)
    ensures r == Err(InclusionProofInvalid) <==> !mt.validate(signature.proof, rootHash)
    ensures r == Err(SignatureInvalid) <==>
      mt.validate(signature.proof, rootHash) && !ots.verify(signature.proof.value.key, signature.sig, data)
  {
    var validRoot := mt.validate(signature.proof, rootHash);
    var validSig := ots.verify(signature.proof.value.key, signature.sig, data);
    if !validRoot then Err(InclusionProofInvalid)
    else if !validSig then Err(SignatureInvalid)
    else Ok(())
  }
}

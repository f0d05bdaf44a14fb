/**
 What `sign_data_vec` and `verify_data_vec_signature` guarantee together: the length and
 positional pairing of a signed batch, its all-or-nothing failure modes and their precedence,
 the shared root, and that every entry of a batch verifies. Properties that depend on the
 libraries name the library contract they assume as a precondition.
 */
module SignatureProperties {
  import opened Wrappers
  import opened Primitives
  import opened Signatures

  /** The leaf of key i of a batch. */
  function LeafKey(ots: OneTimeScheme, algorithm: Algorithm, random: (Algorithm, nat) -> KeyMaterial, i: nat)
    : MerklePublicKey
  {
    MerklePublicKey(ots.publicKey(random(algorithm, i)))
  }

  /** The proof generated for leaf i of a batch of n messages. */
  function LeafProof(ots: OneTimeScheme, mt: MerkleScheme<MerklePublicKey>, algorithm: Algorithm,
                     random: (Algorithm, nat) -> KeyMaterial, n: nat, i: nat): Option<Proof<MerklePublicKey>>
  {
    mt.genProof(LeafTree(ots, mt, algorithm, random, n), LeafKey(ots, algorithm, random, i))
  }

  /** Leaf i of the tree is the wrapped public key of key i. */
  lemma LeafTreeLeaf(ots: OneTimeScheme, algorithm: Algorithm, random: (Algorithm, nat) -> KeyMaterial, n: nat, i: nat)
    requires i < n
    ensures PublicKeys(ots, LeafMaterials(random, algorithm, n))[i] == ots.publicKey(random(algorithm, i))
    ensures Wrap(PublicKeys(ots, LeafMaterials(random, algorithm, n)))[i] == LeafKey(ots, algorithm, random, i)
  {
  }

  // ---------------------------------------------------------------------------------------
  // Outcomes of sign_data_vec
  // ---------------------------------------------------------------------------------------

  /**
   A batch is signed exactly when every leaf has a proof and every key signs its message; it
   then holds one entry per message, entry i pairing key i's signature of message i with the
   proof generated for leaf i.
   */
  lemma SignDataVecSuccess(ots: OneTimeScheme, mt: MerkleScheme<MerklePublicKey>, data: seq<Bytes>,
                           algorithm: Algorithm, random: (Algorithm, nat) -> KeyMaterial)
    ensures SignDataVecSpec(ots, mt, data, algorithm, random).Ok? <==>
      forall i :: 0 <= i < |data| ==>
        LeafProof(ots, mt, algorithm, random, |data|, i).Some? && ots.sign(random(algorithm, i), data[i]).Ok?
    ensures SignDataVecSpec(ots, mt, data, algorithm, random).Ok? ==>
      var entries := SignDataVecSpec(ots, mt, data, algorithm, random).value;
      && |entries| == |data|
      && forall i :: 0 <= i < |data| ==>
           entries[i] == MerkleSignature(ots.sign(random(algorithm, i), data[i]).value,
                                         LeafProof(ots, mt, algorithm, random, |data|, i).value)
  {
    var n := |data|;
    var ms := LeafMaterials(random, algorithm, n);
    var pks := PublicKeys(ots, ms);
    var tree := LeafTree(ots, mt, algorithm, random, n);
    forall i | 0 <= i < n
      ensures MerklePublicKey(pks[i]) == LeafKey(ots, algorithm, random, i)
      ensures SignOnce(ots, ms[i], data[i]).Ok? == ots.sign(random(algorithm, i), data[i]).Ok?
    {
      LeafTreeLeaf(ots, algorithm, random, n, i);
    }
    var sigs := SignAll(ots, ms, data);
    var proofs := CollectProofs(mt, tree, pks);
    if sigs.Ok? && proofs.Some? {
      forall i | 0 <= i < n
        ensures sigs.value[i] == ots.sign(random(algorithm, i), data[i]).value
      {
        assert Ok(sigs.value[i]) == SignOnce(ots, ms[i], data[i]);
      }
    }
  }

  /** A missing proof for any leaf fails the whole batch, whatever happens to the signatures. */
  lemma SignDataVecProofFailure(ots: OneTimeScheme, mt: MerkleScheme<MerklePublicKey>, data: seq<Bytes>,
                                algorithm: Algorithm, random: (Algorithm, nat) -> KeyMaterial, i: nat)
    requires i < |data|
    requires LeafProof(ots, mt, algorithm, random, |data|, i).None?
    ensures SignDataVecSpec(ots, mt, data, algorithm, random) == Err(ProofGenerationFailed)
  {
    LeafTreeLeaf(ots, algorithm, random, |data|, i);
  }

  /**
   When every leaf has a proof, keys 0..k-1 sign and key k is the first that fails, the batch
   fails with key k's failure.
   */
  lemma SignDataVecSigningFailure(ots: OneTimeScheme, mt: MerkleScheme<MerklePublicKey>, data: seq<Bytes>,
                                  algorithm: Algorithm, random: (Algorithm, nat) -> KeyMaterial, k: nat)
    requires k < |data|
    requires forall i :: 0 <= i < |data| ==> LeafProof(ots, mt, algorithm, random, |data|, i).Some?
    requires forall j :: 0 <= j < k ==> ots.sign(random(algorithm, j), data[j]).Ok?
    requires ots.sign(random(algorithm, k), data[k]).Err?
    ensures SignDataVecSpec(ots, mt, data, algorithm, random)
         == Err(SigningFailed(Failed(ots.sign(random(algorithm, k), data[k]).error)))
  {
    var n := |data|;
    var ms := LeafMaterials(random, algorithm, n);
    var pks := PublicKeys(ots, ms);
    forall i | 0 <= i < n
      ensures mt.genProof(LeafTree(ots, mt, algorithm, random, n), MerklePublicKey(pks[i])).Some?
    {
      LeafTreeLeaf(ots, algorithm, random, n, i);
      assert LeafProof(ots, mt, algorithm, random, n, i).Some?;
    }
    assert CollectProofs(mt, LeafTree(ots, mt, algorithm, random, n), pks).Some?;
    forall j | 0 <= j < k
      ensures SignOnce(ots, ms[j], data[j]).Ok?
    {
      assert ms[j] == random(algorithm, j);
    }
    SignAllStopsAtFirstFailure(ots, ms, data, k);
  }

  /** Under the library contracts a batch never fails: every leaf has a proof and every fresh key signs. */
  lemma SignDataVecSucceeds(ots: OneTimeScheme, mt: MerkleScheme<MerklePublicKey>, data: seq<Bytes>,
                            algorithm: Algorithm, random: (Algorithm, nat) -> KeyMaterial)
    requires FreshKeysSign(ots) && LeavesHaveProofs(mt)
    ensures SignDataVecSpec(ots, mt, data, algorithm, random).Ok?
  {
    var n := |data|;
    var leaves := Wrap(PublicKeys(ots, LeafMaterials(random, algorithm, n)));
    forall i | 0 <= i < n
      ensures LeafProof(ots, mt, algorithm, random, n, i).Some?
    {
      LeafTreeLeaf(ots, algorithm, random, n, i);
      assert LeafKey(ots, algorithm, random, i) in leaves;
    }
    SignDataVecSuccess(ots, mt, data, algorithm, random);
  }

  // ---------------------------------------------------------------------------------------
  // Entries of a signed batch
  // ---------------------------------------------------------------------------------------

  /**
   Entry i of a signed batch carries, as its proof's leaf, the public key of key i, and every
   entry carries the root hash of the one tree built for the batch.
   */
  lemma SignDataVecBindsPositions(ots: OneTimeScheme, mt: MerkleScheme<MerklePublicKey>, data: seq<Bytes>,
                                  algorithm: Algorithm, random: (Algorithm, nat) -> KeyMaterial)
    requires ProofsAttestLeaf(mt)
    requires SignDataVecSpec(ots, mt, data, algorithm, random).Ok?
    ensures var entries := SignDataVecSpec(ots, mt, data, algorithm, random).value;
      && |entries| == |data|
      && forall i :: 0 <= i < |data| ==>
           && entries[i].proof.value == LeafKey(ots, algorithm, random, i)
           && entries[i].proof.rootHash == mt.rootHash(LeafTree(ots, mt, algorithm, random, |data|))
  {
  }

  /** All entries of a signed batch carry one and the same root hash. */
  lemma SignDataVecSharedRoot(ots: OneTimeScheme, mt: MerkleScheme<MerklePublicKey>, data: seq<Bytes>,
                              algorithm: Algorithm, random: (Algorithm, nat) -> KeyMaterial)
    requires ProofsAttestLeaf(mt)
    requires SignDataVecSpec(ots, mt, data, algorithm, random).Ok?
    ensures var entries := SignDataVecSpec(ots, mt, data, algorithm, random).value;
      forall i, j :: 0 <= i < |entries| && 0 <= j < |entries| ==> entries[i].proof.rootHash == entries[j].proof.rootHash
  {
  }

  /**
   Sign then verify: every entry of a signed batch verifies its own message against the root
   hash taken from any entry of the batch.
   */
  lemma SignThenVerify(ots: OneTimeScheme, mt: MerkleScheme<MerklePublicKey>, data: seq<Bytes>,
                       algorithm: Algorithm, random: (Algorithm, nat) -> KeyMaterial)
    requires SignaturesVerify(ots) && ProofsAttestLeaf(mt)
    requires SignDataVecSpec(ots, mt, data, algorithm, random).Ok?
    ensures var entries := SignDataVecSpec(ots, mt, data, algorithm, random).value;
      forall i, j :: 0 <= i < |entries| && 0 <= j < |entries| ==>
        VerifyDataVecSignature(ots, mt, data[i], entries[i], entries[j].proof.rootHash) == Ok(())
  {
    var n := |data|;
    var entries := SignDataVecSpec(ots, mt, data, algorithm, random).value;
    var tree := LeafTree(ots, mt, algorithm, random, n);
    SignDataVecSuccess(ots, mt, data, algorithm, random);
    SignDataVecBindsPositions(ots, mt, data, algorithm, random);
    forall i, j | 0 <= i < n && 0 <= j < n
      ensures VerifyDataVecSignature(ots, mt, data[i], entries[i], entries[j].proof.rootHash) == Ok(())
    {
      var p := LeafProof(ots, mt, algorithm, random, n, i).value;
      assert mt.validate(p, mt.rootHash(tree));
      var s := ots.sign(random(algorithm, i), data[i]);
      assert ots.verify(ots.publicKey(random(algorithm, i)), s.value, data[i]);
    }
  }

  // ---------------------------------------------------------------------------------------
  // verify_data_vec_signature
  // ---------------------------------------------------------------------------------------

  /** Checked against any root hash other than the one its proof carries, an entry is refused for its proof. */
  lemma VerifyRejectsForeignRoot(ots: OneTimeScheme, mt: MerkleScheme<MerklePublicKey>, data: Bytes,
                                 signature: MerkleSignature, rootHash: Bytes)
    requires ValidateChecksRoot(mt)
    requires rootHash != signature.proof.rootHash
    ensures VerifyDataVecSignature(ots, mt, data, signature, rootHash) == Err(InclusionProofInvalid)
  {
  }

  /**
   A verifier in another process rebuilds the proof's leaf from its byte conversion with its
   own digest algorithm (`PublicKey::from_vec(bytes, algorithm)`).
   */
  function Rebuild(ots: OneTimeScheme, algorithm: Algorithm, signature: MerkleSignature): Option<MerkleSignature>
  {
    match ots.fromBytes(IntoBytes(ots, signature.proof.value), algorithm)
    case None => None
    case Some(pk) => Some(signature.(proof := signature.proof.(value := MerklePublicKey(pk))))
  }

  /**
   When the verifier uses the algorithm the key was made with, the lossless encoding gives back
   the same entry, which verifies exactly as the original one does.
   */
  lemma RebuiltEntryVerifiesAlike(ots: OneTimeScheme, mt: MerkleScheme<MerklePublicKey>, algorithm: Algorithm,
                                  data: Bytes, signature: MerkleSignature, rootHash: Bytes)
    requires EncodingLossless(ots)
    requires ots.algorithmOf(signature.proof.value.key) == algorithm
    ensures Rebuild(ots, algorithm, signature) == Some(signature)
    ensures VerifyDataVecSignature(ots, mt, data, Rebuild(ots, algorithm, signature).value, rootHash)
         == VerifyDataVecSignature(ots, mt, data, signature, rootHash)
  {
  }

  /**
   The serialization round trip of a signed batch: entry i, its leaf rebuilt from bytes with the
   batch's own digest algorithm, is unchanged and verifies message i against the batch's root.
   */
  lemma SignRebuildVerify(ots: OneTimeScheme, mt: MerkleScheme<MerklePublicKey>, data: seq<Bytes>,
                          algorithm: Algorithm, random: (Algorithm, nat) -> KeyMaterial)
    requires SignaturesVerify(ots) && EncodingLossless(ots) && KeysKeepAlgorithm(ots, random)
    requires ProofsAttestLeaf(mt)
    requires SignDataVecSpec(ots, mt, data, algorithm, random).Ok?
    ensures var entries := SignDataVecSpec(ots, mt, data, algorithm, random).value;
      forall i, j :: 0 <= i < |entries| && 0 <= j < |entries| ==>
        && Rebuild(ots, algorithm, entries[i]) == Some(entries[i])
        && VerifyDataVecSignature(ots, mt, data[i], Rebuild(ots, algorithm, entries[i]).value,
                                  entries[j].proof.rootHash) == Ok(())
  {
    var entries := SignDataVecSpec(ots, mt, data, algorithm, random).value;
    SignDataVecBindsPositions(ots, mt, data, algorithm, random);
    SignThenVerify(ots, mt, data, algorithm, random);
    forall i, j | 0 <= i < |entries| && 0 <= j < |entries|
      ensures Rebuild(ots, algorithm, entries[i]) == Some(entries[i])
      ensures VerifyDataVecSignature(ots, mt, data[i], Rebuild(ots, algorithm, entries[i]).value,
                                     entries[j].proof.rootHash) == Ok(())
    {
      RebuiltEntryVerifiesAlike(ots, mt, algorithm, data[i], entries[i], entries[j].proof.rootHash);
    }
  }

  // ---------------------------------------------------------------------------------------
  // The hashable key wrapper
  // ---------------------------------------------------------------------------------------

  /** Two wrapped keys of one algorithm have the same byte conversion exactly when they are the same key. */
  lemma IntoBytesInjective(ots: OneTimeScheme, a: MerklePublicKey, b: MerklePublicKey)
    requires EncodingLossless(ots)
    requires ots.algorithmOf(a.key) == ots.algorithmOf(b.key)
    ensures IntoBytes(ots, a) == IntoBytes(ots, b) <==> a == b
  {
  }

  /** Distinct keys of one algorithm feed distinct input into the same digest context. */
  lemma UpdateContextInjective(ots: OneTimeScheme, a: MerklePublicKey, b: MerklePublicKey, ctx: Context)
    requires EncodingLossless(ots)
    requires ots.algorithmOf(a.key) == ots.algorithmOf(b.key)
    ensures UpdateContext(ots, a, ctx) == UpdateContext(ots, b, ctx) <==> a == b
  {
    var n := |ctx.input|;
    if UpdateContext(ots, a, ctx) == UpdateContext(ots, b, ctx) {
      assert (ctx.input + IntoBytes(ots, a))[n..] == IntoBytes(ots, a);
      assert (ctx.input + IntoBytes(ots, b))[n..] == IntoBytes(ots, b);
      IntoBytesInjective(ots, a, b);
    }
  }
}

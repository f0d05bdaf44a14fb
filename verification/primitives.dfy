/**
 The three libraries the signature scheme is built from, seen only through their interfaces:
 Lamport one-time signatures (lamport_sigs), Merkle trees (merkle) and digest contexts (ring).
 Their algorithms are not modelled. Each library is a record of total functions over abstract
 types; what the signature code relies on is stated as ghost predicates over such a record,
 which the lemmas that need them take as preconditions.
 */
module Primitives {
  import opened Wrappers

  type Bytes = seq<bv8>

  /** A digest algorithm selector (ring's `&'static Algorithm`). */
  type Algorithm(==,!new)

  /** The random secret values of one Lamport private key. */
  type KeyMaterial(==,!new)

  /** A Lamport public key. */
  type PublicKey(==,!new)

  /** A Lamport signature (`LamportSignatureData`). */
  type Signature(==,!new)

  /** Why the Lamport primitive refused to sign. */
  type SignCause(==,!new)

  /** A Merkle tree over leaves of type T. */
  type MerkleTree(!new)<T>

  /** The sibling-hash path of an inclusion proof (the merkle crate's `Lemma`). */
  type MerklePath(==,!new)

  // ---------------------------------------------------------------------------------------
  // Lamport one-time signatures
  // ---------------------------------------------------------------------------------------

  /**
   The Lamport primitive: key derivation, signing, verification, the canonical encoding
   (`to_bytes`), its inverse for a given digest algorithm (`PublicKey::from_vec(bytes, algorithm)`)
   and the algorithm a public key was made with.
   */
  datatype OneTimeScheme = OneTimeScheme(
    publicKey: KeyMaterial -> PublicKey,
    sign: (KeyMaterial, Bytes) -> Result<Signature, SignCause>,
    verify: (PublicKey, Signature, Bytes) -> bool,
    toBytes: PublicKey -> Bytes,
    fromBytes: (Bytes, Algorithm) -> Option<PublicKey>,
    algorithmOf: PublicKey -> Algorithm)

  /** A signature the primitive produces verifies under the matching public key. */
  ghost predicate SignaturesVerify(ots: OneTimeScheme)
  {
    forall m, data :: ots.sign(m, data).Ok? ==> ots.verify(ots.publicKey(m), ots.sign(m, data).value, data)
  }

  /** Signing with a key that has not been used yet always yields a signature. */
  ghost predicate FreshKeysSign(ots: OneTimeScheme)
  {
    forall m, data :: ots.sign(m, data).Ok?
  }

  /**
   `to_bytes` is the key's own canonical form: `from_vec`, given the algorithm the key was made
   with, rebuilds the key from it. Nothing is assumed for any other algorithm.
   */
  ghost predicate EncodingLossless(ots: OneTimeScheme)
  {
    forall pk :: ots.fromBytes(ots.toBytes(pk), ots.algorithmOf(pk)) == Some(pk)
  }

  /** The errors a one-time key reports when asked to sign. */
  datatype SignError = KeyReused | Failed(cause: SignCause)

  /** What signing `data` with a key that has never signed before returns. */
  function SignOnce(ots: OneTimeScheme, m: KeyMaterial, data: Bytes): (r: Result<Signature, SignError>)
    ensures r.Ok? <==> ots.sign(m, data).Ok?
    ensures r.Ok? ==> r.value == ots.sign(m, data).value
    ensures r != Err(KeyReused)
    ensures r.Err? ==> r.error == Failed(ots.sign(m, data).error)
  {
    match ots.sign(m, data)
    case Ok(s) => Ok(s)
    case Err(c) => Err(Failed(c))
  }

  /**
   A Lamport private key. Its secret values never change; signing consumes its one-time
   budget (`used`). The ghost history `signed` records every message the key was asked to
   sign while it still had its budget.
   */
  class PrivateKey {
    const material: KeyMaterial
    var used: bool
    ghost var signed: seq<Bytes>

    /** A key has signed at most one message, and it is used exactly when it has signed one. */
    ghost predicate Valid()
      reads this
    {
      |signed| <= 1 && (used <==> signed != [])
    }

    /** `PrivateKey::new`: the random secret values are supplied by the caller. */
    constructor (material: KeyMaterial)
      ensures Valid() && this.material == material
      ensures !used && signed == []
    {
      this.material := material;
      used := false;
      signed := [];
    }

    /** `public_key()`: derived from the secret values alone. */
    function DerivePublicKey(ots: OneTimeScheme): PublicKey
    {
      ots.publicKey(material)
    }

    /** `sign`: refuses a second use; a first use spends the key whatever the primitive answers. */
    method Sign(ots: OneTimeScheme, data: Bytes) returns (r: Result<Signature, SignError>)
      requires Valid()
      modifies this
      ensures Valid() && used
      ensures old(used) ==> r == Err(KeyReused) && signed == old(signed)
      ensures !old(used) ==> r == SignOnce(ots, material, data) && signed == [data]
    {
      if used {
        r := Err(KeyReused);
      } else {
        r := SignOnce(ots, material, data);
        used := true;
        signed := [data];
      }
    }
  }

  // ---------------------------------------------------------------------------------------
  // Merkle trees
  // ---------------------------------------------------------------------------------------

  /** An inclusion proof for one leaf: the algorithm, the path, the root hash and the leaf itself. */
  datatype Proof<T> = Proof(algorithm: Algorithm, path: MerklePath, rootHash: Bytes, value: T)

  /** The Merkle primitive: tree construction, root hash, proof generation and validation. */
  datatype MerkleScheme<!T> = MerkleScheme(
    fromVec: (Algorithm, seq<T>) -> MerkleTree<T>,
    rootHash: MerkleTree<T> -> Bytes,
    genProof: (MerkleTree<T>, T) -> Option<Proof<T>>,
    validate: (Proof<T>, Bytes) -> bool)

  /** A generated proof attests the requested leaf, carries its tree's root and validates against it. */
  ghost predicate ProofsAttestLeaf<T(!new)>(mt: MerkleScheme<T>)
  {
    forall t, v :: mt.genProof(t, v).Some? ==>
      && mt.genProof(t, v).value.value == v
      && mt.genProof(t, v).value.rootHash == mt.rootHash(t)
      && mt.validate(mt.genProof(t, v).value, mt.rootHash(t))
  }

  /** Every leaf of a tree built by `from_vec` has a proof in that tree. */
  ghost predicate LeavesHaveProofs<T(!new)>(mt: MerkleScheme<T>)
  {
    forall a, leaves, v :: v in leaves ==> mt.genProof(mt.fromVec(a, leaves), v).Some?
  }

  /** A proof validates only against the root hash it carries. */
  ghost predicate ValidateChecksRoot<T(!new)>(mt: MerkleScheme<T>)
  {
    forall p, h :: mt.validate(p, h) ==> p.rootHash == h
  }

  // ---------------------------------------------------------------------------------------
  // Digest contexts
  // ---------------------------------------------------------------------------------------

  /** ring's running digest `Context`, observed through the bytes fed into it so far. */
  datatype Context = Context(algorithm: Algorithm, input: Bytes)

  /** `Context::update`: appends the bytes to the digest input. */
  function Update(ctx: Context, bytes: Bytes): Context
  {
    Context(ctx.algorithm, ctx.input + bytes)
  }
}

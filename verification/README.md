# Merkle signatures over Lamport one-time keys

This project models the composition layer of `merkle_sigs` (`src/signatures.rs`) and proves properties of it.
`sign_data_vec` signs a batch of messages. It makes one fresh Lamport private key per message and builds one Merkle tree over the public keys. It returns, for each message, the Lamport signature paired with the inclusion proof of the key that made it. `verify_data_vec_signature` checks one message against such a pair and a trusted root hash.

The three libraries underneath are not modelled algorithmically: `lamport_sigs`, `merkle` and ring's digest `Context`.
Module `Primitives` gives them abstract types (`PublicKey`, `Signature`, `MerkleTree`, ...) and records of total functions (`OneTimeScheme`, `MerkleScheme`).
The behaviour the signature code relies on is stated as ghost predicates over those records. Each lemma that needs one of them takes it as a precondition:

- `SignaturesVerify`: a signature the Lamport primitive produces verifies under the matching public key.
- `FreshKeysSign`: a key that has not signed yet always produces a signature.
- `EncodingLossless`: `PublicKey::from_vec`, given the digest algorithm the key was made with, rebuilds the key from its `to_bytes` form. Nothing is assumed for any other algorithm.
- `ProofsAttestLeaf`: a proof from `gen_proof` has the requested leaf as its `value`, carries the tree's root hash and validates against it.
- `LeavesHaveProofs`: every leaf of a tree built by `from_vec` has a proof.
- `ValidateChecksRoot`: a proof validates only against the root hash it carries.
- `KeysKeepAlgorithm` (in `Signatures`): a key drawn by `PrivateKey::new(algorithm)` has a public key made with that algorithm.

The Lamport private key is a class, `Primitives.PrivateKey`. Its `used` flag is spent by `Sign`, and a ghost history records the message it signed. `DerivePublicKey` is its `public_key()`.
ring's `Context::update` is `Primitives.Update`, which appends bytes to the digest input.
Module `Signatures` holds the code of `src/signatures.rs`:

- the key wrapper `MerklePublicKey` (its `new` is the datatype constructor), `IntoBytes` and `UpdateContext`;
- the pipelines of `sign_data_vec` as functions: `PublicKeys` and `Wrap` (the public keys and the leaf vector, src/signatures.rs:60-69), `LeafTree`, `CollectProofs`, `SignAll`, `Zip` and `Combine`, put together in `SignDataVecSpec`;
- its two loops as methods with invariants: `NewLeafKeys` and `SignLeaves`;
- the whole call, `SignDataVec`, proved equal to the function `SignDataVecSpec`;
- `VerifyDataVecSignature`.

Module `SignatureProperties` proves what a signed batch guarantees.
Messages are modelled by their byte view: `as_ref()` in signing, `into()` in verification.

## Model

| member | source | states |
|---|---|---|
| `Signatures.UpdateContext` | src/signatures.rs:21-25 | feeding a wrapped key into a digest context appends exactly its byte conversion `IntoBytes` (the same `to_bytes` encoding) and keeps the algorithm |
| `Signatures.IntoBytes` | src/signatures.rs:27-31 | the byte conversion of a wrapped key is the key's `to_bytes` form, which `from_vec` with the key's own algorithm turns back into the key |
| `SignatureProperties.IntoBytesInjective` | src/signatures.rs:27-31 | with a lossless encoding, two wrapped keys of the same algorithm have equal byte conversions if and only if they are the same key |
| `SignatureProperties.UpdateContextInjective` | src/signatures.rs:21-31 | with a lossless encoding, two keys of the same algorithm feed the same context to the same state if and only if they are the same key |
| `Primitives.PrivateKey.constructor` | src/signatures.rs:54-56 | a new key holds the drawn secret values, is unused and has signed nothing |
| `Primitives.PrivateKey.Sign` | src/signatures.rs:78-82 | a used key refuses with `KeyReused` and keeps its history; an unused key returns the primitive's answer and records exactly that message; afterwards the key is used and has signed at most one message |
| `Primitives.SignOnce` | src/signatures.rs:81 | the first use of a key succeeds exactly when the primitive signs and then returns the primitive's signature; otherwise it returns the primitive's cause as `Failed`, never reuse |
| `Signatures.NewLeafKeys` | src/signatures.rs:54-58 | returns exactly n new, pairwise distinct, unused keys, key i holding the i-th draw of `PrivateKey::new` |
| `Signatures.CollectProofs` | src/signatures.rs:73-76 | all-or-nothing: a vector exactly when every public key has a proof, and then one proof per key with proof i the one generated for key i |
| `Signatures.SignAll` | src/signatures.rs:78-82 | a vector exactly when every key signs its message, and then one signature per message with signature i made by key i over message i; an error is always a primitive failure, never reuse |
| `Signatures.SignAllStopsAtFirstFailure` | src/signatures.rs:78-82 | when key k is the first to fail, the result is key k's failure and exactly k + 1 keys were asked to sign; with no failure, all n were asked |
| `Signatures.SignLeaves` | src/signatures.rs:78-82 | signs in order and stops at the first failure, returning `SignAll`; keys up to and including the first failure were each asked once, with their own message; later keys are unused |
| `Signatures.Zip` | src/signatures.rs:94 | pairs signature i with proof i, and is as long as the shorter input |
| `Signatures.Combine` | src/signatures.rs:84-95 | a missing proof wins: it gives the proof-generation error whatever the signatures; with proofs present, a signing error is passed on as `SigningFailed`; `Ok` exactly when both succeeded, and then entry i pairs signature i with proof i |
| `Signatures.SignDataVecSpec` | src/signatures.rs:47-96 | a successful batch has one entry per message, an empty batch gives an empty vector, and a signing error always carries a primitive failure, never key reuse |
| `Signatures.SignDataVec` | src/signatures.rs:47-96 | the method (key loop, public keys, tree, proofs, signing loop, final match) returns exactly `SignDataVecSpec` of its inputs and the drawn keys |
| `SignatureProperties.LeafTreeLeaf` | src/signatures.rs:60-71 | leaf i of the vector the tree is built from is the wrapped public key of private key i |
| `SignatureProperties.SignDataVecSuccess` | src/signatures.rs:84-94 | `Ok` if and only if every leaf has a proof and every key signs; then exactly one entry per message, entry i = (key i's signature of message i, proof for leaf i) |
| `SignatureProperties.SignDataVecProofFailure` | src/signatures.rs:73-87 | if any leaf's proof is missing, the result is the proof-generation error, whatever the signing outcome |
| `SignatureProperties.SignDataVecSigningFailure` | src/signatures.rs:78-92 | with every proof present and key k the first to fail, the result is the signing error carrying key k's failure |
| `SignatureProperties.SignDataVecSucceeds` | src/signatures.rs:54-94 | under the library contracts, signing a batch always succeeds |
| `SignatureProperties.SignDataVecBindsPositions` | src/signatures.rs:60-94 | in a signed batch, entry i's proof attests the public key of key i and carries the root hash of the one tree built for the batch |
| `SignatureProperties.SignDataVecSharedRoot` | src/tests.rs:26-39 | all entries of a signed batch carry the same root hash |
| `SignatureProperties.SignThenVerify` | src/tests.rs:11-24 | every entry of a signed batch verifies its own message against the root hash taken from any entry |
| `Signatures.VerifyDataVecSignature` | src/signatures.rs:103-127 | `Ok` if and only if the proof validates against the given root and the key embedded in the proof verifies the signature over the data; an invalid proof is reported as `InclusionProofInvalid` even when the signature is bad too; `SignatureInvalid` is reported only when the proof is valid |
| `SignatureProperties.VerifyRejectsForeignRoot` | src/signatures.rs:111-119 | checked against a root hash other than the one its proof carries, an entry is refused with `InclusionProofInvalid` |
| `SignatureProperties.RebuiltEntryVerifiesAlike` | src/tests.rs:58-81 | when the verifier passes the algorithm the key was made with, rebuilding the proof's leaf from its byte conversion gives back the same entry, which verifies exactly as the original does |
| `SignatureProperties.SignRebuildVerify` | src/tests.rs:58-81 | with keys that keep their algorithm and a lossless encoding, every entry of a signed batch, its leaf rebuilt from bytes with the batch's algorithm, is unchanged and verifies its own message against the root hash of any entry |

## Left out

- Lamport key generation, signing and verification (`lamport_sigs`): cryptographic, foreign code. They are abstract functions with the contracts listed above.
- Merkle tree hashing, `from_vec`, the search in `gen_proof`, and `validate` (`merkle`): foreign code. They are abstract functions with the contracts listed above. The model does not tie the tree's hashes to the leaves' `update_context` input.
- ring's `Context::update`: modelled only as appending bytes to the digest input.
- `PublicKey::from_vec` with an algorithm other than the key's own: no contract, so the rebuild and injectivity lemmas hold for keys of one algorithm.
- The randomness of `PrivateKey::new`: the secret values of key i are a parameter, `random(algorithm, i)`.
- Distinctness of the leaf public keys (`src/tests.rs:42-56`): it holds only with high probability, so it is not proved.
- Unforgeability of the Lamport scheme and collision resistance of the tree: needed for the claims that a swapped message, a flipped signature bit or a flipped path bit is rejected. Only the wrong-root case is proved (`VerifyRejectsForeignRoot`).
- Proof serialisation (`write_to_bytes`, `parse_from_bytes`): its wire format belongs to the merkle crate. Only the rebuild of the leaf through `PublicKey::from_vec` is modelled.
- `SignThenVerify`, `SignRebuildVerify`: a message is one byte view in both calls. Signing reads `as_ref()` and verification reads `into()`; the model takes both to give the same bytes, as they do for the `&str` and `Vec<u8>` the tests use. For a general message type the two traits may disagree, and these lemmas then say nothing.
- The text of error messages and `io::Error` kinds: errors are modelled as distinct kinds. `SigningError` is `ProofGenerationFailed` or `SigningFailed(cause)`; `VerifyError` is `InclusionProofInvalid` or `SignatureInvalid`.
- There is no tree-construction error. The code reports only the two signing errors above, and the model follows the code.
- Empty input: the model's `from_vec` is total, so an empty batch signs to an empty vector, as both collects in the source run over no keys. A panic of the tree library on an empty leaf vector, if it has one, is not part of this model.
- Evaluation order in `verify_data_vec_signature`: both checks have no side effects, so computing both before deciding is not observable. The function still computes both first.
- `SignDataVec` drops its keys, as the source does. The one-use-per-key facts are therefore stated on `SignLeaves`, which it calls.
- The algorithm field of a proof has no contract.
- The unused alias `MerkleSignedData` and `src/lib.rs`, which holds only re-exports.

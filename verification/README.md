# A verified model of sealed agreements

The repository keeps bilateral agreements whose price may be sealed under a Paillier key, stores them
crash-safely as signed commands, hashes their histories with Keccak, and batches them under a proof of
work. This project restates that logic in Dafny 4.11 and proves what it is for. `dafny verify
dfyconfig.toml` checks everything.

## The modules

| files | what they model |
|---|---|
| NumberTheory, Fermat | congruences, inverses, Fermat's little theorem, the two expansions modulo n^2 |
| Paillier, Soundness, BigEndian, KeyCheckpoint | keys, encryption, addition, decryption, the equality proof and what it excludes, and a key's stored form |
| Ledger | the encrypted ledger: locks, aggregate, blinding product, release, proof, stored form |
| Agreement (module Kernel), Chronicle, KernelRuns, Custody, Checkpoint | the agreement state machine as a specification and as a mutable class, all its runs, what receipts tell, who may move it and when, and its private checkpoint |
| Contract (module Contracts), Store, Operations, StoreRuns, StoreLaws | signed commands, replay of the operation index, the idempotent decision, the disk with crashes, and what a stored contract proves about its parties |
| KeccakSpec, KeccakBits, LaneLaws, LaneWords, RoundConstants, KeccakF, KeccakAsm | Keccak-f[1600] of FIPS 202, its steps bit by bit, lanes as machine words, the portable in-place permutation and the amd64 one |
| SpongeSpec, Sponge | the sponge and padding of FIPS 202 and the streaming hash state |
| Binding, HashText, ReceiptTree, BatchSeal, BatchRuns, Pow | what receipt hashes, the Merkle root, the batch root and the proof of work commit to |
| Workflow, Council, CouncilRuns | the decision tree's walk, and the multi-party council with its runs |

## The main results

* **Settlement.** For every run of an agreement, the seller's sealed acceptance succeeds exactly when the
  sealed partials sum to the amount (`KernelRuns.SealedAcceptIff`), for every hash function and every
  nonzero draw of the prover. Nothing about the scheme is assumed: Fermat's little theorem, the order of a
  unit modulo n and both binomial expansions are proved, and the only fact about a key is that it comes
  from two primes of the size key generation draws. Against any prover, honest or not, a commitment to a
  wrong amount can be answered under at most one digest of the hash (`Soundness.WrongAmountOneDigest`).
* **Custody.** The receipts of every run tell its state, and each was allowed, by its actor and at its time,
  by those before it (`Custody.RunTold`); so locked value goes to the seller only by the seller's acceptance
  and back to the buyer only by the seller's rejection or at or after the deadline. Every call succeeds
  exactly under a stated condition, and every error names a fault that is there. A stored contract that
  ended did so by commands that the right parties signed, in order and in time (`StoreLaws.StoredEnding`),
  and a signed command that is due is always carried out (`StoreLaws.DueIsApplied`).
* **Durability and exactly once.** The disk has a directory that handles see and one that a crash leaves
  behind, and a file that was not synced before a crash is gone; any number of handles take any interleaving
  of steps, with crashes between them. Whatever any handle reported is in the durable state then and ever
  after (`StoreRuns.Durability`), and at every point the committed operations account for the receipts one by
  one, each once (`StoreRuns.ExactlyOnce`).
* **Keccak.** Both permutations compute the 24 rounds of FIPS 202 on every state; the five steps are those of
  the standard bit by bit, lanes are proved to behave as the machine's 64-bit words, the offsets and the
  round constants are those of the standard's own walk and shift register, and the streaming hash is
  the standard's sponge for every way of cutting the input and the output.
* **Binding.** The last hash of a receipt chain fixes the agreement and its whole history when identifier,
  actions and actors hold no separator; the Merkle root fixes the batch across different lengths; the batch
  root fixes every agreement's history under the same condition and its terms when no text in them holds a
  zero byte. Both conditions are needed (`Binding.SeparatorAmbiguous`, `BatchSeal.TermsFixedIff`), and under
  them the results hold of every agreement that a kernel run reaches (`BatchRuns.RootBindsRuns`).

## How the source is represented

* A lane is its 64 bits, least significant first, and a byte its eight bits, so that the definitions of FIPS
  202 read as printed there. In `KeccakF` the fifteen statements that every group of every unrolled round repeats
  are the method `Plane`; the positions and the rotations stay the literals of the source, in its order. In
  `KeccakAsm` the instructions of one round are written out under the source's own section names; the 24
  copies of that text, which differ only in the buffers and the constant, are a loop of two rounds each, and
  the last round also computes the column sums that the source omits as dead.
* Time is an integer whose zero is the unset instant, money in the meter is a real, `int64` values are a
  bounded integer type, random draws and clocks are arguments.
* Receipt hashes in the kernel and the store are symbols; `HashText` says when the hex text of two symbols
  can be equal, and `Binding` proves the same for the concrete text that is hashed. Collision freedom is
  always a condition on the finite set of strings actually hashed. `HashText.RunShown` carries every reachable
  agreement over to the text form, so that the binding theorems apply to kernel runs.
* Where the code and its comments disagree the model follows the code, and says exactly when it matters:
  `UnmarshalBinary` accepts an absorbing state whose window is full, which no state in use is written as
  (`Sponge.OverfullIsAccepted`, `Sponge.AcceptedIsUsableIff`), and it has already replaced the bytes when it
  refuses a position or a direction; a council call that passes its own checks uses up a step although the
  meter refuses it (`Council.RefusedIff`); the receipt of a satisfied requirement joins its identifier and the
  citation by a colon, so that it names one requirement only where no identifier goes on from another of the
  same holder behind a colon (`CouncilRuns.LongerIdCitesShorter`); a workflow node whose own ID differs from
  its key can be lost although its parent was checked (`Workflow.RenamedChildIsMissing`, `Workflow.CompleteIff`,
  `Workflow.AlwaysCompleteIff`); the walk is documented to take the first matching child and takes none when
  that child is filed under the empty key, as in the gate r with the one child "" that is an action
  (`Workflow.EmptyChildIsLost`, `Workflow.StepsAgreeIff`, `Workflow.TreeWalksAsMeantIff`); and the zero byte
  after each of the terms is said to leave no ambiguity, which is so exactly when no text holds one
  (`BatchSeal.TermsFixedIff`).

## Model

| member | source | states |
|---|---|---|
| `Fermat.FermatLittle` | internal/he/paillier.go:104-115 | a^(p-1) is 1 modulo a prime p that does not divide a, which decryption relies on |
| `Fermat.OnePlusPower` | internal/he/paillier.go:138-155 | (1 + n)^k is 1 + kn modulo n^2, so the generator carries the plaintext in the exponent |
| `Fermat.LiftPower` | internal/he/paillier.go:172-198 | numbers equal modulo n have equal n-th powers modulo n^2, so a blinding factor may be reduced |
| `Paillier.LambdaFacts` | internal/he/paillier.go:69-73 | the least common multiple times the greatest common divisor is the product, and lambda lies between 0 and n |
| `Paillier.LogOfGenerator` | internal/he/paillier.go:43-60 | L of g^x modulo n^2 is x itself for x below n, so the mu of key generation inverts lambda |
| `Paillier.KeyOfValid` | internal/he/paillier.go:43-60 | two primes give a key exactly when they differ and lambda is a unit, and the key then has the arithmetic of its primes |
| `Paillier.NewPaillier` | internal/he/paillier.go:35-65 | the first usable pair of draws gives the key, the key is valid and its modulus lies between 2^(2 half - 2) and 2^(2 half) for the half of the requested bits; without one the error is reported |
| `Paillier.FirstKeyIff` | internal/he/paillier.go:43-64 | the search ends at a pair of distinct primes whose lambda is a unit, exactly when one was drawn, and no later draw changes the key |
| `Paillier.KeyHasBits` | internal/he/paillier.go:35-64 | the modulus of a generated key has the requested bits or one less, for an even number of them from 1024 on; any smaller request counts as 2048 |
| `Paillier.EncryptIsCipher` | internal/he/paillier.go:138-155 | encryption with a given r is g^m r^n for a plaintext below n and a unit r, and an error otherwise |
| `Paillier.AddHomomorphic` | internal/he/paillier.go:92-101 | adding ciphertexts adds plaintexts as integers and multiplies blinding factors modulo n |
| `Paillier.AddIff` | internal/he/paillier.go:92-115 | addition takes exactly the numbers between zero and n^2 and multiplies them modulo n^2; decryption takes exactly such a number |
| `Paillier.CipherReduce` | internal/settle/encsum.go:118-129 | reducing the blinding factor modulo n changes no ciphertext |
| `Paillier.UnitOrder` | internal/he/paillier.go:104-115 | a unit raised to lambda is 1 modulo n, proved from the primes |
| `Paillier.DecryptCorrect` | internal/he/paillier.go:104-115 | decryption returns the plaintext modulo n for every unit blinding factor |
| `Paillier.TranscriptCondition` | internal/he/paillier.go:172-235 | the honest transcript verifies exactly when n divides a unit-like residue times the challenge times the discrepancy |
| `Paillier.DiscrepancySurvives` | internal/he/paillier.go:239-251 | a nonzero discrepancy below 2^126 times a challenge below 2^256 is not such a multiple |
| `Paillier.CommitmentNonZero` | internal/he/paillier.go:172-235 | the commitment of a nonzero draw is never zero, so verification never refuses it for that |
| `Paillier.TranscriptVerifiesIff` | internal/he/paillier.go:172-251 | the transcript of the honest prover verifies exactly when the ciphertext holds the claimed amount, for every hash and every nonzero draw |
| `Soundness.AcceptedIff` | internal/he/paillier.go:203-235 | the public check without inverses: all four numbers are in range and z^n times (g^m)^e is c^e times the commitment modulo n^2, for the digest e of claim and commitment |
| `Soundness.ProvedIff` | internal/he/paillier.go:172-200 | the prover answers exactly for numbers in range, and sends the commitment s^n and the response r^e s for the digest e of claim and commitment |
| `Soundness.WrongAmountOneDigest` | internal/he/paillier.go:203-251 | whoever made the transcripts: for a wrong amount within 2^126 no commitment, of any kind, has responses that are accepted under two different digests |
| `BigEndian.SetBytesOfBytes` | internal/he/checkpoint.go:14-24 | the byte strings of a stored key read back as the numbers they were written from |
| `KeyCheckpoint.RestorePrivate` | internal/he/checkpoint.go:18-34 | a key that is restored has n^2, g and an inverse pair lambda, mu in range |
| `KeyCheckpoint.RestoreIff` | internal/he/checkpoint.go:18-34 | a stored key is accepted exactly when its modulus is an odd number of 128 to 1024 bytes and the other two, in no more bytes, lie between zero and it and are inverse to each other |
| `KeyCheckpoint.KeyRoundTrip` | internal/he/checkpoint.go:14-34 | a generated key comes back identical exactly when its modulus fits the 1024 bytes that restoring allows |
| `KeyCheckpoint.GeneratedKeyRoundTrip` | internal/he/checkpoint.go:14-34 | every key requested with at most 8192 bits comes back identical |
| `Ledger.NoUnit` | internal/settle/encsum.go:56-73 | no blinding factor is found exactly when no draw is a unit |
| `Ledger.SealCorrect` | internal/settle/encsum.go:48-74 | a lock is a ciphertext of its amount under a unit factor, and it is given exactly for a positive amount and a usable draw |
| `Ledger.AggregateIsCipher` | internal/settle/encsum.go:77-90 | the aggregate of the locks is, as a number, the ciphertext of the sum under the product of the factors reduced modulo n |
| `Ledger.AggregateIff` | internal/settle/encsum.go:77-90 | whatever the numbers given as locks, they are added up exactly when there are some and, if more than one, each is in range and no product on the way vanishes; the sum is their product modulo n^2 |
| `Ledger.ReleaseIff` | internal/settle/encsum.go:95-107 | decrypting the aggregate gives the sum, and release succeeds exactly for that sum |
| `Ledger.ReleasedIff` | internal/settle/encsum.go:95-107 | whatever the number given as aggregate, release succeeds exactly when it decrypts to the committed amount, and that is positive and below 2^63 |
| `Ledger.ProofIff` | internal/settle/encsum.go:118-138 | the proof built from the blinding factors is accepted exactly when the locks sum to the committed amount |
| `Soundness.WrongSumOneDigest` | internal/settle/encsum.go:118-138 | the same for a ledger: no commitment has responses that are accepted under two digests for an amount that the locks do not sum to |
| `Soundness.ProofGivenIff` | internal/settle/encsum.go:118-129 | a proof is given exactly for an aggregate and an amount in range and a nonzero draw, when there are locks and their factors do not multiply to zero |
| `Ledger.PositiveTotal` | internal/settle/encsum.go:118-138 | sums of positive 63-bit partials stay within the 126 bits the proof needs |
| `Ledger.EncryptedLedger.SealLock` | internal/settle/encsum.go:48-74 | the lock and the recorded factor are those of the specification, and a failing call records nothing |
| `Ledger.EncryptedLedger.Aggregate` | internal/settle/encsum.go:77-90 | the loop computes the homomorphic sum of exactly the given locks, or the error of the first bad one |
| `Ledger.EncryptedLedger.Release` | internal/settle/encsum.go:95-107 | the decrypted sum is returned exactly when it is the committed amount |
| `Ledger.EncryptedLedger.ProveEqual` | internal/settle/encsum.go:118-129 | the loop multiplies all blinding factors modulo n before proving |
| `Ledger.EncryptedLedger.VerifyEqual` | internal/settle/encsum.go:135-138 | verification is the public check, with the same answer for every key of this n, n^2 and g, whatever its lambda and mu |
| `Ledger.EncryptedLedger.Clone` | internal/settle/encsum.go:141-147 | the copy has the same key and factors and shares neither list with the original |
| `Ledger.EncryptedLedger.PrivateState` | internal/settle/checkpoint.go:17-24 | the stored form holds the key and every factor in order |
| `Ledger.RestorePrivate` | internal/settle/checkpoint.go:25-46 | restoring accepts exactly the specified states and rebuilds key and factors |
| `Ledger.RestoredIff` | internal/settle/checkpoint.go:25-46 | a stored ledger is accepted exactly when its key is, it has at most 128 factors and each is a unit in no more bytes than the modulus; it is restored to these |
| `Ledger.LedgerRoundTrip` | internal/settle/checkpoint.go:17-46 | a ledger of unit factors comes back unchanged exactly when its key fits and it holds at most 128 of them |
| `Kernel.VerifyReceipts` | internal/nexum/agreement.go:313-328 | the loop accepts exactly the chains numbered from one in which each receipt carries its own hash and its predecessor's |
| `Kernel.Agreement.Start` | internal/nexum/agreement.go:103-135 | opening gives exactly the specified agreement or the specified error |
| `Kernel.Agreement.AppendReceipt` | internal/nexum/agreement.go:281-304 | an append adds one chained receipt and one step, or changes nothing when the meter refuses |
| `Kernel.Agreement.LockValue` | internal/nexum/agreement.go:137-156 | locking is the specified transition; a refusal leaves every field as it was |
| `Kernel.Agreement.SealLock` | internal/nexum/room.go:52-87 | sealing encrypts into a copy of the ledger and commits ledger, locks, sum, status and receipt together; after any failure nothing has changed, the ledger included |
| `Kernel.Agreement.AcceptSealed` | internal/nexum/room.go:90-125 | sealed acceptance proves and verifies the committed amount before the state moves, and clears the sum |
| `Kernel.Agreement.AcceptValue` | internal/nexum/agreement.go:157-180 | acceptance is the specified transition on both the plain and the sealed path |
| `Kernel.Agreement.RejectValue` | internal/nexum/agreement.go:181-206 | rejection returns the value to the buyer and leaves the ledger alone |
| `Kernel.Agreement.FixDeadline` | internal/nexum/agreement.go:207-227 | either party may set or extend the deadline, any number of times, to an instant after now on any agreement that is not terminal, with its receipt |
| `Kernel.Agreement.ExpireValue` | internal/nexum/agreement.go:228-252 | expiry unlocks to the buyer only after the deadline |
| `Kernel.Agreement.RecordNote` | internal/nexum/agreement.go:253-271 | a note is recorded under an allowed action with a nonempty citation |
| `Kernel.Agreement.SettleWithEvidence` | internal/nexum/agreement.go:333-346 | evidence and acceptance happen together: after a failure of either nothing has changed |
| `Kernel.Agreement.ArmSealed` | internal/nexum/room.go:152-161 | an open agreement receives a new ledger under the first usable key drawn |
| `KernelRuns.ChainAppend` | internal/nexum/agreement.go:281-304 | a chained receipt keeps a verified chain verified |
| `KernelRuns.ChainLinks` | internal/nexum/agreement.go:313-328 | a verified chain is one whose receipts are numbered from one, each with its own hash and, but for the first, the hash of the one before it |
| `KernelRuns.SealInv` | internal/nexum/room.go:52-87 | a sealing step keeps one factor per lock, the locks as encryptions of the partials and the sum as their aggregate |
| `KernelRuns.StepInv` | internal/nexum/agreement.go:92-346 | every call, successful or not, keeps the whole invariant, and a successful seal adds its partial |
| `KernelRuns.RunInv` | internal/nexum/agreement.go:92-346 | the invariant holds after any number of calls from any opening |
| `KernelRuns.TerminalIsFinal` | internal/nexum/agreement.go:272-280 | no call succeeds on a terminal agreement and none changes it |
| `KernelRuns.RunSafety` | internal/nexum/agreement.go:281-304 | over every run the steps are the receipts and stay within the bound, the chain verifies, a terminal receipt is last and decides who is paid |
| `KernelRuns.HistoryGrows` | internal/nexum/agreement.go:281-304 | a run only ever appends receipts, each by the buyer or the seller and for an action of the kernel, and never changes identifier or parties |
| `KernelRuns.RunProper` | internal/nexum/agreement.go:92-346 | so every receipt of every agreement a run reaches, the opening one included, is by one of its two parties and for an action of the kernel |
| `KernelRuns.SealedAcceptIff` | internal/nexum/room.go:90-125 | after any run a seller's sealed acceptance succeeds exactly when the sealed partials sum to the amount, and is refused with the sum mismatch otherwise |
| `KernelRuns.SealedSettleIff` | internal/nexum/agreement.go:333-346 | the one-step settlement succeeds exactly when the partials sum to the amount and two steps are free |
| `KernelRuns.AcceptAgreesWithRelease` | internal/nexum/room.go:90-125 | accepting by the public proof and releasing by decryption succeed in the same states |
| `Custody.OpensIff` | internal/nexum/agreement.go:97-135 | opening fails exactly for a missing party, one party in both roles, an amount that is not positive or costs over the budget, with the first of these errors |
| `Custody.OpenedIs` | internal/nexum/agreement.go:103-135 | what opens is open and unlocked for the given parties and amount, with the buyer's receipt and the default bound of steps |
| `Custody.PermittedIff` | internal/nexum/agreement.go:137-346 | in every state the kernel can be in, each of the ten calls succeeds exactly under its stated condition on actor, status, amount, clock, partials and room |
| `Custody.RefusalTells` | internal/nexum/agreement.go:137-346 | whatever error a call returns, the fault it names is there |
| `Chronicle.Continued` | internal/nexum/agreement.go:281-304 | a receipt that the earlier ones allow keeps status, value, payee, deadline and closing time those that the receipts tell |
| `Custody.RunTold` | internal/nexum/agreement.go:92-346 | over every run the receipts alone tell status, lock, payee, deadline and both time stamps, and each of them was allowed, by its actor and at its time, by those before it |
| `Custody.LockedValueGoes` | internal/nexum/agreement.go:157-252 | locked value goes to the seller only by the seller's acceptance, and back to the buyer only by the seller's rejection or by an expiry at or after the deadline |
| `Custody.DeadlineReleases` | internal/nexum/agreement.go:228-252 | from the deadline on either party's expiry of an open or locked agreement with room for a receipt returns the value to the buyer |
| `Custody.RunEnding` | internal/nexum/agreement.go:157-252 | every run that has ended did so by the seller's acceptance or rejection of locked value, or by a party's expiry whose receipt is at or after the deadline that the receipts before it tell |
| `Checkpoint.RoundTrip` | internal/nexum/checkpoint.go:20-104 | an agreement that satisfies the invariant is restored unchanged exactly when it is storable, and refused otherwise |
| `Checkpoint.ReachableRoundTrip` | internal/nexum/checkpoint.go:20-104 | the same for every agreement any run can reach |
| `Checkpoint.RestoreIff` | internal/nexum/checkpoint.go:31-104 | a checkpoint is accepted exactly when some agreement that it describes is sound: verified chain, steps, the table of status, lock, payee and time stamps, key, factors and sum; and that agreement is what is restored |
| `Checkpoint.RestoreSound` | internal/nexum/checkpoint.go:31-104 | whatever is restored has a verified chain, a step count, one factor per lock, a recomputed sum, and the lock, payee and time stamps of its status |
| `Contracts.Contract.Verified` | nex/contract.go:89-126 | the command policy moves agreement and consent exactly as specified and changes nothing when it refuses |
| `Contracts.Contract.ApplyCommand` | nex/contract.go:75-80 | a command is applied only under the right signature, with the specified result |
| `Operations.CommandWorksOnce` | nex/contract.go:89-93 | a command names the current head, and once it has moved the contract it is stale in every later version, under any signature, clock and draws |
| `StoreLaws.NewIff` | nex/contract.go:33-60 | a contract is made exactly of two valid identities with different IDs, a kind, a positive amount, a deadline ahead and a key |
| `StoreLaws.NewIs` | nex/contract.go:33-60 | and it is open under the hash of its terms, with the buyer's two receipts, 128 steps, no budget and an empty ledger |
| `StoreLaws.GrantedIff` | nex/contract.go:89-126 | every record the store wrote grants exactly the commands of its current head that fit status, consent and clock: neither meter nor sealed sum ever stands in the way |
| `StoreLaws.ApplyIff` | nex/contract.go:75-126 | a command on a contract in memory is applied exactly when the seller signed an agreement or rejection, or the buyer any other, and it is granted |
| `StoreLaws.RefusalTells` | nex/contract.go:89-126 | whatever error a command is refused with, the fault it names is there, down to the kernel call it makes |
| `StoreLaws.PolicyFirst` | nex/contract.go:89-126 | a stale command is refused as stale, one out of its time as that, and the kernel is asked only when the policy finds no fault of its own |
| `Operations.CommandTimely` | nex/contract.go:89-99 | a command keeps every receipt behind the opening pair within creation and deadline, an expiry at or after the deadline |
| `Store.RestoreRecord` | nex/store.go:285-369 | the loops accept exactly the records the specification accepts, whatever the order of map iteration |
| `Store.IndexByHead` | nex/store.go:302-313 | the index by head is built exactly when every entry is well formed and no two start from the same head |
| `Store.ReplayIndex` | nex/store.go:317-367 | the replay loop computes the specified replay of the operations against the receipts |
| `Store.ReplayFindsAccounts` | nex/store.go:317-367 | a replay that succeeds lays the operations out as adjoining segments of the receipts |
| `Store.AccountsReplays` | nex/store.go:317-367 | conversely such a layout is all that replay needs |
| `Store.RestoreBijection` | nex/store.go:285-369 | in every record that is restored the operations correspond one to one with adjoining segments covering all receipts after the first two, and status, consent and results are those of that run |
| `Store.RestoreAcceptsAccounts` | nex/store.go:285-369 | every record with such a layout and sound parts is restored |
| `StoreLaws.RestoredMeans` | nex/store.go:285-369 | every restored record names valid identities, its agreement is the one of its terms under their hash, and each entry is filed under its own ID, for this contract, with the head it left |
| `StoreLaws.RestoredScript` | nex/store.go:285-369 | the operations of every restored record stand in one of nine orders, each signed by the party whose command it is and made for the head it found, and the receipts are those of that order |
| `StoreLaws.SettledWasAgreed` | nex/store.go:336-350 | an accepted record holds the seller's signed agreement, with the hash of its signature in the receipt, and behind it the buyer's signed settlement |
| `Operations.CommandAdvances` | nex/contract.go:89-126 | a successful command appends exactly the segment that replay will look for, from the head it names |
| `Operations.GoodRestores` | nex/store.go:249-369 | a record written by the store is always restored, to the same status, consent and head |
| `Operations.CreateGood` | nex/store.go:126-143 | a new contract is stored exactly when its ID is a contract ID and its specification is JSON, and its first record is one that is always restored |
| `StoreLaws.MovedIsNotNew` | nex/store.go:126-143 | a contract that any command has moved is not stored as a new one |
| `Operations.CommitGood` | nex/store.go:179-221 | a committed operation leaves such a record, adds itself to the index under its own ID, loses nothing and reports the new head and status |
| `StoreLaws.CommitIff` | nex/store.go:179-221 | an operation is committed exactly when its ID is valid and new, its size within bounds, it is signed by the party whose command it is, and it is granted |
| `StoreLaws.RefusedBecause` | nex/store.go:179-221 | whatever error an operation is refused with is so: a bad form, another contract, a signature that does not verify, the same ID with other content, or the command's fault |
| `StoreLaws.OperationIds` | nex/store.go:224-229 | in visible ASCII an operation ID has 1 to 128 characters; no ID has more, or white space at an end |
| `StoreLaws.ContractIds` | nex/store.go:233-237 | a contract ID is 64 lower-case hex digits |
| `Operations.RetryAnswered` | nex/store.go:198-208 | in any later state the exact retry gets the original result, and the same ID with other content gets the conflict error |
| `StoreRuns.Provenance` | nex/store.go:179-222 | at every point of every run, each operation in a visible or durable index was submitted under its ID to a handle that planned to write exactly this entry over a record without it |
| `StoreRuns.RefusedStaysFree` | nex/store.go:198-216 | an ID that no handle ever decided to commit, only refused or never saw, is in no index at any point of any run |
| `StoreRuns.RefusalChangesNothing` | nex/store.go:198-216 | a handle that refuses or answers a retry leaves both directories and all reports as they were |
| `Operations.SettlementSucceeds` | nex/contract.go:115-120 | a buyer's settlement of a locked and agreed contract within its time always succeeds |
| `StoreRuns.PlanOk` | nex/store.go:126-221 | whatever a handle decides under the lock is backed by the record it leaves |
| `StoreRuns.ActKeeps` | nex/store.go:378-427 | every step of every handle, and every crash, keeps the disk invariant |
| `StoreRuns.BothSyncsNeeded` | nex/store.go:399-427 | why a write syncs the file and then the directory: without the second a crash leaves the directory as it was, without the first the contents are gone |
| `StoreRuns.Hazards` | nex/store.go:378-427 | the disk of the model is that harsh: a handle may die at any stage, and any name may be written out before its time, durable if its file was synced and lost if not |
| `StoreRuns.StoreRunInv` | nex/store.go:378-427 | the disk invariant holds at every point of every run |
| `StoreRuns.Durability` | nex/store.go:145-221 | everything a handle ever reported is in the durable and in the visible state at that point and at every later one, across crashes: a result in the index, a viewed history as a prefix, with the viewed status and consent as the operations of that prefix leave them |
| `StoreRuns.ShownOnce` | nex/store.go:145-176 | one prefix of a history allows only one status and one consent to be shown for it |
| `StoreRuns.DurableGrows` | nex/store.go:378-427 | durable records only grow: no receipt and no committed operation is ever lost |
| `StoreRuns.ExactlyOnce` | nex/store.go:179-222 | at every point of every run the committed operations account for all receipts after the opening pair, each exactly once |
| `StoreLaws.StoreKeeps` | nex/store.go:126-222 | at every point of every run, crashes included, the receipts of each visible and durable record tell its state, each was written in its time, and the signed operations are one of the scripts |
| `StoreLaws.StoredEnding` | nex/store.go:179-222 | a stored contract that ended did so by both parties' signed agreement and settlement or the seller's signed rejection within the window, or by the buyer's signed expiry at or after the deadline, and the value went accordingly |
| `StoreLaws.Undisturbed` | nex/store.go:233-247 | a handle that finds its contract unlocked and meets no failure carries out its plan: what it planned to write is visible, durable and reported, and without a plan nothing has changed |
| `StoreLaws.DueIsApplied` | nex/store.go:179-222 | at any point of any run an undisturbed handle with a granted operation, signed by the right party under a new ID, ends with it durable and reported |
| `StoreLaws.DueIsCreated` | nex/store.go:126-143 | likewise a new contract with a free ID and a JSON specification ends created, durable and reported |
| `StoreLaws.LookShows` | nex/store.go:145-163 | likewise a look at a visible contract shows its history, head, status and consent, and leaves them durable |
| `StoreLaws.BeginsIff` | nex/store.go:233-237 | a handle begins for a well-formed contract ID and for no other |
| `StoreRuns.RetryOfVisible` | nex/store.go:198-208 | whatever is in the visible index at any point of any run, reported or not, every authenticated retry of it is answered with the result stored there and other content with the conflict error, and nothing is written |
| `StoreRuns.RetryAfterReport` | nex/store.go:198-208 | once a result was reported, every later authenticated retry gets it again, or the conflict error for other content, and changes nothing |
| `KeccakSpec.RoundAt` | quarry/keccak/keccakf.go:50-140 | one round of section 3.3 of FIPS 202, lane by lane |
| `KeccakBits.ThetaBit` | quarry/keccak/keccakf.go:50-60 | theta of section 3.2.1 of FIPS 202, bit by bit |
| `KeccakBits.RhoBit` | quarry/keccak/keccakf.go:64-140 | rho of section 3.2.2 bit by bit: a lane turns towards the high end by (t + 1)(t + 2)/2 where the walk is after t steps |
| `KeccakBits.RhoFirst` | quarry/keccak/keccakf.go:64-140 | and lane 0 stays as it is |
| `KeccakBits.PiBit` | quarry/keccak/keccakf.go:64-140 | pi of section 3.2.3, bit by bit |
| `KeccakBits.ChiBit` | quarry/keccak/keccakf.go:73-78 | chi of section 3.2.4, bit by bit |
| `KeccakBits.IotaBit` | quarry/keccak/keccakf.go:73-74 | iota of section 3.2.5: only lane (0, 0) changes, in the places 2^j - 1 where the shift register says so |
| `KeccakBits.RoundsTrace` | quarry/keccak/keccakf.go:46-412 | states of which each is the five steps of the one before it, with the 24 constants in order, are the states of the permutation |
| `LaneWords.RotWord` | quarry/keccak/keccakf.go:64-140 | rotation of a lane is the rotation to the left of its 64-bit word, for every amount and every word |
| `LaneWords.XorWord` | quarry/keccak/keccakf.go:51-78 | exclusive or of lanes is that of their words |
| `LaneWords.AndWord` | quarry/keccak/keccakf.go:73-78 | and of lanes is that of their words |
| `LaneWords.OrWord` | quarry/keccak/keccakf_amd64.s:62-99 | or of lanes is that of their words |
| `LaneWords.NotWord` | quarry/keccak/keccakf_amd64.s:62-99 | inversion of a lane is that of its word |
| `LaneWords.LittleEndian` | quarry/keccak/sha3.go:75-94 | byte j of a lane is bits 8j to 8j + 7 of its word, shifted down |
| `LaneWords.XorBytes` | quarry/keccak/sha3.go:115-134 | exclusive or of bytes is that of their bits |
| `KeccakSpec.OffsetsFollowWalk` | quarry/keccak/keccakf.go:62-137 | the rotation amounts are those of the walk in section 3.2.2 of FIPS 202 |
| `KeccakSpec.WalkCovers` | quarry/keccak/keccakf.go:62-137 | that walk visits every lane but the first |
| `RoundConstants.TableIsStandard` | quarry/keccak/keccakf.go:11-37 | all 24 constants of the table are those of the shift register in section 3.2.5 of FIPS 202 |
| `RoundConstants.SparseWord` | quarry/keccak/keccakf.go:11-37 | a word within the seven places 2^j - 1 is the lane of those seven bits |
| `LaneLaws.StepsAgree` | quarry/keccak/keccakf.go:51-60 | a column sum does not depend on the order its words are stored in |
| `KeccakF.FourRoundsReturn` | quarry/keccak/keccakf.go:46-412 | after every fourth in-place round the words are in standard order again |
| `KeccakF.ColumnLayout` | quarry/keccak/keccakf.go:51-60 | theta's column sums do not see the arrangement after any number of rounds |
| `KeccakF.Plane` | quarry/keccak/keccakf.go:62-78 | a group reads its five words before it writes the same five, and leaves all others alone |
| `KeccakF.PlaneProgress` | quarry/keccak/keccakf.go:62-140 | a group completes one row of the round and leaves the rest as the round found it |
| `KeccakF.RoundDone` | quarry/keccak/keccakf.go:50-140 | five completed rows are the round of the standard, up to the arrangement |
| `KeccakF.Round1` | quarry/keccak/keccakf.go:50-139 | the first unrolled round is the standard round up to its arrangement |
| `KeccakF.Round2` | quarry/keccak/keccakf.go:141-230 | the second unrolled round likewise |
| `KeccakF.Round3` | quarry/keccak/keccakf.go:232-321 | the third unrolled round likewise |
| `KeccakF.Round4` | quarry/keccak/keccakf.go:323-412 | the fourth unrolled round, after which the arrangement is the standard one |
| `KeccakF.KeccakF1600` | quarry/keccak/keccakf.go:41-414 | the loop computes the 24 rounds of Keccak-f[1600] on every state |
| `KeccakAsm.FlipTheta` | quarry/keccak/keccakf_amd64.s:36-60 | with the six words inverted, theta's words of columns 0 and 3 come out inverted and the others plain |
| `KeccakAsm.FlipFrom` | quarry/keccak/keccakf_amd64.s:62-258 | which of the rotated words are inverted when chi reads them |
| `KeccakAsm.Prepare` | quarry/keccak/keccakf_amd64.s:36-60 | from the carried column sums the five registers hold theta's words |
| `KeccakAsm.ResultB` | quarry/keccak/keccakf_amd64.s:62-99 | row 0 with its OR, AND and NOT instructions is chi and iota, in inverted form |
| `KeccakAsm.ResultG` | quarry/keccak/keccakf_amd64.s:101-138 | row 1 likewise |
| `KeccakAsm.ResultK` | quarry/keccak/keccakf_amd64.s:140-178 | row 2 likewise |
| `KeccakAsm.ResultM` | quarry/keccak/keccakf_amd64.s:180-217 | row 3 likewise |
| `KeccakAsm.ResultS` | quarry/keccak/keccakf_amd64.s:219-258 | row 4 likewise, leaving the two partial sums for the next round |
| `KeccakAsm.AsmRound` | quarry/keccak/keccakf_amd64.s:36-258 | one round reads one buffer and leaves the standard round, in inverted form, in the other, with the next column sums |
| `KeccakAsm.KeccakF1600` | quarry/keccak/keccakf_amd64.s:6-5419 | the alternating rounds between the two sets of NOT instructions compute the 24 rounds on every state, as the portable code does |
| `SpongeSpec.LanesOfBytes` | quarry/keccak/sha3.go:75-94 | the lanes of section 3.1 of FIPS 202 come back from the little-endian bytes they are written as |
| `SpongeSpec.BytesOfLanes` | quarry/keccak/sha3.go:75-94 | and the bytes of a state come back from the lanes they are read as, so the two conversions around the permutation are inverse |
| `SpongeSpec.FeedChunk` | quarry/keccak/sha3.go:124-132 | a chunk within the window is one exclusive-or, followed by the permutation when it fills the window |
| `SpongeSpec.PadIsFed` | quarry/keccak/sha3.go:98-111 | the two exclusive-ors of the padding feed the padding bytes, also when they meet in one byte |
| `SpongeSpec.PadIsStandard` | quarry/keccak/sha3.go:98-111 | for the legacy domain byte the padded bytes are the message bits followed by pad10*1 of section 5.1 of FIPS 202 |
| `SpongeSpec.ClosedIsAbsorbed` | quarry/keccak/sha3.go:98-111 | writing byte by byte and closing is absorbing the padded message block by block |
| `SpongeSpec.MachineIsHash` | quarry/keccak/sha3.go:115-173 | writing, closing and drawing give the sponge of section 4 of FIPS 202 |
| `Sponge.State.Permute` | quarry/keccak/sha3.go:75-94 | the state bytes become those of the permuted lanes and the window starts over |
| `Sponge.State.PadAndPermute` | quarry/keccak/sha3.go:98-111 | padding closes the absorbing phase exactly as specified, in an overfull state with the domain byte outside the window as the code puts it |
| `Sponge.State.Write` | quarry/keccak/sha3.go:115-134 | a write of any length has the effect of feeding its bytes one at a time, an overfull state being permuted first unless nothing is written |
| `Sponge.State.Read` | quarry/keccak/sha3.go:137-158 | a read of any length returns the next bytes of the output and leaves the state after them |
| `Sponge.State.Sum` | quarry/keccak/sha3.go:162-173 | the sum is the standard's hash of everything written and the state is untouched |
| `Sponge.State.Reset` | quarry/keccak/sha3.go:60-67 | a reset state is the initial one |
| `Sponge.State.Clone` | quarry/keccak/sha3.go:69-72 | a clone has the same state and shares no bytes |
| `Sponge.NewLegacyKeccak256` | quarry/keccak/hashes.go:34-36 | the constructor gives the initial state with rate 136, 32 bytes of output and the legacy domain byte |
| `Sponge.NewLegacyKeccak512` | quarry/keccak/hashes.go:42-44 | the same with rate 72 and 64 bytes |
| `Sponge.StreamingIsHash` | quarry/keccak/sha3.go:115-158 | however the message is cut into writes and the output into reads, the bytes are those of the one-shot hash |
| `Sponge.HashIsSponge` | quarry/keccak/sha3.go:75-158 | the picture of section 4 of FIPS 202: from zeros the blocks of the padded message are absorbed in turn, each followed by the permutation, and byte z of output block q is byte z of the state permuted q times more |
| `Sponge.State.AppendBinary` | quarry/keccak/sha3.go:188-206 | the serialized form is identifier, rate, state, position and direction |
| `Sponge.State.UnmarshalBinary` | quarry/keccak/sha3.go:208-244 | reading back gives the parsed state or the specified error, with what a refusal has already replaced, and an accepted state is one that is in use exactly unless it is overfull |
| `Sponge.ParsedIff` | quarry/keccak/sha3.go:188-244 | exactly the serialized forms of states with a position up to the rate are read, each as the state it is the form of |
| `Sponge.OnlyItsOwn` | quarry/keccak/sha3.go:208-230 | the form of a state is read by a hash of its own family and rate and refused by any other, for the family first |
| `Sponge.Identifiers` | quarry/keccak/sha3.go:175-206 | the four families are identified by the letters sha and a byte from 8 to 11, and nothing else is |
| `Sponge.DomainBytes` | quarry/keccak/hashes.go:15-20 | the domain bytes of the four families are 6, 31, 4 and 1 |
| `Sponge.OverfullIsAccepted` | quarry/keccak/sha3.go:208-244 | an absorbing state whose window is full, serialized, is accepted, for every rate and every state |
| `Sponge.AcceptedIsUsableIff` | quarry/keccak/sha3.go:208-244 | the accepted states that are not in use are exactly those with a zero direction byte and the rate as position byte |
| `Sponge.SameOutputAfterRoundTrip` | quarry/keccak/sha3.go:188-244 | a state that is serialized and read back gives the same output ever after |
| `Sponge.HashAcrossRoundTrip` | quarry/keccak/sha3.go:115-244 | what is written before and after a state goes through its serialized form is hashed as one message |
| `Binding.PreimageInjective` | internal/nexum/agreement.go:306-310 | the joined text of a receipt gives back identifier and every field, whatever the note holds, when identifier, action and actor have no separator |
| `Binding.PreimageSplits` | internal/nexum/agreement.go:306-310 | split at its separators the joined text is identifier, number, time, action and actor, then the pieces of the note, and last the previous hash |
| `Binding.SignedReads` | internal/nexum/agreement.go:306-310 | the number in it is written in decimal digits, the highest first, behind a sign if negative |
| `Binding.SeparatorAmbiguous` | internal/nexum/agreement.go:306-310 | the condition is needed: with a separator in action or actor another receipt is hashed from the same text |
| `Binding.TailBindsHistory` | internal/nexum/agreement.go:306-328 | two verified chains that end in the same hash are the same history of the same agreement |
| `Binding.VerifyReceipts` | internal/nexum/agreement.go:313-328 | the loop accepts exactly the verified chains of concrete hashes |
| `HashText.RenderedInjective` | internal/nexum/agreement.go:306-310 | equal hex hashes are equal symbolic hashes when identifiers, actions and actors hold no separator and different notes have different texts, which justifies the symbols of the kernel |
| `HashText.RunShown` | internal/nexum/agreement.go:281-328 | every agreement a run reaches shows a verified chain of hex hashes, and one that can be taken apart when its identifier and parties hold no separator |
| `HashText.TailBindsRuns` | internal/nexum/agreement.go:306-328 | two agreements reached by any two runs that show the same last hex hash are one agreement with one history, when neither identifiers nor parties hold the separator and different notes have different texts |
| `ReceiptTree.ReceiptRoot` | internal/l2/receipts.go:27-60 | the loops accept exactly the well-formed rising batches and compute the Merkle root with the repeated last node |
| `ReceiptTree.AcceptedIff` | internal/l2/receipts.go:27-40 | a batch is refused exactly when it is empty or longer than 4096, or a commitment has a hash that is not 64 hex digits, no identifier, no action or a number that does not rise |
| `ReceiptTree.SameCover` | internal/l2/receipts.go:46-59 | trees of equal depth with the same root have the same complete padded tree |
| `ReceiptTree.DeeperMeetsNode` | internal/l2/receipts.go:44-56 | if one tree were deeper, a leaf of the other would be one of its inner nodes |
| `ReceiptTree.CoverRepeats` | internal/l2/receipts.go:48-51 | every padded place past the leaves repeats an earlier leaf |
| `ReceiptTree.RootBindsBatch` | internal/l2/receipts.go:27-60 | accepted batches with the same root are equal, whatever their lengths |
| `ReceiptTree.RepeatSharesRoot` | internal/l2/receipts.go:48-51 | without rising sequence numbers the repeated node would give two batches one root |
| `BatchSeal.TermsInjective` | internal/l2/batch.go:29-53 | terms without a zero byte in any text are the only terms with their zero-terminated fields: the fields give back all twelve |
| `BatchSeal.TermsSplit` | internal/l2/batch.go:29-53 | split at its zero bytes the hashed text of terms without such bytes is the twelve fields, in the order of the source |
| `BatchSeal.TermsAmbiguous` | internal/l2/batch.go:32-52 | with a zero byte in any text there are other terms with the same bytes, and with the same identifier unless the identifier alone holds one |
| `BatchSeal.TermsFixedIff` | internal/l2/batch.go:32-52 | so the terminated fields fix the terms exactly when no text holds a zero byte |
| `BatchSeal.TermsDigest` | internal/l2/batch.go:29-53 | the loop hashes the fields in order, each closed by a zero byte |
| `BatchSeal.Root` | internal/l2/batch.go:58-83 | the loop refuses exactly the batches with an empty or broken history and otherwise hashes terms digest and tail of each agreement in order |
| `BatchSeal.SameAccount` | internal/l2/batch.go:58-83 | equal entries are entries of the same terms and the same history, for terms without zero bytes and identifiers, actions and actors without the separator |
| `BatchSeal.AccountAmbiguous` | internal/l2/batch.go:29-83 | with a zero byte in a text other than the identifier, the same receipts verify under other terms, and the root is given the same bytes for both |
| `BatchSeal.RootBindsAccounts` | internal/l2/batch.go:58-83 | equal roots mean the same agreements in the same order with the same terms and histories, for terms without zero bytes and identifiers, actions and actors without the separator |
| `BatchRuns.ReachedBatch` | internal/l2/batch.go:58-83 | every batch of agreements that kernel runs reach is accepted by the root, and can be taken apart when their texts hold no zero byte and their identifiers and parties no separator |
| `BatchRuns.RootBindsRuns` | internal/l2/batch.go:58-83 | two such batches with one root hold the same agreements in the same order, terms and receipts alike, when different notes have different texts |
| `BatchSeal.Verify` | internal/l2/verify.go:25-40 | a seal is accepted exactly when the floor, every chain, the root and the work are in order, with the errors in that order |
| `Pow.CountLeadingZeros` | internal/pow/pow.go:44-55 | the loop counts the leading zero bits |
| `Pow.ZerosAreBound` | internal/pow/pow.go:44-55 | d leading zero bits mean that the hash as a number is below two to the remaining bits |
| `Pow.ValidIffSmall` | internal/pow/pow.go:58-63 | a header is valid exactly when its hash as a number is below 2^(256 - difficulty), and never for a difficulty outside 0 to 256 |
| `Pow.ActSound` | internal/pow/pow.go:79-96 | every atomic action of a worker keeps the stored nonce valid once the flag is up |
| `Pow.RunSound` | internal/pow/pow.go:79-96 | the same over every interleaving of any number of workers |
| `Pow.JoinedIsValid` | internal/pow/pow.go:97-105 | after the join the stored nonce is valid, so the failure that follows it cannot happen |
| `Pow.ValidIsFound` | internal/pow/pow.go:79-96 | when a valid nonce exists, the worker of its stride returns after a stated number of its own turns, whatever the others do, with the flag up and a valid nonce stored |
| `Pow.FlagStops` | internal/pow/pow.go:83-86 | once the flag is up it stays up, and every worker returns within three turns of its own |
| `Workflow.Walk` | internal/nexum/workflow.go:97-137 | the walk returns the repetition-free path of its own unbounded walk to its action, the loop error exactly when that never ends, and the end of it otherwise; all this holds of the walk by first open children too unless the answer is that there is no path, and then exactly unless that walk moves to the empty key and is not stuck later as well; the guard on the length never fires |
| `Workflow.SameWalkIff` | internal/nexum/workflow.go:97-137 | on given facts the code takes the same places to the same end as the walk by first open children exactly when that walk never moves to the empty key |
| `Workflow.StepsAgreeIff` | internal/nexum/workflow.go:119-131 | the two steps agree on all facts from every place exactly when at every gate the empty key is not listed or an earlier sibling is met on just what the gate and the node under the empty key require |
| `Workflow.TreeWalksAsMeantIff` | internal/nexum/workflow.go:97-137 | from a given root the two walks agree on all facts exactly when no path to the empty key is taken on just the facts that it requires |
| `Workflow.ClearPathIsShort` | internal/nexum/workflow.go:106-109 | such a path visits no place twice after the root, so it is at most two longer than the number of nodes |
| `Workflow.EmptyChildIsLost` | internal/nexum/workflow.go:119-131 | two complete trees that open under their own names: by first open children one arrives and one never ends, and the code ends both at the root without a path |
| `Workflow.Meets` | internal/nexum/workflow.go:139-146 | the loop checks that every required fact is true |
| `Workflow.Choose` | internal/nexum/workflow.go:121-128 | the loop finds the first listed child whose requirements hold |
| `Workflow.RepeatIsEndless` | internal/nexum/workflow.go:106-109 | a place that comes back comes back for ever |
| `Workflow.OneEnd` | internal/nexum/workflow.go:99-137 | a walk has at most one end |
| `Workflow.OpenedStep` | internal/nexum/workflow.go:54-131 | in a tree that opened a step of the walk arrives at an action, which has no children; goes from a gate to a listed child that lacks no fact while all before it lack one; or is stuck where a fact is lacking, here or at every child of a gate that has some |
| `Workflow.OpenNodes` | internal/nexum/workflow.go:47-77 | opening accepts exactly the well-formed trees whose root survives renaming |
| `Workflow.OpenWorkflow` | internal/nexum/workflow.go:47-95 | a workflow opens for a named actor with the cleaned nodes, the default step bound and one receipt, or reports the missing actor or the bad tree |
| `Workflow.CompleteIff` | internal/nexum/workflow.go:54-77 | when the names differ, opening leaves a complete tree exactly when the root and every child is the name, not merely the key, of a node |
| `Workflow.AlwaysCompleteIff` | internal/nexum/workflow.go:54-77 | whatever the names, colliding or not, opening leaves a complete tree in every order the map may be read exactly under that condition |
| `Workflow.OrderDecides` | internal/nexum/workflow.go:54-77 | when names collide a tree that fails the condition can still be complete in one order and not in another, so no condition independent of the order is exact for a single one |
| `Workflow.OpenedIsComplete` | internal/nexum/workflow.go:54-77 | in particular nodes filed under their own names stay complete, in whatever order the map is read |
| `Workflow.MissesIff` | internal/nexum/workflow.go:110-113 | some facts lead the walk to a missing node exactly when a path to an absent key, not through the empty one, is taken on just the facts that it requires |
| `Workflow.NeverMissing` | internal/nexum/workflow.go:110-113 | so a complete tree never walks into a missing node, on any facts |
| `Workflow.RenamedChildIsMissing` | internal/nexum/workflow.go:54-77 | a tree that opening accepts and that fails the condition: a checked child is lost and the walk reports it missing |
| `Workflow.Run.Execute` | internal/nexum/workflow.go:149-173 | execution succeeds exactly for the actor of an open workflow whose walk arrives and that has a step left, and records that path, which is always that of the first open children; a refused walk changes nothing, and the refusal for want of steps counts one step and changes nothing else |
| `Workflow.Run.Append` | internal/nexum/workflow.go:175-195 | a refused append has used up a step |
| `Council.OpenCouncil` | internal/nexum/council.go:60-113 | opening gives the first error in the order of the checks, each of the parties and then of the requirements in turn, or the council with its first receipt |
| `Council.OpensIff` | internal/nexum/council.go:60-113 | there is no error exactly for three to seven distinct named parties, a decision, and distinct named requirements held by them, within the budget |
| `CouncilRuns.OpeningTells` | internal/nexum/council.go:60-113 | whatever error an opening returns, the fault it names is there |
| `Council.OpenedKeeps` | internal/nexum/council.go:60-113 | a council that opened satisfies the invariant |
| `Council.WriteKeeps` | internal/nexum/council.go:264-287 | an append keeps the chain and the bound and uses up a step either way |
| `Council.SatisfyKeeps` | internal/nexum/council.go:126-159 | satisfying keeps the invariant: a satisfied requirement has its receipt |
| `Council.OptInKeeps` | internal/nexum/council.go:173-195 | joining keeps the invariant: whoever joined did so after all of their requirements were recorded |
| `Council.RefuseKeeps` | internal/nexum/council.go:198-212 | refusing keeps the invariant |
| `Council.ExecuteKeeps` | internal/nexum/council.go:217-241 | executing keeps the invariant |
| `Council.RunKeeps` | internal/nexum/council.go:126-287 | the invariant holds after any run of calls |
| `Council.ExecutionWasEarned` | internal/nexum/council.go:217-241 | in a council that executed, the execution is last and unique, every party joined before it, and each of their requirements was recorded before they joined |
| `Council.ClosedIsFinal` | internal/nexum/council.go:255-262 | an executed or refused council never changes again |
| `Council.RefusedIff` | internal/nexum/council.go:126-287 | a call is refused exactly when its own checks fail or the meter is against it; it then changes nothing exactly when its checks failed, and otherwise uses up a step and changes nothing else |
| `Council.StepsCountAdmitted` | internal/nexum/council.go:264-287 | over any run the steps are those at its start plus the calls whose checks passed, whether or not the meter let them through |
| `Council.OverBudgetIsStuck` | internal/nexum/council.go:264-268 | over budget no run changes anything but the count of steps |
| `Council.ExhaustedIsStuck` | internal/nexum/council.go:264-268 | once the steps are used up no run records anything more |
| `Council.ExecuteIff` | internal/nexum/council.go:217-241 | execution is granted exactly to a party of an open, unanimous, satisfied council with a step and budget left |
| `CouncilRuns.GrantedDoes` | internal/nexum/council.go:126-241 | every granted call writes the one receipt it is for and changes what it is for and nothing else: the requirement met, the party joined, the council closed |
| `CouncilRuns.RefusalTells` | internal/nexum/council.go:126-287 | whatever error a call returns, the fault it names is there |
| `CouncilRuns.RunTold` | internal/nexum/council.go:126-287 | over every run a party is a member exactly when it has an opt-in receipt, and only one; as many satisfy receipts as met requirements; and a requirement is met exactly when a receipt of its holder cites it, where no identifier goes on from another of its holder behind a colon |
| `CouncilRuns.OpenedTold` | internal/nexum/council.go:60-113 | every council that opens begins such a run |
| `CouncilRuns.LongerIdCitesShorter` | internal/nexum/council.go:126-159 | that condition is needed: meeting the longer requirement leaves a receipt that cites the shorter one, which is not met |
| `CouncilRuns.WayExecutes` | internal/nexum/council.go:126-241 | from its opening, with steps and budget for it, a council in which every holder meets its requirements and then every party joins grants the execution |
| `CouncilRuns.OpenedAhead` | internal/nexum/council.go:60-113 | what opens within its budget and with steps for the whole way is such a council |
| `CouncilRuns.OpenedIs` | internal/nexum/council.go:60-113 | what opens is gathering, with the given decision and requirements, none of them met, nobody joined, and 32 steps by default |
| `Council.Board.SatisfyReq` | internal/nexum/council.go:126-159 | the mutable council computes the specified transition, its loops included |
| `Council.Board.Join` | internal/nexum/council.go:173-195 | joining records the party and writes its receipt, as specified |
| `Council.Board.Veto` | internal/nexum/council.go:198-212 | likewise for refusing |
| `Council.Board.RunDecision` | internal/nexum/council.go:217-241 | likewise for executing |
| `Council.Board.RefreshReady` | internal/nexum/council.go:243-253 | the council becomes ready exactly when it was open and every requirement is met |
| `Council.Board.PartyReqsMet` | internal/nexum/council.go:161-168 | the loop decides whether all of a party's requirements are met |
| `Council.Board.Append` | internal/nexum/council.go:264-287 | the step is counted first and the receipt is written only when steps and budget allow |

## Left out

- Ed25519, X25519, HPKE, AES-GCM, ECDH and public-key validation: library code; predicates or exact round trips stand for them.
- JSON, base64, hex and time formatting, UTF-8 replacement and file permissions: only injectivity and round trips are used; a string that JSON would rewrite, the 16 MiB record limit and trailing garbage are not modelled; a record whose operation index is absent altogether reads as one with an empty index.
- Zero-knowledge, semantic security and constant time: matters of probability and of machines. Of soundness against a dishonest prover the algebra is proved: one digest at most per commitment; how hard it is to hit that digest is a matter of the hash.
- SHA-256 in the equality proof: any function of ciphertext, amount and commitment, which covers the source's hash of its domain text and their joined byte strings; that distinct triples could share a text is not stated.
- Primality testing and random generation: primes and draws are arguments; that a usable pair of primes is drawn or a valid nonce exists is a matter of chance and is not claimed.
- Paillier.NewPaillier: the unbounded retry of key generation is a finite list of draws, after which it reports the error.
- The convenience method Encrypt with its own randomness and Mul: not used by the ledger.
- The budget check uses reals instead of floating point, and terms digests use the text of the two costs and of the unit as given.
- internal/settle/batch.go, internal/nexum/delegate.go, internal/nexum/token.go, message envelopes, trades, identities, the command-line tool and the site: short straight-line code whose properties can be read from the bodies.
- Store: the removal of stale temporary files is not modelled, since no step reads them; a renamed file whose contents a crash took reads as missing; the lock of the operating system is a lock per contract.
- StoreRuns: handles work on values of the record, not on shared mutable contracts; the mutable forms are Kernel.Agreement and Contracts.Contract.
- Council.OpenCouncil: the sorted list of parties is an argument that must be a rearrangement of the given ones; that it is in order is not used.
- BatchSeal: agreements are values, so the check for a nil pointer is not there.
- Pow.Search: one worker's action is atomic, as its loads and stores are; the header's byte layout is a parameter, and neither the cut of the difficulty to 32 bits in it nor the refusal of a search for more than 64 bits is modelled.
- KeccakF.Plane: the assignment of the group's words to the temporaries bc0 to bc4 is the rotation Spin instead of ten named assignments.
- Sponge: the little-endian host's reinterpretation of the bytes as words in place is the decoding and encoding of the big-endian branch; cSHAKE, SHAKE and SHA-3 constructors do not exist in this copy and only their domain bytes appear.
- internal/l2/receipts.go, SealReceipts and VerifyReceiptBatch: straight-line uses of ReceiptRoot, Pow.Valid and the search.

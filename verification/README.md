# Tuxedo, modelled and verified

Tuxedo is a framework for blockchain runtimes whose state is a set of unspent transaction outputs
(UTXOs). This project models its core in Dafny and proves properties of whole runs, whole chains
and the wallet that follows them.

* **The executive** validates and applies transactions on a key-value store, and runs blocks in two
  separately written ways, for authoring and for import. `Executive` is the object with the
  source's loops; `Ledger`, `Refinement` and `Blocks` say what it computes; `Verdicts` says which
  error is given when, and `Signing` what verifiers are shown; `Pool` is what the transaction pool
  may rely on; `Genesis` is the initial state.
* **The wardrobe's pieces** (`Money`, `Kitties`, `Amoeba`, `Poe`, `Timestamps`, `Parachain`, and the
  runtime upgrade inside `Wardrobe`) are local checks on data laid out as in `Payloads`. `Supply`,
  `Breeding`, `Kraft`, `Claims`, `Clock`, `Upgrades` and `RelayChain` prove what they amount to over
  every run in which all pieces take part.
* **The inherent pipeline** goes through an arbitrary tree of aggregated checkers (`Inherents` for
  creating, `InherentChecks` for checking; `Aggregator` is the generated code statement by
  statement; `InherentPieces` holds the timestamp and parachain hooks with all their panics).
  `Continuity` follows it from block to block.
* **The wallet** keeps an index of the chain and rolls it back on re-organisations (`Wallet`,
  `WalletChain`; `WalletSync` is the database object). `Slots` and `Rollback` say exactly which
  blocks rolling back undoes, and `Remint` shows a chain on which it loses a coin. `WalletLedger`
  ties the index to the executive, `Holdings` says what it holds and adds up to, and `Mirror` puts
  node, wallet and executive together.
* **Encodings** (`Scale`, `TxCodec`) are the SCALE codec of section A.2.2 of the Polkadot Protocol
  Specification, as far as transactions, headers and storage keys need it. `Canon` looks at them
  from the decoder.

## How to read the model

* `Types.Runtime` is what a runtime plugs into the executive: codecs, hash, verifiers, constraint
  checkers, trie roots. They are values, so every theorem holds for all of them. Where a law of the
  encodings is needed the theorem requires `LawfulCodecs`; `TxCodec.ScaleIsLawful` discharges it for
  the real ones. `Wardrobe.Dresses` says that the checkers are the wardrobe's pieces, aggregated in
  any way; `Refinement.Confined`, which `Wardrobe.WardrobeConfined` proves of them, says that
  checkers set no storage belonging to the executive.
* Storage is `map<Bytes, Bytes>`. `UtxoSet.Abs` is the abstract state a storage stands for: height,
  UTXO set, and the ambient rest. A run is a list of events, each opening a block or applying an
  accepted transaction.
* Panics are results: `None`, `false`, or the errors `HeightMissing` and `HeightUnknown`. Machine
  integers are bounded subset types and wrap-around is written out. A `Vec` is a sequence shorter
  than 2^32; block bodies are unbounded.
* Hashes are uninterpreted. What a theorem needs of them it says: genesis transactions that hash
  alike make the same outputs (`NoClash`), a hash identifies its block (`SameHashSameBlock`). For
  rolling back only, the blocks to be undone must be undoable (`Rollback.Undoable`), for which it is
  enough that no reference is created twice (`FairChain`, `CreatedOnce`).

Some facts of the code shape the results.

* The duplicate check compares inputs together with their redeemers, so a coin can be named twice
  in one transaction. `Supply.BalancedIff` says exactly when the books balance nevertheless, and
  `Supply.CountedTwice` exhibits the failure for every coin whose verifier accepts two redeemers.
* A mitosis at the highest generation wraps around to generation zero. `Kraft.KraftOverAllRuns`
  counts what that adds, `Kraft.KraftOverRuns` says exactly on which runs shares are kept, and
  `Kraft.SharesFromNothing` exhibits the failure.
* Wallet rollback is not always exact, because the executive accepts an input free transaction again
  once its outputs are spent. `Rollback.RollbackAllIff` says exactly which lists of transactions are
  undone, and `WalletChain.RollbackExact` lifts it to blocks. A coin minted and burned twice within
  one block is undone exactly (`Remint.UndoneTogether`, on tables that do not know the coin). With one
  transaction per block it is lost: unapplying the last three blocks succeeds, but the coin of the
  first mint is gone from the unspent table (`Remint.LosesACoin`). Following the chain is not
  affected: `WalletLedger.IndexAgreesWithStorage` holds on such chains too.
* A piece's own inherent hooks can panic: the timestamp check does on a block whose inherent has no
  timestamp in its first output. `InherentChecks.CheckExact` says exactly when checking panics,
  `InherentPieces.ClockDecides` what that means for the timestamp piece, and
  `InherentPieces.MutePanics` gives a block.
* The length in front of a transaction is read and thrown away, so a transaction decodes from as many
  byte strings as there are lengths; nothing else about an encoding is free (`Canon.TxDecodesIff`).
  The wallet ignores what follows the fields of an opaque extrinsic (`Canon.OpaqueDecodesIff`).
* `SetParachainInfo` stores the relay parent number before its later tests, so what
  `RelayChain` says about that key is about accepted transactions.

## Model

| member | source | states |
|---|---|---|
| `Scale.CompactRoundTrip` | tuxedo-core/src/types.rs:80-117 | every compact length prefix decodes to itself and leaves the rest, in all four modes |
| `Scale.VecRoundTrip` | tuxedo-core/src/types.rs:80-117 | a vector of any lawfully encoded items decodes to itself and leaves the rest |
| `TxCodec.RefRoundTrip` | tuxedo-core/src/types.rs:28-36 | an output reference is 36 bytes and decodes to itself |
| `TxCodec.TxRoundTrip` | tuxedo-core/src/types.rs:80-117 | decoding an encoded transaction followed by anything gives the transaction and exactly the rest, although the written length is truncated to 32 bits and ignored on reading |
| `TxCodec.TxInjective` | tuxedo-core/src/types.rs:80-117 | different transactions have different encodings |
| `TxCodec.OpaqueEncodingAgrees` | tuxedo-core/src/types.rs:80-96 | for a body under 2^32 bytes the encoding equals that of the body as a byte vector, so typed and opaque hashes coincide |
| `TxCodec.OpaqueDecodes` | wallet/src/sync.rs:275-280 | the opaque form decodes to the typed transaction with nothing left over |
| `TxCodec.HeaderLawful` | tuxedo-core/src/executive.rs:249-317 | an encoded header, as kept under the header key, decodes to itself |
| `TxCodec.DigestRoundTrip` | tuxedo-core/src/types.rs:20-22 | every digest item of a header, under its own tag, decodes to itself |
| `TxCodec.GenesisListRoundTrip` | tuxedo-core/src/genesis/block_builder.rs:66-69 | the block builder reads back exactly the transactions that the config builder stored |
| `TxCodec.ScaleIsLawful` | tuxedo-core/src/types.rs:80-117 | all of Tuxedo's encodings satisfy the laws the other theorems require |
| `Canon.CompactCanonical` | tuxedo-core/src/types.rs:98-117 | a compact number is only read back in the shortest of the four modes that holds it |
| `Canon.CompactBytes` | tuxedo-core/src/types.rs:80-96 | the bytes of compact numbers at both borders of each mode |
| `Canon.LittleEndian` | tuxedo-core/src/utxo_set.rs:17-44 | byte i of a fixed width number has the weight 256^i |
| `Canon.HeaderCanonical` | tuxedo-core/src/types.rs:20-22 | a header has one encoding: whatever decodes to it is that |
| `Canon.HeaderLayout` | tuxedo-core/src/types.rs:20-22 | parent hash, compact number, state root, extrinsics root and digest, in this order |
| `Canon.InputLayout` | tuxedo-core/src/types.rs:158-180 | the reference, then a tag, then for a redemption the redeemer with its length |
| `Canon.TxLayout` | tuxedo-core/src/types.rs:80-96 | the length in 32 bits, then inputs, peeks, outputs and checker |
| `Canon.TxDecodesIff` | tuxedo-core/src/types.rs:98-117 | a transaction decodes from exactly the byte strings that hold some compact number, its fields, and what is left over |
| `Canon.OpaqueDecodesIff` | wallet/src/sync.rs:275-280 | an opaque extrinsic decodes to exactly the transaction whose fields it begins with |
| `Types.RefKeyInjective` | tuxedo-core/src/utxo_set.rs:17-44 | two references share a storage key only if they are equal |
| `UtxoSet.RefKeysAreReserved` | tuxedo-core/src/lib.rs:31-41 | no UTXO key is one of the executive's special keys |
| `UtxoSet.SpecialKeysDiffer` | tuxedo-core/src/lib.rs:31-41 | the three special keys are pairwise different |
| `UtxoSet.SameUtxos` | tuxedo-core/src/utxo_set.rs:17-44 | the UTXO set depends only on the entries under 36 byte keys |
| `UtxoSet.HeightIsStored` | tuxedo-core/src/executive.rs:240-244 | the height is what was stored last, and none, where the source panics, if nothing is stored that decodes |
| `Ledger.ValidateIff` | tuxedo-core/src/executive.rs:52-187 | validation succeeds with nothing missing exactly on the declarative notion of acceptance |
| `Ledger.AcceptedIff` | tuxedo-core/src/executive.rs:192-213 | application succeeds exactly on accepted transactions, and the new state is the map update plus the checker's writes |
| `Verdicts.RefusedIff` | tuxedo-core/src/executive.rs:52-187 | each error of validation exactly on its own condition, in the order of the source; the error of a bad redeemer is that of the first |
| `Verdicts.AppliedOutcome` | tuxedo-core/src/executive.rs:192-213 | application repeats the verdict, fails for a missing input exactly when something is absent, and keeps what the checker wrote also if the checker refused, but nothing else |
| `Signing.ShownAlikeIff` | tuxedo-core/src/executive.rs:70-76 | verifiers are shown the same bytes exactly for transactions that differ at most in their redeemers |
| `Signing.SignedAcceptedIff` | wallet/src/money.rs:159-183 | a transaction with empty redeemers that is otherwise in order is accepted, with redeemers put in place, exactly when each satisfies its verifier over the encoding with empty redeemers |
| `Ledger.AfterContents` | tuxedo-core/src/executive.rs:219-237 | an accepted transaction overwrites no existing UTXO; the result holds exactly its outputs and the old UTXOs that are not inputs |
| `Ledger.ArgsAgree` | tuxedo-core/src/executive.rs:81-117 | what a checker is shown depends only on the UTXOs the transaction mentions |
| `Ledger.RunAppend` | tuxedo-core/src/executive.rs:192-213 | runs compose |
| `Ledger.RunAround` | tuxedo-core/src/executive.rs:321-386 | every transaction of a run was accepted where its predecessors led, and the rest is a run from there |
| `Refinement.UpdatedUtxos` | tuxedo-core/src/executive.rs:219-237 | clearing the input keys and setting the output keys means removing the input references and adding the outputs |
| `Refinement.ApplyRefines` | tuxedo-core/src/executive.rs:192-237 | application on storage does to the abstract state what the ledger step says, with the same result |
| `Refinement.ApplyFrame` | tuxedo-core/src/executive.rs:192-237 | application touches no special key, and a failing one leaves everything but the checker's own writes, in particular the UTXO set |
| `Refinement.EncodedSetSize` | tuxedo-core/src/executive.rs:60-69 | the set of encoded inputs is as large as the list exactly when no input, with its redeemer, is repeated |
| `Executive.Executive.InputsAreDistinct` | tuxedo-core/src/executive.rs:60-69 | the duplicate check decides that no two inputs are equal |
| `Executive.Executive.ScanInput` | tuxedo-core/src/executive.rs:84-105 | one input is redeemed, evicted or missing, with the error its redemption raises |
| `Executive.Executive.ScanInputs` | tuxedo-core/src/executive.rs:81-106 | the input loop finds the first verifier error, or sorts the payloads into redeemed and evicted and collects the missing references |
| `Executive.Executive.ScanPeeks` | tuxedo-core/src/executive.rs:108-117 | the peek loop collects the payloads and the missing peeks in order |
| `Executive.Executive.OutputsAreFresh` | tuxedo-core/src/executive.rs:119-136 | the output loop decides that no output exists yet |
| `Executive.Executive.ValidateTuxedoTransaction` | tuxedo-core/src/executive.rs:52-187 | validation on storage returns the ledger's verdict and changes nothing but what the checker sets |
| `Executive.Executive.ConsumeInputs` | tuxedo-core/src/executive.rs:219-223 | the consuming loop removes exactly the input keys |
| `Executive.Executive.UpdateStorage` | tuxedo-core/src/executive.rs:219-237 | the two loops produce exactly the updated storage |
| `Executive.Executive.ApplyTuxedoTransaction` | tuxedo-core/src/executive.rs:192-213 | full application on storage, every error path included |
| `Executive.Executive.OpenBlock` | tuxedo-core/src/executive.rs:249-265 | header and height are stored and nothing else changes |
| `Executive.Executive.ApplyExtrinsic` | tuxedo-core/src/executive.rs:267-292 | the extrinsic is noted before it is applied, and stays noted if that fails |
| `Executive.Executive.CloseBlock` | tuxedo-core/src/executive.rs:294-317 | the header gets both roots and the transient keys are cleared |
| `Executive.Executive.RunExtrinsics` | tuxedo-core/src/executive.rs:334-358 | the flag loop succeeds exactly on inherents-first lists whose transactions all apply |
| `Executive.Executive.ExecuteBlock` | tuxedo-core/src/executive.rs:321-386 | import succeeds exactly where the block function does, with its storage |
| `Blocks.InherentsFirstStep` | tuxedo-core/src/executive.rs:336-347 | what the flag decides at each transaction is that inherents come first |
| `Blocks.NotedIsStored` | tuxedo-core/src/executive.rs:267-292 | the noted extrinsics are what was stored last, and none if nothing is stored that decodes |
| `Blocks.ApplyIgnoresTransient` | tuxedo-core/src/executive.rs:192-237 | a transient key neither influences application nor is influenced by it |
| `Blocks.AuthorIsRun` | tuxedo-core/src/executive.rs:267-292 | authoring reaches the storage of plain application plus the list of noted extrinsics |
| `Blocks.AuthoredIsImportable` | tuxedo-core/src/executive.rs:249-386 | a block authored inherents-first from storage without transient keys is accepted by import and leads to identical storage |
| `Blocks.ImportedIsReauthorable` | tuxedo-core/src/executive.rs:249-386 | re-authoring an accepted block reproduces its roots and the same storage |
| `Blocks.ExecuteIsRun` | tuxedo-core/src/executive.rs:321-386 | an imported block is a run of accepted transactions of the abstract state |
| `Blocks.ImportIsRun` | tuxedo-core/src/executive.rs:321-386 | an imported chain is a run, so whatever holds over runs holds over chains |
| `Blocks.ImportedBlockIsRun` | tuxedo-core/src/executive.rs:321-386 | each block of an imported chain is a run from the state before it to the state after it |
| `Blocks.ImportLeavesNothingTransient` | tuxedo-core/src/lib.rs:31-41 | no imported chain leaves a transient key behind |
| `Genesis.GenesisConfigBuilder.Build` | tuxedo-core/src/genesis/config_builder.rs:25-64 | succeeds exactly on inherents-first lists without inputs and peeks, and writes all outputs |
| `Genesis.GenesisState` | tuxedo-core/src/genesis/config_builder.rs:50-60 | the written storage stands for the old UTXO set overlaid with the genesis outputs |
| `Genesis.GenesisIsReady` | tuxedo-core/src/genesis/config_builder.rs:25-64 | on top of whatever unreserved storage the runtime brings along, the chain starts at height zero, with exactly the genesis UTXOs and no transient key |
| `Genesis.GenesisContents` | tuxedo-core/src/genesis/config_builder.rs:50-60 | unless hashes clash, the genesis set holds each output of each transaction and nothing else |
| `Pool.NeededTagsExact` | tuxedo-core/src/executive.rs:81-164 | `requires` lists exactly the absent inputs and peeks |
| `Pool.NeededTagsInOrder` | tuxedo-core/src/executive.rs:81-164 | they are listed in the order in which the transaction names them, inputs before peeks |
| `Pool.ProvidedTagsExact` | tuxedo-core/src/executive.rs:138-182 | the `provides` tags of a verdict are exactly the transaction's own outputs, also while something is missing |
| `Pool.ProvidedIsAdded` | tuxedo-core/src/executive.rs:138-148 | for an accepted transaction these are exactly the references that application adds |
| `Pool.ReleasedByTags` | tuxedo-core/src/executive.rs:138-182 | once each tag a verdict needs has been provided by a transaction applied since and not consumed again, and nothing else mentioned has been consumed, validating anew needs nothing |
| `Pool.FirstFailureIsNotMissing` | tuxedo-core/src/executive.rs:81-213 | in a list where each tag is provided earlier and not consumed in between, the first failure is never a missing input |
| `Pool.StillApplicable` | tuxedo-core/src/executive.rs:84-136 | applying one of two independent transactions leaves the other as applicable as before |
| `Pool.IndependentCommute` | tuxedo-core/src/executive.rs:84-237 | every permutation of pairwise independent applicable transactions applies and reaches the same state |
| `Money.AddUp` | wardrobe/money/src/lib.rs:165-195 | the summing loop finds the first badly typed, worthless or overflowing coin, or the exact total |
| `Money.CheckMoney` | wardrobe/money/src/lib.rs:143-228 | the loops of the check return what the specification function says, error by error |
| `Money.SpendMeaning` | wardrobe/money/src/lib.rs:156-201 | a spend passes exactly when real coins pay for positive coins within 128 bits; the surplus is the priority |
| `Money.MintPasses` | wardrobe/money/src/lib.rs:203-226 | a mint passes exactly when it creates at least one coin, all positive, from nothing |
| `Money.ObeysRules` | wardrobe/money/src/lib.rs:143-228 | the error is that of the first requirement not met, coin by coin within the lists; what a spend burns, capped at 64 bits, is the priority |
| `Kitties.BreedingMeaning` | wardrobe/kitties/src/lib.rs:310-535 | the check passes exactly when two ready kitties become two tired ones, whose counters moved by one as integers, and a ready kitten with the right DNA |
| `Kitties.ObeysRules` | wardrobe/kitties/src/lib.rs:310-535 | the error is that of the first requirement not met: of the parents, the family's size and types, the new mom, the new dad and the kitten |
| `Amoeba.LifeCycle` | wardrobe/amoeba/src/lib.rs:86-236 | the three checks in terms of generations: from nothing into generation zero, into two of the next generation, into nothing |
| `Amoeba.ObeysRules` | wardrobe/amoeba/src/lib.rs:86-236 | the error is that of the first requirement not met |
| `Poe.PoeMeaning` | wardrobe/poe/src/lib.rs:102-231 | the three checks pass exactly for claims not in the past, revocations of claims, and disputes won by a strictly earlier claim to the same hash |
| `Poe.ObeysRules` | wardrobe/poe/src/lib.rs:102-231 | the error is that of the first requirement not met, claim by claim within the lists |
| `Timestamps.CleanUpPassesIff` | wardrobe/timestamp/src/lib.rs:334-379 | a clean up passes exactly when it only evicts timestamps expired by time and by block |
| `Timestamps.SetObeysRules` | wardrobe/timestamp/src/lib.rs:148-211 | setting the clock fails with the error of the first requirement not met; the interval is 2000 |
| `Timestamps.CleanUpObeysRules` | wardrobe/timestamp/src/lib.rs:334-379 | cleaning up fails with the error of the first requirement not met, eviction by eviction; the ages are 86400000 and 15000 |
| `Parachain.ObeysRules` | wardrobe/parachain/src/lib.rs:126-174 | the error is that of the first requirement not met; the number is stored as soon as there is one output and it decodes |
| `Payloads.CoinReads` | wardrobe/money/src/lib.rs:60-98 | a payload reads as a coin of a value exactly when it has the type and begins with the value's 16 bytes |
| `Payloads.KittyReads` | wardrobe/kitties/src/lib.rs:111-208 | likewise a kitty: parent tag and status, free breedings, DNA, number of breedings |
| `Payloads.AmoebaReads` | wardrobe/amoeba/src/lib.rs:27-38 | likewise an amoeba: its generation, with four more bytes to follow |
| `Payloads.ClaimReads` | wardrobe/poe/src/lib.rs:40-49 | likewise a claim: hash and height |
| `Payloads.TimestampReads` | wardrobe/timestamp/src/lib.rs:41-50 | likewise a timestamp: time and block |
| `Payloads.RuntimeRefReads` | wardrobe/runtime_upgrade/src/lib.rs:32-38 | likewise a reference to a runtime: its hash |
| `Payloads.Names` | tuxedo-core/src/lib.rs:31-41 | types and storage keys are named as in the source |
| `Wardrobe.WardrobeConfined` | wardrobe/parachain/src/lib.rs:134-138 | no piece sets storage that belongs to the executive |
| `Wardrobe.DressFits` | tuxedo-core/aggregator/src/lib.rs:252-274 | dispatching every call to its leaf gives a runtime that meets the hypotheses of all theorems about the wardrobe |
| `Wardrobe.TypesDiffer` | tuxedo-core/src/dynamic_typing.rs:78-86 | the type identifiers of the pieces are pairwise different |
| `Wardrobe.KeepsToOwnType` | tuxedo-template-runtime/src/lib.rs:140-162 | whatever check passes, it consumed and created only its own piece's type |
| `Wardrobe.AcceptedKeepsToOwnType` | tuxedo-template-runtime/src/lib.rs:140-162 | every accepted transaction consumes and creates only UTXOs of its own piece's type |
| `Sums.TotalAfter` | tuxedo-core/src/executive.rs:219-237 | how any measure of the UTXO set changes with an accepted transaction, with repeated references counted once |
| `Conservation.ForeignTotal` | tuxedo-core/src/dynamic_typing.rs:78-86 | no transaction of one piece moves a total of another |
| `Conservation.ForeignKeeps` | tuxedo-core/src/dynamic_typing.rs:78-86 | no transaction of one piece consumes a UTXO of another |
| `Supply.SupplyStep` | wardrobe/money/src/lib.rs:156-228 | the exact balance of every accepted transaction of every piece: minted minus burned plus what was counted twice |
| `Supply.BalancedIff` | tuxedo-core/src/executive.rs:60-69 | the books balance exactly for transactions that name no coin of value twice |
| `Supply.SupplyOverAllRuns` | wardrobe/money/src/lib.rs:156-228 | over every run, the supply is the initial one plus minted, minus burned, plus what was counted twice |
| `Supply.SupplyOverRuns` | wardrobe/money/src/lib.rs:156-228 | with distinct references, the supply after any run is the initial one plus minted minus burned |
| `Supply.OnlyMintRaises` | wardrobe/money/src/lib.rs:203-226 | no run without minting raises the supply |
| `Supply.CountedTwice` | tuxedo-core/src/executive.rs:60-69 | in every state, a coin whose verifier accepts two redeemers is accepted as two inputs, and the supply grows by its value |
| `Breeding.BreedingStep` | wardrobe/kitties/src/lib.rs:509-535 | a breeding costs one ready kitty, adds one kitty, and leaves at least one ready |
| `Breeding.BreedingOverRuns` | wardrobe/kitties/src/lib.rs:310-535 | over every run ready kitties plus breedings is constant, the population grows by one per breeding, and breedings stay below the initial ready kitties |
| `Breeding.TiredForever` | wardrobe/kitties/src/lib.rs:310-356 | a kitty that has bred is never consumed again, so each breeds at most once |
| `Kraft.AmoebaShape` | wardrobe/amoeba/src/lib.rs:86-236 | inputs, outputs and generations of every accepted amoeba transaction |
| `Kraft.MitosisConservesIff` | wardrobe/amoeba/src/lib.rs:96-131 | mitosis keeps the sum of 2^-generation exactly when the mother's generation does not wrap |
| `Kraft.SharesFromNothing` | wardrobe/amoeba/src/lib.rs:96-131 | in every state, an amoeba of the highest generation can be split into two of generation zero, and the shares grow |
| `Kraft.KraftOverAllRuns` | wardrobe/amoeba/src/lib.rs:86-236 | over every run, the shares of living and dead amoebas add up to the initial ones, one unit per creation, and a fixed surplus for each mitosis that wraps |
| `Kraft.KraftOverRuns` | wardrobe/amoeba/src/lib.rs:86-236 | the equality without surplus holds exactly on the runs in which no generation wraps |
| `Claims.LostToEarlier` | wardrobe/poe/src/lib.rs:186-231 | without revocation a claim disappears only to a strictly earlier claim to the same hash, which stays |
| `Claims.StaysClaimed` | wardrobe/poe/src/lib.rs:186-231 | without revocation a claimed hash stays claimed, at the same height or an earlier one |
| `Claims.EarliestClaimSurvives` | wardrobe/poe/src/lib.rs:127-227 | without revocation a claim of minimal effective height is never evicted |
| `Clock.SetShape` | wardrobe/timestamp/src/lib.rs:148-211 | what every accepted clock update creates and peeks at |
| `Clock.RecentSurvives` | wardrobe/timestamp/src/lib.rs:344-379 | no event of any piece removes a timestamp, except a clean up in which the stored block plus 15000, in 32 bits, is below the height |
| `Clock.ClockOverRuns` | wardrobe/timestamp/src/lib.rs:163-207 | over every run whose times stay within 64 bits, each timestamp is at least 2000 per block since block one, and from block two on has a predecessor at least 2000 earlier; with clean up, heights that do not go down and block numbers that cannot wrap, at least in the last 15000 blocks |
| `Clock.GenesisTicks` | wardrobe/timestamp/src/lib.rs:299-311 | the genesis timestamp satisfies the invariant of the clock |
| `RelayChain.UpdateStep` | wardrobe/parachain/src/lib.rs:114-168 | an accepted update moves the sole parachain info to its own output, raises the number and stores it |
| `RelayChain.SoleOverRuns` | wardrobe/parachain/src/lib.rs:114-168 | over every run there is exactly one parachain info, the announced numbers strictly increase, and the stored number is the last one |
| `Upgrades.UpgradePassesIff` | wardrobe/runtime_upgrade/src/lib.rs:75-128 | an upgrade passes exactly when it redeems one reference, to the code that is stored, and its one output refers to the new code; it writes the new code then, and nothing otherwise |
| `Upgrades.AttestedOverRuns` | wardrobe/runtime_upgrade/src/lib.rs:75-128 | over every run the stored code is that of the last upgrade, and exactly one output refers to a runtime, by that code's hash |
| `RelayChain.ValidateBlock` | tuxedo-parachain-core/src/validate_block.rs:89-121 | the assertions, the execution and the reading of the stored number compute the specified head data and watermark, or stop |
| `RelayChain.ValidIff` | tuxedo-parachain-core/src/validate_block.rs:90-235 | a block is valid, with a given result, exactly when the given head is that of its parent, the first parachain inherent among those that open it announces the three given values, it executes, that leaves the watermark stored, and the head data is its header |
| `RelayChain.NextIsChild` | tuxedo-parachain-core/src/validate_block.rs:97-100 | a block validated against the head data of an earlier result has the hash of that result's header as its parent hash |
| `RelayChain.WatermarkMeaning` | tuxedo-parachain-core/src/validate_block.rs:211-235 | the watermark is at least the relay parent number, and equal to it exactly when the block holds one parachain inherent; the head data is the block's header |
| `Inherents.LeavesAreDistinct` | tuxedo-core/aggregator/src/lib.rs:276-306 | no inherent leaf of a checker type is listed twice |
| `Inherents.CreateExact` | tuxedo-core/aggregator/src/lib.rs:276-306 | for every tree, creation succeeds exactly when each leaf had one inherent in the parent and no piece panics on its own, and yields one per leaf in tree order, each made by its piece from its own predecessor and outer hash |
| `Inherents.CreateSupplied` | tuxedo-core/src/inherents.rs:184-202 | with the data at hand, creation succeeds exactly when each leaf had one inherent in the parent |
| `InherentChecks.CheckIsOnePass` | tuxedo-core/aggregator/src/lib.rs:308-332 | for every tree, splitting by variant, handing down and returning early amounts to one pass over the leaves in tree order |
| `InherentChecks.CheckExact` | tuxedo-core/aggregator/src/lib.rs:308-332 | for every tree, checking ends without a fatal error exactly when each leaf has one inherent that raises nothing fatal and no error under a used identifier; it ends fatally, or panics, exactly when the first leaf that does not clear fails, or panics; a fatal report holds exactly that leaf's error, the wrong number of inherents or the one its piece raised; the stub's assertion never fires |
| `InherentChecks.CheckedHasChild` | tuxedo-core/src/executive.rs:463-491 | a block checked without a fatal error lets its child be given inherents, if the author has the data |
| `InherentPieces.SuppliesIff` | wardrobe/timestamp/src/lib.rs:217-255 | the two pieces make their inherents exactly when clock, height, relay data and an unspendable verifier are there |
| `InherentPieces.ClockDecides` | wardrobe/timestamp/src/lib.rs:257-297 | checking a block panics exactly when the node has no clock or the one timestamp inherent announces no timestamp, no leaf before it being short of an inherent; it ends without a fatal error exactly when every leaf has one inherent and the announced time is not fatally far ahead |
| `InherentPieces.ClockReports` | wardrobe/timestamp/src/lib.rs:257-297 | what is reported otherwise: a fatal drift of more than 60000 alone and under the timestamp's identifier, a wrong number of inherents alone and under the adapter's, a drift that is not fatal, or nothing |
| `InherentPieces.MutePanics` | wardrobe/timestamp/src/lib.rs:257-297 | a block whose only inherent is a timestamp without output makes checking panic, whatever the node's data |
| `Inherents.GenesisLeaves` | tuxedo-core/aggregator/src/lib.rs:334-350 | with one genesis transaction per piece, the genesis inherents are one per leaf in tree order |
| `Inherents.GenesisMade` | tuxedo-core/src/inherents.rs:236-243 | each leaf's genesis transaction is its piece's own in outermost form |
| `Inherents.ContinuityStep` | tuxedo-core/src/executive.rs:426-460 | a block with one inherent per leaf lets the next block have one per leaf, given the data |
| `Inherents.InherentsNeverFail` | tuxedo-core/src/executive.rs:426-460 | from genesis on, with any user transactions and whatever data the pieces need, creating inherents never panics |
| `Aggregator.CreateInherents` | tuxedo-core/aggregator/src/lib.rs:276-306 | the vector extended variant by variant is the specified one, and exists exactly when each leaf had one inherent and no piece panics |
| `Aggregator.CheckInherents` | tuxedo-core/aggregator/src/lib.rs:308-332 | the report written variant by variant, with early return, is the specified one, free of fatal errors exactly when every leaf clears, and otherwise holds the error of the first that fails |
| `Aggregator.CollectGenesis` | tuxedo-core/aggregator/src/lib.rs:334-350 | the collected genesis transactions are the specified ones, one per leaf |
| `Aggregator.CheckInherentsResult.PutError` | tuxedo-core/src/inherents.rs:204-234 | a fatal error replaces all others, nothing can be recorded after it, and no identifier is used twice |
| `InherentPieces.TimestampRoundTrip` | wardrobe/timestamp/src/lib.rs:217-255 | a timestamp put into an output is the one extracted from it |
| `Continuity.TimestampAwaits` | wardrobe/timestamp/src/lib.rs:217-255 | after a block, the timestamp its clock update made is stored under the update's hash and index zero |
| `Continuity.InfoAwaits` | wardrobe/parachain/src/lib.rs:176-222 | after a block, the sole parachain info is output zero of its last update |
| `Continuity.NextTimestampAcceptedIff` | wardrobe/timestamp/src/lib.rs:163-255 | a made clock update is accepted exactly when it is new, comes next, and at least 2000 have passed or it follows genesis |
| `Continuity.NextInfoAcceptedIff` | wardrobe/parachain/src/lib.rs:126-222 | a made relay data update is accepted exactly when it is new and the relay parent number grew |
| `Continuity.ReadyAtUse` | tuxedo-core/src/executive.rs:443-460 | the reference of each made inherent is still there, unchanged, when the inherents before it have been applied |
| `Continuity.MadeRunIff` | wardrobe/timestamp/src/lib.rs:163-255 | made inherents whose references are there can be applied in order exactly when each makes something new, the clock moved on and the relay parent number grew |
| `Continuity.NewIsFresh` | tuxedo-core/src/executive.rs:119-136 | an inherent whose output is absent at the start and whose hash is its own makes something new when its turn comes |
| `Continuity.TimestampContinuity` | tuxedo-core/src/executive.rs:443-460 | on top of every block of an imported chain with one inherent per leaf, the made clock update peeks at that block's own timestamp, which is in the UTXO set whatever has been applied to the child before |
| `Continuity.InfoContinuity` | tuxedo-core/src/executive.rs:443-460 | likewise the made relay data update evicts the sole parachain info, which is in the UTXO set while nothing in the child updates it |
| `Continuity.ChildInherentsRunIff` | tuxedo-core/src/executive.rs:426-460 | on top of every such block, all references of the made list are there, and the list can be applied to the child in order exactly when each inherent is due |
| `Continuity.GenesisContinuity` | wardrobe/timestamp/src/lib.rs:299-311 | the first block's inherents refer to outputs that the genesis state holds |
| `Continuity.FirstInherentsRunIff` | wardrobe/parachain/src/lib.rs:240-255 | the first block's made list can be applied in order exactly when each inherent is due |
| `Continuity.ClockFromGenesis` | wardrobe/timestamp/src/lib.rs:299-311 | the clock's invariant holds after every chain imported on top of genesis |
| `Continuity.SoleFromGenesis` | wardrobe/parachain/src/lib.rs:240-255 | every state reachable from a genesis with one parachain info holds exactly one |
| `Wallet.SpendAllMoves` | wallet/src/sync.rs:331-343 | spending a list moves exactly the listed coins, whatever the order and repetitions |
| `Wallet.UnspendAllMoves` | wallet/src/sync.rs:345-357 | unspending a list moves exactly the listed coins back |
| `Wallet.ApplyOpaque` | wallet/src/sync.rs:270-305 | on the opaque form of a readable transaction the wallet adds the tracked outputs and spends the inputs, without error |
| `Wallet.RollbackIff` | wallet/src/sync.rs:360-381 | unapplying a transaction right after applying it restores the coins, under any filter, exactly when no input was already spent and no output already unspent |
| `Slots.UndoneIff` | wallet/src/sync.rs:331-381 | at one reference, undoing a list of marks last to first restores the two table entries exactly when nothing spent is spent again, and what is created was not unspent or had been spent before its first creation and not since |
| `Rollback.RollbackAllIff` | wallet/src/sync.rs:384-414 | unapplying a list of transactions last to first restores the coins, under any filter, exactly when no input is already spent and each output is not yet unspent, or is spent before the list first creates it and not again from there on |
| `Rollback.FreshIsUndoable` | wallet/src/sync.rs:384-414 | it is enough that each transaction, against the coins before the list, spends nothing spent and creates nothing unspent |
| `WalletChain.ThereAndBack` | wallet/src/sync.rs:245-414 | unapplying the highest block after applying the next never fails, restores the tables of blocks, and leaves the coins with the block's transactions unapplied |
| `WalletChain.RollbackExact` | wallet/src/sync.rs:245-414 | unapplying the highest block undoes applying the next block in all four tables exactly when the block is undoable on the coins before it |
| `WalletChain.RollbackFreshBlock` | wallet/src/sync.rs:245-414 | it does so for every block whose transactions, against the coins before the block, spend nothing spent and create nothing unspent |
| `WalletChain.TrackStep` | wallet/src/sync.rs:282-302 | inserting before spending keeps the unspent table the tracked part of the UTXO set, though the chain works the other way round, also where a reference comes back |
| `WalletChain.AgreeStep` | wallet/src/sync.rs:282-302 | a transaction that never recreates a reference is reversible and keeps the spent table to bygone outputs |
| `WalletChain.ReplayHashes` | wallet/src/sync.rs:245-264 | the height table of a replayed chain is exactly the chain's hashes |
| `WalletChain.ReplayBlocks` | wallet/src/sync.rs:245-264 | the block table of a replayed chain is exactly the chain's blocks |
| `WalletChain.IndexAgreesWithChain` | wallet/src/sync.rs:270-305 | after every chain that replaces no UTXO by another, the unspent table is the tracked part of the chain's UTXO set |
| `WalletChain.RollbackBlock` | wallet/src/sync.rs:384-414 | unapplying the best block of a replayed chain gives the replay of the chain without it, exactly when that block is undoable there |
| `WalletChain.UnapplyOutcome` | wallet/src/sync.rs:384-414 | unapplying succeeds exactly when there is a best block, it is in the table and its extrinsics decode; what has been removed before an error stays removed |
| `WalletChain.FairIsUndoable` | wallet/src/sync.rs:384-414 | every block of a chain that creates no reference twice is undoable where it stands |
| `WalletChain.CommonAncestor` | wallet/src/sync.rs:127-147 | two linked chains with the same hash at a height are the same up to there |
| `WalletSync.WalletDb.Open` | wallet/src/sync.rs:51-95 | a populated database opens only for its own genesis and is unchanged; an empty one gets the genesis hash and block |
| `WalletSync.WalletDb.Initialize` | wallet/src/main.rs:69-103 | opening and applying genesis gives the replay of the one block chain |
| `WalletSync.WalletDb.Height` | wallet/src/sync.rs:419-428 | the best height is one less than the number of block hashes, in 32 bits, none when there are none |
| `WalletSync.WalletDb.SpendOutput` | wallet/src/sync.rs:331-343 | a tracked coin moves from unspent to spent, anything else changes nothing |
| `WalletSync.WalletDb.UnspendOutput` | wallet/src/sync.rs:345-357 | a spent coin moves back, anything else changes nothing |
| `WalletSync.WalletDb.InsertNewOutputs` | wallet/src/sync.rs:282-297 | the output loop inserts the tracked coins in order and stops at the first unreadable one |
| `WalletSync.WalletDb.ApplyTransaction` | wallet/src/sync.rs:270-305 | the loops compute the specified coins and result |
| `WalletSync.WalletDb.ApplyBlock` | wallet/src/sync.rs:245-266 | all four tables after applying a block, and whether every transaction could be applied |
| `WalletSync.WalletDb.UnapplyTransaction` | wallet/src/sync.rs:360-381 | the loops unspend the inputs and drop the outputs as specified |
| `WalletSync.WalletDb.UnapplyHighestBlock` | wallet/src/sync.rs:384-414 | all four tables after removing the best block, or the error |
| `WalletSync.WalletDb.RollBack` | wallet/src/sync.rs:122-147 | the backward loop ends without underflow at a height where both chains have the same hash, holding the old chain up to there; with any node it succeeds only at a height where the wallet's old hash is the node's |
| `WalletSync.WalletDb.Follow` | wallet/src/sync.rs:149-171 | the forward loop ends with the replay of the node's chain; with any node it succeeds only if the node has every block up to the end of its chain |
| `WalletSync.WalletDb.Synchronize` | wallet/src/sync.rs:114-171 | however deep the re-organisation, if the orphaned blocks are undoable, synchronisation succeeds and all four tables equal a replay of the node's chain from scratch; with any node, success means a common block and an answer for every height after it |
| `WalletLedger.ImportedIsHarmless` | tuxedo-core/src/executive.rs:321-386 | on every imported chain the books show the stored UTXO set and no UTXO is replaced by another |
| `WalletLedger.ImportedIsFair` | tuxedo-core/src/executive.rs:321-386 | an imported chain that creates no reference twice is one the wallet can roll back |
| `WalletLedger.IndexAgreesWithStorage` | wallet/src/sync.rs:270-305 | on every imported chain, the unspent table is exactly the tracked part of the UTXO set in storage |
| `WalletLedger.AcceptedIsReadable` | wallet/src/money.rs:230-245 | the wallet can read every output of whatever the wardrobe's runtime accepts, with a filter that passes only signature owners |
| `WalletLedger.WalletMirrorsRuntime` | wallet/src/main.rs:75-82 | for the wardrobe's runtime and the keystore filter, the unspent table is the tracked part of the stored UTXO set, with only genesis assumed readable |
| `Holdings.DecodedIff` | wallet/src/sync.rs:275-280 | the wallet reads an extrinsic as the transaction whose fields it begins with, and ignores what follows |
| `Holdings.AppliesIff` | wallet/src/sync.rs:270-305 | applying a transaction succeeds exactly when it decodes, every coin that passes the filter is readable and under a signature, and every timestamp is readable; otherwise nothing is spent |
| `Holdings.EnteredBefore` | wallet/src/sync.rs:282-297 | on such an error exactly the wallet's own coins among the outputs before it have been entered, with owner and value |
| `Holdings.ApplyOutcome` | wallet/src/sync.rs:245-266 | a block is recorded in any case, and applied exactly when all its extrinsics can be |
| `Holdings.UnspentIsStored` | wallet/src/money.rs:230-245 | after every imported chain a reference is in the unspent table exactly when a coin is stored there under the signature of an owner who passes the filter; the entry is that owner and that coin's value |
| `Holdings.BalancesAreWorth` | wallet/src/sync.rs:308-318 | the amounts of an owner add up to the worth of the stored coins under that owner's signature, and all amounts to that of all such owners |
| `Holdings.GetBalances` | wallet/src/sync.rs:458-474 | the balances are the sums by owner, in whatever order the table is visited, and fail exactly when one exceeds 128 bits |
| `Holdings.BalancesWithinSupply` | wallet/src/sync.rs:458-474 | all balances together never exceed the supply |
| `Mirror.SynchronizeWithRuntime` | wallet/src/sync.rs:98-171 | after synchronising with a node that serves an imported chain, whatever had to be rolled back, the unspent table holds exactly the coins of the wallet's owners stored at that node, with their values |
| `Mirror.ImportedResyncs` | wallet/src/sync.rs:98-171 | for the wardrobe's runtime and the keystore filter, two imported chains from one genesis whose orphaned blocks are undoable meet all that synchronisation needs |
| `Mirror.ImportedIsUndoable` | wallet/src/sync.rs:384-414 | every block of an imported chain that creates no reference twice can be rolled back |
| `Remint.TwiceAccepted` | tuxedo-core/src/executive.rs:119-136 | the executive accepts the same mint again once its coin is spent |
| `Remint.TwiceAcceptedInBlocks` | tuxedo-core/src/executive.rs:119-136 | it does so with each of the four transactions in a block of its own |
| `Remint.UndoneTogether` | wallet/src/sync.rs:384-414 | a mint and a burn of a coin, twice in one block, are undoable exactly when neither table knows the coin |
| `Remint.LosesACoin` | wallet/src/sync.rs:384-414 | on every chain ending with four blocks that mint and burn a tracked coin twice, unapplying the last three succeeds and restores the tables of blocks, but the coin that a replay up to the first mint holds is missing |
| `Remint.MintedCoinIsLost` | wallet/src/sync.rs:384-414 | this is so for every coin of a tracked owner |
| `Remint.CannotRollBack` | wallet/src/sync.rs:384-414 | already unapplying the last of the four blocks does not give the replay of the chain below it |

## Left out

* Node, RPC, CLI, keystore, the sled database and async: the database is four maps, the node two
  functions it answers from one chain.
* The wallet's timestamp table, which rollback does not restore, and the queries
  `get_arbitrary_unspent_set` and `get_unspent`.
* Cryptography, trie roots and the concrete verifiers: uninterpreted functions. Inherent data of the
  relay chain is decoded by an uninterpreted function of which only the three fields used are modelled.
* `validate_block` steps 1, 3 and 4 (decoding the block data, the proof backed storage, the host
  functions): the block and the parent's storage are given.
* The macros' token streams: only the generated behaviour is modelled. The unwrapping conversions,
  which panic on another variant, are only applied after a match on that variant.
* The aggregated verifier panics on a redeemer that decodes to another variant than its own
  (`tuxedo-core/aggregator/src/lib.rs`, line 166). A runtime's `verify` is boolean here, so the model
  reports `VerifierError` there.
* The pool's longevity and propagation and all logging; the executive's own priority is always zero.
* The payload of a constraint checker error: the executive model keeps only that there was one.
* Building the genesis block, except that its extrinsics are the genesis transactions: in `Genesis`
  the value stored under the extrinsics key is a parameter, and `TxCodec.GenesisListRoundTrip` says
  what decoding the real one gives.
* Of a piece's own inherent check the model keeps that it is silent, raises one error or panics;
  that the library counts a drifting clock as fatal is a parameter. A verifier type without an
  unspendable value makes the pieces' genesis hooks panic; there the model says nothing of them.
* Which error the runtime upgrade gives: the model keeps only whether it passes.
* `CleanUpTimestamp` is not a variant of the template runtime; it is included here, and
  `Clock.ClockOverRuns` treats runs with and without it.
* Coin selection in `spend_coins`: chosen inputs are not excluded from the automatic selection.
- RelayChain.ValidateBlock: models the checks of step 2, the execution and the watermark, because the other steps rest on libraries outside the repository.
- WalletSync.WalletDb.Synchronize: heights are checked against 32 bits as in a build with overflow checks, because a wrapped height has no meaning for the node.
- Executive.Executive.ApplyExtrinsic: requires that the extrinsic and the list of noted extrinsics stay below 2^32 in length, because a longer vector cannot be encoded.

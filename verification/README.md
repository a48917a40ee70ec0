# AfroLink in Dafny

This project models the parts of AfroLink on which the network's promises rest, and proves those promises of the model.

- **Consensus.** Validator sets, vote sets, commit certificates and the round state machine of one validator, then all validators deciding one height together, with a faulty coalition and arbitrary delivery. Safety across rounds is proved for every run. Then the nodes themselves, event by event: who proposes what, which timers a node may let end a step, what it signs, and the blocks it adopts on a certificate. Every run of them in which claims are backed is a run of the protocol, so its safety carries over, and in every run only blocks that execute are voted for or decided. The exact class of validator sets whose nodes agree in every run is proved as an if-and-only-if, with a forking run of honest nodes constructed for every set outside it.
- **Merkle logs.** Roots, inclusion proofs and consistency proofs, complete and sound. Soundness answers either the claim or two different pairs of hashed values with one hash.
- **Money.** The bank and its issuer records as a class over a store, conservation in every run from any accepted genesis file, and what runs can do to allowances, caps, frozen holdings and authorities.
- **Execution and history.** Transactions on a cloned store that is kept or dropped, receipts, and the backwards chain of pointers: a client that checks proofs against verified headers walks through exactly the transactions that touched an account, whatever a server sends, even when it lies about positions.
- **Governance, names, contacts.** Whole-run theorems about proposals, the jurisdiction cap, look-alike names and delayed rebinding.
- **Publication.** Every interleaving of concurrent commits with queries, over any number of crashes and restarts, starting from an empty store.
- **Bech32m.** The codec both ways, with its GF(2) checksum in bit-vectors.

## How the model is laid out

State that the source changes in place is a class. Each of its methods is tied to a function on the value of that state, and what the source promises is proved of those functions, over one step and over runs. Code that only computes is functions and lemmas. `Base` holds shared vocabulary.

| part | modules |
|---|---|
| consensus | `Validators`, `Votes`, `Commits`, `Rounds`, `Signing`, `Protocol`, `Nodes`, `ExactAgreement` (file Agreement.dfy), `Refinement`, `Validity`, `Timers`, `Forks`, `ForkRun`, `Concentration` |
| cryptographic structures | `Merkle`, `Consistency`, `Checksum`, `Regroup`, `Bech32`, `Vectors` |
| money | `Issuers`, `Ledger`, `Conservation`, `Effects`, `Issuance`, `Bank` |
| execution | `Execution`, `History`, `ProvedTransactions`, `ClientHistory`, `Store`, `ExecutionLaws`, `MessageLaws`, `Genesis` |
| governance | `Council`, `Governance`, `GovernanceRuns`, `GovernanceLaws`, `GovernanceStore` |
| addressing | `Registry`, `Rebind` |
| serving | `Publication` |

## What is taken as given

- Hash functions, signing and signature verification are functions passed in. Nothing is assumed of them: where a theorem depends on a hash, its statement contains the colliding values.
- Addresses, digests, names and countries are numbers; only equality and order matter.
- In `Protocol` an honest validator signs through the signing record, so it signs one vote for each round and phase. A proposal's claim that its block already had a prevote quorum is backed by one. The node does not check this, and an honest proposer can itself make a claim that is not: it pairs the block of the latest proposal it holds with the round of its valid value, which may be another block (`Refinement.HonestOfferBackedExactlyWhen` gives exactly when). What survives without this premise is proved in `ExactAgreement`: within a round no two honest validators commit different blocks (`OneCommitPerRound`), and across rounds exactly the sets of `ForkRun.AgreesExactlyWhen` agree.
- In `Nodes` the draw of a proposer is any function of the round, since it depends on a hash. Nobody checks a proposal's signature, so offers come in anyone's name. A step timer fires at most once and only if the node asked for it, as the node asks once for each round and step and the daemon's driver clears a deadline before it acts on it. The driver keeps only the step of a deadline, so a timer may also end a step of a later round than the one it was asked in; `punctual` says whether it may not, and what is proved holds for both. Timers asked for at an earlier height do not fire: the driver drops its deadline when the height changes.
- The forking run of `ForkRun` is a run of crates/node under a driver that honours every request for a timer or a new round. The daemon's transport drops those that arise while it delivers a peer's message (crates/p2p/src/transport.rs:266-269), and the timers of the fork are asked for then.
- In `Execution` the arms of groups, staking, names, contacts and governance are arbitrary lists of effects chosen by a function of the whole store. They can move money and rewrite account profiles; they cannot reach nonces or history pointers, which no arm of the source does.
- In `Publication` one block exists for each height, each captured state has the root its block's header names, and genesis builds the state its own header names.
- Heights, nonces and proposal ids do not reach the top of u64. Amounts are u128 with every overflow branch modelled.

## Where code and documentation disagree

- The documentation of the round state machine presents the lock as what keeps two different blocks from being committed at one height. A prevote quorum for nil releases locks, and a validator that has committed stops voting, so the others can go on to commit another block. `ForkRun.TwoQuorumsFork` builds that run out of the nodes' own steps, with no faulty validator at all, for every set with two smallest quorums; `ForkRun.AgreesExactlyWhen` gives the condition on the set, and `Refinement.BackedRunsAgree` the condition on the run.
- Receipts are described as naming the accounts a transaction concerned. A sponsor who pays the fee of an applied transaction is not named in its receipt unless a message names them (`ExecutionLaws.PayerUnfiledExactlyWhen`, with a transaction that shows it in `ExecutionLaws.SponsorUnfiled`).
- Decoding accepts any character in a prefix that encoding would refuse as unprintable, so decoding and encoding again returns the lowercase string exactly when the prefix is printable (`Bech32.EncodeOfDecode`; strings that show it in `Bech32.UnprintableExample`).
- A transfer drops the old owner's display entry so that no wallet shows a name its holder no longer controls. Lapsing does not: a name that lapsed and was registered by another stays displayed by the first account (`Registry.LapsedNameStaysDisplayed`); `Registry.StepKeepsDisplaysOwned` gives the exact step that does it.
- The published view is described as answering with proofs a client can check against a stored header. On a fresh chain block zero is never stored, so answers before the first publication have no such header (`Publication.FreshChainAnswers`); `Publication.AnswersCheckOut` gives the exact condition.

## Model

| member | source | states |
|---|---|---|
| `Validators.NewValidatorSet` | crates/consensus/src/validator.rs:88-116 | accepts exactly the non-empty lists of distinct, powerful members whose total fits u64, keeps exactly those members in address order, and names which rule a refused list breaks |
| `Validators.ConstructionIgnoresOrder` | crates/consensus/src/validator.rs:88-116 | the same membership in any order is the same set |
| `Validators.QuorumSplitsTotal` | crates/consensus/src/validator.rs:151-172 | quorum threshold and Byzantine ceiling add up to the total for every total, and the ceiling is under a third |
| `Validators.QuorumsIntersect` | crates/consensus/src/validator.rs:151-172 | two quorums overlap in more than the Byzantine ceiling |
| `Validators.QuorumsShareHonest` | crates/consensus/src/validator.rs:151-172 | so two quorums share an honest member whenever the faulty hold at most the ceiling |
| `Votes.VoteSet.Add` | crates/consensus/src/vote.rs:162-230 | accepts exactly the genuine votes of members for this set; afterwards tallies, holders and accused agree with an order-free reading of all votes accepted so far; an accusation comes with two conflicting signed votes |
| `Votes.VoteSet.QuorumValue` | crates/consensus/src/vote.rs:281-291 | reports a value if and only if the votes accepted give it a quorum |
| `Votes.CountingAgrees` | crates/consensus/src/vote.rs:162-230 | counting any member's vote keeps the books in agreement with the order-free reading, and answers first, repeated or conflicting truly |
| `Votes.AtMostOneQuorum` | crates/consensus/src/vote.rs:281-296 | no two values have a quorum among any votes |
| `Votes.OrderDoesNotMatter` | crates/consensus/src/vote.rs:162-230 | two sets that accepted the same votes in any order hold the same tallies and accuse the same validators |
| `Votes.QuorumOfOneIsQuorumOfAny` | crates/consensus/src/vote.rs:281-296 | a quorum for one value is a quorum of all counted votes |
| `Commits.Verify` | crates/consensus/src/commit.rs:87-132 | accepts a certificate exactly when distinct members with a quorum of power genuinely signed precommits for its block, height and round; a refusal names a rule it breaks |
| `Commits.AssembledCommitVerifies` | crates/consensus/src/vote.rs:268-286 | a certificate assembled from a precommit quorum always verifies |
| `Commits.ConflictingCommitsConvict` | crates/consensus/src/commit.rs:87-132 | two verified certificates for different blocks at one height and round convict, with both signatures, validators of power above the ceiling |
| `Commits.SignaturesCertifyOneBlock` | crates/consensus/src/commit.rs:87-132 | one list of signatures certifies one block, height, round and chain only |
| `Commits.ExtendsExactlyWhen` | crates/consensus/src/commit.rs:87-132 | one more signature leaves a certificate a certificate exactly when it is a genuine precommit for the same block by a member who has not signed it yet |
| `Rounds.RoundState.DecidePrecommit` | crates/consensus/src/round.rs:152-177 | a quorum for a value locks it at this round, one for nil unlocks, none leaves the lock; lock and valid value stay consistent |
| `Rounds.RoundState.DecideCommit` | crates/consensus/src/round.rs:180-193 | commits exactly on a precommit quorum for a block, else advances with locks kept |
| `Rounds.RoundState.AdvanceTo` | crates/consensus/src/round.rs:195-200 | a new round keeps locks |
| `Rounds.RoundState.ValueToPropose` | crates/consensus/src/round.rs:205-213 | a locked validator re-proposes its locked value with the round that locked it |
| `Rounds.PrevotesExactlyWhen` | crates/consensus/src/round.rs:112-150 | in every state, a block is prevoted if and only if it is the proposal, it is valid, and the validator is unlocked, locked on it, or shown a claim newer than its lock; nil is prevoted otherwise |
| `Rounds.PrevotesRemembered` | crates/consensus/src/round.rs:152-177 | a prevote quorum is precommitted and decides lock and valid value, as of this round; without one nil is precommitted and both stay |
| `Rounds.PrecommitsConclude` | crates/consensus/src/round.rs:180-193 | a block is committed if and only if it has a precommit quorum; otherwise exactly the next round starts, with lock and valid value kept |
| `Protocol.StepKeepsInv` | crates/node/src/lib.rs:415-961 | every step of any validator, whether it votes, claims its turn to propose or adopts a certified block, and every vote of the faulty coalition keeps the locking invariant |
| `Protocol.RunKeepsInv` | crates/node/src/lib.rs:415-961 | the invariant holds in every reachable state |
| `Protocol.NoRivalQuorum` | crates/consensus/src/round.rs:112-198 | after a precommit quorum no other value gathers a prevote quorum in that or any later round, unless nil did |
| `Protocol.HonestCommitsAgree` | crates/consensus/src/round.rs:112-198 | in every run with no nil prevote quorum after a commit, no two honest validators commit different blocks |
| `Nodes.OfferBackedExactlyWhen` | crates/node/src/lib.rs:440-452 | an honest proposer's claim is about the block it offers exactly when the latest proposal it holds is its valid value |
| `Nodes.OffersExactly` | crates/node/src/lib.rs:440-452 | a proposer with a valid value and any proposal offers the block of the highest round it holds, claiming the round of that value; any other offers the block it built and claims nothing |
| `Nodes.ActSends` | crates/node/src/lib.rs:488-504 | what is sent, by a node, a faulty validator or in anyone's name, is there for every node to hear from then on, and an event concerns one node |
| `ExactAgreement.ActKeepsInv` | crates/node/src/lib.rs:415-961 | every event at any node, a synced block included, every vote of a faulty validator and every offer in anyone's name keeps one signature for each point, and lets a node leave a round only after nil won its precommits or they were inconclusive, unless some round was both |
| `ExactAgreement.RunKeepsInv` | crates/node/src/lib.rs:415-961 | so does every run |
| `ExactAgreement.OneCommitPerRound` | crates/node/src/lib.rs:693-858 | in every reachable state, honest validators whose certificates are of one round commit one block, whatever proposals claim and whether they counted the votes or were shown them |
| `ExactAgreement.VerifiedIsSigned` | crates/node/src/lib.rs:822-839 | a certificate that verifies, made of votes that were signed, is what lets a node adopt a block |
| `ExactAgreement.CertificateCarries` | crates/node/src/lib.rs:807-858 | what a verified certificate shows, some node could have counted |
| `ExactAgreement.CarriedIsNotTorn` | crates/node/src/lib.rs:693-729 | where the indispensable validators are a quorum, a round that one value won is inconclusive for nobody, so no timer outlives its round |
| `ExactAgreement.CarriedRoundIsLast` | crates/node/src/lib.rs:693-729 | where the indispensable validators are a quorum, a round in which a block won the precommits is left by nobody |
| `ExactAgreement.NeededCommitIsLast` | crates/node/src/lib.rs:693-858 | after an indispensable validator commits nobody commits in a round later than it had reached |
| `ExactAgreement.AgreesWhenOneQuorumRules` | crates/node/src/lib.rs:415-961 | where the indispensable validators are a quorum, every run agrees, with no premise about nil, about claims or about when timers fire |
| `Refinement.RunRefines` | crates/node/src/lib.rs:415-961 | every run of the nodes in which claims are backed is a run of the protocol |
| `Refinement.BackedRunsAgree` | crates/node/src/lib.rs:415-961 | nodes of any validator set agree in every run in which claims are backed and nil wins no prevotes after the round of a commit |
| `Refinement.HonestOfferBackedExactlyWhen` | crates/node/src/lib.rs:440-452 | in every state of such a run, what an honest proposer offers next is backed exactly when the latest proposal it holds is the value it remembers a quorum for |
| `Validity.ActKeepsInv` | crates/node/src/lib.rs:415-961 | every event at any node, every faulty vote and every offer keeps it true that honest prevotes are for blocks that execute and honest precommits for blocks a quorum prevoted |
| `Validity.OnlyBlocksThatExecute` | crates/node/src/lib.rs:415-961 | in every run, every block an honest validator votes for, every block a quorum prevotes or precommits, and every block an honest node commits, counted or synced, executes |
| `Validity.CountedIsProposed` | crates/node/src/lib.rs:693-756 | in every run, a block a node commits by counting was proposed, in the name of a proposer of its round |
| `Validity.ProposesExactlyWhen` | crates/node/src/lib.rs:415-486 | a node proposes exactly once in a round that is its turn and before it has signed anything in it, and a block of its own if it remembers none |
| `Timers.TimersFireOnce` | crates/node/src/lib.rs:415-961 | in every run, once a node's timer for a round and step has fired it never fires again |
| `Forks.TwoSmallest` | crates/consensus/src/validator.rs:151-172 | unless the indispensable validators are a quorum, there are two quorums that no member of either can leave, each with a member outside the other |
| `Forks.OneNodeRuns` | crates/node/src/lib.rs:488-504 | events one node can undergo are acts of the network, and change nothing else but what was sent |
| `ForkRun.PrevotesTear` | crates/node/src/lib.rs:665-691 | a smallest quorum of two minds makes a node ask for the prevote timer, and precommit nil when it fires |
| `ForkRun.PrecommitsTear` | crates/node/src/lib.rs:693-729 | a smallest quorum of two minds makes a node ask for the precommit timer, and move to the next round with its lock when it fires |
| `ForkRun.Phase` | crates/node/src/lib.rs:488-504 | nodes that can each reach their aim reach it together |
| `ForkRun.FirstCommit` | crates/node/src/lib.rs:693-756 | one validator sees the whole first quorum and commits, the second quorum sees itself torn and moves on |
| `ForkRun.SecondProposal` | crates/node/src/lib.rs:440-452 | a proposer that has no valid value offers a block of its own, and the unlocked second quorum prevotes it |
| `ForkRun.TwoQuorumsFork` | crates/consensus/src/round.rs:152-177 | for every set whose indispensable validators are no quorum, a draw of proposers and a run of honest nodes in which two commit different blocks |
| `ForkRun.AgreesExactlyWhen` | crates/node/src/lib.rs:415-961 | for punctual and for late timers alike, every run agrees if and only if the validators no quorum can do without are themselves a quorum |
| `ForkRun.OneSmallestQuorum` | crates/consensus/src/validator.rs:151-172 | which is to say that there is one smallest quorum only |
| `Concentration.LargestAreStrongest` | crates/consensus/src/decentralization.rs:180-192 | no coalition of k holders outweighs the k largest |
| `Concentration.GreedyWalk` | crates/consensus/src/decentralization.rs:180-192 | the walk stops at the first prefix that reaches the target, and answers zero when all fall short |
| `Concentration.MinCoalition` | crates/consensus/src/decentralization.rs:169-192 | the greedy size is the true minimum over all subsets of holders |
| `Concentration.PowerByCountry` | crates/consensus/src/decentralization.rs:154-167 | one holder for each country, holding exactly that country's power |
| `Concentration.HaltingPower` | crates/consensus/src/decentralization.rs:94-114 | a group can halt the chain exactly when it holds more than the ceiling |
| `Concentration.CountriesNeverExceedValidators` | crates/consensus/src/decentralization.rs:94-114 | the fewest countries are never more than the fewest validators |
| `Concentration.FewestIsOne` | crates/consensus/src/decentralization.rs:94-114 | each figure is one number |
| `Concentration.Measure` | crates/consensus/src/decentralization.rs:94-114 | halt and control figures are the exact minima over all groups of validators and of countries, and the country figures never exceed the validator figures |
| `Merkle.ComputeSplitPoint` | crates/crypto/src/merkle.rs:81-90 | the doubling loop finds the largest power of two below n |
| `Merkle.SameSplit` | crates/crypto/src/merkle.rs:314-410 | a prefix longer than the split is split at the same place |
| `Merkle.RootCommits` | crates/crypto/src/merkle.rs:127-141 | roots of equal-sized lists are equal only for equal lists, or two hashed pairs collide |
| `Merkle.CollectSiblings` | crates/crypto/src/merkle.rs:200-218 | pushes exactly the siblings on the path |
| `Merkle.Prove` | crates/crypto/src/merkle.rs:143-158 | a proof exists exactly for indices in range |
| `Merkle.ComputeRoot` | crates/crypto/src/merkle.rs:222-258 | the frame-stack loop computes the same root as climbing the recursive tree, and refuses a wrong number of siblings |
| `Merkle.VerifyInclusion` | crates/crypto/src/merkle.rs:281-292 | accepts exactly proofs for the claimed position that climb to the root |
| `Merkle.InclusionComplete` | crates/crypto/src/merkle.rs:127-218 | the proof built for any leaf of any tree is accepted |
| `Merkle.InclusionSound` | crates/crypto/src/merkle.rs:222-292 | only the leaf at that index is accepted, or two hashed pairs collide |
| `Consistency.CollectConsistency` | crates/crypto/src/merkle.rs:181-198 | pushes exactly the nodes of the subproof |
| `Consistency.ProveConsistency` | crates/crypto/src/merkle.rs:161-179 | a proof exists exactly for earlier sizes |
| `Consistency.VerifyConsistency` | crates/crypto/src/merkle.rs:314-410 | accepts exactly when the replay consumes every node and reproduces both roots |
| `Consistency.ConsistencyComplete` | crates/crypto/src/merkle.rs:161-198 | for every list and every earlier size the proof built is accepted |
| `Consistency.ConsistencySound` | crates/crypto/src/merkle.rs:314-410 | if accepted, the old list is the beginning of the new list, or two hashed pairs collide |
| `Consistency.RewriteNeedsCollision` | crates/crypto/src/merkle.rs:314-410 | presenting any changed earlier entry exhibits a collision |
| `Checksum.ComputePolymod` | crates/crypto/src/bech32.rs:37-50 | the loop computes the fold of the checksum step |
| `Checksum.OneDigitMatters` | crates/crypto/src/bech32.rs:37-50 | changing any one digit of any sequence changes the checksum |
| `Checksum.OneChecksumAccepted` | crates/crypto/src/bech32.rs:37-50 | of all six-digit endings exactly one is accepted, and it is the one encode writes |
| `Regroup.ConvertBits` | crates/crypto/src/bech32.rs:62-98 | the accumulator loop, with u32 shifts, yields the same bits in order in digits of the other width, or the error the padding rule demands |
| `Regroup.GroupOfBits` | crates/crypto/src/bech32.rs:62-98 | cutting the bits of digits gives the digits back |
| `Regroup.BitsOfGroup` | crates/crypto/src/bech32.rs:62-98 | digits cut from whole bits have exactly those bits |
| `Bech32.BytesComeBack` | crates/crypto/src/bech32.rs:62-98 | bytes regrouped into fives with padding regroup into the same bytes |
| `Bech32.DigitsComeBack` | crates/crypto/src/bech32.rs:62-98 | fives that regroup into bytes are the fives those bytes are written with |
| `Bech32.Encode` | crates/crypto/src/bech32.rs:104-137 | produces the one spelling of a prefix and payload, or the first refusal in order; what a spelling is and when there is one: `EncodesExactlyWhen`, `ExpandSays` and `DecodesExactlyWhen` |
| `Bech32.Decode` | crates/crypto/src/bech32.rs:144-193 | takes apart exactly the strings of one case that spell a prefix and payload (`DecodesExactlyWhen`), or answers the first refusal in order |
| `Bech32.DecodeOfEncode` | crates/crypto/src/bech32.rs:104-193 | decoding what encode accepts returns prefix and payload, for every accepted input |
| `Bech32.DecodeOfSpelling` | crates/crypto/src/bech32.rs:144-193 | the spelling of any prefix without capitals, printable or not, decodes to what it spells |
| `Bech32.UnprintableDecodes` | crates/crypto/src/bech32.rs:104-193 | decoding takes every short prefix that encoding refuses as unprintable |
| `Bech32.UnprintableExample` | crates/crypto/src/bech32.rs:104-193 | such as every control character, and space, alone |
| `Bech32.EncodeOfDecode` | crates/crypto/src/bech32.rs:104-193 | encoding what decode accepts returns the lowercase string exactly when the prefix is printable |
| `Bech32.OneSpelling` | crates/crypto/src/bech32.rs:144-193 | two strings that decode alike differ in case only |
| `Bech32.SubstitutionRefused` | crates/crypto/src/bech32.rs:144-193 | any one data character of an accepted string changed to another of the charset is refused |
| `Bech32.ExpandSays` | crates/crypto/src/bech32.rs:52-59 | the checksum covers every bit of the prefix: each character is its high part times 32 plus its low part, with a zero between the halves |
| `Bech32.OnePrefixCharacterMatters` | crates/crypto/src/bech32.rs:37-59 | changing the low bits of one prefix character makes the checksum fail |
| `Bech32.PrefixSubstitutionRefused` | crates/crypto/src/bech32.rs:144-193 | an accepted string in which one prefix character is changed to another with the same high bits is refused |
| `Bech32.EncodesExactlyWhen` | crates/crypto/src/bech32.rs:104-137 | a prefix and payload are encoded exactly when the prefix is non-empty, printable and without capitals and the string has at most ninety characters |
| `Bech32.DecodesExactlyWhen` | crates/crypto/src/bech32.rs:144-193 | a string decodes to a prefix and payload exactly when it is of one case, at most ninety characters and in lowercase their spelling |
| `Vectors.LetterVector` | crates/crypto/src/bech32.rs:208-220 | the published string `a1lqfn3a` is what the prefix `a` and no data encode to, and decodes to them |
| `Vectors.MarkVector` | crates/crypto/src/bech32.rs:208-220 | so is `?1v759aa` for the prefix `?` |
| `Vectors.CapitalVector` | crates/crypto/src/bech32.rs:208-220 | `A1LQFN3A` decodes to the same |
| `Vectors.CapitalsDecode` | crates/crypto/src/bech32.rs:144-193 | as every string in capitals does, to what it decodes to in lowercase |
| `Issuers.SetMinter` | crates/bank/src/issuer.rs:256-277 | sets exactly this allowance and no other, keeping the list sorted, unique, non-zero and bounded; refused exactly when a new minter would exceed the bound |
| `Issuers.SpendAllowance` | crates/bank/src/issuer.rs:288-307 | draws exactly the amount from exactly this allowance, or refuses when it does not cover it |
| `Issuers.AllowanceIsListed` | crates/bank/src/issuer.rs:232-244 | the binary search reads what the list says |
| `Issuers.TightenCap` | crates/bank/src/issuer.rs:359-365 | succeeds exactly when the cap is no looser |
| `Bank.Bank.TransferFunds` | crates/bank/src/lib.rs:264-303 | carries out the ledger's transfer; an error leaves the store unchanged |
| `Bank.Bank.MintTo` | crates/bank/src/lib.rs:348-404 | carries out the ledger's mint, all checks in order; an error leaves the store unchanged |
| `Bank.Bank.BurnFrom` | crates/bank/src/lib.rs:427-452 | carries out the ledger's burn; an error leaves the store unchanged |
| `Bank.Bank.ConfigureIssuer` | crates/bank/src/lib.rs:461-558 | carries out an authority's change of its record; an error leaves the store unchanged |
| `Bank.Bank.TakeUpAuthority` | crates/bank/src/lib.rs:507-512 | carries out an acceptance by the account offered the role |
| `Bank.Bank.Emit` | crates/bank/src/lib.rs:568-585 | carries out an emission of the native coin |
| `Bank.Bank.Slash` | crates/bank/src/lib.rs:606-629 | carries out a slash of the native coin |
| `Bank.Bank.Allocate` | crates/bank/src/lib.rs:639-655 | carries out a genesis allocation |
| `Bank.Bank.Register` | crates/bank/src/lib.rs:661-667 | registers an issuer of a sovereign denomination only |
| `Bank.Bank.Admit` | crates/bank/src/lib.rs:679-684 | admits a denomination never seen, with a fresh record |
| `Bank.Bank.MarkFrozen` | crates/bank/src/lib.rs:694-715 | freezes or unfreezes one holding on the freezer's word |
| `Conservation.ApplyKeepsSolvent` | crates/bank/src/lib.rs:228-303 | every operation keeps balances adding up to supply in every denomination, and stores no zero |
| `Conservation.RunKeepsSolvent` | crates/bank/src/lib.rs:228-715 | so does every sequence of attempted operations |
| `Conservation.OnlySupplyOverflows` | crates/bank/src/lib.rs:264-655 | of nine overflow errors only the three on supply can be answered, each only when supply is full; the credit, burn and slash branches are unreachable |
| `Effects.MovesExactly` | crates/bank/src/lib.rs:264-655 | every successful operation changes every account's balance by exactly one table of credits and debits |
| `Effects.TransferExactlyWhen` | crates/bank/src/lib.rs:264-303 | in a solvent ledger a transfer succeeds exactly when it moves something, neither end is frozen and the payer has it |
| `Effects.MintExactlyWhen` | crates/bank/src/lib.rs:348-404 | a mint succeeds exactly when an unpaused issuer's minter has the allowance, the recipient is free and the new supply fits cap and width |
| `Effects.BurnExactlyWhen` | crates/bank/src/lib.rs:427-452 | a burn succeeds exactly when a minter whose holding is free has the amount |
| `Effects.RolesAreRequired` | crates/bank/src/lib.rs:306-321 | a record changes only at the word of a minter, its authority or the account offered the role, and a freeze only at the freezer's |
| `Effects.NativeExactlyWhen` | crates/bank/src/lib.rs:568-629 | the native coin is emitted exactly while its supply fits, and slashed exactly where it is held |
| `Effects.ConfigureExactlyWhen` | crates/bank/src/lib.rs:461-558 | a setting changes exactly at the authority's word and within its rule, and then that one field of that one record is what was asked and nothing else differs |
| `Effects.AcceptExactlyWhen` | crates/bank/src/lib.rs:507-512 | an authority is taken up exactly by the account it was offered to, which then is the authority with no offer pending |
| `Effects.FreezeExactlyWhen` | crates/bank/src/lib.rs:694-715 | a holding is frozen or freed exactly at the word of those who may, and exactly that holding goes in or comes out |
| `Effects.AdmitExactlyWhen` | crates/bank/src/lib.rs:679-684 | a sovereign denomination is admitted exactly once, under an authority with no minter, cap or freezer yet |
| `Effects.MintDraws` | crates/bank/src/lib.rs:348-404 | a mint draws its amount from the minter's allowance and from no other, and changes nothing else of the record |
| `Effects.RefusalsAreTrue` | crates/bank/src/lib.rs:264-715 | every refusal of every operation names a rule that is broken |
| `Issuance.AllowanceIsATotal` | crates/bank/src/issuer.rs:288-307 | between two settings, what was minted on an allowance and what is left add up to what was set, in every run |
| `Issuance.CapBinds` | crates/bank/src/lib.rs:348-404 | a cap never loosens, and supply within it stays within it; supply above it never grows |
| `Issuance.MoneyIsAccountedFor` | crates/bank/src/lib.rs:348-452 | in every run the balances now plus everything destroyed are the balances then plus everything created |
| `Issuance.FrozenIsImmobile` | crates/bank/src/lib.rs:694-715 | a frozen holding neither shrinks nor grows in any run that does not unfreeze it |
| `Issuance.AuthorityMovesByOfferOnly` | crates/bank/src/lib.rs:488-512 | no run without the authority's own offer moves the authority |
| `Store.Store.ApplyMessage` | crates/executor/src/lib.rs:712-1273 | runs the arm of a message effect by effect, and reports whether it was refused; `MessageLaws.MessageDoes` says when and to what effect |
| `MessageLaws.MessageDoes` | crates/executor/src/lib.rs:712-1127 | a payment, mint, burn, issuer setting, acceptance, freeze or account change is carried out exactly when its own rule allows it, and then the balances of every account, the named issuer record, the named holding and the sender's signing arrangement are exactly what the message's fields say, all else unchanged |
| `MessageLaws.EffectDoes` | crates/executor/src/lib.rs:1324-1390 | one effect reaches the ledger by one operation, one account's profile, or the other modules' records, and never a nonce or a history pointer |
| `MessageLaws.MessagesDo` | crates/executor/src/lib.rs:645-653 | an applied list ran each message, in order, in the store the one before it left |
| `MessageLaws.RefusedExactlyWhen` | crates/executor/src/lib.rs:645-653 | a list of such messages is refused exactly when one is not allowed in the store the ones before it leave |
| `MessageLaws.TransactionMoves` | crates/executor/src/lib.rs:558-710 | an applied transaction changes the balance of every account in every denomination by exactly what its messages give and take, and its fee |
| `MessageLaws.AdmittedExactlyWhen` | crates/executor/src/lib.rs:558-643 | a transaction is admitted exactly when it is well formed, signed by those it needs, next in its sender's order, and its fee is payable in an accepted denomination or zero |
| `MessageLaws.RejectionsAreTrue` | crates/executor/src/lib.rs:558-643 | a rejection names a rule the transaction breaks |
| `MessageLaws.UnfiledIsUntouched` | crates/executor/src/lib.rs:681-699 | whoever an applied transaction does anything to, fee aside, finds it in their history: of anyone else no money, freeze, allowance, role, profile, nonce or pointer differs |
| `MessageLaws.NamedAreMentioned` | crates/executor/src/lib.rs:681-688 | and a message names exactly the accounts in its fields |
| `Store.Store.RunMessages` | crates/executor/src/lib.rs:645-653 | runs messages in order up to the first that is refused |
| `Store.Store.MoveHistoryPointer` | crates/executor/src/lib.rs:1392-1407 | points the account at the transaction and returns what it pointed at |
| `Store.Store.MoveAll` | crates/executor/src/lib.rs:681-699 | moves every touched account's pointer and records the previous ones |
| `Store.Store.Execute` | crates/executor/src/lib.rs:558-710 | one transaction: checks in order, fee, sandbox kept or dropped, nonce, pointers, receipt |
| `Store.Store.ExecuteBlock` | crates/executor/src/lib.rs:500-517 | a block leaves the store and the receipts of playing its transactions in order |
| `History.PointersMoved` | crates/executor/src/lib.rs:681-699 | each distinct touched account records the pointer it had, and no other account moves |
| `History.StepRecords` | crates/executor/src/lib.rs:558-710 | a rejected transaction changes nothing; any other consumes the sender's nonce and moves exactly the pointers its receipt names |
| `History.NoncesGrow` | crates/executor/src/lib.rs:587-595 | a sender's effective transactions have strictly growing nonces in every run |
| `History.OneEffect` | crates/executor/src/lib.rs:587-595 | an identifier takes effect at most once, or two transactions share it |
| `History.LastIsNewest` | crates/executor/src/lib.rs:1392-1418 | an account's pointer names the newest transaction that touched it |
| `History.PreviousIsNewest` | crates/executor/src/lib.rs:352-358 | a receipt's previous pointer names the newest earlier one |
| `History.WalkIsHistory` | crates/rpc/src/history.rs:161-199 | whatever entries of the chain a server answers, an accepted walk visits exactly the touching transactions newest first, none skipped or repeated, and is complete exactly when all were visited |
| `History.WalkCanFinish` | crates/rpc/src/history.rs:161-199 | an honest server can always take the walk to its end |
| `ProvedTransactions.PathLeadsToLeaf` | crates/crypto/src/merkle.rs:222-292 | an inclusion proof with any claimed size still reaches the leaf its path leads to, or hashes fail |
| `ProvedTransactions.ProvedIsEntry` | crates/rpc/src/query.rs:392-430 | whatever position and size a server claims, an accepted receipt is one the block committed to for that transaction, or hashes fail |
| `ProvedTransactions.ProvedAtOnePlace` | crates/rpc/src/query.rs:392-430 | the two proofs of an accepted answer end at one place of both lists the header commits to, or hashes fail |
| `ClientHistory.VerifiedIsEntry` | crates/rpc/src/query.rs:392-430 | an answer that verifies against the chain's header is the chain's own entry, transaction and receipt, or hashes fail |
| `ClientHistory.ProvedWalkIsHistory` | crates/rpc/src/history.rs:161-199 | whatever a server sends, answers the cursor accepts are the newest transactions that touched the account with their receipts, in order, none skipped, repeated or invented, and the walk is complete exactly when all were visited; or hashes fail |
| `ClientHistory.ProvedWalkCanFinish` | crates/rpc/src/history.rs:161-199 | an honest server can always prove the whole history to its end |
| `ClientHistory.Verify` | crates/rpc/src/query.rs:392-430 | accepts exactly answers whose transaction and receipt climb to the header's two roots and belong together |
| `ClientHistory.HistoryCursor.Step` | crates/rpc/src/history.rs:161-199 | steps back on the proved transaction looked for, or refuses and stays |
| `ClientHistory.WalkAll` | crates/rpc/src/history.rs:96-199 | a cursor fed a list follows the walk and counts its steps |
| `ExecutionLaws.BlocksKeepSolvent` | crates/executor/src/lib.rs:630-671 | conservation over every executed transaction |
| `ExecutionLaws.FailureCostsTheFeeOnly` | crates/executor/src/lib.rs:630-699 | a transaction that is not admitted changes nothing; one that fails pays its fee, skipped only when zero, takes one nonce, moves the pointers of sender and payer, and leaves every other account and record as it was |
| `ExecutionLaws.OnlySignersPay` | crates/executor/src/lib.rs:575-643 | a transaction of payments and issuance lowers a balance only with that account's own signature |
| `ExecutionLaws.FiledUnder` | crates/executor/src/lib.rs:681-688 | a transaction whose messages succeed is filed under exactly its sender and everyone they name, one whose messages fail under exactly its sender and fee payer, one not admitted under nobody |
| `ExecutionLaws.PayerUnfiledExactlyWhen` | crates/executor/src/lib.rs:681-688 | a payer does not find a transaction in their history exactly when it succeeds, somebody else sent it and no message names them |
| `ExecutionLaws.SponsorUnfiled` | crates/executor/src/lib.rs:681-688 | a sponsored payment that shows it: the sponsor's balance falls and their history pointer stays |
| `ExecutionLaws.FeeMovesExactly` | crates/executor/src/lib.rs:630-643 | a transaction that is not rejected pays exactly its fee, from its payer to the collector |
| `Genesis.Validate` | crates/executor/src/genesis.rs:184-258 | answers the first rule a file breaks, on allocations, issuers, attestors, validator distribution and concentration, parameters and council, and nothing for a file that breaks none |
| `Genesis.MaxSingleShareBps` | crates/consensus/src/validator.rs:237-249 | is within a cap exactly when every validator's share in whole basis points is |
| `Genesis.Found` | crates/executor/src/genesis.rs:264-289 | applies exactly the file the rules accept to ledger, council and attestors, and answers the first refusal |
| `Genesis.CheckDistinct` | crates/executor/src/genesis.rs:189-199 | detects exactly a repeated allocation |
| `Genesis.FoundedExactlyWhen` | crates/executor/src/genesis.rs:184-280 | a file is applied exactly when it passes every rule of validation, names no native issuer, allocates no zero and overflows no denomination |
| `Genesis.FoundedBodies` | crates/executor/src/genesis.rs:282-289 | the founded council is lawful and inside the network's cap, and exactly the named attestors are licensed, none suspended |
| `Genesis.FoundedAttestors` | crates/executor/src/genesis.rs:209-222 | no line of an accepted file is lost: every attestor it lists is listed active, and as many are licensed as it has lines |
| `Genesis.FoundedLedger` | crates/executor/src/genesis.rs:264-280 | the founded ledger adds up, credits each allocation, freezes nothing, and has an issuer for every sovereign currency in existence |
| `Genesis.AllocationIsBalance` | crates/executor/src/genesis.rs:189-199 | each allocation of an accepted file is its address's whole balance |
| `Genesis.FirstWorld` | crates/executor/src/genesis.rs:264-300 | the first store adds up and has no history, which is what the run theorems start from |
| `Council.NewCouncil` | crates/gov/src/council.rs:144-167 | accepts exactly non-empty, bounded, sorted councils of weighty seats with a threshold in range |
| `Council.CountVotes` | crates/gov/src/lib.rs:437-441 | the tally of distinct votes is the weight of the voters |
| `Council.CheckConcentration` | crates/gov/src/council.rs:245-285 | passes exactly when every jurisdiction's exact share is within the cap, rounding notwithstanding; a refusal names one that is over |
| `Council.TwoCannotPass` | crates/gov/src/council.rs:224-285 | if twice the cap is below the threshold, no two jurisdictions pass a proposal, for all weights |
| `Council.OneCannotBlock` | crates/gov/src/council.rs:224-285 | if cap and threshold are at most the whole, no jurisdiction blocks what all others want |
| `Governance.RecordVote` | crates/gov/src/proposal.rs:215-223 | a vote is added exactly when new, keeping the list sorted |
| `Governance.InstallIsValid` | crates/gov/src/lib.rs:297-303 | an installed start satisfies the governance invariant |
| `Governance.ProposeKeepsValid` | crates/gov/src/lib.rs:346-401 | opening a proposal keeps queue and records in agreement, bounded, and every rule in force |
| `Governance.VoteKeepsValid` | crates/gov/src/lib.rs:407-460 | so does a vote, withdrawals included |
| `Governance.ExecuteKeepsValid` | crates/gov/src/lib.rs:477-491 | so does an execution, which never finds a withdrawal to carry out and never loosens the cap |
| `GovernanceStore.GovernanceModule.SeatCouncil` | crates/gov/src/lib.rs:310-315 | seats a council exactly when it is within the cap in force |
| `GovernanceStore.GovernanceModule.ChangeParams` | crates/gov/src/lib.rs:323-337 | changes parameters exactly when they clear the floors, do not loosen the cap and do not unseat the council |
| `GovernanceStore.GovernanceModule.SweepLapsed` | crates/gov/src/lib.rs:516-533 | drops exactly the lapsed proposals and orphaned ids |
| `GovernanceStore.GovernanceModule.OpenProposal` | crates/gov/src/lib.rs:346-401 | opens under the next id or answers the first refusal |
| `GovernanceStore.GovernanceModule.CastVote` | crates/gov/src/lib.rs:407-460 | records, schedules or withdraws, or answers the first refusal and changes nothing; `GovernanceLaws.VoteExactlyWhen` and `GovernanceLaws.VoteDoes` say which, when |
| `GovernanceStore.GovernanceModule.TakeDecision` | crates/gov/src/lib.rs:477-491 | hands back a decision exactly when it passed and its timelock ran out, and removes it |
| `GovernanceLaws.VoteExactlyWhen` | crates/gov/src/lib.rs:407-433 | in every valid state a vote is accepted exactly when the sender holds a seat, the proposal is there and has not passed, its period is not over and the sender has not voted; a refusal is for a reason that holds |
| `GovernanceLaws.VoteDoes` | crates/gov/src/lib.rs:407-460 | an accepted vote schedules the proposal after the timelock, or withdraws its target, exactly when the weight of the recorded voters with the sender reaches the threshold; otherwise it is recorded and nothing else changes |
| `GovernanceLaws.ParamsExactlyWhen` | crates/gov/src/params.rs:259-323 | parameters are accepted exactly when every floor and range holds, and a change exactly when it also does not loosen the cap |
| `GovernanceLaws.ProposeExactlyWhen` | crates/gov/src/lib.rs:346-401 | a proposal is opened exactly when the sender holds a seat, what it asks is in order and fewer than sixty-four proposals stand |
| `GovernanceLaws.ProposeDoes` | crates/gov/src/lib.rs:346-401 | it takes the next id with no vote and a full period; lapsed proposals are gone and standing ones as they were |
| `GovernanceLaws.ExecuteExactlyWhen` | crates/gov/src/lib.rs:477-491 | an execution succeeds exactly when the decision's time has come and it can be carried out; exactly its record goes, and council or parameters are what it says |
| `GovernanceLaws.CarriedHasPassed` | crates/gov/src/lib.rs:407-460 | in every run in which one council sits, the votes on record for a proposal that has not passed do not reach the threshold: no deciding vote is ever left out |
| `GovernanceRuns.CapNeverRises` | crates/gov/src/params.rs:314-323 | in every reachable state the parameters clear their floors and the council satisfies the cap; the cap never rises |
| `GovernanceRuns.ExecutionIsEarned` | crates/gov/src/lib.rs:346-533 | every executed action was opened by a proposal, passed within its voting period by voters whose weight in the council then seated reached the threshold, at least the timelock then in force, never under its floor, before |
| `GovernanceRuns.VotersVoted` | crates/gov/src/lib.rs:407-436 | each of those voters cast that vote from a seat |
| `GovernanceRuns.ExecutedOnce` | crates/gov/src/lib.rs:477-491 | no id is executed twice |
| `GovernanceRuns.IdsAreNeverReused` | crates/gov/src/lib.rs:382-398 | no id is given to two proposals |
| `GovernanceRuns.GoneForGood` | crates/gov/src/lib.rs:502-508 | a removed id never has a record again |
| `GovernanceRuns.LapsedNeverExecutes` | crates/gov/src/lib.rs:420-430 | a proposal whose voting period ended before it passed is never executed |
| `GovernanceRuns.RulesChangeByExecution` | crates/executor/src/lib.rs:1299-1322 | council and parameters change only by executing the decision that says so, and then to exactly what it says |
| `GovernanceRuns.PassedLeaves` | crates/gov/src/lib.rs:502-533 | a passed proposal goes away only by execution or by a withdrawal that passed |
| `GovernanceRuns.WithdrawalIsPassed` | crates/gov/src/lib.rs:448-453 | a withdrawal takes the threshold of the council then seated and removes both proposals |
| `GovernanceRuns.PassingNeedsThree` | crates/gov/src/council.rs:224-285 | from a start within the network's cap, nothing is ever passed by two jurisdictions alone |
| `Registry.StepKeepsIndexed` | crates/alias/src/registry.rs:123-302 | every operation keeps each live name the one its skeleton entry points to |
| `Registry.RunKeepsIndexed` | crates/alias/src/registry.rs:123-302 | so does every run with non-decreasing heights |
| `Registry.NoLookalikes` | crates/alias/src/registry.rs:123-165 | no two live names ever share a skeleton |
| `Registry.OwnerKeepsName` | crates/alias/src/registry.rs:171-295 | a live name's owner changes only by its own transfer or release, in every run |
| `Registry.RegistrableExactlyWhen` | crates/alias/src/registry.rs:123-165 | a name can be registered exactly when no live name has its skeleton |
| `Registry.RenewalExtends` | crates/alias/src/registry.rs:171-187 | a renewal adds a whole period to the later of now and what was left |
| `Registry.AdmittedExactlyWhen` | crates/alias/src/registry.rs:123-302 | a registration needs that no live name looks alike, everything else that the caller owns the live name; a refusal is for a reason that holds |
| `Registry.AdmittedDoes` | crates/alias/src/registry.rs:123-302 | after a transfer the named account owns the name with its dates kept; after a release name and index entry are gone; each operation changes that name, that entry and that display and no other |
| `Registry.TransferHandsOver` | crates/alias/src/registry.rs:191-210 | after a transfer the new owner and nobody else owns the name |
| `Registry.ReleasedIsFree` | crates/alias/src/registry.rs:259-275 | a released name can be registered by anyone at once |
| `Registry.InForceFor` | crates/alias/src/registry.rs:17-82 | left alone, a registered name is its owner's for exactly its period and grace |
| `Registry.StepKeepsDisplaysOwned` | crates/alias/src/registry.rs:123-275 | one operation keeps every displayed name its displayer's own exactly when it does not register a lapsed name that another account still displays |
| `Registry.RunKeepsDisplaysOwned` | crates/alias/src/registry.rs:123-275 | so does every run without such a step |
| `Registry.LapsedNameStaysDisplayed` | crates/alias/src/registry.rs:123-165 | a run from the empty registry in which a live name is displayed by an account that lost it |
| `Registry.NameRegistry.RegisterName` | crates/alias/src/registry.rs:123-165 | registers, or refuses a live name or a live look-alike and changes nothing |
| `Registry.NameRegistry.RenewName` | crates/alias/src/registry.rs:171-187 | extends from the later of now and expiry |
| `Registry.NameRegistry.TransferName` | crates/alias/src/registry.rs:191-210 | moves the name and drops the old owner's display entry |
| `Registry.NameRegistry.DisplayName` | crates/alias/src/registry.rs:224-234 | displays a name its owner holds |
| `Registry.NameRegistry.HideName` | crates/alias/src/registry.rs:248-250 | hides the caller's own display entry and touches nothing else |
| `Registry.NameRegistry.ReleaseName` | crates/alias/src/registry.rs:259-275 | removes the name, its skeleton entry and the display entry |
| `Rebind.RequestOf` | crates/alias/src/rebind.rs:202-232 | a pending request was made once and has stood unchanged against the same account since |
| `Rebind.VetoSucceeds` | crates/alias/src/rebind.rs:236-252 | while a request is pending, a veto by the bound account succeeds and clears it |
| `Rebind.RebindSafety` | crates/alias/src/rebind.rs:177-302 | an account that does not revoke loses a contact only to a request made at least the governed delay earlier, never below its floor, by an attestor licensed and active then, unchanged since, vetoable all that time, and only to the account it named |
| `Rebind.FirstBinding` | crates/alias/src/rebind.rs:177-196 | an unbound contact becomes bound only by an active attestor's word |
| `Rebind.AdmittedExactlyWhen` | crates/alias/src/rebind.rs:177-312 | each operation is admitted exactly when its rule holds: a request when the caller is a licensed, active attestor, the contact bound and nothing pending; a refusal is for a reason that holds |
| `Rebind.AdmittedDoes` | crates/alias/src/rebind.rs:148-302 | and leaves that contact, or that attestor, as it says and every other as it was |
| `Rebind.EveryBindingIsAttested` | crates/alias/src/rebind.rs:177-285 | in every run, every binding rests on the word of the attestor it names for the account it names, given while licensed and active |
| `Rebind.ContactBindings.AttestContact` | crates/alias/src/rebind.rs:177-196 | binds only an unbound contact, on an active attestor's word |
| `Rebind.ContactBindings.RequestRebind` | crates/alias/src/rebind.rs:202-232 | opens a request, never replacing one, on an active attestor's word for a bound contact (`Rebind.AdmittedExactlyWhen`) |
| `Rebind.ContactBindings.VetoRebind` | crates/alias/src/rebind.rs:236-252 | clears a pending request for the bound account only |
| `Rebind.ContactBindings.FinishRebind` | crates/alias/src/rebind.rs:258-285 | moves the contact once the request is due |
| `Rebind.ContactBindings.RevokeContact` | crates/alias/src/rebind.rs:291-302 | removes the binding for the bound account only |
| `Publication.StartMeetsInv` | crates/store/src/lib.rs:586-608 | every way a process can start, on an empty store, from a loaded state or by replay, publishes a state of the chain |
| `Publication.StepKeepsInv` | crates/daemon/src/chain.rs:291-355 | every step of every concurrent call keeps what is published a state of the chain whose block is durable past genesis, and loses nothing durable |
| `Publication.ViewNeverGoesBack` | crates/daemon/src/chain.rs:86-93 | in every interleaving the published height never decreases and nothing durable is lost or changed |
| `Publication.RestartNeverGoesBack` | crates/daemon/src/run.rs:171-217 | over any number of crashes and restarts no process answers at a lower height than one before it |
| `Publication.PublishesTheHighest` | crates/daemon/src/chain.rs:86-93 | in every interleaving the view is at the highest call that finished, with that call's state, or where the process started |
| `Publication.FinishedIsPublished` | crates/daemon/src/chain.rs:291-355 | in every history, no finished call is ahead of the view of its own process or of any later one |
| `Publication.FailureChangesNothing` | crates/daemon/src/chain.rs:291-333 | a write that fails ends its call and changes nothing durable and nothing published |
| `Publication.FailedStaysFailed` | crates/daemon/src/chain.rs:291-333 | in every interleaving a failed call never takes another step |
| `Publication.RestartLoads` | crates/daemon/src/chain.rs:300-333 | because the state is written before the block, a start past genesis finds the tip's state on disk wherever the process before it stopped |
| `Publication.AnswersCheckOut` | crates/daemon/src/chain.rs:427-434 | in every interleaving of every process, an answer's height has a stored header that commits to the answer's state exactly when the height is past genesis or block zero is stored |
| `Publication.FreshChainAnswers` | crates/store/src/lib.rs:586-592 | on a fresh chain that is exactly once something past genesis is published; the first answers have no stored header |
| `Publication.TipLabelMisleads` | crates/daemon/src/chain.rs:415-434 | labelling with the newest stored block instead is wrong between storing and publishing |
| `Publication.Published.Advance` | crates/daemon/src/chain.rs:86-93 | moves forward or stays, never back |

## Left out

- HTTP, JSON, configuration, the command line, timers, sockets and key files: I/O.
- Hash functions, signatures and entropy: foreign code, passed in as functions.
- The canonical codec and the encode and decode impls of records: field-by-field plumbing. That stored records are well formed is modelled by the invariants their decoders check.
- The rules of savings groups, staking and slashing: their arms are arbitrary lists of effects, so nothing is proved of what they decide.
- Store.Store.ApplyMessage: the arms of groups, staking, names, contacts and governance (crates/executor/src/lib.rs:777-1061 and 1129-1273) are any list of effects a function of the store chooses, because what is proved of execution holds whatever they decide; the rules of names, contacts and governance are proved in their own modules.
- The draw of proposers, liveness and how long timers wait: they depend on hash randomness and on the clock.
- Text outside ASCII in `Bech32`: a string is octets, so a prefix of octets that are no UTF-8 text is in the model and not in the source.
- The fourth Bech32m string the tests list, which spells the whole alphabet: one more example of what `Bech32.DecodesExactlyWhen` covers.
- Detection of up to four Bech32m errors: a code-distance enumeration.
- The validator set's hash, and the Herfindahl index and largest shares of the decentralization report: single formulas without further claims.
- Username validation, skeleton folding and contact normalisation: the skeleton is a given function of the name.
- Saturation of heights, nonces and ids at the top of u64.
- `Issuers` and `Governance` records: an issuer record, a proposal and a council are values loaded from and written back to the store, so they are values here and aliasing is not modelled.

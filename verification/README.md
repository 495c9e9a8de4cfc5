# A verified model of the cixtech custody engine

cixtech keeps other people's coins: it derives deposit addresses, credits deposits to a
double-entry ledger, pays out under a policy, sweeps its fees into a treasury, and signs with a
key that is split over several nodes. This project restates the parts with real content in Dafny
and proves what they promise, for all inputs, all runs and all interleavings.

| files | what they cover |
|---|---|
| `Modular`, `Sets`, `Shamir`, `Threshold`, `Secrecy` | modular inverses, secret sharing, dealerless key generation, Feldman checks, proactive refresh, the quorum's key, and what fewer shares give away |
| `Pattern`, `Ledger`, `Journal`, `LedgerStore`, `LedgerRuns`, `LedgerAccounts` | postings, accounts, entry builders, the idempotent store, the ledger service, every run of deposits, reversals, payouts and sweeps, and what each account holds after it |
| `Policy`, `PayoutProtocol`, `PayoutBalances`, `PayoutReplay`, `PayoutStores` | the payout decision, and the payout protocol as a state machine with one step per await: what every interleaving keeps, and what one call does from start to end |
| `Gather`, `Pool` | the greedy gather, and pool addresses under interleaved compare-and-set |
| `FeeSweep`, `FeeSweepRun`, `FeeSweepSafety`, `FeeSweepOverlap`, `FeeClaim` | the fee-sweep planner, a whole sweep that runs alone, sweeps that overlap, when each is safe, and what the claim consists of |
| `Velocity`, `DepositCursor`, `Lockout` | the sliding spending window, the scan cursor, the login lockout |
| `Hex`, `Rlp`, `EvmTx`, `Protobuf`, `TronTx`, `TronSoundness`, `Base32`, `Money` | the codecs: RLP, EIP-1559, protobuf and Tron, base32, decimal money |

`dafny verify dfyconfig.toml` checks everything.

## How the source is represented

- Random scalars, chain heads, on-chain balances, the fate of sends, the answers of policy ports and
  the clock are parameters. Arithmetic on the curve's scalars is done modulo an arbitrary prime q;
  a group point is its multiple of a generator of order q, and `multiply` refuses a zero scalar as
  the library does.
- Objects the source updates in place are classes (`MemoryLedgerStore`, `LedgerService`,
  `InMemoryVelocityLimiter`, `EvmDepositSource`, `PayoutJournal`, `ApprovalStore`); loops are
  methods with invariants. The payout protocol and the pool are state machines, because what is
  proved about them is what survives every interleaving.
- Exceptions are `Result` or `Option`.
- Payout runs assume that one idempotency key always carries the same parameters (`approve`
  guarantees it, the HTTP path does not check it), that `lockPayout` is one atomic step, and that
  the intent journal is configured. A call can crash before any await and can be started again any
  number of times, next to any number of others.

## Findings

- t - 1 shares are not perfectly hiding. `randomScalar` never returns zero, and the secret that
  t - 1 shares combine to would need a zero last coefficient, so they always rule that secret out
  (`Secrecy.CombinedNeverFits`, `Secrecy.FewerDoNot`). A secret fits the shares exactly when the one
  choice of scalars that explains it contains no zero (`Secrecy.FitsExactly`). The loss is small: at
  least one and at most t - 1 of the q secrets are ruled out (`Secrecy.SplitRulesOutFew`).
- Overlapping fee sweeps can take a merchant's surplus twice. The claim is summed over all chains, the
  lease is taken per chain (backend/src/attribution/gather-lease.ts:14), and every payout ends with a
  sweep (backend/src/services/payout.service.ts:274). Two payouts of one merchant on two chains, or a
  payout beside the console's sweep, can plan on the same surplus and both post
  (`FeeSweepOverlap.TwoChainsTakeTwice`). Over every interleaving the open legs stay covered if and
  only if each accepted plan, and each other entry that takes from the surplus, fits into the surplus
  that no open leg has a call on (`FeeSweepOverlap.BackedExactly`). A merchant can be planned whatever
  the chains hold if and only if none of its legs is open (`FeeSweepOverlap.PlanOnlyWhenNoneOpen`),
  and planning only then keeps it covered (`FeeSweepOverlap.SerialIsCovered`). The lease ensures this for
  a merchant whose pool is on one chain (`FeeSweepOverlap.OneChainIsCovered`).
- The fee sweep claims quarantined money. `compliance_suspense` matches neither pattern of the claim
  query, so a deposit in quarantine counts as a surplus: the claim exceeds the fees still to be swept
  exactly when something is in quarantine and the fees and quarantined deposits together exceed what
  was swept (`FeeClaim.QuarantineIsClaimed`).
- Reversing a deposit after its money was locked drives `merchant_available` below zero
  (`PayoutBalances.ReversalCanOverdraw`). A run never overdraws a merchant if and only if every
  reversal that lands finds at least what its deposit had credited
  (`PayoutBalances.NeverOverdrawnExactly`), which can be looked up before `reverseCredit` is called.
- `lockPayout` looks at the balance before it looks at the idempotency key. The retry of a payout
  that is already locked goes through if and only if the balance before the first lock, with what was
  gained or lost since the lock, covers the amount twice (`PayoutBalances.RetryNeedsTwice`).
- `isSolvent` can fail only through network-fee legs: it holds exactly while the network fees paid
  are covered by the fees earned on deposits that still stand (`LedgerRuns.SolventExactly`). No caller
  supplies such a leg (backend/src/chains/treasury/gas-station.ts:32), so in the engine it always holds
  (`LedgerRuns.AlwaysSolvent`).
- A refreshed share lies on the original commitments exactly when the refresh polynomials sum to zero
  at its x (`Threshold.RefreshedShareVerifies`), so commitments have to be renewed with the shares.
- The Tron check hashes one spelling of the transaction body and decodes another: the hash is taken after
  one `0x` prefix is dropped, the decoder drops a second one. A body spelled `0x0x...` or `0X...` passes
  with the digest of the empty string; for every other body the bytes hashed are the bytes checked
  (`TronSoundness.HashesWhatItChecks`).
- `moneyParts` shows two decimals even for an asset that has one, and `toBaseUnits` then refuses
  the text; for every other number of decimals it reads it back (`Money.MoneyTextRoundTrip`).
- The bound `maxFailedLogins` plus whole lockouts on the number of guesses holds exactly when
  `maxFailedLogins` is at least one: the lock comes after the check (`Lockout.PlainBoundExactly`).
- A hazard of the sweep as a component, which the engine avoids: the pool account
  `pool_addr:<chain>:<merchant>` leaves the tenant out, so two tenants with a merchant of one name
  would share it, and a sweep for one could take the other below its liabilities
  (`FeeSweepSafety.SafeExactly`, `FeeSweepSafety.SafeByName`). In the engine a merchant is an account
  id, a random UUID that is the primary key of the account table (backend/src/stores/tenant.store.ts:148,
  backend/src/schemas/sql/api.schema.ts:43) and is checked against its tenant before an address is
  assigned (backend/src/api/app.ts:480), so no sweep that runs alone
  leaves a merchant short (`FeeSweepSafety.EngineIsSafe`).

## Model

| member | source | states |
|---|---|---|
| `Modular.Mod` | backend/src/mpc/shamir.ts:6-9 | the truncating remainder of the host language, shifted, is the residue in [0, n) for negative operands too |
| `Shamir.InvMod` | backend/src/mpc/shamir.ts:11-21 | extended Euclid terminates; it returns an inverse in [0, n) exactly when a and n are coprime, and throws otherwise |
| `Shamir.EvalPoly` | backend/src/mpc/shamir.ts:35-39 | Horner with a reduction at every step gives the integer value of the polynomial modulo q |
| `Shamir.Split` | backend/src/mpc/shamir.ts:41-48 | refuses exactly the thresholds outside 1..n; otherwise n shares at x = 1..n on a polynomial whose constant term is the secret |
| `Shamir.Combine` | backend/src/mpc/shamir.ts:50-64 | for every list of shares: throws exactly when two different x agree modulo q, otherwise returns the Lagrange sum at zero |
| `Shamir.LagrangeTerm` | backend/src/mpc/shamir.ts:53-60 | one coefficient is the quotient of the two products, undefined exactly when this share's denominator is not invertible |
| `Shamir.Products` | backend/src/mpc/shamir.ts:53-59 | the reduced running products are the products of -xj and of xi - xj over the other points |
| `Shamir.WeightsVanish` | backend/src/mpc/shamir.ts:50-64 | inverse products of differences sum to zero over two or more distinct points |
| `Shamir.PolynomialVanishes` | backend/src/mpc/shamir.ts:50-64 | weighted by them, the values of any polynomial with fewer coefficients than points sum to zero |
| `Shamir.Interpolation` | backend/src/mpc/shamir.ts:50-64 | any k shares of a polynomial with at most k coefficients give its constant term |
| `Shamir.SplitThenCombine` | backend/src/mpc/shamir.ts:41-64 | any t or more shares at distinct positions, in any order, combine to mod(secret), and no inverse is ever missing |
| `Secrecy.FewerDoNot` | backend/src/mpc/shamir.ts:41-64 | t - 1 shares combine to the secret if and only if the last random coefficient is zero modulo q |
| `Secrecy.OneShort` | backend/src/mpc/shamir.ts:50-64 | k shares of a polynomial of k + 1 coefficients give its constant term if and only if the leading one is zero |
| `Secrecy.EverySecretFits` | backend/src/mpc/shamir.ts:41-48 | whatever t - 1 shares say, each possible secret is explained by one and only one choice of residues, zero included |
| `Secrecy.FitsExactly` | backend/src/mpc/shamir.ts:23-48 | with scalars as `randomScalar` draws them, a secret fits t - 1 shares if and only if the residues that explain it contain no zero |
| `Secrecy.CombinedNeverFits` | backend/src/mpc/shamir.ts:23-64 | the secret that t - 1 shares combine to never fits them |
| `Secrecy.FewAreRuledOut` | backend/src/mpc/shamir.ts:23-48 | t - 1 shares of a drawn sharing rule out at least one secret and at most one per scalar |
| `Secrecy.SplitRulesOutFew` | backend/src/mpc/shamir.ts:23-48 | the same for any t - 1 positions of `split`: between 1 and t - 1 of the q secrets, and never the shared one |
| `Secrecy.SplitHides` | backend/src/mpc/shamir.ts:23-48 | the view of any t - 1 positions occurs under another secret for exactly one choice of residues, and `split` can draw it if and only if that choice contains no zero |
| `Secrecy.ManyRoots` | backend/src/mpc/shamir.ts:35-39 | a polynomial of k coefficients with k distinct roots is zero modulo q |
| `Secrecy.Interpolate` | backend/src/mpc/shamir.ts:35-39 | through any k points with distinct x there is a polynomial of k coefficients |
| `Threshold.DealerlessDkg` | backend/src/mpc/dealerless-dkg.ts:7-31 | refuses bad thresholds and zero scalars; otherwise the shares lie on the sum of all polynomials and the commitments commit to its coefficients |
| `Threshold.Commitment` | backend/src/mpc/dealerless-dkg.ts:16-20 | adding points coefficient by coefficient commits to the coefficient of the sum |
| `Threshold.DealShares` | backend/src/mpc/dealerless-dkg.ts:24-30 | node j gets the value of the aggregate polynomial at j, epoch 0 |
| `Threshold.ShareValue` | backend/src/mpc/dealerless-dkg.ts:26-27 | the reduced sum of values is the value of the sum |
| `Threshold.VerifyShare` | backend/src/mpc/dealerless-dkg.ts:33-42 | throws exactly on a zero scalar; otherwise accepts exactly the points of the committed polynomial |
| `Threshold.PowerSumIsPoly` | backend/src/mpc/dealerless-dkg.ts:33-42 | the loop's sum of commitments times powers of x equals the Horner value |
| `Threshold.FeldmanExact` | backend/src/mpc/dealerless-dkg.ts:16-42 | against generated commitments exactly the aggregate polynomial's value passes at each x, and nothing where a scalar of the check is zero |
| `Threshold.RefreshStaysOnPolynomial` | backend/src/mpc/shamir.ts:66-69 | refreshed shares lie on the sum of the old polynomial and one through the origin |
| `Threshold.RoundsKeepSecret` | backend/src/mpc/threshold-signer.ts:28-39 | any number of rounds, each as long as the shares' threshold asks for, keeps the shares on a polynomial with the same constant term |
| `Threshold.RefreshKeyShares` | backend/src/mpc/threshold-signer.ts:28-39 | every node keeps its number, public key, threshold and x, and moves to the next epoch |
| `Threshold.RefreshRounds` | backend/src/mpc/threshold-signer.ts:28-39 | the same over any number of rounds |
| `Threshold.SignerKey` | backend/src/mpc/threshold-signer.ts:140-158 | with the threshold that the shares carry, a key is handed out if and only if that many nodes of one epoch interpolate to the group key |
| `Threshold.RefreshedSharesSign` | backend/src/mpc/threshold-signer.ts:28-158 | after any refreshes every selection of enough nodes signs with the threshold and public key the refreshed shares carry, unless the key is zero |
| `Threshold.RefreshedQuorumReconstructs` | backend/src/mpc/threshold-signer.ts:28-39 | after key generation and any rounds, any t or more shares combine to the sum of all participants' constant terms |
| `Threshold.QuorumKey` | backend/src/mpc/threshold-signer.ts:104-125 | a key is handed to signing if and only if there are enough nodes of one epoch, every checked share passes Feldman, and the quorum interpolates to the group key |
| `Threshold.QuorumAlwaysMatches` | backend/src/mpc/threshold-signer.ts:68-125 | any same-epoch selection of t or more nodes reaches the group key, in any order, after any refreshes |
| `Threshold.RefreshedShareVerifies` | backend/src/mpc/threshold-signer.ts:111-119 | after any number of refresh rounds a share passes the original commitments if and only if the refresh polynomials sum to zero at its x and its y is not zero |
| `Rlp.ToMinimalBytes` | backend/src/chains/evm/rlp.ts:4-10 | big-endian bytes of n with no leading zero |
| `Rlp.MinimalLength` | backend/src/chains/evm/rlp.ts:4-10 | they fit in k bytes exactly when n < 256^k |
| `Rlp.LengthRoundTrip` | backend/src/chains/evm/rlp.ts:12-16 | a length header below 2^64 is read back, whatever follows |
| `Rlp.RoundTrip` | backend/src/chains/evm/rlp.ts:12-28 | an independent strict decoder maps rlpEncode(x) followed by any suffix to x, integers read as bytes, and that suffix |
| `Rlp.UniquelyDecodable` | backend/src/chains/evm/rlp.ts:23-28 | encodings are injective and prefix-free |
| `Rlp.DecodedIsEncoded` | backend/src/chains/evm/rlp.ts:12-28 | the decoder accepts nothing but encodings, so each item has exactly one |
| `Rlp.EncodableExactly` | backend/src/chains/evm/rlp.ts:4-28 | encoding throws exactly when some nested integer is negative |
| `EvmTx.PreimageInjective` | backend/src/chains/evm/evm-tx.ts:13-29 | two transactions with one signing preimage agree in every field |
| `EvmTx.PreimageRoundTrip` | backend/src/chains/evm/evm-tx.ts:13-29 | the signing preimage is a type-2 envelope of exactly nine fields that read back as the transaction, with an empty access list |
| `EvmTx.SignedExtendsPreimage` | backend/src/chains/evm/evm-tx.ts:13-44 | the broadcast payload is the nine items that were hashed, followed by yParity, r and s |
| `EvmTx.SerializableExactly` | backend/src/chains/evm/evm-tx.ts:9-44 | hashing and serialising throw exactly on a bad recipient, a negative number or a signature of another length |
| `EvmTx.AddressRoundTrip` | backend/src/chains/evm/address.ts:6-10 | every 20-byte address is read from its hexadecimal spelling with or without 0x |
| `EvmTx.SignedRoundTrip` | backend/src/chains/evm/evm-tx.ts:31-44 | the broadcast string decodes to exactly the transaction, yParity, r and s |
| `EvmTx.SignatureRecovered` | backend/src/chains/evm/evm-tx.ts:36-44 | yParity, r and s determine all 65 signature bytes |
| `EvmTx.Word` | backend/src/chains/evm/abi.ts:10-15 | refuses more than 32 bytes; otherwise 32 bytes of the same value ending in the input |
| `EvmTx.WriteWord` | backend/src/chains/evm/abi.ts:10-15 | the buffer that is written holds that word |
| `EvmTx.TransferDataExact` | backend/src/chains/evm/abi.ts:20-23 | defined exactly for a 20-byte address and 0 <= amount < 2^256; selector, zero padding, recipient and amount stand where the ABI puts them |
| `EvmTx.TransferDataInjective` | backend/src/chains/evm/abi.ts:20-23 | recipient and amount are recoverable from the calldata |
| `Protobuf.ReadVarint` | backend/src/chains/tron/tron-tx-verify.ts:22-33 | the shifting loop terminates and reads the base-128 number of the specification, with the same two errors |
| `Protobuf.ReadFields` | backend/src/chains/tron/tron-tx-verify.ts:19-58 | the index loop terminates on every buffer and reads field after field as the recursive reader does |
| `Protobuf.ReadField` | backend/src/chains/tron/tron-tx-verify.ts:35-55 | one pass of the loop reads one field and moves past it, never beyond the buffer |
| `Protobuf.OtherWires` | backend/src/chains/tron/tron-tx-verify.ts:47-55 | fixed-width fields are skipped with four or eight bytes, or to the end, and other wire types are refused |
| `Protobuf.VarintRoundTrip` | backend/src/chains/tron/tron-tx-verify.ts:22-33 | a canonical varint is read back exactly when it is below 2^77, and otherwise refused as overlong |
| `Protobuf.FieldsRoundTrip` | backend/src/chains/tron/tron-tx-verify.ts:19-58 | the reader inverts a canonical writer on every list of varint and length-delimited fields |
| `TronTx.TransferDataFacts` | backend/src/chains/tron/tron-encoding.ts:7-13 | selector and encoded words are 136 characters from which recipient and amount can be read |
| `TronTx.CanonicalDecodes` | backend/src/chains/tron/tron-tx-verify.ts:73-144 | the canonical raw transaction of any native or token transfer, with any other header fields, decodes to its owner, recipient, amount and contract |
| `TronTx.VerifiedSigningHash` | backend/src/chains/tron/tron-tx-verify.ts:146-191 | a hash is returned only if it is the digest of the returned body, equals the node's id, and the body says what the intent says |
| `TronTx.SatisfiesExactly` | backend/src/chains/tron/tron-tx-verify.ts:177-188 | a decoded transfer satisfies the intent of another transfer if and only if they are the same |
| `TronTx.SignsExactlyTheIntent` | backend/src/chains/tron/tron-tx-verify.ts:146-191 | for canonical transactions the check passes if and only if the node built the transfer that was asked for |
| `TronSoundness.TokenSoundness` | backend/src/chains/tron/tron-tx-verify.ts:83-191 | for every answer of a node: if a hash is returned for a token payout, the only contract is of type 31, names owner and token, has no call value, and its data is 68 bytes of selector, twelve zeros, the recipient and the amount |
| `TronSoundness.NativeSoundness` | backend/src/chains/tron/tron-tx-verify.ts:73-191 | for every answer of a node: if a hash is returned for a native payout, the only contract is of type 1 and names owner, recipient and amount |
| `TronSoundness.HashesWhatItChecks` | backend/src/chains/tron/tron-tx-verify.ts:117-163 | the bytes hashed are the bytes checked if and only if no second 0x is left, and otherwise nothing is hashed |
| `TronSoundness.CallValueExactly` | backend/src/chains/tron/tron-tx-verify.ts:97-101 | the asked-for token transfer with a call value is signed if and only if the value is zero |
| `TronSoundness.TwoContractsRefused` | backend/src/chains/tron/tron-tx-verify.ts:124-130 | a transaction with two contracts is never signed |
| `Gather.Gather` | backend/src/attribution/pool-gatherer.ts:40-97 | fails exactly when the amount is not positive or the funded total is below it; otherwise draws from the largest balances down, summing to the amount |
| `Gather.CollectFunded` | backend/src/attribution/pool-gatherer.ts:52-64 | keeps exactly the funded addresses, in order |
| `Gather.Take` | backend/src/attribution/pool-gatherer.ts:67-79 | the greedy loop draws whole balances and at most one part |
| `Gather.SortSorts` | backend/src/attribution/pool-gatherer.ts:65 | the sort is a descending permutation |
| `Gather.LegsFromPool` | backend/src/attribution/pool-gatherer.ts:67-79 | legs are positive, on distinct addresses of the merchant, with their index and strategy, and within their balances |
| `Gather.FirstAreLargest` | backend/src/attribution/pool-gatherer.ts:65-79 | no choice of k addresses holds more than the first k |
| `Gather.FewestLegs` | backend/src/attribution/pool-gatherer.ts:40-97 | any set of addresses that covers the amount is at least as large as the number of legs |
| `Ledger.TypesOfNames` | backend/src/ledger/account-classify.ts:3-15 | every account name the engine builds has the type the books need |
| `Ledger.TypesOfOtherPrefixes` | backend/src/ledger/account-classify.ts:3-15 | the fixed accounts and the prefix and suffix families have their types, and the empty prefix has none |
| `Ledger.NettedByAsset` | backend/src/ledger/balanced.ts:4-14 | refuses a non-positive posting; otherwise the map holds each asset's net |
| `Ledger.AssertBalanced` | backend/src/ledger/balanced.ts:16-32 | accepts exactly the non-empty lists of positive postings that net to zero in every asset |
| `Ledger.SplitFee` | backend/src/ledger/posting-flows.ts:23-34 | refused exactly outside the domain; fee and net add up, the fee is the floor and the net is positive |
| `Ledger.SplitAccepted` | backend/src/ledger/posting-flows.ts:36-61 | deposit and release entries always balance |
| `Ledger.MoveAccepted` | backend/src/ledger/posting-flows.ts:63-140 | lock, settlement and sweep entries always balance, with or without a network-fee leg |
| `Ledger.FlipAccepted` | backend/src/ledger/posting-flows.ts:234-250 | the reversal of an accepted entry is accepted |
| `Ledger.SumFlip` | backend/src/ledger/posting-flows.ts:234-250 | a reversal negates every figure: each account, type and asset |
| `LedgerStore.MemoryLedgerStore.Append` | backend/src/stores/memory-ledger.store.ts:22-28 | the three collections stay consistent; a seen key changes nothing and a new one adds the entry |
| `LedgerStore.MemoryLedgerStore.EntryPostings` | backend/src/stores/memory-ledger.store.ts:30-32 | the postings of the entry, none if unknown |
| `LedgerStore.MemoryLedgerStore.Balance` | backend/src/stores/memory-ledger.store.ts:34-40 | one pass gives the account's net over the whole journal |
| `LedgerStore.MemoryLedgerStore.TotalsByType` | backend/src/stores/memory-ledger.store.ts:46-58 | throws exactly on an account of no type; otherwise the normal-positive total per type and asset |
| `LedgerStore.LedgerService.Post` | backend/src/services/ledger.service.ts:21-24 | refuses exactly what is not accepted and appends idempotently |
| `LedgerStore.LedgerService.LockPayout` | backend/src/services/ledger.service.ts:34-50 | succeeds if and only if 0 < amount <= available, even on a retry; then available and pending move once |
| `LedgerStore.LedgerService.ReverseByRef` | backend/src/services/ledger.service.ts:52-72 | fails exactly on an unknown entry; otherwise its flipped postings are recorded once |
| `LedgerStore.LedgerService.CheckSolvency` | backend/src/ledger/solvency.ts:6-23 | lists exactly the assets under water, with their totals, in order |
| `LedgerStore.LedgerService.IsSolvent` | backend/src/services/ledger.service.ts:74-80 | true exactly when assets cover liabilities |
| `LedgerRuns.RunKeepsInv` | backend/src/chains/ingest/deposit-ingestor.ts:34-91 | in every run each journal entry is explained by one event, with unique keys, and each reversal by an earlier deposit |
| `LedgerRuns.ReversalsCancel` | backend/src/chains/ingest/deposit-ingestor.ts:78-91 | every figure over the journal equals the figure over entries neither reversed nor reversals: a reversal undoes its deposit everywhere, once |
| `LedgerRuns.BooksBalance` | backend/src/ledger/posting-flows.ts:36-250 | in every run assets + expenses = liabilities + revenue, per asset |
| `LedgerRuns.SolventExactly` | backend/src/services/ledger.service.ts:74-80 | revenue is the fees of standing deposits and releases, expenses are the network fees, and the books are solvent if and only if the latter do not exceed the former |
| `LedgerRuns.AlwaysSolvent` | backend/src/ledger/posting-flows.ts:23-250 | without a network-fee leg every run is solvent in every asset |
| `LedgerRuns.NetworkFeeSinks` | backend/src/ledger/posting-flows.ts:91-121 | one settlement with a network fee and no earnings makes the books insolvent |
| `LedgerAccounts.BuiltEffect` | backend/src/ledger/posting-flows.ts:36-232 | every entry changes every account by what its event's inputs say, and no other account |
| `LedgerAccounts.AccountOverRuns` | backend/src/services/ledger.service.ts:21-72 | in every run the balance of every account is the sum of the standing events' effects on it |
| `LedgerAccounts.FlowsOverRuns` | backend/src/chains/ingest/deposit-ingestor.ts:34-91 | in every run a tenant's revenue holds its standing fees, its suspense its standing quarantines less releases, a treasury what was swept on its chain, and a pool account what came in and went out on its chain |
| `Policy.Evaluate` | backend/src/chains/payout/policy.ts:58-112 | allows exactly when every gate is open; what an approval or delay verdict says about the gates |
| `Policy.AllowedExactly` | backend/src/chains/payout/policy.ts:58-112 | the decision in figures: no port objects, amount within the maximum, enough different named approvers other than the requester, delay passed |
| `Policy.RecordApprovalKeeps` | backend/src/stores/approval.store.ts:13-39 | recorded approvers stay named, distinct and never the requester, and none is lost |
| `Policy.CountingProper` | backend/src/chains/payout/policy.ts:86-95 | every recorded approver counts, each once |
| `PayoutStores.PayoutJournal.BeginIntent` | backend/src/chains/payout/payout-journal.ts:41-58 | the first request's row stands, with its requester and time; no other row changes |
| `PayoutStores.PayoutJournal.SetFromAddress` | backend/src/chains/payout/payout-journal.ts:72-74 | only that row changes and not its origin or transaction; its status is right for its fields |
| `PayoutStores.PayoutJournal.MarkBroadcast` | backend/src/chains/payout/payout-journal.ts:76-78 | only that row changes; its status is right exactly when a source had been set |
| `PayoutStores.PayoutJournal.MarkSettled` | backend/src/chains/payout/payout-journal.ts:80-82 | only that row changes; its status is right exactly when source and transaction had been set |
| `PayoutStores.PayoutJournal.MarkFailed` | backend/src/chains/payout/payout-journal.ts:84-86 | only that row changes, and not its origin, source or transaction |
| `PayoutStores.ApprovalStore.Approve` | backend/src/stores/approval.store.ts:13-39 | refuses an unnamed approver and the requester; otherwise the approver is recorded once |
| `PayoutProtocol.RowsKeptOverRuns` | backend/src/chains/payout/payout-journal.ts:41-82 | over any stretch of any run no intent is lost, changes its requester or first-request time, or loses a source or transaction |
| `PayoutProtocol.RowsTellTheTruth` | backend/src/services/payout.service.ts:137-272 | in every state of every run: which fields each status implies, a transaction only with the lock in the ledger, `settled` only with the settlement there, and never `failed` |
| `PayoutProtocol.RunOk` | backend/src/services/payout.service.ts:81-272 | the protocol invariant holds after every run of overlapping, retried and cut-off calls |
| `PayoutProtocol.StepOk` | backend/src/services/payout.service.ts:137-272 | every await of every call keeps it, whatever the world answers |
| `PayoutReplay.NeverPaidAgain` | backend/src/services/payout.service.ts:154-162 | once an intent is settled, or broadcast with its transaction, and no call is still sending for it, nothing that follows sends for it again, and its row only ever becomes settled |
| `PayoutReplay.SettledStaysAsIs` | backend/src/services/payout.service.ts:154-156 | a settled row does not change at all |
| `PayoutReplay.SettledReturns` | backend/src/services/payout.service.ts:137-156 | a payout call for a settled intent ends and leaves the whole state as it was |
| `PayoutReplay.BroadcastResumes` | backend/src/services/payout.service.ts:158-162 | a call for a broadcast intent sends nothing, settles it in the ledger, marks it settled and ends |
| `PayoutReplay.PayoutRunsThrough` | backend/src/services/payout.service.ts:137-272 | a first request that nothing stops sends each leg once in order, and leaves a settled row with source, first transaction, requester and time, and lock and settlement in the ledger |
| `PayoutReplay.FeeLegsPosted` | backend/src/services/payout.service.ts:296-331 | the fee legs after it are posted one by one, each under its own key |
| `PayoutReplay.ApproveReads` | backend/src/services/payout.service.ts:92-127 | an approval is recorded first, and the payout is tried with every approver on record |
| `PayoutReplay.SettledApproval` | backend/src/services/payout.service.ts:99-106 | approving a settled payout changes nothing |
| `PayoutReplay.StopsWhenRefused` | backend/src/services/payout.service.ts:174-210 | before anything is sent a call ends exactly where policy, lease, pool or balance refuses it, and leaves everything else as it is |
| `PayoutReplay.StopsWhenSendFails` | backend/src/services/payout.service.ts:212-246 | a failed send ends the call and is on record as sent |
| `PayoutBalances.OnePerKey` | backend/src/services/payout.service.ts:191-206 | at most one lock and one settlement per key, and no settlement without its lock |
| `PayoutBalances.PendingIsOpenLocks` | backend/src/services/payout.service.ts:334-348 | merchant_pending_withdrawal is the sum of locked, unsettled payouts and never negative |
| `PayoutBalances.NeverOverdrawnExactly` | backend/src/chains/ingest/deposit-ingestor.ts:78-91 | merchant_available stays non-negative throughout a run if and only if every reversal that lands finds at least what its deposit credited |
| `PayoutBalances.ReversalTakes` | backend/src/services/ledger.service.ts:52-72 | a landing reversal takes back exactly what its deposit credited to the account |
| `PayoutBalances.RetryNeedsTwice` | backend/src/services/ledger.service.ts:34-50 | after a lock and any later events, its retry goes through if and only if the balance before the lock plus what was gained since covers the amount twice |
| `PayoutBalances.AvailableNeverNegative` | backend/src/services/ledger.service.ts:34-50 | the case without reversals: merchant_available never goes negative |
| `PayoutBalances.ReversalCanOverdraw` | backend/src/chains/ingest/deposit-ingestor.ts:78-91 | a reversal after the lock leaves the account at minus the amount |
| `PayoutBalances.SendsAreAuthorised` | backend/src/services/payout.service.ts:157-246 | every send has an intent and a lock; above the threshold it has the required number of distinct named approvers other than the requester, and above the time-lock threshold it is not before first request plus delay |
| `Pool.LowestAvailable` | backend/src/queries/pool-address.queries.ts:123-141 | the free row of that owner with the lowest index among those not locked by another transaction, and none only if there is none |
| `Pool.FindByAddress` | backend/src/attribution/pool-manager.ts:93-104 | a row with that address, none only if there is none |
| `Pool.DoOk` | backend/src/attribution/pool-manager.ts:27-114 | every step keeps the invariant and changes no row illegally |
| `Pool.PoolInvariant` | backend/src/queries/pool-address.queries.ts:97-174 | in every run indices on a chain are exactly 0..k-1, addresses unique, invoice null exactly when available, cooldown set exactly when cooling, and the next step keeps owner, index, address and strategy and makes only legal transitions |
| `Pool.ReleasesExactlyTheDue` | backend/src/queries/pool-address.queries.ts:168-174 | cooled rows are released exactly when their cool-down has passed, and nothing else changes |
| `Pool.AssignClaims` | backend/src/attribution/pool-manager.ts:27-35 | with a free address, the lowest free row of the owner is reserved for the asked-for invoice and no other row changes |
| `Pool.AssignDerives` | backend/src/attribution/pool-manager.ts:37-51 | without one, a row with the chain's next index, its derived address, the strategy and the invoice is added, unless the address is taken |
| `Pool.TransitionApplies` | backend/src/attribution/pool-manager.ts:75-114 | detecting, cooling and releasing change exactly the named row's state, invoice and cool-down as the table says |
| `Pattern.LikeHead` | backend/src/queries/infra.queries.ts:59-70 | a plain head of a LIKE pattern is matched letter by letter |
| `Pattern.LikeTail` | backend/src/queries/infra.queries.ts:59-70 | a percent sign before a plain tail matches exactly the strings with that ending |
| `FeeSweep.ForClaim` | backend/src/queries/infra.queries.ts:57-71 | one row per matching account that was posted to, with its balance |
| `FeeSweep.Claim` | backend/src/chains/treasury/fee-sweep-planner.ts:27-43 | throws exactly on a matching account of no type; otherwise pool assets minus liabilities, not below zero |
| `FeeSweep.RowsAddUp` | backend/src/chains/treasury/fee-sweep-planner.ts:32-41 | the rows add up to the difference of the two sums over all postings |
| `FeeSweep.PoolType` | backend/src/chains/treasury/fee-sweep-planner.ts:34-39 | an account the pool pattern matches is a pool account or has no type, although the underscore is a wildcard |
| `FeeSweep.Plan` | backend/src/chains/treasury/fee-sweep-planner.ts:45-97 | the loop's legs are the plan of the claim, with their total; no leg at all means dust exactly when some address is funded |
| `FeeSweep.PlanWithin` | backend/src/chains/treasury/fee-sweep-planner.ts:70-89 | each leg is positive, at least dust and at most on-chain minus reserved; together they stay within the claim |
| `FeeSweep.PlanDistinct` | backend/src/chains/treasury/fee-sweep-planner.ts:70-89 | no address is drawn on twice |
| `FeeSweep.PlanComplete` | backend/src/chains/treasury/fee-sweep-planner.ts:70-89 | the plan is as large as it can be: it falls short of the claim and of what is reachable only by less than dust |
| `FeeSweepRun.Sweep` | backend/src/services/fee-sweep.service.ts:52-179 | nothing under the kill switch; otherwise journal and report are those of the groups in order, stopping only at an account of no type |
| `FeeSweepRun.SweepGroup` | backend/src/services/fee-sweep.service.ts:75-176 | one group: skipped with the right reason, or its planned legs posted |
| `FeeSweepRun.SendAndPost` | backend/src/services/fee-sweep.service.ts:116-172 | a leg is posted only once it was sent, and counted |
| `FeeSweepRun.SweepKeepsCover` | backend/src/services/fee-sweep.service.ts:75-176 | over a whole sweep of many chains that runs alone, a merchant's pool assets never fall below its liabilities, if every group with other claims keeps to its own pool accounts |
| `FeeSweepRun.SweepConserves` | backend/src/services/fee-sweep.service.ts:153-164 | the engine's asset totals do not change, and the treasury gains at most the reported total |
| `FeeSweepRun.UnavailableIsSkipped` | backend/src/services/fee-sweep.service.ts:76-97 | a group without a treasury address or whose lease is held is not touched and is reported with its reason |
| `FeeSweepRun.SiteOutcome` | backend/src/services/fee-sweep.service.ts:98-172 | nothing without a claim, one reason if no leg is worth sending, and otherwise every planned leg reported |
| `FeeSweepRun.LegsReported` | backend/src/services/fee-sweep.service.ts:116-172 | count and total are those of the legs sent, every other leg is named as failed, and no more entries are posted than legs sent |
| `FeeSweepRun.LegKeys` | backend/src/services/fee-sweep.service.ts:119 | two legs share an entry exactly when chain, address, asset and amount agree |
| `FeeSweepRun.NewLegsTakeExactly` | backend/src/services/fee-sweep.service.ts:116-172 | legs from different addresses whose entries are new take exactly what was sent |
| `FeeSweepSafety.PoolByName` | backend/src/queries/infra.queries.ts:66 | a pool account counts as a merchant's exactly by the merchant name |
| `FeeSweepSafety.LiabilityByNames` | backend/src/queries/infra.queries.ts:67 | a liability counts exactly by tenant and merchant name |
| `FeeSweepSafety.SafeExactly` | backend/src/services/fee-sweep.service.ts:113-114 | for any names, no sweep that runs alone can leave a merchant short if and only if each group counts the same accounts or draws on a pool account that is not counted as the merchant's |
| `FeeSweepSafety.SafeByName` | backend/src/services/fee-sweep.service.ts:113-114 | for plain names: if and only if no other tenant's swept merchant has the same name |
| `FeeSweepSafety.EngineIsSafe` | backend/src/stores/tenant.store.ts:148-158 | account ids are UUIDs of one tenant each, so in the engine no sweep that runs alone can leave a merchant short |
| `FeeSweepOverlap.TwoChainsTakeTwice` | backend/src/attribution/gather-lease.ts:14-34 | two sweeps of one merchant on two chains, both planned before either posts, leave its surplus at minus what it was |
| `FeeSweepOverlap.StepBacked` | backend/src/services/fee-sweep.service.ts:86-175 | of all steps only an accepted plan or another entry can uncover the open legs, and exactly when it does not fit into the slack |
| `FeeSweepOverlap.BackedExactly` | backend/src/services/payout.service.ts:274-332 | over every interleaving of sweeps and other entries the surplus covers all open legs throughout if and only if each accepted plan and each other entry fits at its moment |
| `FeeSweepOverlap.NotBackedGoesShort` | backend/src/services/fee-sweep.service.ts:116-172 | if the open legs are not covered and their entries are new, sending them leaves the merchant short |
| `FeeSweepOverlap.PlanOnlyWhenNoneOpen` | backend/src/chains/treasury/fee-sweep-planner.ts:45-97 | planning a merchant is harmless for all balances on chain if and only if none of its legs is open |
| `FeeSweepOverlap.OverlapGoesShort` | backend/src/services/payout.service.ts:274-332 | from every state with an open leg, planning the merchant again on a free chain can leave it short |
| `FeeSweepOverlap.SerialIsCovered` | backend/src/services/payout.service.ts:274-332 | planning a merchant only when none of its legs is open keeps it covered in every interleaving with crashes, expiring leases and entries that fit |
| `FeeSweepOverlap.EngineSerial` | backend/src/services/payout.service.ts:274-332 | with the engine's account ids that condition is only about the merchant's own plans |
| `FeeSweepOverlap.OneChainIsCovered` | backend/src/attribution/gather-lease.ts:14-34 | a merchant whose pool is on one chain is kept covered by the lease, whatever overlaps, while leases do not run out |
| `FeeSweepOverlap.LeaseIsFreed` | backend/src/attribution/gather-lease.ts:14-40 | a group is free again once its last sweep has finished or lost its lease |
| `FeeSweepOverlap.KeysOfLegs` | backend/src/services/payout.service.ts:296-299 | the legs of a payout's sweep have keys of their own |
| `FeeSweepOverlap.SweepTakesItsPlan` | backend/src/services/payout.service.ts:296-331 | a payout's sweep that sends all its legs takes exactly what it planned |
| `FeeSweepOverlap.OrdinaryEvents` | backend/src/ledger/posting-flows.ts:36-232 | what other entries do to the surplus meanwhile: credits, quarantines, locks and settlements take nothing, a release takes what it pays out |
| `FeeSweepOverlap.ReversalTakesBack` | backend/src/services/ledger.service.ts:52-72 | a reversal takes what the reversed entry had added to the surplus |
| `FeeClaim.SurplusOverRuns` | backend/src/chains/treasury/fee-sweep-planner.ts:32-41 | in every ledger run a merchant's surplus, before it is floored at zero, is its standing fees plus its deposits still in quarantine minus what was swept |
| `FeeClaim.QuarantineIsClaimed` | backend/src/chains/treasury/fee-sweep-planner.ts:27-43 | the returned claim exceeds the fees still to be swept if and only if something is in quarantine and fees plus quarantine exceed what was swept |
| `FeeClaim.QuarantinedDepositIsClaimed` | backend/src/ledger/posting-flows.ts:170-191 | after one quarantined deposit the whole of it is claimed |
| `FeeClaim.BuiltPart` | backend/src/ledger/posting-flows.ts:36-232 | every entry changes a merchant's surplus by the fee, quarantine or sweep its event states, and payouts not at all |
| `Velocity.InMemoryVelocityLimiter.AdmitPayout` | backend/src/chains/payout/policy.ts:171-189 | admits or refuses as the window says and touches only that key's log |
| `Velocity.BothLimitersAgree` | backend/src/stores/policy.store.ts:49-85 | recording and then pruning leaves the same log as filtering and then recording |
| `Velocity.PruningIsInvisible` | backend/src/stores/policy.store.ts:57-83 | the pruned log shows the same items in the window as the whole history |
| `Velocity.NeverOverLimit` | backend/src/chains/payout/policy.ts:171-189 | the total admitted in every interval [t - window, t] is within the limit |
| `Velocity.AdmittedExactly` | backend/src/chains/payout/policy.ts:171-189 | after every run the next request is admitted if and only if it fits into its window |
| `DepositCursor.EvmDepositSource.FetchInbound` | backend/src/chains/evm/evm-deposit-source.ts:15-27 | each scan starts at the cursor and ends at head minus confirmations; the cursor never decreases, whatever heads are read |
| `DepositCursor.TilesCover` | backend/src/chains/evm/evm-adapter.ts:63-76 | the scanned ranges are disjoint, in order, and cover every block from the seed to the cursor |
| `Lockout.ChecksTrack` | backend/src/stores/auth.store.ts:196-217 | counter and lock follow the wrong guesses, which are spaced by the lockout once the limit is reached |
| `Lockout.GuessesBounded` | backend/src/stores/auth.store.ts:188-219 | the guesses checked within any span are at most the limit (at least one) plus the number of whole lockouts in it |
| `Lockout.PlainBoundExactly` | backend/src/stores/auth.store.ts:206-217 | with the configured limit itself the bound holds if and only if the limit is at least one |
| `Lockout.LockedExactly` | backend/src/stores/auth.store.ts:196-217 | after a wrong guess the next attempt is turned away if and only if the limit was reached and the lockout has not passed |
| `Lockout.RightPassword` | backend/src/stores/auth.store.ts:196-221 | while locked a right password is refused like a wrong one |
| `Lockout.RightPasswordResets` | backend/src/stores/auth.store.ts:206-221 | an accepted password gives all guesses back |
| `Base32.EncodeDigits` | backend/src/auth/crypto.ts:86-100 | although the accumulator wraps at 32 bits, the digits are the input's bits in groups of five |
| `Base32.Encode` | backend/src/auth/crypto.ts:86-100 | the spelling of those digits, as in section 6 of RFC 4648 without padding |
| `Base32.Decode` | backend/src/auth/crypto.ts:102-117 | the octets of the bits of the known characters; the rest is skipped and case is ignored |
| `Base32.RoundTrip` | backend/src/auth/crypto.ts:86-117 | decoding an encoding gives the bytes back, for every length |
| `Base32.EncodeThenDecode` | backend/src/auth/crypto.ts:86-117 | the two loops in a row return their input |
| `Money.PadWhole` | frontend/lib/money.ts:43 | the loop pads to at least one digit before the point |
| `Money.PadFraction` | frontend/lib/money.ts:46 | the loop pads to at least two digits after it |
| `Money.MoneyParts` | frontend/lib/money.ts:30-49 | raw exactly for a text that is no number or an unregistered asset; otherwise the printed amount, with its sign |
| `Money.FormatRoundTrip` | backend/src/chain-config/amount.ts:24-38 | for every number of decimals the portal's parser reads back what the backend prints if and only if the amount is not negative |
| `Money.FormatCanonical` | backend/src/chain-config/amount.ts:34-37 | the text has no zero at the end of a fraction and none before two or more whole digits |
| `Money.UngroupedIsSame` | frontend/lib/money.ts:20-22 | grouping only inserts commas |
| `Money.GroupPlaces` | frontend/lib/money.ts:20-22 | commas stand exactly before each full group of three digits |
| `Money.MoneyTextRoundTrip` | frontend/lib/money.ts:30-68 | the console's text without commas is read back if and only if the asset does not have exactly one decimal |

## Left out

- Hashes, ECDSA, HMAC, scrypt, BIP-32, base58check and curve points: the byte strings that are hashed or signed are modelled, the primitives are not.
- HTTP routes, schemas, migrations, row-level security, queues, workers and RPC clients: their answers are inputs.
- `SqlLedgerStore`: the in-memory store stands for it; its balance table is the sum of the postings, which is what `FeeSweep.ForClaim` returns.
- At most one on-chain send per payout: not claimed, because the intent's status is read before the lease is taken, so overlapping calls or a crash before `markBroadcast` can send again.
- The lease in the payout protocol: acquiring is a step whose outcome is arbitrary, and no proof about payouts relies on mutual exclusion. Only `FeeSweepOverlap.OneChainIsCovered` relies on leases that do not run out.
- FeeSweepRun.SweepKeepsCover: is about one sweep with nothing posted in between; overlapping sweeps and other entries are in `FeeSweepOverlap`.
- FeeSweepSafety.EngineIsSafe: is about a sweep that runs alone; overlapping sweeps are not safe, see `FeeSweepOverlap.TwoChainsTakeTwice`.
- `depositDetected`: no caller posts it.
- Entry keys as strings: each family of keys is its own constructor, so collisions between spelled keys are not modelled; an entry's id equals its key, as in every flow.
- `InMemoryVelocityLimiter` and the velocity gate inside `PayoutProtocol`: the gate's answer is an input there, and the limiter is proved on its own.
- External reconciliation compares ledger totals with chain balances, the gas station tops up fee accounts, webhooks deliver events, and anomaly rules and reports only read; none of them is modelled.
- TOTP verification and sessions: only the lockout counter and the base32 secret are modelled.
- Threshold.QuorumKey: leaves out the production and acknowledgement flags and the nodes' own verify callbacks, which only refuse, and the signature made with the key.
- Secrecy.EverySecretFits: is about residues in 0..q-1; for the scalars that are really drawn, which are never zero, the property fails and `Secrecy.FitsExactly` is the exact form.
- Protobuf.ReadFields: field numbers and lengths above 2^53 are exact here and rounded by `Number` in the source.
- Protobuf.FieldsRoundTrip: is about canonical encodings; of a repeated field the source takes the first, not the last.
- TronTx.SignsExactlyTheIntent: upper and lower case are ASCII only.
- Base32.Decode: upper-casing is ASCII only, so the few letters that upper-case into the alphabet from outside ASCII are not modelled.
- Money.MoneyTextRoundTrip: covers non-negative amounts of registered assets; `MoneyParts` covers how the others are printed.
- Money.FormatRoundTrip: trimming removes spaces only, and unregistered assets are not modelled.
- Lockout.GuessesBounded: calls are sequential on one clock, with no success or reset in between.
- DepositCursor.EvmDepositSource.FetchInbound: one address, no crash between a scan and storing the cursor; parsing the logs is not modelled.
- FeeSweepSafety.PoolByName: is for names without colon, percent sign, underscore or backslash, as the engine's UUIDs are; `SafeExactly` needs no such condition.
- FeeSweepSafety.LiabilityByNames: the same names as `PoolByName`.
- FeeSweepSafety.SafeByName: the same names as `PoolByName`.
- FeeClaim.SurplusOverRuns: is about the surplus before it is floored, for the same names, account ids that belong to one tenant, and a gas float that is none of the merchant's pool accounts.
- PayoutBalances.AvailableNeverNegative: is the special case without reversals of `NeverOverdrawnExactly`.
- Pool.PoolInvariant: one extended public key serves all addresses; the derivation itself is an arbitrary function, and a clash is refused by the table's unique constraints as in the source.

# LyricsFlip backend: a Dafny model

This project models the parts of the LyricsFlip game backend in which a mistake would
cost money, points or answers, and proves what they promise for every input, every run
and every interleaving. `dafny verify dfyconfig.toml` checks all of it.

| files | what they model |
|---|---|
| `MockEscrow`, `MockAnswers`, `MockLedger` | the in-database settlement backend, what each call answers and writes, and what any run keeps true of the money |
| `EscrowContract`, `EscrowSafety` | the on-chain escrow contract, its solvency, fees and finality |
| `EscrowAuthority`, `EscrowAnswers` | who may change what in the contract, over one call and any run, and its refusals |
| `EscrowAgreement` | the two backends driven by the same calls |
| `TokenAmount` | amounts as decimal strings: two parsers and a printer |
| `EditDistance`, `TokenOverlap` | the fuzzy-matching measures |
| `DailySeed`, `DailySeedValues` | string hash, small generator and partial shuffle behind the daily set, with fixed values of each |
| `StreakQuery` | the gaps-and-islands streak query |
| `XpAward`, `RoundGuess`, `EventQueue`, `ReconcileJob` | concurrent updates, as steps under any interleaving |
| `RoundScoring` | points of a round, each rounding where it happens |
| `CsvExport` | the audit export against a reader for section 2 of RFC 4180 |
| `LyricImport` | the admin import and its report |
| `Prelude` | options, results, whole division, sums over maps, sorting |

Code that changes state is a class or a loop proved against a specification function; what
the code promises is then proved about that function. Code made of expressions is
functions. The clock, the network, database answers and row validation are parameters.

## Where the code and its documentation differ

The model follows the code; each difference is stated exactly.

- The mock backend moves the stake its *caller* names, not the one in the row. A call keeps
  the total exactly when the two agree (`ConservesExactlyWhenStakeMatches`), and
  `MismatchedStakeMintsMoney` shows a call that does not. The run theorems assume one
  context per session with two players and a positive stake, which
  `src/game-sessions/game-sessions.service.ts:113` and `:124` enforce.
- The backends run out of digits at different places: the database stores stakes and balances in
  64-bit columns, the contract computes in i128. Without a fee the verdicts agree along a run
  exactly when at no call a new pot's stake exceeds the stake column, a payout or refund exceeds
  the receiver's balance column, or a stake exceeds the room of the escrow account
  (`BackendsAgree`). `WideStakeOpensOnChainOnly`, `FullBalanceIsPaidOnChainOnly` and
  `FullVaultTakesNoStake` are inputs on which they differ. The first reaches the backends only
  when they are called directly: the wager service first checks both balances against the stake
  and saves a row of its own with a 64-bit stake
  (`src/tokens/services/wager.service.ts:98-174`). While all the money fits one column and the
  supply fits i128, only the stakes opened with matter (`SmallMoneyStraysOnlyAtOpen`).
- "Switching modes never changes what a wager is worth"
  (`src/tokens/services/mock-token.service.ts:33-34`) fails once the contract charges a fee;
  `WinnerPaidTheSameExactlyWhen` gives the condition for one release,
  `FeeLeavesWinnerShort` a release on which the modes pay differently, and
  `FeesExplainTheDifference` the exact difference after any run.
- The contract's header speaks of draws (`contracts/lyricsflip-escrow/src/lib.rs:290-291`);
  `resolve` has no such branch. "A zero fee clears the receiver" (`lib.rs:228`) holds only
  if the caller passes none. `README.md:579-582` still lists `initialize` and a `resolve`
  that returns the payout.
- A printed amount parses back only for non-negative amounts of a token with decimals
  (`PrintThenParse`).
- The advertised maximum of 150 points (`src/game/constants/game.constants.ts:6-10`) is exceeded at
  the default difficulty 3 and by any streak (`CapHoldsExactlyWhen`).
- A late guess announces the end of the round without asking whether its update closed the
  row, so one round can be announced twice: exactly when some request reaches that branch
  while the row is already closed (`AnnouncedTwiceExactlyWhen`, `RoundAnnouncedTwice`), and
  never when every request reads the clock before the round expires (`InTimeAnnouncedOnce`).
- The import joins artist and title with a NUL character; two different songs can share the
  key exactly when a NUL occurs in one of them (`KeyIsAmbiguousExactlyWhen`).
- A negative `count` does not pick nothing: it returns the front of the sorted pool, short of
  that many of the highest ids (`PickedSize`). The function accepts such a count; the service
  that calls it always passes 10 (`src/challenges/challenges.service.ts:109-111`).

## Model

| member | source | states |
|---|---|---|
| MockEscrow.MockTokenService.constructor | src/tokens/services/mock-token.service.ts:47-52 | A fresh backend has the given balances and no pots |
| MockEscrow.MockTokenService.OpenEscrow | src/tokens/services/mock-token.service.ts:54-83 | Creates the row, or changes nothing for an existing pot or a stake its 64-bit column cannot hold; all rows and the reply are those of the specification step |
| MockEscrow.MockTokenService.StakeTokens | src/tokens/services/mock-token.service.ts:85-164 | Checks in the code's order, then one debit and one stake mark, or nothing; rows and reply are those of the specification step |
| MockEscrow.MockTokenService.ReleaseToWinner | src/tokens/services/mock-token.service.ts:176-238 | Pays two stakes to a player of a fully staked open pot and settles it, or changes nothing |
| MockEscrow.MockTokenService.RefundEscrow | src/tokens/services/mock-token.service.ts:240-290 | The refund loop credits exactly the players who staked, in one transaction, or nobody |
| MockAnswers.OpenAnswers | src/tokens/services/mock-token.service.ts:54-75 | A second pot for a session is refused as such, a stake outside signed 64 bits by its column, and nothing else is |
| MockAnswers.StakeAnswers | src/tokens/services/mock-token.service.ts:89-129 | Which refusal answers which guard, each as an if and only if: stranger, no pot, settled pot, own stake already placed, no such user |
| MockAnswers.StakeMoneyAnswers | src/tokens/services/mock-token.service.ts:118-122 | A player who may stake, with numbers that fit their columns, is refused exactly when the balance is below the stake |
| MockAnswers.ReleaseAnswers | src/tokens/services/mock-token.service.ts:180-201 | Which refusal answers which guard of a release, each as an if and only if |
| MockAnswers.RefundAnswers | src/tokens/services/mock-token.service.ts:240-262 | A refund is refused for a missing or a settled pot exactly then, and a live pot only because of a staker's row |
| MockAnswers.OpenExactly | src/tokens/services/mock-token.service.ts:65-75 | A new row has the context's players and stake, is open and without stakes; other rows and all balances stand |
| MockAnswers.StakeExactly | src/tokens/services/mock-token.service.ts:124-133 | A stake stores its own hash on the payer's side alone, takes the stake from the payer alone, and leaves every other row and balance |
| MockAnswers.ReleaseExactly | src/tokens/services/mock-token.service.ts:203-208 | A release settles an open row, keeps the stakes on record, and pays twice the stake to the winner alone |
| MockAnswers.RefundExactly | src/tokens/services/mock-token.service.ts:254-269 | A refund settles an open row, clears both stakes, and gives back one stake for each side that had one |
| MockLedger.ConservesExactlyWhenStakeMatches | src/tokens/services/mock-token.service.ts:85-290 | For any state and call: balances plus held stakes are unchanged if and only if a call that passes the guards of its branch and moves a stake names the stake of the row |
| MockLedger.MismatchedStakeMintsMoney | src/tokens/services/mock-token.service.ts:184-208 | A concrete release with another stake creates 8 units |
| MockLedger.FailedCallsChangeNothing | src/tokens/services/mock-token.service.ts:54-290 | A failed call leaves every row as it was, for every open and every call naming the stake of its row; the one other case, a refund of an empty pot with a stake outside i128, is named exactly; stored stakes keep fitting their column |
| MockLedger.CallEffect | src/tokens/services/mock-token.service.ts:54-290 | In every reachable state, whatever its total, a call succeeds only if the documented rules allow it, then changes each balance by exactly its gain; a failure changes nothing; no other session is touched |
| MockLedger.SucceedsExactlyWhen | src/tokens/services/mock-token.service.ts:54-290 | A call succeeds if and only if the rules allow it and no credited balance leaves its 64-bit column |
| MockLedger.SmallTotalsNeverOverflow | src/users/entities/user.entity.ts:171-178 | While all the money there is fits one column, no credit leaves its column |
| MockLedger.BalancesKeepFitting | src/users/entities/user.entity.ts:171-178 | Balances that fit their column keep fitting it, whatever is called |
| MockLedger.StepKeepsInv | src/tokens/services/mock-token.service.ts:54-290 | Each call keeps balances non-negative, rows in line with their context, and the total |
| MockLedger.RunConserves | src/tokens/services/mock-token.service.ts:24-40 | Over every run with any users, sessions and total, the sum of balances and held stakes is constant and no balance goes negative |
| MockLedger.EveryPotSettlesExactly | src/tokens/services/mock-token.service.ts:24-40 | Over every run each pot settles at most once; the winner ends one stake up, the loser one down, a refund leaves both even, nobody else is touched |
| MockLedger.PositionStep | src/tokens/services/mock-token.service.ts:85-290 | One call that goes through moves every user's position in the session by exactly that user's gain |
| MockLedger.RefundPassesExactlyWhen | src/tokens/services/mock-token.service.ts:254-262 | The refund loop gets through if and only if every staker's row exists and can take its credit, twice over when both stakes are one user's |
| EscrowContract.Contract.constructor | contracts/lyricsflip-escrow/src/lib.rs:184-207 | Deployment leaves no fee, no receiver, the current version and no pots |
| EscrowContract.Contract.SetAdmin | contracts/lyricsflip-escrow/src/lib.rs:213-223 | Only the admin's signature replaces the admin; storage and answer are those of the specification |
| EscrowContract.Contract.SetFee | contracts/lyricsflip-escrow/src/lib.rs:229-251 | Asks for the admin's signature, refuses a fee over the cap or without a receiver, else stores both; storage and answer are those of the specification, which `SetFeeExactly` states outright |
| EscrowContract.Contract.Migrate | contracts/lyricsflip-escrow/src/lib.rs:258-279 | Clears the fee only when the stored version is behind |
| EscrowContract.Contract.Resolve | contracts/lyricsflip-escrow/src/lib.rs:292-331 | Fee first, winner second, i128 overflow and short transfers abort the whole transaction; storage, ledger and answer are those of the specification |
| EscrowContract.Contract.RefundPot | contracts/lyricsflip-escrow/src/lib.rs:333-360 | Each funded player gets the stake back, or the whole transaction aborts |
| EscrowSafety.MovedEffect | contracts/lyricsflip-escrow/src/lib.rs:313-322 | A transfer is refused if and only if the sender is short or the receiver would leave i128, and it creates nothing |
| EscrowSafety.FeeBounds | contracts/lyricsflip-escrow/src/lib.rs:14-19 | A fee within the cap takes at most a tenth, leaves the winner at least one stake, and fits i128 for stakes up to a 2000th of the maximum |
| EscrowSafety.ResolvePaysTwoStakes | contracts/lyricsflip-escrow/src/lib.rs:292-331 | A permitted resolve goes through if and only if the fee product and the receivers' balances fit i128, and then moves exactly two stakes out: the fee to the receiver, the rest to a player of that pot |
| EscrowSafety.SupplyLetsResolve | contracts/lyricsflip-escrow/src/lib.rs:304-322 | While the token supply fits i128, only the fee product can stop a permitted resolve |
| EscrowSafety.RefundReturnsStakes | contracts/lyricsflip-escrow/src/lib.rs:333-360 | A refund by the resolver of a live pot never falls short, goes through if and only if the players' balances stay within i128, and returns each stake to its own player, whatever the fee |
| EscrowSafety.SupplyLetsRefund | contracts/lyricsflip-escrow/src/lib.rs:333-360 | While the token supply fits i128, such a refund always goes through |
| EscrowSafety.StakeEffect | README.md:579-588 | A stake goes through exactly for a signed, unfunded player of a live pot who has the tokens, when the escrow account has room, and moves one stake into the contract |
| EscrowSafety.RefusedChangesNothing | contracts/lyricsflip-escrow/src/lib.rs:192-360 | Any answer but success leaves config, pots and ledger as they were |
| EscrowSafety.StepIsSolvent | contracts/lyricsflip-escrow/src/lib.rs:192-360 | Every transaction keeps the fee cap with a receiver, sound pots, the token supply, and the contract's balance equal to live stakes plus surplus |
| EscrowSafety.EveryRunIsSolvent | contracts/lyricsflip-escrow/src/lib.rs:9-12 | After any run, whatever the supply, the contract holds exactly the stakes of live pots plus what it held at first plus what it was given |
| EscrowSafety.SettledPotsAreFinal | contracts/lyricsflip-escrow/src/lib.rs:117-121 | A resolved or refunded pot never changes, and over any later run no call on it succeeds or moves a token |
| EscrowSafety.MigrateRunsOnce | contracts/lyricsflip-escrow/src/lib.rs:258-279 | Migrating twice is migrating once; it changes something exactly when the version is behind, and then the fee is off |
| EscrowSafety.ZeroFeeClearsReceiverExactlyWhen | contracts/lyricsflip-escrow/src/lib.rs:225-246 | The documented clearing of the receiver at a zero fee happens exactly when the caller names no receiver |
| EscrowAuthority.ConstructorFields | contracts/lyricsflip-escrow/src/lib.rs:184-207 | Each argument of the deployment takes its own role; fee 0, no receiver, version 2, no pots |
| EscrowAuthority.SetFeeExactly | contracts/lyricsflip-escrow/src/lib.rs:229-251 | Succeeds if and only if the contract is set up, its admin signed, the fee is at most 1000 basis points and has a receiver unless it is 0; then exactly these two fields are the arguments |
| EscrowAuthority.SetAdminExactly | contracts/lyricsflip-escrow/src/lib.rs:213-223 | Succeeds if and only if the admin signed, and then replaces the admin alone |
| EscrowAuthority.MigrateExactly | contracts/lyricsflip-escrow/src/lib.rs:258-279 | Succeeds if and only if the admin signed; behind version 2 it clears the fee and sets the version, otherwise it changes nothing |
| EscrowAuthority.OpenPotExactly | README.md:579-588 | Succeeds if and only if the resolver signed for two different players, a positive stake and a new session; then exactly that pot is added |
| EscrowAuthority.PotAfter | contracts/lyricsflip-escrow/src/lib.rs:324-325 | A stake, payout or refund changes its own pot's funding marks and status as documented, and no other pot and no configuration |
| EscrowAuthority.OnlyAdminConfigures | contracts/lyricsflip-escrow/src/lib.rs:233-235 | A transaction that changes configuration or version was signed by the admin of the state before it |
| EscrowAuthority.OnlyThePartiesChangeAPot | contracts/lyricsflip-escrow/src/lib.rs:292-294 | A transaction that adds or changes a pot was signed by the resolver, or is a stake signed by a player of that pot |
| EscrowAuthority.NobodyPaysUnasked | contracts/lyricsflip-escrow/src/lib.rs:9-12 | An account whose balance falls signed the transaction; the contract's own falls only with the resolver's signature |
| EscrowAuthority.NoAdminNoChange | contracts/lyricsflip-escrow/src/lib.rs:213-279 | Over any run in which the admin signs nothing, configuration and version stay the same |
| EscrowAuthority.RolesAreForGood | contracts/lyricsflip-escrow/src/lib.rs:184-207 | Over any run token and resolver never change |
| EscrowAuthority.SilentAccountsKeepTheirMoney | contracts/lyricsflip-escrow/src/lib.rs:9-12 | Over any run an account that signs nothing never loses a token |
| EscrowAuthority.NoResolverNoPayout | contracts/lyricsflip-escrow/src/lib.rs:292-337 | Over any run in which the resolver signs nothing, the escrow account never shrinks |
| EscrowAnswers.SignaturesComeFirst | contracts/lyricsflip-escrow/src/lib.rs:213-340 | Every call is refused without a configuration, and then traps without its own signature: admin, player or resolver |
| EscrowAnswers.OpenRefusals | README.md:579-588 | Which error an opening gives for what, each as an if and only if |
| EscrowAnswers.ResolveRefusals | contracts/lyricsflip-escrow/src/lib.rs:296-302 | Which error a resolve gives for what, each as an if and only if |
| EscrowAnswers.RefundRefusals | contracts/lyricsflip-escrow/src/lib.rs:337-340 | Which error a refund gives for what, each as an if and only if |
| EscrowAnswers.StakeRefusals | README.md:579-588 | Which error a stake gives for what, each as an if and only if |
| EscrowAgreement.SameVerdictExactlyWhen | src/tokens/services/mock-token.service.ts:24-34 | With alike pots, any fee and any balances, mock and contract give one verdict if and only if, for a call within the rules, the money guards hold on both sides or on neither |
| EscrowAgreement.PaysAlikeExactlyWhen | src/tokens/services/mock-token.service.ts:24-34 | Without a fee and with equal balances the guards differ if and only if a new stake exceeds the stake column, a credit exceeds a balance column, or the escrow account has no room |
| EscrowAgreement.WideStakeOpensOnChainOnly | src/tokens/services/mock-token.service.ts:65-75 | A stake of 2^63 opens a pot on chain that the database refuses |
| EscrowAgreement.FullBalanceIsPaidOnChainOnly | src/tokens/services/mock-token.service.ts:203-205 | A winner whose balance column is nearly full is paid on chain and not in the database |
| EscrowAgreement.FullVaultTakesNoStake | README.md:581 | An escrow account holding the largest i128 takes no stake, the database does |
| EscrowAgreement.SameGains | src/tokens/services/mock-token.service.ts:24-34 | A call both accept moves the same money on both sides, up to the fee on a release |
| EscrowAgreement.StepAgrees | src/tokens/services/mock-token.service.ts:24-34 | Without a fee, one call to which none of the three applies succeeds on both backends or on neither and leaves them related: same pots, same player balances |
| EscrowAgreement.BackendsAgree | src/tokens/services/mock-token.service.ts:24-34 | Along every run without a fee the two backends give the same verdicts if and only if none of the three applies at any call, and then every player's balance stays equal |
| EscrowAgreement.SmallMoneyStraysOnlyAtOpen | src/tokens/services/mock-token.service.ts:24-34 | While all the money fits one column and the supply i128, that is so if and only if every stake opened with fits the column |
| EscrowAgreement.FeesExplainTheDifference | contracts/lyricsflip-escrow/src/lib.rs:304-322 | With any fee, along every run: the verdicts agree if and only if at each call the money guards do, and then a player is better off in the database by exactly the fees on the pots that player won less the fees that player received |
| EscrowAgreement.FreshBackendsAreRelated | contracts/lyricsflip-escrow/src/lib.rs:192-207 | Two fresh backends with the same balances are related, so the run theorem applies from the start |
| EscrowAgreement.WinnerPaidTheSameExactlyWhen | src/tokens/services/mock-token.service.ts:33-34 | With a fee, an allowed release goes through on chain and is worth the same in both modes if and only if the winner's column can take it and the fee rounds to nothing or goes to the winner |
| EscrowAgreement.FeeLeavesWinnerShort | src/tokens/services/mock-token.service.ts:33-34 | At a fee of 10%, a pot of 100 each is worth 200 in the database and 180 on chain |
| TokenAmount.StringsCarryIntegers | src/stellar/amount.util.ts:31-47 | Printing an integer and reading it back gives it, or "too large" exactly outside -2^127..2^127-1, written out |
| TokenAmount.AcceptedExactlyWhen | src/stellar/amount.util.ts:22-26 | A typed amount has the accepted form if and only if, blanks around it aside, it is digits alone or digits, a dot and between one and `decimals` more digits |
| TokenAmount.StoredFormExactlyWhen | src/stellar/amount.util.ts:16 | A stored amount has the accepted form if and only if it is digits with at most a minus in front |
| TokenAmount.TrimTakesBlanks | src/stellar/amount.util.ts:64 | Trimming removes blanks at both ends and nothing else |
| TokenAmount.AdditionIsExact | src/stellar/amount.util.ts:106-109 | Adding through strings is adding integers if and only if both operands fit i128 |
| TokenAmount.ConversionIsExact | src/stellar/amount.util.ts:49-84 | The stroops of any accepted amount, whole part and fraction as typed, are its digits without the dot times the right power of ten; nothing is rounded |
| TokenAmount.TwoParsersAgree | src/game-sessions/dto/create-game-session.dto.ts:37-41 | Both parsers read every accepted stake alike, up to the i128 limit only `toStroops` checks |
| TokenAmount.PrintThenParse | src/stellar/amount.util.ts:86-104 | Printing then parsing gives an i128 amount back if and only if it is not negative and the token has decimals |
| TokenAmount.ParseThenPrint | src/stellar/amount.util.ts:56-104 | Parsing then printing gives the text back if and only if it is canonical: no superfluous leading or trailing zero, at least one decimal |
| EditDistance.Levenshtein | src/game/guess-matcher.ts:91-113 | The filled table's last entry is the least number of insertions, deletions and substitutions turning one string into the other |
| EditDistance.ScriptOfDistance | src/game/guess-matcher.ts:91-113 | A script of exactly that many edits exists |
| EditDistance.ScriptsAreNoShorter | src/game/guess-matcher.ts:91-113 | No edit script is shorter |
| EditDistance.ZeroExactlyWhenEqual | src/game/guess-matcher.ts:88-113 | The distance is 0 if and only if the strings are equal |
| EditDistance.Symmetric | src/game/guess-matcher.ts:88-113 | The distance is symmetric |
| EditDistance.TriangleInequality | src/game/guess-matcher.ts:88-113 | The distance satisfies the triangle inequality |
| EditDistance.LengthBounds | src/game/guess-matcher.ts:88-113 | It lies between the difference of the lengths and the longer length |
| TokenOverlap.CountShared | src/game/guess-matcher.ts:66-69 | The counting loop finds the size of the intersection, in any visiting order |
| TokenOverlap.Jaccard | src/game/guess-matcher.ts:63-72 | Shared tokens over all tokens of the two token sets, 0 when there are none |
| TokenOverlap.Dice | src/game/guess-matcher.ts:77-86 | Twice the shared tokens over both sizes, 0 when there are none |
| TokenOverlap.SimilarityScale | src/game/guess-matcher.ts:60-86 | Jaccard times the union is what is shared, Dice times both sizes is twice that; each score determines the other, Jaccard is at most Dice, both stay in 0..1, 1 means the same tokens and 0 nothing shared |
| SeededRandom.HashSeed | src/challenges/daily-seed.util.ts:2-9 | The loop computes the fold of the hash step over the code units |
| SeedValues.PublishedHashes | src/challenges/daily-seed.util.ts:2-9 | The hash of the empty string is 0x811c9dc5 and that of "a" is 0xe40c292c, the published FNV-1a values |
| Word32.XorIsBitwise | src/challenges/daily-seed.util.ts:5-18 | Every bit of the exclusive or is 1 exactly when the two bits differ |
| Word32.OrIsBitwise | src/challenges/daily-seed.util.ts:17-18 | Every bit of the or is 1 exactly when one of the two bits is |
| Word32.DivisionShifts | src/challenges/daily-seed.util.ts:17-19 | Dividing by 2^n moves every bit n places down, so the divisions are the unsigned shifts |
| SeededRandom.PrimeIsInvertible | src/challenges/daily-seed.util.ts:6 | The hash multiplication is undone by one fixed factor modulo 2^32 |
| SeededRandom.HashStepIsInjective | src/challenges/daily-seed.util.ts:5-6 | Two steps with one result have equal states if and only if they have equal code units |
| SeededRandom.SuffixKeepsCollisions | src/challenges/daily-seed.util.ts:2-9 | A common suffix neither makes nor hides a collision |
| SeededRandom.OneUnitChangesTheHash | src/challenges/daily-seed.util.ts:2-9 | Changing exactly one code unit of any string always changes its hash |
| SeededRandom.Generator.Next | src/challenges/daily-seed.util.ts:12-21 | The k-th call returns the mix of the seed plus k increments, as a fraction in [0, 1) |
| SeedValues.MixOf16 | src/challenges/daily-seed.util.ts:16-19 | The generator's mix takes state 16 to 87375 |
| SeededRandom.StatesAreDistinct | src/challenges/daily-seed.util.ts:13-15 | No state recurs within 2^32 calls |
| SeededRandom.EveryStateIsReached | src/challenges/daily-seed.util.ts:13-15 | Every 32-bit value is reached from every seed |
| SeededRandom.PeriodIsFull | src/challenges/daily-seed.util.ts:13-15 | After 2^32 calls the generator starts over |
| DailyPick.PickDeterministic | src/challenges/daily-seed.util.ts:27-43 | Returns the selection determined by the contents of the pool, the count and the hash of the seed |
| DailyPick.Shuffle | src/challenges/daily-seed.util.ts:36-40 | The in-place loop settles exactly the selection its draws stand for |
| DailyPick.DrawsAreFloors | src/challenges/daily-seed.util.ts:37-39 | Draw i is the floor of the (i+1)-th fraction times the number of ids still open |
| DailyPick.DrawsAreStretched | src/challenges/daily-seed.util.ts:20-39 | In whole numbers: draw i is the generator's word times the number of ids still open, divided by 2^32 |
| DailyPick.EveryPositionIsDrawn | src/challenges/daily-seed.util.ts:37-39 | For pools up to 2^32 every position comes from some word of the generator |
| SeedValues.SeedsPickDifferently | src/challenges/daily-seed.util.ts:23-43 | On every pool of 65536 different ids two named seeds pick different songs |
| DailyPick.PickIsFromThePool | src/challenges/daily-seed.util.ts:36-42 | As many picks as draws, each id at most as often as in the pool |
| DailyPick.PickIsSelection | src/challenges/daily-seed.util.ts:23-43 | From distinct ids every run of draws gives distinct members |
| DailyPick.DifferentDrawsPickDifferently | src/challenges/daily-seed.util.ts:36-42 | Different draws give different ordered selections |
| DailyPick.EverySelectionIsPicked | src/challenges/daily-seed.util.ts:36-42 | Every ordered selection comes from some draws, so the shuffle is a bijection |
| DailyPick.OrderOfIdsDoesNotMatter | src/challenges/daily-seed.util.ts:23-32 | Reordering the pool does not change the answer |
| DailyPick.PickedSize | src/challenges/daily-seed.util.ts:34-42 | The size is the smaller of count, taken as 0 when negative, and pool size if and only if the count is not negative or drops the whole pool; a negative count returns the front of the sorted pool; always a sub-multiset of the ids |
| DailyPick.SmallerSetIsPrefix | src/challenges/daily-seed.util.ts:36-42 | With one seed and pool, a smaller set is the beginning of a larger one |
| StreakQuery.SameRunExactlyWhenUnbroken | src/game-history/game-history.service.ts:53-66 | Two correct rows share a run if and only if no incorrect row lies between them |
| StreakQuery.GroupIsInterval | src/game-history/game-history.service.ts:67-69 | The rows counted in one group are consecutive |
| StreakQuery.GroupSizeIsStreakLength | src/game-history/game-history.service.ts:53-69 | A group's count is the length of the longest correct block around each of its rows |
| StreakQuery.BestStreakIsLongestBlock | src/game-history/game-history.service.ts:59-76 | For every ordered history the best streak is the longest block of consecutive correct guesses, 0 exactly when there is none |
| StreakQuery.OneMoreGuess | src/game-history/game-history.service.ts:70-75 | One more guess adds its points and XP to the totals and moves the best streak to the trailing streak plus one, exactly when it is correct and that is longer |
| StreakQuery.NoGuessesYet | src/game-history/game-history.service.ts:70-76 | Without guesses every figure is 0, so with the step above the figures of every history are fixed |
| XpLevels.LevelBands | src/xp-level/xp-level.service.ts:31-55 | The bands leave no gap: the level counts the thresholds reached, for every XP, and fixes the title |
| XpLevels.UsersTable.IncrementReturning | src/xp-level/xp-level.service.ts:179-186 | Adds the award to that row alone and returns its new XP and its level |
| XpLevels.UsersTable.SetLevelIfBelow | src/xp-level/xp-level.service.ts:201-206 | Writes level and title only over a lower level |
| XpLevels.UsersTable.HandleCorrectGuess | src/xp-level/xp-level.service.ts:178-209 | Alone, an award on a consistent row leaves it consistent and reports its level |
| ConcurrentAwards.StepKeepsInv | src/xp-level/xp-level.service.ts:178-209 | Every statement of every request keeps the invariant and lowers neither XP nor level |
| ConcurrentAwards.LevelNeverRunsAhead | src/xp-level/xp-level.service.ts:198-206 | Under every interleaving XP and level only rise and the level never exceeds the one for the XP |
| ConcurrentAwards.AllAwardsCount | src/xp-level/xp-level.service.ts:167-177 | When all requests are done, XP has risen by 10 per request, level and title fit it, and every request was told a different total |
| RoundGuess.RoundRow.UpdateIfOpen | src/game/game.service.ts:355-358 | Writes the closing time only over an empty one, and counts the rows it changed |
| RoundGuess.RoundRow.GuessRound | src/game/game.service.ts:324-402 | Alone, the request ends with the outcome, the row and the events that the step protocol reaches with that one request, so every run theorem speaks of it |
| RoundGuess.RunKeepsInv | src/game/game.service.ts:324-402 | The protocol invariant holds after every interleaving of any number of guesses |
| RoundGuess.AtMostOneGuessIsScored | src/game/game.service.ts:314-323 | No two of any number of concurrent guesses are scored, and the scored one closed the row before it expired |
| RoundGuess.ClosedForGood | src/game/game.service.ts:314-323 | A closing time is never overwritten, and an answer is shown only when the row is closed |
| RoundGuess.OneOwnerGuessGetsThrough | src/game/game.service.ts:339-362 | When everyone is done and the owner guessed, the row is closed by a request that was scored or told it came too late |
| RoundGuess.OwnersAreNeverNotFound | src/game/game.service.ts:325-333 | The owner never gets "not found", anybody else gets nothing else |
| RoundGuess.OneAnnouncementPerEnding | src/game/game.service.ts:346-351 | Each scored and each late request announces the end exactly once, no other request does |
| RoundGuess.TimedOutExactlyWhen | src/game/game.service.ts:346-395 | Over every run an announcement says "timed out" if and only if its request was refused as too late, or was scored more than the window after the round was issued |
| RoundGuess.AnnouncedTwiceExactlyWhen | src/game/game.service.ts:341-352 | Once every request has finished, the end was announced twice if and only if some step took the late branch while the row was already closed; before that, only if |
| RoundGuess.StepTwoEnd | src/game/game.service.ts:341-352 | One step makes two requests end the round exactly when two did before, or it takes the late branch on a closed row |
| RoundGuess.InTimeAnnouncedOnce | src/game/game.service.ts:339-352 | If every request reads the clock before the round expires, no interleaving announces the end twice |
| RoundGuess.RoundAnnouncedTwice | src/game/game.service.ts:341-352 | A concrete interleaving announces one round twice, with opposite results |
| EventQueue.EntityEventsSubscriber.constructor | src/realtime/entity-events.subscriber.ts:82-90 | Starts with no queues and nothing announced |
| EventQueue.EntityEventsSubscriber.Raise | src/realtime/entity-events.subscriber.ts:155-170 | Announces at once outside a transaction, else appends to that runner's queue |
| EventQueue.EntityEventsSubscriber.AfterTransactionCommit | src/realtime/entity-events.subscriber.ts:82-86 | The loop announces the runner's whole queue in order and forgets it |
| EventQueue.EntityEventsSubscriber.AfterTransactionRollback | src/realtime/entity-events.subscriber.ts:88-90 | Forgets the runner's queue and announces nothing |
| EventQueue.LogIsWhatWasCalledFor | src/realtime/entity-events.subscriber.ts:82-90 | For every un-nested history of any number of runners the log is exactly the announcements read off the history alone |
| EventQueue.TransactionIsAllOrNothing | src/realtime/entity-events.subscriber.ts:82-90 | A commit announces all events since the begin, contiguous and in order; a rollback announces none of them |
| EventQueue.FateOfAnEvent | src/realtime/entity-events.subscriber.ts:155-170 | An event raised once is in exactly one place exactly once: announced, queued, or dropped |
| EventQueue.FirstEndingDecides | src/realtime/entity-events.subscriber.ts:82-90 | The first commit or rollback of the runner that holds an event decides for good |
| ReconcileJob.WagerReconcileJob.constructor | src/tokens/services/wager-reconcile.job.ts:57-60 | A restarted job has no attempt records |
| ReconcileJob.WagerReconcileJob.ReconcileStuckWagers | src/tokens/services/wager-reconcile.job.ts:115-186 | The loop over stuck wagers takes the job to the state the run of those visits reaches, skipping those held back, so the run theorems apply to it |
| ReconcileJob.OnlySettlingIsFailed | src/tokens/services/wager-reconcile.job.ts:160-168 | A visit leaves a wager as reconciliation left it, except that giving up turns SETTLING and nothing else into FAILED; other records stay |
| ReconcileJob.RecordsAreFailures | src/tokens/services/wager-reconcile.job.ts:129-168 | Over every run a wager has a record if and only if it has failures, read off the history alone, and the record is their number and the last of them plus the doubled delay |
| ReconcileJob.TurnTakesEffectExactlyWhen | src/tokens/services/wager-reconcile.job.ts:129-168 | Over every run a turn takes effect if and only if the wager has no failures and the clock has started, or the delay of base * 2^(n-1) since the n-th failure is over; the effect on wager and record is stated, otherwise nothing changes |
| ReconcileJob.AttemptsAreFailures | src/tokens/services/wager-reconcile.job.ts:129-186 | Over every run with a clock that does not run backwards, a stored count lies in 1..max-1, equals the failures since the last success, give-up or restart, and the failures are spaced by the doubling delay |
| ReconcileJob.GapsAddUp | src/tokens/services/wager-reconcile.job.ts:156-158 | Failures spaced that way take at least base * (2^n - 1) for n gaps |
| ReconcileJob.GiveUpComesLate | src/tokens/services/wager-reconcile.job.ts:44-53 | A turn that may start and fails gives the wager up exactly at its max-th failure in a row, not before base * (2^(max-1) - 1) after the first |
| CsvExport.WriteFile | src/audit/audit.controller.ts:39-58 | The streaming loop writes the header and one line per row |
| CsvExport.Export | src/audit/audit.controller.ts:33-59 | The file, read by an independent reader for section 2 of RFC 4180, is the nine column names and then, below each name, every row's field of that name |
| CsvExport.CellsTell | src/audit/audit.controller.ts:41-51 | The texts of a row's line are, column name by column name, its fields of that name |
| CsvExport.QuotedExactlyWhen | src/audit/audit.controller.ts:78 | A cell is quoted if and only if its text holds a comma, a quote, LF or CR |
| CsvExport.CellReadsBack | src/audit/audit.controller.ts:75-79 | Any cell, whatever it holds, before any separator reads back as its neutralised text |
| CsvExport.LineReadsBack | src/audit/audit.controller.ts:41-54 | Any line of cells reads back as one record of those texts |
| CsvExport.ExportReadsBack | src/audit/audit.controller.ts:39-58 | Any table under a plain header reads back cell by cell |
| CsvExport.NeverAFormula | src/audit/audit.controller.ts:74-77 | No exported text begins with =, +, -, @, tab or CR; a text that does gets an apostrophe in front, any other is unchanged, null is empty |
| CsvExport.WhatNeutralisingMerges | src/audit/audit.controller.ts:75-77 | Two texts export alike if and only if they are equal or one is the other, a formula, with the guard in front |
| RoundScoring.ScoreIs | src/game/round-scoring.util.ts:76-130 | Every part of every score in whole numbers: nothing when late or wrong; else 25 per round of the streak, base and bonus at 2, 3 or 4 halves to the nearest point, and of both together 100, 75, 50, 25 or 0 percent to the nearest point |
| RoundScoring.BonusFallsLinearly | src/game/round-scoring.util.ts:32-49 | The bonus is base * (window - elapsed) / (2 * window) to the nearest point, 0 from the end of the window on, and the full one before its start |
| RoundScoring.NearestIsOne | src/game/round-scoring.util.ts:48 | Only one whole number is nearest, so the two results above leave no other score |
| RoundScoring.BonusOrder | src/game/round-scoring.util.ts:32-49 | The speed bonus is never negative, never rises with elapsed time and never falls with base points |
| RoundScoring.BonusBound | src/game/round-scoring.util.ts:32-49 | It is at most 50 for base points up to 100 |
| RoundScoring.BetterRoundsScoreMore | src/game/round-scoring.util.ts:76-130 | Points are never negative, hints never add points, and a round no slower, with no more hints and no lower base, difficulty or streak never scores less |
| RoundScoring.AnswersScoreExactlyWhen | src/game/round-scoring.util.ts:96-116 | A matched answer with the hints allowed scores if and only if it is correct and in time |
| RoundScoring.PointsStayUnderCeiling | src/game/round-scoring.util.ts:76-130 | Points stay within the ceiling for the round's hints, difficulty and streak |
| RoundScoring.CeilingIsReached | src/game/round-scoring.util.ts:76-130 | An instant full answer reaches that ceiling |
| RoundScoring.CeilingInPoints | src/game/constants/game.constants.ts:3-19 | The ceiling in plain points: 150, 225 or 300 by difficulty without hints, 25 more per round of the streak, 0 after four hints |
| RoundScoring.AdvertisedMaximum | src/game/round-scoring.util.ts:67-74 | The advertised maximum is 150, 113, 75 and 38 points for up to three hints, then 0 |
| RoundScoring.CapHoldsExactlyWhen | src/game/round-scoring.util.ts:67-74 | The advertised maximum bounds every round if and only if the round is easy without a streak, or four hints were taken |
| LyricImport.CheckRows | src/admin/admin.service.ts:145-181 | The first loop keeps exactly the first accepted row of each key and reports every other row as an error with its reason |
| LyricImport.Partition | src/admin/admin.service.ts:193-207 | The second loop splits the rest into new songs, known ones and, in create-only mode, skipped ones, in file order |
| LyricImport.ImportLyrics | src/admin/admin.service.ts:124-240 | Line i of the report says of row i: an error with its reasons, a duplicate of the first row with its key, created for a new key, and for a known key skipped in create-only mode and updated in upsert mode; each counter counts those lines, a dry run reports the same and saves nothing, and a real run saves exactly the songs reported as created, then updated |
| LyricImport.EveryLineMeans | src/admin/admin.service.ts:149-207 | The verdicts the loops build up have that meaning, row by row, each status as an if and only if |
| LyricImport.SavedAreReported | src/admin/admin.service.ts:222-237 | What goes to the database is, song by song, what the report calls created and then what it calls updated |
| LyricImport.CreateOnlyNeverOverwrites | src/admin/admin.service.ts:196-207 | In create-only mode no saved song has a key that exists |
| LyricImport.GroupingKeepsEveryRow | src/admin/admin.service.ts:209-237 | Collecting lines status by status loses and repeats none |
| LyricImport.CountersAddUp | src/admin/admin.service.ts:134-143 | The four counters add up to the number of rows |
| LyricImport.SortRestoresOrder | src/admin/admin.service.ts:218-237 | Sorting by row number any rearrangement of a report in file order gives that report back |
| LyricImport.ChosenAreReported | src/admin/admin.service.ts:193-237 | The lines with a status are the entries chosen for it, in file order |
| LyricImport.FirstWith | src/admin/admin.service.ts:168-179 | The line a duplicate points to is the first accepted row with its key |
| LyricImport.EveryKeySurvives | src/admin/admin.service.ts:168-181 | A key survives the duplicate check if and only if some accepted row carries it |
| LyricImport.SavedSongsDiffer | src/admin/admin.service.ts:222-227 | No two songs handed to the database in one import share artist and title |
| LyricImport.KeyIsAmbiguousExactlyWhen | src/admin/admin.service.ts:168 | Some different song shares a song's key if and only if its artist or title holds a NUL |
| LyricImport.DuplicatesAreTheSameSong | src/admin/admin.service.ts:168-179 | A row without NULs is called a duplicate if and only if an earlier accepted row has its artist and title |

## Left out

- `open_pot` and `stake` of the contract: their bodies are not part of the repository's text; they are reconstructed from `README.md:579-588`, the `Pot` fields and the contract's own tests.
- `claim_refund`, `set_resolver`, `upgrade`, storage lifetimes and published events of the contract: no bodies to model, and the header and a test disagree about resolving after a claim.
- `StellarTokenService` and `WagerService`: not part of this model; reconciliation of one wager has an arbitrary outcome.
- Two concurrent `openEscrow` calls for one session: the mock's check and insert are taken as one step; stakes are integers, so malformed stake strings are not modelled; a stake hash is never the empty string.
- MockLedger.RunConserves: needs one context per session with distinct players and a positive stake within i128, because the amount moved is the caller's.
- EscrowSafety.EveryRunIsSolvent: needs that the contract address signs nothing itself; the token is a plain ledger of i128 balances without its own rules.
- EscrowAuthority.SilentAccountsKeepTheirMoney: needs, as the solvency of runs does, that the contract address signs nothing itself.
- EscrowAgreement.BackendsAgree: is stated without a fee, because with one the two backends pay differently; `FeesExplainTheDifference` has that case.
- The row the mock writes: it is modelled as written, with the fields `stake`, `stakeHashA`, `stakeHashB` and the status values 'OPEN' and 'SETTLED'; the entity in `src/tokens/entities/wager.entity.ts:49-160` has other names and states for them, of which the model keeps only the 64-bit stake column. The wager service saves its own row for the session before it calls the backend (`src/tokens/services/wager.service.ts:161-174`), which the backend's existence check would find; how the two share one table is not modelled.
- `matchGuess`, both `normalizeAnswer` versions and tokenizing: the file holds two clashing bodies and undefined constants; only the distance and the two ratios are modelled.
- Floating point: ratios, multipliers, fractions and draws are exact; the daily draws are exact doubles for pools below 2^21, and `2 ** n` of the backoff is exact until doubles overflow.
- Bit operations of hash and generator work on numbers below 2^32; strings of the other modules are sequences of characters rather than UTF-16 code units.
- StreakQuery.BestStreakIsLongestBlock: starts from the rows already ordered by time and id; the sort and the player filter of the query are the database's.
- RoundGuess.OneOwnerGuessGetsThrough: supposes every request runs to its end; a request that stops midway is an unfinished one and is covered by the other lemmas.
- `checkGuess`, hints, session touching and the later part of `src/game/game.service.ts`: not part of this model.
- EventQueue.LogIsWhatWasCalledFor: nested transactions (savepoints) are excluded; which entity changes raise which events, and what listeners do, is left out.
- ReconcileJob.AttemptsAreFailures: database writes succeed; if the give-up update threw, the attempt record already stored, with its count at the maximum, would stay, and the span wrapper would run the visit again. One sweep at a time, as the advisory lock arranges.
- ReconcileJob.WagerReconcileJob.ReconcileStuckWagers: a throwing give-up update, which would end the sweep, is left out, with spans, metrics and notifications.
- `awardGuessXp`: a plain read-modify-write beside the atomic path, not modelled; column-name quoting in the level update is taken as intended.
- LyricImport.ImportLyrics: file parsing, row validation and the set of existing keys are inputs; a failing database write is left out.
- Controllers, guards, configuration, migrations, mail, websockets, tracing and the lyrics cache: plumbing that would only add easy members.

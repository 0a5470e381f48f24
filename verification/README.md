# Verified model of the Flare and Songbird money scripts

This Dafny 4.11 project models the TypeScript code of `flare-smart-contracts` that decides how much
money goes where, and proves that no stage of it loses, doubles or misplaces any.

- **Airdrops.** A snapshot is validated, every valid line is converted to wei (rounded down, one
  address capped), credits are gathered per address, the account list is printed and cut into
  transactions, and the transactions are signed. Every stage recomputes totals from another
  representation; the model proves that they agree, line by line and address by address.
- **Genesis.** Account definitions are copied, their entry texts read, and balancing accounts,
  reached through a second list of references to the same objects, take up the remaining supply.
  The reports print the balances, the chain genesis is joined in place and serialized twice.
- **Inflation split.** Each receiver gets a floored part of what is left over a shrinking divisor.
- **Price provider.** A commit/reveal loop against a clock that moves on between its actions, and
  the mock contracts that take or refuse its transactions.
- **Digit grouping.** A regular expression and an insertion loop, against one specification.

Conversion factors and percentages are arbitrary non-negative reals, balances are unbounded
integers, addresses are strings, and address checks, signatures and the price hash are function
parameters. Objects the scripts change in place are Dafny classes; loops are Dafny loops.

## Layout

| file | content |
|---|---|
| `Arithmetic.dfy`, `Sums.dfy`, `Wrappers.dfy` | floor division, totals of sequences, optional values |
| `Numerals.dfy` | printing and reading numbers in a base, with both round trips |
| `DigitGrouping.dfy`, `WeiFormat.dfy` | the two digit groupers; the wei printer and the entry reader |
| `InflationSplit.dfy` | the sequential remainder split |
| `Snapshot.dfy`, `FlareValidation.dfy`, `SongbirdValidation.dfy` | snapshot lines and their validation |
| `Ledger.dfy` | per-address dictionary, account list, histogram |
| `TransactionFees.dfy` | gas settings and the announced gas total |
| `Conversion.dfy` | line conversion, rounding loss, the repository's constants |
| `FlareConversion.dfy`, `FlareTransactions.dfy`, `FlareAirdrop.dfy` | the Flare airdrop |
| `SongbirdAirdrop.dfy` | the Songbird airdrop |
| `GenesisAccounts.dfy`, `GenesisBalancing.dfy`, `SongbirdGenesis.dfy` | genesis accounts and their supply |
| `GenesisCsv.dfy`, `AllocMerge.dfy`, `GenesisSupply.dfy` | the CSV report, the alloc merge, the supply end to end |
| `PriceProvider.dfy` | the provider loop, its lateness, and the mock contracts' state |

## Where the code does less than it seems to

Each is proved as an exact condition, or with an input on which the expected property fails.

- The Flare and Songbird genesis lists meet the target supply if and only if the balancing
  accounts' own entries add up to zero: those entries are subtracted from the remainder and then
  overwritten (`GenesisBalancing.SupplyMeetsTarget`, `SongbirdGenesis.SongbirdSupply`).
- A printed wei amount reads as the true amount if and only if it is zero or at least 10^17 wei:
  the fraction is not padded to 18 places, so 5 wei is printed "0.5"
  (`WeiFormat.PrintedAmountIsTrue`). Reading it back by deleting the separators is always exact.
- The two digit groupers agree on digit strings. With a fraction they agree if and only if it has
  at most three digits, on signed numerals if and only if the digits do not fill whole triples.
- No account uses a nonce twice if and only if the two Flare senders are different accounts, nothing
  is sent, or the two nonce ranges do not meet (`FlareTransactions.NonceReuse`); senders and
  contracts are compared as accounts, whatever the letter case and prefix of their addresses.
- Both airdrop contracts are sent the right total if and only if they are different accounts or the
  total is zero; the script falls back to one empty address for both
  (`FlareAirdrop.ContractsAreSentTotalIff`).
- Addresses are told apart as texts, but the address check accepts several spellings of one account.
  No account is listed twice if and only if no two valid lines spell one account differently
  (`FlareAirdrop.AccountsListedOnce`, `SongbirdAirdrop.AccountsListedOnce`). The Flare contract
  overwrites the first of two amounts (contracts/genesis/implementation/InitialAirdrop.sol:83-88).
- The total handed out with the repository's constants is the expected one if and only if no line is
  capped, or on Songbird the contingent percentage is zero.
- The CSV report is finished if and only if the ids increase strictly from 2 on; otherwise its
  inner loop runs forever (`GenesisCsv.ReportTerminatesIff`).
- The price contract forgets a hash when it is revealed, so its duplicate check alone does not keep
  an epoch from being served twice; the windows do. A revealed epoch takes no second hash if and only
  if the reveal carries a price or comes after the epoch, because the reveal window is checked once
  per price (`PriceProvider.RevealClosesIff`, `PriceProvider.EmptyRevealReopens`).
- The comment above the Flare genesis processing says that accounts 2 and 3 are filled with half
  the remainder each; the code fills all accounts marked as balancing, and the model follows it.

## Model

| member | source | states |
|---|---|---|
| InflationSplit.CalculateAuthorizedInflationWei | deployment/test/final-verification.ts:8-20 | the loop with its early return gives the share of the first receiver of that name and zero for an unlisted name, whatever the divisors met on the way |
| InflationSplit.LeftBounds | deployment/test/final-verification.ts:11-16 | what is left after i receivers is at least its exact proportion of the total and exceeds it by less than i wei |
| InflationSplit.ShareBounds | deployment/test/final-verification.ts:8-20 | receiver i gets at least the floor of its exact part of the whole and at most i wei more than the exact part |
| InflationSplit.SplitIsExact | deployment/test/final-verification.ts:8-20 | the floored shares never exceed the total and add up to it if and only if the BIPS add up to 10000 or the total is zero |
| InflationSplit.ShareIsPartOfRest | deployment/test/final-verification.ts:11-17 | share i is the floor of the rest of the total, after the earlier shares, times its BIPS over the BIPS not yet assigned |
| InflationSplit.EachReceiverGetsItsShare | deployment/test/final-verification.ts:12-13 | under distinct names, asking for each receiver reads off exactly the list of shares |
| InflationSplit.WholeInflationIsShared | deployment/chain-config/chain-parameters.ts:198-202 | positive BIPS adding up to 10000 share out the whole total with nothing lost |
| Numerals.ParsePrinted | airdrop/flare/utils/processFile.ts:203 | reading a printed number in any base gives the number back |
| Numerals.PrintParsed | airdrop/flare/utils/processFile.ts:203 | printing a read numeral without leading zeros gives the text back |
| Numerals.PrintedChars | airdrop/songbird/utils/processFile.ts:149-154 | printed numbers consist of the ten digits and small letters a to f |
| DigitGrouping.RegexRefinesGrouped | deployment/genesis/genesis-lib.ts:152-155 | the regular expression with its word boundary and lookahead puts a separator exactly before every full triple from the right of a digit string |
| DigitGrouping.GroupedInTriples | deployment/genesis/genesis-lib.ts:152-155 | by positions: a separator exactly after every third digit from the right, never in front, digits everywhere else |
| DigitGrouping.RegexSplitsAtNonWord | deployment/genesis/genesis-lib.ts:152-155 | on any string a non-word character splits the input and each side is grouped on its own |
| DigitGrouping.GroupIntegerDigits | test/utils/EventDecoder.ts:121-128 | the right-to-left insertion loop groups the part before the first point and leaves the rest |
| DigitGrouping.GroupersAgreeOnDigits | test/utils/EventDecoder.ts:121-128 | on every digit string the loop prints what the regular expression with separator "_" prints |
| DigitGrouping.GroupersOnFractions | test/utils/EventDecoder.ts:121-128 | on digits with a fraction the two agree if and only if the fraction has at most three digits |
| DigitGrouping.GroupersOnSigned | test/utils/EventDecoder.ts:121-128 | on a signed numeral the two agree if and only if the number of digits is no multiple of three |
| DigitGrouping.StripUndoesGroupers | deployment/genesis/genesis-lib.ts:152-155 | deleting the separators undoes either grouper on every string |
| WeiFormat.FormatReadRoundTrip | deployment/genesis/genesis-lib.ts:157-162 | every non-negative wei value, at any padding width, is read back to itself by the entry reader |
| WeiFormat.FormatByPositions | deployment/genesis/genesis-lib.ts:157-162 | the printout is blanks to the asked width and no more, whole units in triples with commas, the point, and the last eighteen digits in triples with blanks |
| WeiFormat.PrintedReads | deployment/genesis/genesis-lib.ts:157-162 | read on either side of its point, the printout gives whole native units and the wei below, together the value |
| WeiFormat.NativeEntryWorth | deployment/genesis/genesis-lib.ts:70-75 | a native entry of n is worth n times 10^18 wei, as much as the wei entry with the same whole part and eighteen zeros |
| WeiFormat.NativeEntryHasNoPoint | deployment/genesis/genesis-lib.ts:70-72 | a native entry with a point cannot be read |
| WeiFormat.HexEntryReads | deployment/genesis/genesis-lib.ts:70-75 | a hexadecimal entry of either letter case reads to the number it writes |
| WeiFormat.PrintedAmountIsTrue | deployment/genesis/genesis-lib.ts:157-162 | read as a decimal fraction the printout is the true amount if and only if the value is zero or at least 10^17 wei |
| WeiFormat.FormatIsInjective | deployment/genesis/genesis-lib.ts:157-162 | at one padding width no two values are printed alike |
| Snapshot.IndicesPartitionLines | airdrop/flare/utils/processFile.ts:58-74 | the index list of an XRP address is strictly increasing and holds exactly the lines of that address |
| Snapshot.TotalsPartition | airdrop/flare/utils/processFile.ts:104-117 | valid and invalid totals together count every line's balance exactly once, and so do the two line counts |
| Snapshot.ReportCoversLines | airdrop/flare/utils/processFile.ts:104-129 | the report's valid and invalid counts, XRP balances and Flare balances each cover every line once |
| Snapshot.ErrorsAreFailedChecks | airdrop/flare/utils/processFile.ts:49-103 | a line has as many field errors as checks that fail, none exactly if both addresses are valid and both balance texts are digits |
| Snapshot.ErrorCountStep | airdrop/flare/utils/processFile.ts:49-103 | one more line adds its failed field checks, and one more error if its XRP address was seen before |
| FlareValidation.ValidateFile | airdrop/flare/utils/processFile.ts:28-129 | the loop flags the lines passing all four checks, counts and totals valid and invalid lines, counts errors as failed checks plus repeated addresses, and leaves the full duplicate index |
| FlareValidation.ValidIff | airdrop/flare/utils/processFile.ts:49-104 | a line is valid if and only if both addresses pass their check and both balances are non-empty digit texts |
| SongbirdValidation.ValidateFile | airdrop/songbird/utils/processFile.ts:19-93 | as for Flare, but a line whose XRP address occurred before is invalid; the dictionary holds the first line of every address |
| SongbirdValidation.ValidLinesAreFirst | airdrop/songbird/utils/processFile.ts:36-68 | a line is valid if and only if both addresses pass their check, both balances are non-empty digit texts, and no earlier line, valid or not, has its XRP address |
| SongbirdValidation.ValidLinesDistinct | airdrop/songbird/utils/processFile.ts:41-46 | two valid lines never share an XRP address |
| Ledger.ListAccounts | airdrop/flare/utils/processFile.ts:192-210 | the second loop lists every credited address once in first-seen order with its printed balance and builds the histogram of multiplicities |
| Ledger.FirstSeenIsInOrder | airdrop/flare/utils/processFile.ts:182-193 | the listed addresses are exactly the credited ones, ordered by their first credit |
| Ledger.BalancesConserveTotal | airdrop/flare/utils/processFile.ts:181-189 | the balances of the listed addresses add up to all credits made |
| Ledger.TimesConserveCount | airdrop/flare/utils/processFile.ts:182-189 | the multiplicities of the listed addresses add up to the number of credits |
| Ledger.DistributionMeaning | airdrop/flare/utils/processFile.ts:205-209 | entry k of the histogram is the number of addresses credited k times, and the array ends at the largest such k |
| Ledger.DistributionCounts | airdrop/flare/utils/processFile.ts:192-210 | the histogram entries add up to the number of addresses and, weighted by multiplicity, to the number of credits |
| Ledger.AccountsCarryTheCredits | airdrop/flare/utils/processFile.ts:201-204 | reading the printed balances, decimal or hexadecimal, gives every distinct address its credits and the total back |
| Ledger.SameAccountIff | airdrop/flare/utils/processFile.ts:75 | two addresses of one length, with or without prefix, name one account if and only if their digits write the same number |
| Conversion.FlareLine | airdrop/flare/utils/processFile.ts:150-168 | a converted line is the exact amount rounded down by less than one wei, or exactly the cap when the cap took something away |
| Conversion.SongbirdLine | airdrop/songbird/utils/processFile.ts:113-131 | the same with the cap before the two percentages and the rounding last |
| Conversion.FloorLoss | airdrop/flare/utils/processFile.ts:155-181 | rounded or capped credits never total more than the exact amounts, fall short by at most one wei each when none is capped, and meet the exact total if and only if each one is exact |
| Conversion.FlareFloorLoss | airdrop/flare/createAirdropTransactions.ts:265-268 | the wei handed out never exceed the expectation from the validator's XRP total, fall short by at most one wei per valid line without caps, and meet it if and only if no line lost anything |
| Conversion.SongbirdFloorLoss | airdrop/songbird/createAirdropTransactions.ts:200-205 | the same against the Songbird expectation, whose factors are multiplied in another order |
| Conversion.FlareConstantsExact | airdrop/flare/createAirdropTransactions.ts:14 | with factor 1.0073 the handed out total is exactly the expected one if and only if no line is capped |
| Conversion.SongbirdConstantsExact | airdrop/songbird/createAirdropTransactions.ts:12-103 | with the repository's factors and a whole contingent percentage it is exact if and only if no line is capped or the percentage is zero |
| FlareConversion.CreateFlareAirdropGenesisData | airdrop/flare/utils/processFile.ts:131-217 | the conversion loop returns the account list, count, total and histogram of the credits of the valid lines, and the line numbers whose balance differs from the predicted one |
| FlareConversion.BalanceErrorsMeaning | airdrop/flare/utils/processFile.ts:169-178 | exactly the line numbers of valid lines whose predicted balance differs from the converted one are reported, in increasing order |
| FlareConversion.NoErrorsMeansPredictedTotal | airdrop/flare/utils/processFile.ts:169-178 | if no line reported a balance error, the handed out total is the total the snapshot predicts |
| FlareTransactions.BatchesShape | airdrop/flare/utils/processFile.ts:255-267 | the batches are consecutive and non-empty, full except the last, as many as the ceiling of n by batch size, for n zero and multiples of the size too |
| FlareTransactions.CreateSetAirdropBalanceUnsignedTransactions | airdrop/flare/utils/processFile.ts:219-324 | the endless loop ends and emits exactly the transactions of the batches with both nonce counters and the given gas, gas price and chain id; the gas total reads to count times gas times price |
| FlareTransactions.TransactionPair | airdrop/flare/utils/processFile.ts:269-305 | transactions 2j and 2j+1 carry batch j in equal payloads to the two contracts with the j-th nonces of their senders |
| FlareTransactions.RolesStayApart | airdrop/flare/utils/processFile.ts:276-301 | the initial airdrop sender calls the initial airdrop contract and the distribution sender the distribution contract, with the j-th nonces of each |
| FlareTransactions.TransactionsCarryFees | airdrop/flare/utils/processFile.ts:276-300 | every transaction asks for the given gas, gas price and chain id |
| FlareTransactions.BothContractsPayAll | airdrop/flare/utils/processFile.ts:264-300 | the payments sent to either contract, concatenated, are the account list in order with its balances read |
| FlareTransactions.NoncesAreConsecutive | airdrop/flare/utils/processFile.ts:246-301 | each of two different sender accounts numbers its transactions consecutively from its own offset |
| FlareTransactions.NonceReuse | airdrop/flare/createAirdropTransactions.ts:204-205 | no account uses a nonce twice if and only if the senders are different accounts, nothing is sent, or the two nonce ranges do not meet |
| FlareTransactions.SignAirdropTransactions | airdrop/flare/signAirdropTransactions.ts:84-115 | every transaction is signed in order by the wallet its sender names, the gas totals are split the same way, and the first foreign sender stops the script |
| FlareTransactions.SignerTotalsAgree | airdrop/flare/signAirdropTransactions.ts:94-101 | the signer's two gas totals add up to the gas total announced at creation |
| FlareTransactions.WalletsPayTheSame | airdrop/flare/signAirdropTransactions.ts:94-101 | two distinct signers pay the same gas |
| FlareAirdrop.CreateAirdropTransactions | airdrop/flare/createAirdropTransactions.ts:254-325 | the script never fails its health check, announces the expectation and the total cost, and its balance comparison is true if and only if the totals are equal |
| FlareAirdrop.CreditsAreOwed | airdrop/flare/utils/processFile.ts:144-190 | the balance gathered for an address is the sum of the conversions of its valid snapshot lines |
| FlareAirdrop.FlareConservation | airdrop/flare/utils/processFile.ts:144-310 | either contract is told to pay every address once, in first-seen order, exactly what the snapshot owes it, in total the processed wei, for any batch size |
| FlareAirdrop.PaidAddressesAreChecked | airdrop/flare/utils/processFile.ts:75-83 | every address any transaction pays has passed the address check |
| FlareAirdrop.ContractsAreSentTotalIff | airdrop/flare/createAirdropTransactions.ts:298-301 | each contract is sent exactly the airdrop total if and only if the two contracts are different accounts or the total is zero |
| FlareAirdrop.CreateAndSign | airdrop/flare/signAirdropTransactions.ts:84-115 | signing the created transactions with the two senders' wallets never meets a foreign sender; the two gas totals add up to the announced one, are equal for distinct senders, and with the processed wei make up the announced total cost |
| FlareAirdrop.AccountsListedOnce | airdrop/flare/utils/processFile.ts:75-83 | no account is listed under two addresses if and only if no two valid lines spell one account differently |
| FlareAirdrop.EveryOwedAddressIsListed | airdrop/flare/utils/processFile.ts:186-193 | an address the snapshot owes anything is in the account list |
| FlareAirdrop.FlareHistogram | airdrop/flare/createAirdropTransactions.ts:277-292 | the histogram counts the processed accounts, weighted the processed lines, which are as many as the validator's valid lines |
| TransactionFees.TotalGas | airdrop/flare/utils/processFile.ts:313-318 | the announced gas total is a text that reads to count times gas times price |
| SongbirdAirdrop.CreateFlareAirdropGenesisData | airdrop/songbird/utils/processFile.ts:95-167 | the conversion loop returns the account list with hexadecimal balances, count, total and histogram of the credits of the valid lines |
| SongbirdAirdrop.CreateAirdropUnsignedTransactions | airdrop/songbird/utils/processFile.ts:169-201 | one transfer per account in order with the given gas, gas price and chain id, values prefixed "0x", nonces counting from the offset; the gas total reads to count times gas times price |
| SongbirdAirdrop.SignAirdropTransactions | airdrop/songbird/signAirdropTransactions.ts:73-92 | every transfer is signed in order, and the two totals are the sums of the read values and of the gas costs |
| SongbirdAirdrop.SongbirdConservation | airdrop/songbird/utils/processFile.ts:108-193 | the transfers pay every address once, a checked one, exactly what the first valid lines owe it, with consecutive nonces and the given gas fields; their hexadecimal values add up to the processed wei |
| SongbirdAirdrop.SignerTotals | airdrop/songbird/signAirdropTransactions.ts:81-92 | the signer's totals are the account balances read and the gas announced at creation |
| SongbirdAirdrop.CreateAndSign | airdrop/songbird/createAirdropTransactions.ts:189-246 | after creation and signing the signer's balance total is the processed wei and both signer totals add up to the announced total cost |
| SongbirdAirdrop.AccountsListedOnce | airdrop/songbird/utils/processFile.ts:51-54 | the same for Songbird |
| SongbirdAirdrop.SongbirdHistogram | airdrop/songbird/createAirdropTransactions.ts:214-226 | the histogram counts the processed accounts and, weighted, the validator's valid lines |
| GenesisAccounts.ReadDefinition | deployment/genesis/genesis-lib.ts:61-77 | a definition is copied, its entry texts read, the wei entry overriding the other, an unreadable text throws, and the running total grows by the balance |
| GenesisAccounts.EntriesWorth | deployment/genesis/genesis-lib.ts:70-75 | a native entry of n gives the balance n times 10^18 wei, a printed wei entry its value, the wei entry wins, and without entries the balance stays |
| GenesisAccounts.ProcessGenesisAccountDefinitionsFlare | deployment/genesis/genesis-lib.ts:55-100 | the fresh processed objects, mutated through the list of balancing accounts, show exactly the settled values; the definitions stay as they were; it fails exactly on an unreadable entry or without balancing accounts |
| GenesisAccounts.AssignShares | deployment/genesis/genesis-lib.ts:91-98 | the second loop gives the first balancing object share plus dust and every other one the share |
| GenesisBalancing.SupplyMeetsTarget | deployment/genesis/genesis-lib.ts:85-100 | the processed accounts total the target less the balancing accounts' own entries, so they meet it if and only if those add up to zero |
| GenesisBalancing.ProcessingSucceeds | deployment/genesis/genesis-lib.ts:60-88 | processing succeeds if and only if every entry can be read and at least one account balances |
| GenesisBalancing.SharesAreEven | deployment/genesis/genesis-lib.ts:55-100 | processing changes nothing but the balances of the balancing accounts; all but the first end alike, and the first differs by less than one unit per balancing account, on the remainder's side |
| GenesisBalancing.SharesNonNegativeIff | deployment/genesis/genesis-lib.ts:86-98 | no balancing account ends below zero if and only if the remainder is not negative |
| GenesisBalancing.EntryBecomesBalance | deployment/genesis/genesis-lib.ts:60-100 | the processed balance of every account that does not balance is what its entries are worth |
| GenesisBalancing.IdentityIsKept | deployment/genesis/genesis-lib.ts:60-84 | every processed account keeps its place, id, mark and given address; a missing address shows how many were missing before |
| GenesisBalancing.PreparedAt | deployment/genesis/genesis-lib.ts:78-83 | the placeholder of a missing address shows how many addresses were missing before it |
| GenesisBalancing.PlaceholderShape | deployment/genesis/genesis-lib.ts:80 | a placeholder has 42 characters: the decimal counter filled up with dots on the left |
| GenesisBalancing.PlaceholderInjective | deployment/genesis/genesis-lib.ts:78-82 | the padded counter determines the counter, also beyond 42 digits |
| GenesisBalancing.AddressesStayDistinct | deployment/genesis/genesis-lib.ts:78-83 | if the given addresses are distinct and begin with "0x", all processed addresses are present and distinct |
| GenesisBalancing.CalculateTotalSupplyFromAccounts | deployment/genesis/genesis-lib.ts:164-170 | the total is the sum of all balances and is computed if and only if every account has one |
| SongbirdGenesis.ProcessGenesisAccountDefinitions | deployment/genesis/genesis-lib.ts:16-50 | the fresh processed objects, the last ones numbered 2 and 3 written through remembered references, show the settled values; it fails exactly on an unreadable entry or a missing balancing account |
| SongbirdGenesis.HalvesShareRemainder | deployment/genesis/genesis-lib.ts:45-48 | the two balancing accounts share the remainder, account 3 taking the odd unit on the remainder's side of the half, and nothing else changes |
| SongbirdGenesis.EntryBecomesBalance | deployment/genesis/genesis-lib.ts:20-44 | the processed balance of every account not numbered 2 or 3 is what its entries are worth |
| SongbirdGenesis.SongbirdSupply | deployment/genesis/genesis-lib.ts:45-49 | the supply is met if and only if the two balancing accounts' own entries add up to zero |
| GenesisCsv.ReportTerminatesIff | deployment/genesis/genesis-lib.ts:140-148 | the nested loops end if and only if the ids increase strictly from 2 on |
| GenesisCsv.AccountsCSV | deployment/genesis/genesis-lib.ts:138-150 | the nested loops write the header, the blank lines and the rows, each line ended by a newline |
| GenesisCsv.CsvPlacement | deployment/genesis/genesis-lib.ts:138-150 | cut at its newlines the report has the account with id k on line k and nothing on skipped lines |
| GenesisCsv.CsvColumns | deployment/genesis/genesis-lib.ts:138-147 | cut at the commas outside quotes, the line of each account has four cells under the four header names: they read to the id, the address, the decimal amount around its point, and the hexadecimal balance |
| AllocMerge.ChainGenesis.MergeAccounts | deployment/genesis_gen/prepare-genesis-json.ts:91-97 | the loop changes the dictionary and its entry objects in place into the merged contents |
| AllocMerge.JoinChainGenesis | deployment/genesis_gen/prepare-genesis-json.ts:82-122 | the production genesis holds the coded alloc merged with the accounts and the old chain id, untouched by the staging merge made afterwards on the same object; the script stops on a missing code entry |
| AllocMerge.CodesAreInstalled | deployment/genesis_gen/prepare-genesis-json.ts:82-88 | at distinct addresses every code ends up at its own entry |
| AllocMerge.MergedTotal | deployment/genesis_gen/prepare-genesis-json.ts:91-97 | for distinct addresses the merged total is the listed balances plus the balances of unlisted entries |
| AllocMerge.ProductionTotal | deployment/genesis_gen/prepare-genesis-json.ts:82-99 | code and merge together: the production genesis holds the listed balances plus what the unlisted entries held at first |
| AllocMerge.StagingTotal | deployment/genesis_gen/prepare-genesis-json.ts:105-117 | the staging genesis holds the test balances plus what production holds elsewhere; if no test account is listed, both lists plus the original rest |
| AllocMerge.MergeKeepsCode | deployment/genesis_gen/prepare-genesis-json.ts:91-97 | merging keeps every entry and its code, adds the listed addresses without code, and changes no unlisted entry |
| GenesisSupply.AccountsGenesisJSON | deployment/genesis/genesis-lib.ts:126-135 | the loop lists every address with its balance text in order, a negative balance signed and a missing one as the word the template writes |
| GenesisSupply.BalanceTextReads | deployment/genesis/genesis-lib.ts:131 | every balance text, padded to even length, reads back to the balance, and the word for a missing one reads as no number |
| GenesisCsv.HexTextReads | deployment/genesis/genesis-lib.ts:146 | the hexadecimal text reads back to the balance |
| GenesisCsv.HexTextShape | deployment/genesis/genesis-lib.ts:146 | it has even length and no leading zero that this does not take |
| GenesisSupply.ProcessedSolventIff | deployment/genesis/genesis-lib.ts:85-98 | all processed balances are known and non-negative if and only if the accounts that do not balance have non-negative balances and the read entries together do not exceed the target |
| GenesisSupply.ProcessedAddressesDistinct | deployment/genesis/genesis-lib.ts:78-83 | from distinct hexadecimal addresses, any of them missing, all processed addresses are distinct |
| GenesisSupply.GenesisFromDefinitions | deployment/genesis_gen/prepare-genesis-json.ts:82-99 | for distinct given addresses the joined production genesis holds the target supply, less the balancing accounts' own entries, plus what unlisted entries held at first |
| GenesisSupply.BuildChainGenesis | deployment/genesis_gen/prepare-genesis-json.ts:82-122 | from definitions to both genesis files: the way fails exactly on unprocessable definitions or a missing code entry, and otherwise the two totals are as stated |
| PriceProvider.RunProvider | deployment/scripts/mock-price-provider.ts:97-138 | the loop submits and reveals consecutive epochs at the times given by its own waiting and the delays of its steps |
| PriceProvider.RoundInLog | deployment/scripts/mock-price-provider.ts:113-134 | round k commits to its data for the k-th epoch from the start and reveals the same data for the same epoch |
| PriceProvider.StartIsAhead | deployment/scripts/mock-price-provider.ts:98-100 | the first epoch submitted to is the next one to begin after the boot time |
| PriceProvider.NoDrift | deployment/scripts/mock-price-provider.ts:122-128 | in a punctual run every sleep is planned to end exactly at an epoch start, so delays never add up |
| PriceProvider.OnTimeIff | deployment/scripts/mock-price-provider.ts:105-138 | for any delays, a round is on time if and only if the lateness carried into it plus its submission delay is below the submit period and the lateness it leaves is below the reveal period |
| PriceProvider.WakesAtEpochIff | deployment/scripts/mock-price-provider.ts:122-128 | a sleep is planned to end at the next epoch start if and only if that epoch has not begun when the time is read |
| PriceProvider.PunctualIsOnTime | deployment/scripts/mock-price-provider.ts:105-138 | if what delays each round stays below min(reveal period, submit period - 1), every submission is inside its epoch and every reveal inside its window |
| PriceProvider.AcceptedAlternates | contracts/ftso/priceProviderMockContracts/PriceProviderMockContracts.sol:628-691 | in every accepted history hashes and reveals of an epoch alternate, a hash waits exactly until its reveal, and an epoch shows prices exactly once revealed |
| PriceProvider.RevealClosesIff | contracts/ftso/priceProviderMockContracts/PriceProviderMockContracts.sol:672-687 | after an accepted reveal its epoch takes no second hash at any later time if and only if the reveal carries a price or comes after the epoch |
| PriceProvider.OncePerEpoch | contracts/ftso/priceProviderMockContracts/PriceProviderMockContracts.sol:628-691 | in every accepted history whose reveals carry a price or come after their epoch, an epoch takes at most one hash and one reveal, although the hash is deleted by the reveal |
| PriceProvider.EmptyRevealReopens | contracts/ftso/priceProviderMockContracts/PriceProviderMockContracts.sol:672-687 | after a reveal without prices inside its epoch the same epoch accepts a second hash |
| PriceProvider.AcceptedIff | contracts/ftso/priceProviderMockContracts/PriceProviderMockContracts.sol:628-691 | the contracts accept a run if and only if it is booted at most one submit period before the first epoch, the provider is whitelisted, and every round is in its windows with data that passes all checks; then no hash is waiting and every epoch of the run shows the prices of its round |
| PriceProvider.EveryEpochServed | deployment/scripts/mock-price-provider.ts:104-138 | a run of k rounds submits one hash and one reveal for each of k consecutive epochs from its first, and none for any other |
| PriceProvider.RunIsInOrder | deployment/scripts/mock-price-provider.ts:104-138 | what a run sends is in the order of time |
| PriceProvider.AdmissibleIff | contracts/ftso/priceProviderMockContracts/PriceProviderMockContracts.sol:661-685 | the checks of a reveal all pass if and only if there are as many prices as indices, the indices increase and are whitelisted, prices are below and the random not below 2^128, and prices come in their window |
| PriceProvider.ToleratedIff | deployment/scripts/mock-price-provider.ts:97-138 | for any delays, no transaction of a run reverts if and only if it is booted at most one submit period before the first epoch and the carried lateness stays in both bounds |
| PriceProvider.PunctualRunsAreAccepted | deployment/scripts/mock-price-provider.ts:28-138 | with the generated prices and randoms no transaction of a punctual run reverts |
| PriceProvider.ToleranceIsExact | deployment/scripts/mock-price-provider.ts:97-138 | a uniform delay is survived if and only if it is below min(reveal period, submit period - 1) |

## Left out

- Command lines, environment variables, file reading and writing, CSV parsing, progress bars and log files; of the log messages only the duplicate index and the Flare balance errors are modelled.
- XRP and Flare address checks, signatures, the keccak hash and the ABI encoding: parameters, or a datatype holding the arguments.
- JavaScript's number limits and reserved property names such as "__proto__" as dictionary keys.
- BigNumber internals: integers and reals are exact; a hexadecimal entry text with a capital "0X", which the library accepts and misreads, counts as unreadable.
- InflationSplit.CalculateAuthorizedInflationWei: names, but does not compute, the share of a listed receiver reached after the divisor has run out, because the division library is not part of this model.
- FlareConversion.CreateFlareAirdropGenesisData: takes flags under which both balance texts are numerals, because both validators produce such flags only; the Songbird conversion likewise.
- FlareTransactions.CreateSetAirdropBalanceUnsignedTransactions: takes accounts with numeral balances, because the conversion prints them, and a positive batch size, because with zero the loop never ends.
- FlareTransactions.SignAirdropTransactions: compares addresses by the lower case of the letters A to Z, because addresses hold no others.
- FlareAirdrop.CreateAirdropTransactions: takes both nonces, addresses and gas settings as parameters, because they come from the network and the environment.
- GenesisCsv.AccountsCSV: takes rows whose balances are known and non-negative, because the report printer is called on processed genesis accounts only.
- AllocMerge.JoinChainGenesis: takes the contract addresses and codes as a list, because the artifact files are not part of this model.
- PriceProvider.AcceptedIff: takes the set of FTSO indices the provider is whitelisted for as fixed and supported, and hashes as non-zero; other providers, who could displace it, are not modelled.
- PriceProvider.RunProvider: runs any finite number of rounds of the endless loop, and takes the delays of all steps and the data of all rounds as parameters.
- The text printout, the Go source snippets and the file template of the genesis generator, which only reformat the processed accounts.
- Network clients, deployment scripts, monitoring gauges, the slack application, the health check and the Solidity contracts.

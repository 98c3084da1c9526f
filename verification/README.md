# MonstarX dashboard core, modelled in Dafny

MonstarX is a React dashboard for trading on the influence of "yappers":
social-media accounts ranked by how much they post. Its own logic is a set
of small pure computations in its pages and helpers. Settlement happens in
an on-chain perpetuals contract that the client reaches only through an ABI.
This project models those computations as immutable datatypes and pure
functions, and proves what they promise:

- **Leaderboard** (`leaderboard.dfy`):
  - the case-insensitive search over name and handle;
  - the card-height interpolation between 200 and 400;
  - the maximum yap count;
  - the 24h yap-change rule with its `yaps_l24h` fallback;
  - the rank badges.
- **Yapper detail** (`yapperdetail.dfy`):
  - looking a yapper up by route id;
  - the Place Trade guard and the disabled button;
  - the liquidation estimate `entry·(1 ∓ 0.8/leverage)`;
  - the Trades/Volume stats and the headline trend.
- **Activity chart** (`yapchart.dfy`): each day's change split into a positive and a negative series and area.
- **My Wallet** (`portfolio.dfy`):
  - the PnL and value totals;
  - the mean PnL percentage;
  - the available balance;
  - the two profit flags;
  - the holding period of a closed trade.
- **Vault client** (`vault.dfy`):
  - the `getVaultContract` guards;
  - the transaction wrappers' reports;
  - the `openPosition` id;
  - the `checkLiquidation` magnitude;
  - the `getUserPositions` scan (id range, case-insensitive owner match, skipped failed reads, field mapping);
  - the active/closed split.
- **Wallet session** (`walletsession.dfy`):
  - the initial state a page load restores from the stored wallet record;
  - the transitions of the context state `{address, chainId, provider, signer}` and of the stored record under connect, network switch, disconnect, `accountsChanged`, `chainChanged`, the mount-time connection check and the balance read;
  - the `isConnected` and `isMonadTestnet` flags.

Shared pieces:

- `text.dfy`: ASCII lower-casing and substring search, with `includes` proved equal to "is a substring".
- `numerals.dfy`:
  - positional numerals (`toString(base)`, `String(n)`) with a proved round trip;
  - the radix-16 `parseInt` of section 19.2.5 of ECMAScript 2024.
- `seqs.dfy`: `filter`, subsequences, multiset partitions, `reduce` as a sum.
- `types.dfy`: the records of `src/types/index.ts`.
- `wrappers.dfy`: `Option` and `Result`.

Everything the browser, the wallet or the chain supplies is a parameter:

- a position read is `fetch: nat -> Option<ChainPosition>`, where `None` means the read threw;
- a transaction is its receipt hash or its error message;
- a wallet request is its result or its error with the error's `code`;
- `parseFloat(tradeAmount)` is an `Option<real>`, where `None` means `NaN`;
- the user-facing `alert`s become a `Notice` value.

## Model

| member | source | states |
|---|---|---|
| Text.Lower | src/pages/LeaderboardPage.tsx:14-15 | lower-casing keeps the length, maps each character through the ASCII letter shift, and leaves no upper-case letter |
| Text.LowerIdempotent | src/pages/LeaderboardPage.tsx:14-15 | lower-casing an already lower-cased string changes nothing |
| Text.Contains | src/pages/LeaderboardPage.tsx:14-15 | `includes` as a left-to-right search; ContainsIffSubstring and ContainsEmpty give its meaning |
| Text.ContainsIffSubstring | src/pages/LeaderboardPage.tsx:14-15 | the left-to-right `includes` search answers true exactly when the query occurs at some position of the string |
| Text.ContainsEmpty | src/pages/LeaderboardPage.tsx:14-15 | every string includes the empty query |
| Seqs.Filter | src/pages/LeaderboardPage.tsx:13 | a filter result is no longer than its input and every element passes the predicate |
| Seqs.FilterMembers | src/utils/vault.ts:385 | every filtered element comes from the input, and every passing input element is kept |
| Seqs.FilterIsSubsequence | src/pages/LeaderboardPage.tsx:12-17 | filtering only deletes elements: order and values are kept |
| Seqs.FilterKeepsAll | src/pages/LeaderboardPage.tsx:12-17 | when every element passes, the result is the input itself |
| Seqs.FilterIdempotent | src/pages/LeaderboardPage.tsx:12-17 | filtering twice with one predicate equals filtering once |
| Seqs.FilterPartition | src/utils/vault.ts:385-396 | the elements passing a predicate and those failing it together hold every input element exactly as often as the input |
| Seqs.FilterPartitionLength | src/utils/vault.ts:385-396 | the two halves' lengths add up to the input's length |
| Seqs.FilterMultiplicity | src/pages/LeaderboardPage.tsx:13-16 | the filter keeps each passing value exactly as often as the input holds it and never holds a failing value |
| Seqs.FoldLeftIsSum | src/pages/MyWalletPage.tsx:10 | `reduce((acc, x) => acc + f(x), seed)` is the seed plus the sum of `f` |
| Seqs.SumBounds | src/pages/MyWalletPage.tsx:11-13 | per-element bounds `lo..hi` bound the sum by `n·lo..n·hi` |
| Seqs.SumNonNegative | src/pages/MyWalletPage.tsx:15 | a sum of non-negative terms is non-negative |
| Numerals.Render | src/utils/vault.ts:347 | a rendered numeral is non-empty, uses only digits of the base, and starts with `0` only when it is the single digit `0` |
| Numerals.RenderRoundTrip | src/utils/vault.ts:347 | reading a rendered numeral back gives the number |
| Numerals.RenderInjective | src/utils/vault.ts:347 | distinct numbers render to distinct numerals, so the string ids stay distinct |
| Numerals.TrimStart | src/contexts/WalletContext.tsx:197 | `parseInt` skips exactly the leading white space: the rest is a suffix that does not start with white space |
| Numerals.TakeDigits | src/contexts/WalletContext.tsx:197 | the digit run `parseInt` reads is the longest prefix made of digits of the base |
| Numerals.TakeDigitsOfDigits | src/contexts/WalletContext.tsx:197 | a string made entirely of digits is read in full |
| Numerals.ParseIntHex | src/contexts/WalletContext.tsx:197 | a string with no hexadecimal digit anywhere parses to `NaN` |
| Numerals.ParseIntHexOfDigits | src/contexts/WalletContext.tsx:197 | a non-empty string of hexadecimal digits is read whole, to the value those digits denote |
| Numerals.HexRoundTrip | src/contexts/WalletContext.tsx:197 | `parseInt("0x" + n.toString(16), 16)` is `n` |
| Numerals.ParseIntHexEmpty | src/contexts/WalletContext.tsx:197 | an empty string parses to `NaN` |
| Numerals.ParseIntHexPrefixOnly | src/contexts/WalletContext.tsx:197 | a bare `0x` with no digit parses to `NaN` |
| Leaderboard.MatchesQuery | src/pages/LeaderboardPage.tsx:14-15 | the page's test, as written: the lower-cased name or handle includes the lower-cased query; MatchesIffKeeps gives its meaning |
| Leaderboard.MatchesIffKeeps | src/pages/LeaderboardPage.tsx:13-16 | the page's test holds exactly when the lower-cased query is a substring of the lower-cased name or of the lower-cased handle |
| Leaderboard.FilterYappers | src/pages/LeaderboardPage.tsx:12-17 | the shown yappers are an order-preserving subsequence of the roster, each kept record satisfies the search, and each matching record appears exactly as often as in the roster while no other record appears |
| Leaderboard.EmptyQueryKeepsAll | src/pages/LeaderboardPage.tsx:12-17 | an empty search box shows the whole roster unchanged |
| Leaderboard.FilterYappersIdempotent | src/pages/LeaderboardPage.tsx:12-17 | searching the search result again with the same query changes nothing |
| Leaderboard.CardSize | src/pages/LeaderboardPage.tsx:20-25 | the height is undefined exactly when the maximum is zero, which is the page's division by zero |
| Leaderboard.CardSizeBounds | src/pages/LeaderboardPage.tsx:20-25 | for `0 ≤ totalYaps ≤ maxYaps` with a positive maximum, the height lies in `[200, 400]`, is 400 at the maximum and 200 at zero |
| Leaderboard.CardSizeMonotone | src/pages/LeaderboardPage.tsx:20-25 | more yaps never give a smaller card, and strictly more give a strictly larger one |
| Leaderboard.MaxTotalYaps | src/pages/LeaderboardPage.tsx:27 | the maximum is absent exactly for an empty list, bounds every count, and is one of the counts |
| Leaderboard.HistoryOf | src/pages/LeaderboardPage.tsx:77 | the yapper's entry of `mockYapHistory`, or the empty history when it has none; YapChange24h reads it |
| Leaderboard.YapChange24h | src/pages/LeaderboardPage.tsx:77-93 | with two or more history points the change is the last daily count minus the one before; otherwise it is `yaps_l24h`, or 0 when that is absent |
| Leaderboard.IsPositive | src/pages/LeaderboardPage.tsx:95 | the card's colour flag, true for a zero change; CardAgreesWithHeadline ties it to the detail headline |
| Leaderboard.RankBadge | src/pages/LeaderboardPage.tsx:110-120 | gold exactly for rank 1, silver exactly for rank 2, bronze for the other ranks up to 3, and for ranks above 3 a caption `#` followed by decimal digits without a leading zero that read back to the rank, which is the canonical `#${rank}` |
| Leaderboard.RankBadgeOfPositiveRank | src/pages/LeaderboardPage.tsx:110-113 | among positive ranks only rank 3 gets bronze, while ranks 0 and below also fall into the bronze branch |
| Leaderboard.CardOf | src/pages/LeaderboardPage.tsx:76-96 | the card of one yapper; Grid and Cards state what each of its fields holds |
| Leaderboard.Cards | src/pages/LeaderboardPage.tsx:75-96 | one card per shown yapper, in the same order, each with that yapper's 24h change, its colour flag, its rank badge and its height against the largest shown count |
| Leaderboard.Grid | src/pages/LeaderboardPage.tsx:75-96 | for any shown list, one card per yapper in order, each with its 24h change, colour flag, rank badge and height against the list's largest count |
| Leaderboard.CardSizesInRange | src/pages/LeaderboardPage.tsx:27-96 | with non-negative counts and a positive maximum, every card height lies in `[200, 400]` and some card has height 400 |
| Leaderboard.GridSizesInRange | src/pages/LeaderboardPage.tsx:27-96 | for any shown list with non-negative counts and a positive maximum, every card height lies in `[200, 400]` and some card has height 400 |
| YapperDetail.FirstIndexOf | src/pages/YapperDetailPage.tsx:27 | the index found holds the id and no earlier entry does; none is found exactly when no entry has the id |
| YapperDetail.DetailPage | src/pages/YapperDetailPage.tsx:27-42 | the page shows the first roster entry with the route id, and "not found" exactly when there is no id or no entry has it |
| YapperDetail.PlaceTrade | src/pages/YapperDetailPage.tsx:44-57 | a trade is rejected exactly when the amount is empty or parses to a number ≤ 0; a rejection changes nothing; a placed trade carries the panel's direction, amount and leverage and clears the amount |
| YapperDetail.PlaceTradeDisabled | src/pages/YapperDetailPage.tsx:258 | the button's `disabled` condition as written; PlaceTradeNoOpIffDisabled relates it to the handler |
| YapperDetail.PlaceTradeNoOpIffDisabled | src/pages/YapperDetailPage.tsx:258 | the button is disabled exactly when pressing it would do nothing, and after a placed trade it is disabled |
| YapperDetail.LiquidationPrice | src/pages/YapperDetailPage.tsx:59-62 | for a positive entry and leverage 1..10, a long liquidates in `[0.2·entry, entry)` and a short in `(entry, 1.8·entry]` |
| YapperDetail.LiquidationMirror | src/pages/YapperDetailPage.tsx:59-62 | the long and short estimates lie at the same distance from the entry |
| YapperDetail.LiquidationCloserWithLeverage | src/pages/YapperDetailPage.tsx:59-62 | raising the leverage moves either estimate strictly closer to the entry |
| YapperDetail.DistanceIsShare | src/pages/YapperDetailPage.tsx:59-62 | the estimate's distance from the entry is `entry · 0.8 / leverage` |
| YapperDetail.ShareShrinks | src/pages/YapperDetailPage.tsx:224-229 | over the slider's range a higher leverage gives a smaller share |
| YapperDetail.LiquidationExample | src/pages/YapperDetailPage.tsx:59-62 | an entry of 100 at 5x liquidates a long at 84 and a short at 116 |
| YapperDetail.PanelLiquidationPrice | src/pages/YapperDetailPage.tsx:59-62 | for a positive current index, the panel's estimate lies below it exactly for a long, at the distance `index · 0.8 / leverage` |
| YapperDetail.TradesStat | src/pages/YapperDetailPage.tsx:106-107 | the Trades figure, `totalYaps × 10000`; VolumeStat relates the two stats |
| YapperDetail.VolumeStat | src/pages/YapperDetailPage.tsx:107-111 | the Volume stat is exactly five times the Trades stat |
| YapperDetail.HeadlineTrend | src/pages/YapperDetailPage.tsx:127-129 | the trend is shown exactly for a non-empty series and is positive exactly when the last change is zero or more |
| YapperDetail.HeadlineMatchesChart | src/pages/YapperDetailPage.tsx:127-129 | the headline is positive exactly when the chart draws the last point in the positive series |
| YapperDetail.CardAgreesWithHeadline | src/pages/LeaderboardPage.tsx:80-95 | on a consistent history of two or more days, the card's 24h change is the last point's delta, so the card colour agrees with a headline drawn from that same history |
| YapChart.ChartPointOf | src/components/YapChart.tsx:11-20 | a row copies date, count, change and percentage; exactly one series holds the change, the positive one exactly when it is ≥ 0; the positive area is ≥ 0, the negative area ≤ 0, and the two add up to the change |
| YapChart.ChartData | src/components/YapChart.tsx:10-21 | one row per point in the same order, each the row ChartPointOf gives for that point: copied fields, exactly one series set to the change, signed areas summing to it |
| YapChart.ZeroChangeIsPositive | src/components/YapChart.tsx:17-18 | a zero change goes to the positive series and the negative series is empty |
| YapChart.SeriesRecoverChange | src/components/YapChart.tsx:17-20 | each row's change is recovered from its two series and from its two areas alike |
| Portfolio.TotalPnL | src/pages/MyWalletPage.tsx:10 | the total PnL is the sum of the positions' PnLs |
| Portfolio.TotalValue | src/pages/MyWalletPage.tsx:15 | the total value is the sum of the positions' sizes |
| Portfolio.TotalPnLPercentage | src/pages/MyWalletPage.tsx:11-13 | the percentage is 0 with no position, and otherwise times the count equals the sum of the percentages (their mean) |
| Portfolio.MeanWithinBounds | src/pages/MyWalletPage.tsx:11-13 | the mean lies between any lower and upper bound of the percentages |
| Portfolio.AvailableBalance | src/pages/MyWalletPage.tsx:62 | the available balance plus the total size is the displayed balance |
| Portfolio.AvailableAtMostBalance | src/pages/MyWalletPage.tsx:62 | positions of non-negative size never raise the available balance above the balance |
| Portfolio.PositionIsProfit | src/pages/MyWalletPage.tsx:93 | a position row's colour flag, true for a zero PnL; ProfitFlagsDisagreeAtZero contrasts it with the trade flag |
| Portfolio.TradeIsProfit | src/pages/MyWalletPage.tsx:176 | a trade is shown as a profit exactly when its PnL is present and strictly positive |
| Portfolio.ProfitFlagsDisagreeAtZero | src/pages/MyWalletPage.tsx:176 | a break-even position is shown as a profit, a break-even trade is not |
| Portfolio.HoldingHours | src/pages/MyWalletPage.tsx:217 | with a close time set, the hours are the floor of the elapsed milliseconds over 3,600,000; otherwise 0 |
| Portfolio.HoldingHoursCell | src/pages/MyWalletPage.tsx:208-219 | the holding-period cell appears exactly when the exit price is truthy, and then shows the holding hours |
| Vault.GetVaultContract | src/utils/vault.ts:37-59 | a contract exists exactly when there is a signer, the address is non-empty and construction succeeds, and it is bound to that address and signer |
| Vault.ConfiguredVaultContract | src/utils/vault.ts:42-59 | with the configured, non-empty vault address, a contract exists exactly when there is a signer and the constructor succeeds |
| Vault.SubmitTransaction | src/utils/vault.ts:64-107 | success exactly when a contract exists and the transaction confirms; then the receipt hash and no error; a failure carries no hash; with no contract, "Contract not initialized"; otherwise the transaction's message |
| Vault.OpenPosition | src/utils/vault.ts:112-137 | success exactly when the contract, the transaction and the id read all succeed; the id is then the next id minus one, with the receipt hash and neither error nor funding amount; a failure has no id and an error; a missing contract or failed send reports as the plain transaction does; a confirmed send whose id read fails reports no hash and that read's message |
| Vault.PayFunding | src/utils/vault.ts:165-184 | succeeds exactly when the submission does, and then reports the receipt hash, a funding amount of "0", no error and no position id; a failure is the plain transaction's report |
| Vault.WrapperReports | src/utils/vault.ts:64-184 | every wrapper's report carries an error exactly when it failed and a hash exactly when it succeeded; `openPosition` succeeds exactly when the plain transaction and the id read do; `payFunding` keeps the plain transaction's outcome, hash and error |
| Vault.CheckLiquidation | src/utils/vault.ts:189-204 | a report exists exactly when the call succeeds; it keeps the flag and reports the PnL's magnitude |
| Vault.CheckLiquidationDropsSign | src/utils/vault.ts:198 | a gain and a loss of the same size are reported identically |
| Vault.ToUserPosition | src/utils/vault.ts:346-362 | the id is the canonical decimal numeral of the chain id (non-empty, no leading zero); trader and influencer are copied and the yapper id is the influencer; the direction is long exactly when `isLong`; the timestamp is seconds × 1000; collateral is wei over 10^18; the size is collateral × 20; leverage is 1; liquidation price, PnL and percentage are 0 |
| Vault.SameAddress | src/utils/vault.ts:345 | the owner test compares lower-cased addresses; SameAddressIsEquivalence shows it is an equivalence that ignores letter case |
| Vault.SameAddressIsEquivalence | src/utils/vault.ts:345 | the case-insensitive comparison is reflexive, symmetric and transitive, and an address matches its lower-cased form |
| Vault.MatchingIds | src/utils/vault.ts:342-345 | the kept ids lie in `1 .. count-1`, ascending, each readable and owned by the user ignoring case, and every such id is kept |
| Vault.ScanPositions | src/utils/vault.ts:342-368 | the scan over `1 .. count-1` yields at most one record per slot; ScanPositionsAreMatches pins its contents |
| Vault.ScanPositionsAreMatches | src/utils/vault.ts:342-368 | the scan holds exactly the converted records of the matching ids, in the same order |
| Vault.CollectUserPositions | src/utils/vault.ts:339-370 | the loop that skips failed reads and other users' positions computes the scan |
| Vault.ScanStep | src/utils/vault.ts:342-367 | one more slot extends the scan by that slot's record or by nothing |
| Vault.GetUserPositions | src/utils/vault.ts:330-375 | an unreadable next id gives an empty list, otherwise the scan up to it |
| Vault.ScanOwnership | src/utils/vault.ts:342-351 | every record belongs to the user, ignoring letter case, and its id is a decimal numeral, whatever ids the contract stores |
| Vault.ScanOrderAndOwnership | src/utils/vault.ts:342-356 | when every stored id equals its slot: each record belongs to the user, its id reads back to a value in `1 .. count-1`, and the records come in ascending id order |
| Vault.ActivePositions | src/utils/vault.ts:380-386 | exactly the open records of the list |
| Vault.ClosedPositions | src/utils/vault.ts:391-397 | exactly the closed records of the list |
| Vault.ActiveClosedPartition | src/utils/vault.ts:380-397 | the active and closed lists together hold every record exactly as often, their lengths add up, and each keeps the list order |
| WalletSession.Initial | src/contexts/WalletContext.tsx:24-34 | a fresh load takes its address from the stored record and nothing else, so it counts as connected exactly when that address is non-empty, with no chain id, provider or signer |
| WalletSession.IsConnected | src/contexts/WalletContext.tsx:267 | `!!address`: an address that is present and non-empty; ConnectednessAcrossEvents shows how the events move it |
| WalletSession.IsMonadTestnet | src/contexts/WalletContext.tsx:268 | the chain id equals 10143; ConfiguredHexSelectsTestnet and AccountsChangedKeepsNetwork state how it moves |
| WalletSession.WithSession | src/contexts/WalletContext.tsx:101-109 | installing a session sets chain id, provider and signer and keeps the address and the stored record |
| WalletSession.Disconnect | src/contexts/WalletContext.tsx:143-152 | all four fields become null and the stored record is removed, so the session is neither connected nor on the testnet |
| WalletSession.SwitchToMonad | src/contexts/WalletContext.tsx:89-140 | no wallet: nothing happens. A successful switch installs the fresh session. Code 4902 adds the chain and installs that session, or reports the add failure. Any other failure reports the switch failure. The address is never changed |
| WalletSession.ConnectNotice | src/contexts/WalletContext.tsx:78-84 | a caught connection error is reported as a rejection exactly when its code is 4001, and as a failure otherwise; Connect reports it for a failed account request or session |
| WalletSession.Connect | src/contexts/WalletContext.tsx:37-86 | no wallet: install prompt. Failed requests or an empty account list leave the state unchanged; a failed request is reported by ConnectNotice of its error, and an empty list, whose thrown error has no code, as a failure. Otherwise the address is the first account, whose record is stored, and a switch is requested exactly when the chain is not 10143; on 10143 the state is the new session on the testnet and nothing is reported; on any other chain state and notice are those of the network switch run from the new session |
| WalletSession.AccountsChanged | src/contexts/WalletContext.tsx:174-194 | an empty list clears all four fields but keeps the stored record; otherwise the address becomes the first account, the chain id is kept, and provider and signer are replaced only when the refresh succeeds |
| WalletSession.ChainChanged | src/contexts/WalletContext.tsx:196-217 | the chain id becomes `parseInt(hex, 16)`, the address is kept, provider and signer follow the refresh, and the warning is shown exactly when the chain is not the testnet |
| WalletSession.CheckConnection | src/contexts/WalletContext.tsx:223-250 | an authorised account with a session restores it and stores its record; anything else leaves the state unchanged |
| WalletSession.GetBalance | src/contexts/WalletContext.tsx:155-165 | a balance exists exactly when there is a provider, a truthy address and a successful read, and it is the wei amount over 10^18 |
| WalletSession.AccountsEmptyKeepsRecord | src/contexts/WalletContext.tsx:175-179 | an account change to no accounts clears the four fields as disconnecting does but keeps the stored record, so a reload afterwards is connected again exactly when that record holds a non-empty address, while after disconnecting it is not |
| WalletSession.ReloadedSessionCannotSign | src/contexts/WalletContext.tsx:24-31 | a state restored from the stored record alone has no signer, so no vault contract can be built from it, even when it counts as connected |
| WalletSession.MonadChainIdHexDigits | src/config/monad.ts:6-10 | the configured hexadecimal chain id is "0x279f" |
| WalletSession.ConfiguredHexSelectsTestnet | src/contexts/WalletContext.tsx:196-217 | a chain change carrying the configured hex id selects the testnet without a warning |
| WalletSession.ConnectednessAcrossEvents | src/contexts/WalletContext.tsx:267 | a chain change never connects or disconnects; an account change with accounts connects exactly when the first account is non-empty, and one without accounts disconnects |
| WalletSession.AccountsChangedKeepsNetwork | src/contexts/WalletContext.tsx:180-181 | an account change with accounts never changes the testnet flag |

## Left out

- Calls into ethers, JSON-RPC and the wallet (`Contract`, `tx.wait`, `window.ethereum.request`, `BrowserProvider`, `getNetwork`, `getSigner`) are foreign I/O. Their outcomes are inputs.
- The contract's own behaviour is not part of this model, since only its ABI is visible. The contract is represented by `fetch` and by the results the wrappers receive.
- Library conversions (`parseUnits`, `formatUnits`, `toLocaleString`, `toFixed`, `toLocaleDateString`) are display formatting. Amounts are exact reals or wei integers instead.
- `parseFloat` of the trade amount is not modelled; its result is an input.
- The stored `monstar_x_wallet` record is modelled by its address only. Its chain id is written but never read back, and a record that is not valid JSON is not modelled. The `window.open` of the install page is a side effect outside the state. `alert` texts are reduced to a `Notice` value.
- Text.Lower: lower-cases only the ASCII letters, whereas `toLowerCase` maps all of Unicode. This is enough for the hexadecimal addresses and the roster's names.
- Vault.ToUserPosition: ids and timestamps are unbounded integers. `Number(...)` in getUserPositions, applied to `uint256` values, loses precision above 2^53, and that is not modelled.
- Vault.OpenPosition: the new id is the exact `nextPositionId - 1`. `Number(nextId) - 1` in openPosition loses precision above 2^53 in the same way, and that is not modelled.
- Numerals.ParseIntHex: a negative zero is reported as 0.
- `getTotalLiquidity`, `getLpBalance`, `getPosition` and `getVaultOwner` are single reads followed by formatting, so they carry nothing beyond their inputs.
- The leverage slider's and reset button's events are not modelled. The slider's range 1..10 is the `Leverage` type.
- The `xIndexChange24h` colour dot and the other static text are presentation.
- Unrealised-PnL formulas, rank recomputation and sorting do not appear in the code, so they are not modelled.
- The mock generators (`Math.random`) and the stubbed `calculateXIndex` are not modelled. `generateMockYapData` and `mockYapHistory` are not part of this model: the yap histories are a parameter.
- The constant tables of `src/data/analyticsData.ts` are not modelled. Their liquidation prices are not related to the formula.
- The presentational and routing files and the deployment script are not modelled.
- IEEE-754 rounding is not modelled: prices, sizes and percentages are exact reals.
- YapperDetail.CardAgreesWithHeadline: the detail page's headline and chart come from `generateMockYapData` (YapperDetailPage.tsx:31), not from the `mockYapHistory` the card reads. The lemma therefore relates the card to a headline over the card's own history, and the page itself does not make the two agree.
- WalletSession.IsConnected: the flag is `!!address`. An empty address therefore counts as not connected, a little stricter than "the address is non-null".

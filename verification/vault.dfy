/** The client-side vault wrappers (src/utils/vault.ts). The contract is
    reached only through its ABI, so every chain call is an input here: a
    position read is `fetch(id)` (`None` when the read throws), a
    transaction is its receipt hash or the caught error message. */
module Vault {
  import opened Wrappers
  import opened Text
  import opened Seqs
  import opened Types
  import Numerals

  /** MON price in USDC used to value collateral (src/config/monad.ts). */
  const MonPriceUsdc: real := 20.0

  /** Wei per MON: the 18 decimals `formatUnits` divides by. */
  const WeiPerMon: nat := 1000000000000000000

  /** The configured vault address (src/config/monad.ts). */
  const VaultAddress: string := "0xe4784dde2ed5abCE7Ca896e862aE7ce11C16e857"

  const ContractNotInitialized: string := "Contract not initialized"

  // ---------------------------------------------------------------------
  // Contract handle and transaction wrappers
  // ---------------------------------------------------------------------

  /** A contract object bound to an address and a signer. */
  datatype Contract = Contract(address: string, runner: Handle)

  /** `getVaultContract`: needs a signer and a configured address;
      `constructs` is whether the library's constructor succeeds. The
      provider argument is not consulted. */
  function GetVaultContract(signer: Option<Handle>, vaultAddress: string, constructs: bool): (r: Option<Contract>)
    ensures r.Some? <==> signer.Some? && vaultAddress != "" && constructs
    ensures r.Some? ==> r.value == Contract(vaultAddress, signer.value)
  {
    if signer.None? then None
    else if vaultAddress == "" then None
    else if !constructs then None
    else Some(Contract(vaultAddress, signer.value))
  }

  /** With the configured address, the contract exists exactly when there
      is a signer and the constructor succeeds. */
  lemma ConfiguredVaultContract(signer: Option<Handle>, constructs: bool)
    ensures GetVaultContract(signer, VaultAddress, constructs).Some? <==> signer.Some? && constructs
  {
  }

  /** The `{ success, positionId?, txHash?, error?, fundingAmount? }` object
      the wrappers return. */
  datatype TxReport = TxReport(
    success: bool,
    positionId: Option<int>,
    txHash: Option<string>,
    error: Option<string>,
    fundingAmount: Option<string>)

  /** The common shape of `addLiquidityToVault`, `removeLiquidityFromVault`,
      `closePosition`, `withdrawFromVault` and `transferFromVault`: no
      contract gives "Contract not initialized"; otherwise the transaction's
      receipt hash or its error message. */
  function SubmitTransaction(signer: Option<Handle>, vaultAddress: string, constructs: bool,
                             send: Result<string, string>): (r: TxReport)
    ensures r.success <==> GetVaultContract(signer, vaultAddress, constructs).Some? && send.Ok?
    ensures r.success ==> r.txHash == Some(send.value) && r.error.None?
    ensures !r.success ==> r.txHash.None?
    ensures GetVaultContract(signer, vaultAddress, constructs).None? ==>
              r.error == Some(ContractNotInitialized)
    ensures GetVaultContract(signer, vaultAddress, constructs).Some? && send.Err? ==>
              r.error == Some(send.error)
    ensures r.positionId.None? && r.fundingAmount.None?
  {
    match GetVaultContract(signer, vaultAddress, constructs)
    case None => TxReport(false, None, None, Some(ContractNotInitialized), None)
    case Some(_) =>
      match send
      case Err(msg) => TxReport(false, None, None, Some(msg), None)
      case Ok(hash) => TxReport(true, None, Some(hash), None, None)
  }

  /** `openPosition`: after the transaction confirms, the new position's id
      is taken as `nextPositionId - 1`, read from the contract. */
  function OpenPosition(signer: Option<Handle>, vaultAddress: string, constructs: bool,
                        send: Result<string, string>, nextIdAfter: Result<nat, string>): (r: TxReport)
    ensures r.success <==> GetVaultContract(signer, vaultAddress, constructs).Some?
                           && send.Ok? && nextIdAfter.Ok?
    ensures r.success ==> r.positionId == Some(nextIdAfter.value - 1)
                          && r.txHash == Some(send.value)
                          && r.error.None? && r.fundingAmount.None?
    ensures !r.success ==> r.positionId.None? && r.error.Some?
    ensures GetVaultContract(signer, vaultAddress, constructs).Some? && send.Ok? && nextIdAfter.Err? ==>
              r.txHash.None? && r.error == Some(nextIdAfter.error)
    ensures GetVaultContract(signer, vaultAddress, constructs).None? || send.Err? ==>
              r == SubmitTransaction(signer, vaultAddress, constructs, send)
  {
    var base := SubmitTransaction(signer, vaultAddress, constructs, send);
    if !base.success then base
    else
      match nextIdAfter
      case Err(msg) => TxReport(false, None, None, Some(msg), None)
      case Ok(n) => base.(positionId := Some(n as int - 1))
  }

  /** `payFunding`: the funding amount is reported as "0". */
  function PayFunding(signer: Option<Handle>, vaultAddress: string, constructs: bool,
                      send: Result<string, string>): (r: TxReport)
    ensures r.success <==> SubmitTransaction(signer, vaultAddress, constructs, send).success
    ensures r.success ==> r.fundingAmount == Some("0")
    ensures r.success ==> r.txHash == Some(send.value) && r.error.None? && r.positionId.None?
    ensures !r.success ==> r == SubmitTransaction(signer, vaultAddress, constructs, send)
  {
    var base := SubmitTransaction(signer, vaultAddress, constructs, send);
    if base.success then base.(fundingAmount := Some("0")) else base
  }

  /** A report is consistent: it carries an error exactly when it failed,
      and a receipt hash exactly when it succeeded. */
  predicate WellFormedReport(r: TxReport) {
    (r.success <==> r.error.None?) && (r.success <==> r.txHash.Some?)
  }

  /** Every wrapper returns a consistent report. `openPosition` and
      `payFunding` fail exactly as the plain transaction does, except that
      `openPosition` also fails when the id read after it does, and both
      keep its receipt hash when they succeed. */
  lemma WrapperReports(signer: Option<Handle>, vaultAddress: string, constructs: bool,
                       send: Result<string, string>, nextIdAfter: Result<nat, string>)
    ensures var base := SubmitTransaction(signer, vaultAddress, constructs, send);
      && WellFormedReport(base)
      && WellFormedReport(OpenPosition(signer, vaultAddress, constructs, send, nextIdAfter))
      && WellFormedReport(PayFunding(signer, vaultAddress, constructs, send))
    ensures var base := SubmitTransaction(signer, vaultAddress, constructs, send);
      var open := OpenPosition(signer, vaultAddress, constructs, send, nextIdAfter);
      (open.success <==> base.success && nextIdAfter.Ok?)
      && (open.success ==> open.txHash == base.txHash)
    ensures var base := SubmitTransaction(signer, vaultAddress, constructs, send);
      var pay := PayFunding(signer, vaultAddress, constructs, send);
      pay.success == base.success && pay.txHash == base.txHash && pay.error == base.error
  {
  }

  /** What `checkLiquidation` reports; `currentPnL` in wei. */
  datatype LiquidationCheck = LiquidationCheck(isLiquidatable: bool, currentPnL: nat)

  /** `checkLiquidation`: the contract's flag and the size of its signed PnL
      with the sign dropped; `None` when the call throws. */
  function CheckLiquidation(read: Result<(bool, int), string>): (r: Option<LiquidationCheck>)
    ensures r.Some? <==> read.Ok?
    ensures r.Some? ==> r.value.isLiquidatable == read.value.0
    ensures r.Some? ==> r.value.currentPnL == read.value.1 || r.value.currentPnL == -read.value.1
  {
    match read
    case Err(_) => None
    case Ok((flag, pnl)) => Some(LiquidationCheck(flag, if pnl >= 0 then pnl else -pnl))
  }

  /** A loss and a gain of the same size are reported identically. */
  lemma CheckLiquidationDropsSign(flag: bool, pnl: int)
    ensures CheckLiquidation(Ok((flag, pnl))) == CheckLiquidation(Ok((flag, -pnl)))
  {
  }

  // ---------------------------------------------------------------------
  // Position scan
  // ---------------------------------------------------------------------

  /** The tuple `getPosition` returns; amounts in wei, time in seconds. */
  datatype ChainPosition = ChainPosition(
    id: nat,
    trader: string,
    influencerId: string,
    isLong: bool,
    entryPrice: nat,
    collateral: nat,
    isOpen: bool,
    timestamp: nat,
    lastFundingTime: nat)

  /** The record `getUserPositions` builds for each of the user's positions.
      `collateral` is the MON amount `formatUnits` renders. */
  datatype UserPosition = UserPosition(
    id: string,
    trader: string,
    influencerId: string,
    yapperId: string,
    direction: Direction,
    isLong: bool,
    entryPrice: int,
    collateral: real,
    isOpen: bool,
    timestamp: int,
    leverage: real,
    size: real,
    liquidationPrice: real,
    currentPnL: real,
    pnlPercentage: real)

  /** Field mapping of one chain position. */
  function ToUserPosition(p: ChainPosition): (u: UserPosition)
    ensures Numerals.AllDigits(u.id, 10) && Numerals.ValueOf(u.id, 10) == p.id
    ensures |u.id| >= 1 && (u.id[0] == '0' ==> |u.id| == 1)
    ensures u.trader == p.trader && u.influencerId == p.influencerId && u.yapperId == p.influencerId
    ensures u.direction == Long <==> p.isLong
    ensures u.isLong == p.isLong && u.isOpen == p.isOpen && u.entryPrice == p.entryPrice
    ensures u.timestamp == p.timestamp * 1000
    ensures u.collateral * WeiPerMon as real == p.collateral as real
    ensures u.size == u.collateral * MonPriceUsdc
    ensures u.leverage == 1.0
    ensures u.liquidationPrice == 0.0 && u.currentPnL == 0.0 && u.pnlPercentage == 0.0
  {
    Numerals.RenderRoundTrip(p.id, 10);
    var mon := p.collateral as real / WeiPerMon as real;
    UserPosition(
      Numerals.Render(p.id, 10), p.trader, p.influencerId, p.influencerId,
      if p.isLong then Long else Short, p.isLong, p.entryPrice, mon, p.isOpen,
      p.timestamp * 1000, 1.0, mon * MonPriceUsdc, 0.0, 0.0, 0.0)
  }

  /** Addresses compare equal ignoring letter case. */
  predicate SameAddress(a: string, b: string) {
    Lower(a) == Lower(b)
  }

  /** The comparison is an equivalence, and an address matches its own
      lower-cased form. */
  lemma SameAddressIsEquivalence(a: string, b: string, c: string)
    ensures SameAddress(a, a) && SameAddress(a, Lower(a))
    ensures SameAddress(a, b) ==> SameAddress(b, a)
    ensures SameAddress(a, b) && SameAddress(b, c) ==> SameAddress(a, c)
  {
    LowerIdempotent(a);
  }

  /** Position `i` could be read and belongs to `user`. */
  predicate IsUserPosition(fetch: nat -> Option<ChainPosition>, user: string, i: nat) {
    fetch(i).Some? && SameAddress(fetch(i).value.trader, user)
  }

  /** The ids the scan keeps among `1 .. count - 1`, ascending. */
  function MatchingIds(fetch: nat -> Option<ChainPosition>, user: string, count: int): (ids: seq<nat>)
    ensures forall j :: 0 <= j < |ids| ==> 1 <= ids[j] < count && IsUserPosition(fetch, user, ids[j])
    ensures forall j, k :: 0 <= j < k < |ids| ==> ids[j] < ids[k]
    ensures forall i: nat :: 1 <= i < count && IsUserPosition(fetch, user, i) ==> i in ids
    decreases count
  {
    if count <= 1 then []
    else
      MatchingIds(fetch, user, count - 1)
      + (if IsUserPosition(fetch, user, count - 1) then [count - 1] else [])
  }

  /** The records of the scan over `1 .. count - 1`: reads that throw are
      skipped, other users' positions are dropped. */
  function ScanPositions(fetch: nat -> Option<ChainPosition>, user: string, count: int): (r: seq<UserPosition>)
    ensures |r| <= (if count <= 1 then 0 else count - 1)
    decreases count
  {
    if count <= 1 then []
    else
      ScanPositions(fetch, user, count - 1)
      + (if IsUserPosition(fetch, user, count - 1) then [ToUserPosition(fetch(count - 1).value)] else [])
  }

  /** The scan holds exactly the converted records of the matching ids, in
      the same order. */
  lemma {:induction false} ScanPositionsAreMatches(fetch: nat -> Option<ChainPosition>, user: string, count: int)
    ensures var r, ids := ScanPositions(fetch, user, count), MatchingIds(fetch, user, count);
      |r| == |ids| && forall j :: 0 <= j < |r| ==> r[j] == ToUserPosition(fetch(ids[j]).value)
    decreases count
  {
    if count > 1 {
      ScanPositionsAreMatches(fetch, user, count - 1);
      var r0, ids0 := ScanPositions(fetch, user, count - 1), MatchingIds(fetch, user, count - 1);
      var r, ids := ScanPositions(fetch, user, count), MatchingIds(fetch, user, count);
      if IsUserPosition(fetch, user, count - 1) {
        assert r == r0 + [ToUserPosition(fetch(count - 1).value)];
        assert ids == ids0 + [count - 1];
        assert r[|r0|] == ToUserPosition(fetch(ids[|r0|]).value);
      } else {
        assert r == r0 && ids == ids0;
      }
    }
  }

  /** The loop of `getUserPositions`, statement by statement. */
  method CollectUserPositions(fetch: nat -> Option<ChainPosition>, user: string, count: int)
    returns (all: seq<UserPosition>)
    ensures all == ScanPositions(fetch, user, count)
  {
    all := [];
    var i: nat := 1;
    while i < count
      invariant 1 <= i <= (if count < 1 then 1 else count)
      invariant all == ScanPositions(fetch, user, i)
    {
      ScanStep(fetch, user, i);
      match fetch(i) {
        case None =>
        case Some(p) =>
          if Lower(p.trader) == Lower(user) {
            all := all + [ToUserPosition(p)];
          }
      }
      i := i + 1;
    }
  }

  /** One more slot extends the scan by at most that slot's record. */
  lemma ScanStep(fetch: nat -> Option<ChainPosition>, user: string, i: nat)
    requires i >= 1
    ensures ScanPositions(fetch, user, i + 1)
         == ScanPositions(fetch, user, i)
            + (if IsUserPosition(fetch, user, i) then [ToUserPosition(fetch(i).value)] else [])
  {
  }

  /** `getUserPositions`: an empty list when `nextPositionId` cannot be read,
      otherwise the scan up to it. */
  function GetUserPositions(fetch: nat -> Option<ChainPosition>, nextPositionId: Option<nat>,
                            user: string): (r: seq<UserPosition>)
    ensures nextPositionId.None? ==> r == []
    ensures nextPositionId.Some? ==> r == ScanPositions(fetch, user, nextPositionId.value)
  {
    match nextPositionId
    case None => []
    case Some(n) => ScanPositions(fetch, user, n)
  }

  /** Every returned record is one of the user's positions, and its id is a
      decimal numeral, whatever ids the contract stores. */
  lemma ScanOwnership(fetch: nat -> Option<ChainPosition>, user: string, count: int)
    ensures var r := ScanPositions(fetch, user, count);
      forall j :: 0 <= j < |r| ==> SameAddress(r[j].trader, user) && Numerals.AllDigits(r[j].id, 10)
  {
    var ids := MatchingIds(fetch, user, count);
    var r := ScanPositions(fetch, user, count);
    ScanPositionsAreMatches(fetch, user, count);
    forall j | 0 <= j < |r|
      ensures SameAddress(r[j].trader, user)
    {
      assert r[j] == ToUserPosition(fetch(ids[j]).value);
      assert IsUserPosition(fetch, user, ids[j]);
    }
  }

  /** With a contract whose stored ids match their slots, the records'
      ids lie in `1 .. count - 1` and come in ascending order. */
  lemma ScanOrderAndOwnership(fetch: nat -> Option<ChainPosition>, user: string, count: int)
    requires forall i: nat :: fetch(i).Some? ==> fetch(i).value.id == i
    ensures var r := ScanPositions(fetch, user, count);
      forall j :: 0 <= j < |r| ==> Numerals.AllDigits(r[j].id, 10)
    ensures var r := ScanPositions(fetch, user, count);
      forall j :: 0 <= j < |r| ==>
        SameAddress(r[j].trader, user) && 1 <= Numerals.ValueOf(r[j].id, 10) < count
    ensures var r := ScanPositions(fetch, user, count);
      forall j, k :: 0 <= j < k < |r| ==> Numerals.ValueOf(r[j].id, 10) < Numerals.ValueOf(r[k].id, 10)
  {
    var ids := MatchingIds(fetch, user, count);
    var r := ScanPositions(fetch, user, count);
    ScanPositionsAreMatches(fetch, user, count);
    forall j | 0 <= j < |r|
      ensures Numerals.ValueOf(r[j].id, 10) == ids[j]
    {
      assert r[j] == ToUserPosition(fetch(ids[j]).value);
    }
  }

  // ---------------------------------------------------------------------
  // Active and closed positions
  // ---------------------------------------------------------------------

  function OpenFlag(u: UserPosition): bool {
    u.isOpen
  }

  /** `getUserActivePositions` over one scan result. */
  function ActivePositions(all: seq<UserPosition>): (r: seq<UserPosition>)
    ensures forall i :: 0 <= i < |r| ==> r[i].isOpen && r[i] in all
    ensures forall i :: 0 <= i < |all| && all[i].isOpen ==> all[i] in r
  {
    FilterMembers(all, OpenFlag);
    Filter(all, OpenFlag)
  }

  /** `getUserClosedPositions` over one scan result. */
  function ClosedPositions(all: seq<UserPosition>): (r: seq<UserPosition>)
    ensures forall i :: 0 <= i < |r| ==> !r[i].isOpen && r[i] in all
    ensures forall i :: 0 <= i < |all| && !all[i].isOpen ==> all[i] in r
  {
    FilterMembers(all, Negate(OpenFlag));
    Filter(all, Negate(OpenFlag))
  }

  /** The active and the closed positions split the list: both keep its
      order, and together they hold each record exactly as often. */
  lemma ActiveClosedPartition(all: seq<UserPosition>)
    ensures multiset(ActivePositions(all)) + multiset(ClosedPositions(all)) == multiset(all)
    ensures |ActivePositions(all)| + |ClosedPositions(all)| == |all|
    ensures IsSubsequence(ActivePositions(all), all) && IsSubsequence(ClosedPositions(all), all)
  {
    FilterPartition(all, OpenFlag);
    FilterPartitionLength(all, OpenFlag);
    FilterIsSubsequence(all, OpenFlag);
    FilterIsSubsequence(all, Negate(OpenFlag));
  }
}

/** The wallet session (src/contexts/WalletContext.tsx) as a transition
    system over the four pieces of context state. Every wallet request is an
    input: its result, or the error it throws with the error's code. */
module WalletSession {
  import opened Wrappers
  import opened Types
  import opened Numerals
  import Vault

  /** The Monad testnet chain id (src/config/monad.ts). */
  const MonadChainId: nat := 10143

  /** The chain id as the network configuration writes it:
      `"0x" + MONAD_TESTNET_CHAIN_ID.toString(16)`. */
  const MonadChainIdHex: string := "0x" + Render(MonadChainId, 16)

  /** EIP-1193 error code for a request the user rejected. */
  const UserRejectedCode: int := 4001

  /** Error code a wallet gives when asked to switch to a chain it lacks. */
  const UnrecognizedChainCode: int := 4902

  /** The context's state. `chainId` holds a JavaScript number, which
      `parseInt` can make `NaN`. `saved` is the address of the record kept
      in `localStorage` under `monstar_x_wallet`, which outlives a reload;
      the record's chain id is never read back and is not kept. */
  datatype WalletState = WalletState(
    address: Option<string>,
    chainId: Option<Num>,
    provider: Option<Handle>,
    signer: Option<Handle>,
    saved: Option<string>)

  const Disconnected: WalletState := WalletState(None, None, None, None, None)

  /** The state a fresh page load starts from: the address comes from the
      stored record, and the rest waits for a wallet. */
  function Initial(saved: Option<string>): (r: WalletState)
    ensures r.saved == saved && r.address == saved
    ensures r.chainId.None? && r.provider.None? && r.signer.None?
    ensures IsConnected(r) <==> saved.Some? && saved.value != ""
  {
    WalletState(saved, None, None, None, saved)
  }

  /** The state an account `a` starts a session from, its record stored. */
  function Chosen(a: string): WalletState {
    WalletState(Some(a), None, None, None, Some(a))
  }

  /** An error thrown by a wallet request, with its `code` when it has one. */
  datatype WalletError = WalletError(code: Option<int>)

  /** A fresh provider, its network's chain id and its signer. */
  datatype Session = Session(chainId: int, provider: Handle, signer: Handle)

  /** The message the user is shown, if any. */
  datatype Notice =
    | Quiet
    | InstallWallet
    | ConnectionRejected
    | ConnectionFailed
    | SwitchFailed
    | AddChainFailed
    | WrongNetwork

  /** A transition's result: the new state, the notice, and whether a switch
      to the Monad testnet was requested. */
  datatype Step = Step(state: WalletState, notice: Notice, switchRequested: bool)

  /** `isConnected: !!address`: an address that is present and not empty. */
  predicate IsConnected(s: WalletState) {
    s.address.Some? && s.address.value != ""
  }

  /** `isMonadTestnet: chainId === MONAD_TESTNET_CHAIN_ID`. */
  predicate IsMonadTestnet(s: WalletState) {
    s.chainId == Some(Int(MonadChainId))
  }

  /** Installs a session's chain id, provider and signer. */
  function WithSession(s: WalletState, session: Session): (r: WalletState)
    ensures r.address == s.address && r.saved == s.saved
    ensures r.chainId == Some(Int(session.chainId))
    ensures r.provider == Some(session.provider) && r.signer == Some(session.signer)
  {
    s.(chainId := Some(Int(session.chainId)), provider := Some(session.provider),
       signer := Some(session.signer))
  }

  // ---------------------------------------------------------------------
  // Transitions
  // ---------------------------------------------------------------------

  /** `disconnectWallet`. */
  function Disconnect(s: WalletState): (r: WalletState)
    ensures r.address.None? && r.chainId.None? && r.provider.None? && r.signer.None?
    ensures r.saved.None?
    ensures !IsConnected(r) && !IsMonadTestnet(r)
  {
    Disconnected
  }

  /** `switchToMonadTestnet`. `attempt` is the switch request followed by the
      provider refresh; when it fails with code 4902, `retry` is the request
      to add the chain followed by the refresh. Failures only notify. */
  function SwitchToMonad(s: WalletState, installed: bool,
                         attempt: Result<Session, WalletError>,
                         retry: Result<Session, WalletError>): (r: Step)
    ensures r.state.address == s.address && r.state.saved == s.saved
    ensures !installed ==> r.state == s && r.notice == Quiet
    ensures installed && attempt.Ok? ==> r.state == WithSession(s, attempt.value) && r.notice == Quiet
    ensures installed && attempt.Err? && attempt.error.code == Some(UnrecognizedChainCode) ==>
              (retry.Ok? ==> r.state == WithSession(s, retry.value) && r.notice == Quiet)
              && (retry.Err? ==> r.state == s && r.notice == AddChainFailed)
    ensures installed && attempt.Err? && attempt.error.code != Some(UnrecognizedChainCode) ==>
              r.state == s && r.notice == SwitchFailed
  {
    if !installed then Step(s, Quiet, false)
    else
      match attempt
      case Ok(session) => Step(WithSession(s, session), Quiet, false)
      case Err(e) =>
        if e.code == Some(UnrecognizedChainCode) then
          match retry
          case Ok(session) => Step(WithSession(s, session), Quiet, false)
          case Err(_) => Step(s, AddChainFailed, false)
        else Step(s, SwitchFailed, false)
  }

  /** How `connectWallet` reports a caught error. */
  function ConnectNotice(e: WalletError): (n: Notice)
    ensures n == ConnectionRejected <==> e.code == Some(UserRejectedCode)
    ensures n != ConnectionRejected ==> n == ConnectionFailed
  {
    if e.code == Some(UserRejectedCode) then ConnectionRejected else ConnectionFailed
  }

  /** `connectWallet`: request the accounts, then open a session; only when
      both succeed and an account was chosen is the state replaced, and a
      network switch follows when the chain is not the Monad testnet. */
  function Connect(s: WalletState, installed: bool,
                   accounts: Result<seq<string>, WalletError>,
                   session: Result<Session, WalletError>,
                   attempt: Result<Session, WalletError>,
                   retry: Result<Session, WalletError>): (r: Step)
    ensures !installed ==> r == Step(s, InstallWallet, false)
    ensures installed && (accounts.Err? || (accounts.Ok? && |accounts.value| == 0) || session.Err?) ==>
              r.state == s && !r.switchRequested && r.notice != Quiet
    ensures installed && accounts.Err? ==> r.notice == ConnectNotice(accounts.error)
    ensures installed && accounts.Ok? && |accounts.value| == 0 ==> r.notice == ConnectionFailed
    ensures installed && accounts.Ok? && |accounts.value| > 0 && session.Err? ==>
              r.notice == ConnectNotice(session.error)
    ensures installed && accounts.Ok? && |accounts.value| > 0 && session.Ok? ==>
              && r.state.address == Some(accounts.value[0])
              && r.state.saved == Some(accounts.value[0])
              && (r.switchRequested <==> session.value.chainId != MonadChainId)
    ensures installed && accounts.Ok? && |accounts.value| > 0 && session.Ok?
            && session.value.chainId == MonadChainId ==>
              r.state == WithSession(Chosen(accounts.value[0]), session.value)
              && IsMonadTestnet(r.state) && r.notice == Quiet
    ensures installed && accounts.Ok? && |accounts.value| > 0 && session.Ok?
            && session.value.chainId != MonadChainId ==>
              var sw := SwitchToMonad(WithSession(Chosen(accounts.value[0]), session.value), true, attempt, retry);
              r.state == sw.state && r.notice == sw.notice
  {
    if !installed then Step(s, InstallWallet, false)
    else
      match accounts
      case Err(e) => Step(s, ConnectNotice(e), false)
      case Ok(list) =>
        if |list| == 0 then Step(s, ConnectionFailed, false)
        else
          match session
          case Err(e) => Step(s, ConnectNotice(e), false)
          case Ok(sn) =>
            var connected := WithSession(Chosen(list[0]), sn);
            if sn.chainId != MonadChainId then
              SwitchToMonad(connected, true, attempt, retry).(switchRequested := true)
            else Step(connected, Quiet, false)
  }

  /** The `accountsChanged` handler. `refresh` is the new provider and
      signer, or the error that leaves the old ones in place. The stored
      record is left alone, even when the accounts are gone. */
  function AccountsChanged(s: WalletState, accounts: seq<string>,
                           refresh: Result<(Handle, Handle), WalletError>): (r: WalletState)
    ensures |accounts| == 0 ==> r == Disconnected.(saved := s.saved)
    ensures r.saved == s.saved
    ensures |accounts| > 0 ==> r.address == Some(accounts[0]) && r.chainId == s.chainId
    ensures |accounts| > 0 && refresh.Ok? ==>
              r.provider == Some(refresh.value.0) && r.signer == Some(refresh.value.1)
    ensures |accounts| > 0 && refresh.Err? ==> r.provider == s.provider && r.signer == s.signer
  {
    if |accounts| == 0 then Disconnected.(saved := s.saved)
    else
      var moved := s.(address := Some(accounts[0]));
      match refresh
      case Ok((p, sg)) => moved.(provider := Some(p), signer := Some(sg))
      case Err(_) => moved
  }

  /** The `chainChanged` handler: the chain id becomes `parseInt(hex, 16)`,
      and a warning is shown for any chain but the Monad testnet. */
  function ChainChanged(s: WalletState, chainIdHex: string,
                        refresh: Result<(Handle, Handle), WalletError>): (r: Step)
    ensures r.state.chainId == Some(ParseIntHex(chainIdHex))
    ensures r.state.address == s.address && r.state.saved == s.saved
    ensures refresh.Ok? ==> r.state.provider == Some(refresh.value.0) && r.state.signer == Some(refresh.value.1)
    ensures refresh.Err? ==> r.state.provider == s.provider && r.state.signer == s.signer
    ensures r.notice == WrongNetwork <==> !IsMonadTestnet(r.state)
    ensures r.notice != WrongNetwork ==> r.notice == Quiet
    ensures !r.switchRequested
  {
    var parsed := ParseIntHex(chainIdHex);
    var moved := s.(chainId := Some(parsed));
    var refreshed :=
      match refresh
      case Ok((p, sg)) => moved.(provider := Some(p), signer := Some(sg))
      case Err(_) => moved;
    Step(refreshed, if parsed != Int(MonadChainId) then WrongNetwork else Quiet, false)
  }

  /** `checkConnection` on mount: an already authorised account restores the
      session and stores its record; anything else leaves the state as it
      was. */
  function CheckConnection(s: WalletState, accounts: Result<seq<string>, WalletError>,
                           session: Result<Session, WalletError>): (r: WalletState)
    ensures accounts.Ok? && |accounts.value| > 0 && session.Ok? ==>
              r == WithSession(Chosen(accounts.value[0]), session.value)
    ensures !(accounts.Ok? && |accounts.value| > 0 && session.Ok?) ==> r == s
  {
    if accounts.Ok? && |accounts.value| > 0 && session.Ok? then
      WithSession(Chosen(accounts.value[0]), session.value)
    else s
  }

  /** `getBalance`: nothing without a provider or a (truthy) address, or
      when the read fails; otherwise the balance in MON. */
  function GetBalance(s: WalletState, read: Result<nat, WalletError>): (r: Option<real>)
    ensures r.Some? <==> s.provider.Some? && IsConnected(s) && read.Ok?
    ensures r.Some? ==> r.value * 1000000000000000000.0 == read.value as real
  {
    if s.provider.None? || !IsConnected(s) then None
    else
      match read
      case Err(_) => None
      case Ok(wei) => Some(wei as real / 1000000000000000000.0)
  }

  // ---------------------------------------------------------------------
  // Properties of the transitions
  // ---------------------------------------------------------------------

  /** An empty account list clears the four context fields as disconnecting
      does, but keeps the stored record: after a reload the old address is
      back, where after `disconnectWallet` nothing is. */
  lemma AccountsEmptyKeepsRecord(s: WalletState, refresh: Result<(Handle, Handle), WalletError>)
    ensures AccountsChanged(s, [], refresh) == Disconnect(s).(saved := s.saved)
    ensures !IsConnected(Initial(Disconnect(s).saved))
    ensures IsConnected(Initial(AccountsChanged(s, [], refresh).saved))
        <==> s.saved.Some? && s.saved.value != ""
  {
  }

  /** A session restored from the stored record alone counts as connected
      but has no signer, so no vault contract can be built from it. */
  lemma ReloadedSessionCannotSign(saved: Option<string>, constructs: bool)
    ensures Vault.GetVaultContract(Initial(saved).signer, Vault.VaultAddress, constructs).None?
    ensures IsConnected(Initial(saved)) <==> saved.Some? && saved.value != ""
  {
  }

  /** The configured hexadecimal chain id is "0x279f". */
  lemma MonadChainIdHexDigits()
    ensures MonadChainIdHex == "0x279f"
  {
    assert Render(2, 16) == "2";
    assert Render(39, 16) == "27";
    assert Render(633, 16) == "279";
  }

  /** A `chainChanged` event carrying the configured hexadecimal id selects
      the Monad testnet, with no warning. */
  lemma ConfiguredHexSelectsTestnet(s: WalletState, refresh: Result<(Handle, Handle), WalletError>)
    ensures IsMonadTestnet(ChainChanged(s, MonadChainIdHex, refresh).state)
    ensures ChainChanged(s, MonadChainIdHex, refresh).notice == Quiet
  {
    HexRoundTrip(MonadChainId);
  }

  /** A chain change never connects or disconnects; an account change with
      accounts connects exactly when the first account is not empty. */
  lemma ConnectednessAcrossEvents(s: WalletState, hex: string, accounts: seq<string>,
                                  refresh: Result<(Handle, Handle), WalletError>)
    ensures IsConnected(ChainChanged(s, hex, refresh).state) <==> IsConnected(s)
    ensures |accounts| > 0 ==> (IsConnected(AccountsChanged(s, accounts, refresh)) <==> accounts[0] != "")
    ensures |accounts| == 0 ==> !IsConnected(AccountsChanged(s, accounts, refresh))
  {
  }

  /** An account change never changes the network flag. */
  lemma AccountsChangedKeepsNetwork(s: WalletState, accounts: seq<string>,
                                    refresh: Result<(Handle, Handle), WalletError>)
    requires |accounts| > 0
    ensures IsMonadTestnet(AccountsChanged(s, accounts, refresh)) <==> IsMonadTestnet(s)
  {
  }
}

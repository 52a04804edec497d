/**
 * The wallet session of `WalletProvider`: three state cells (`address`,
 * `isConnected`, `provider`) that the initial check, the `accountsChanged`
 * handler, `connect` and `disconnect` set together.
 */
module Wallet {
  import opened Wrappers

  /** An `ethers.BrowserProvider` over the injected wallet; `handle` tells instances apart. */
  datatype Provider = BrowserProvider(handle: nat)

  /** The answer of `listAccounts` or `eth_requestAccounts`: the account addresses, or a thrown error. */
  datatype AccountsAnswer = Accounts(accounts: seq<string>) | Threw

  /** Which toast `connect` shows, if any. */
  datatype ConnectNotice = WalletConnected | NoNotice | ConnectionFailed | WalletNotFound

  class WalletSession {
    var address: Option<string>
    var isConnected: bool
    var provider: Option<Provider>

    /** The three cells move together: connected exactly when there is an address and a provider. */
    predicate Valid()
      reads this
    {
      (isConnected <==> address.Some?) && (isConnected <==> provider.Some?)
    }

    /** The initial `useState` values. */
    constructor ()
      ensures Valid()
      ensures address == None && !isConnected && provider == None
    {
      address, isConnected, provider := None, false, None;
    }

    /**
     * `checkConnection` on mount: with an injected wallet (`ethereum`) whose
     * `listAccounts` returns at least one account, the session connects to
     * the first one through the new provider `created`; otherwise nothing changes.
     */
    method CheckConnection(ethereum: bool, listed: AccountsAnswer, created: Provider)
      modifies this
      ensures ethereum && listed.Accounts? && |listed.accounts| > 0 ==> Valid()
      ensures old(Valid()) ==> Valid()
      ensures if ethereum && listed.Accounts? && |listed.accounts| > 0
        then address == Some(listed.accounts[0]) && isConnected && provider == Some(created)
        else address == old(address) && isConnected == old(isConnected) && provider == old(provider)
    {
      if ethereum {
        if listed.Accounts? {
          if |listed.accounts| > 0 {
            address := Some(listed.accounts[0]);
            isConnected := true;
            provider := Some(created);
          }
        }
      }
    }

    /**
     * The `accountsChanged` handler: a non-empty list connects to its first
     * account, building the provider `created` when `window.ethereum` is still
     * there (`ethereum`); an empty list clears all three cells.
     */
    method OnAccountsChanged(accounts: seq<string>, ethereum: bool, created: Provider)
      modifies this
      ensures ethereum || old(provider).Some? || accounts == [] ==> Valid()
      ensures accounts != [] ==>
        address == Some(accounts[0]) && isConnected &&
        provider == (if ethereum then Some(created) else old(provider))
      ensures accounts == [] ==> address == None && !isConnected && provider == None
    {
      if |accounts| > 0 {
        address := Some(accounts[0]);
        isConnected := true;
        if ethereum {
          provider := Some(created);
        }
      } else {
        address := None;
        isConnected := false;
        provider := None;
      }
    }

    /**
     * `connect`: with an injected wallet whose `eth_requestAccounts` returns
     * at least one account, the session connects to the first one through
     * `created`. An empty list, a thrown error or a missing wallet change
     * nothing; `notice` is the toast shown.
     */
    method Connect(ethereum: bool, requested: AccountsAnswer, created: Provider) returns (notice: ConnectNotice)
      modifies this
      ensures notice == WalletConnected ==> Valid()
      ensures old(Valid()) ==> Valid()
      ensures notice == (if !ethereum then WalletNotFound
                         else if requested.Threw? then ConnectionFailed
                         else if |requested.accounts| == 0 then NoNotice
                         else WalletConnected)
      ensures notice == WalletConnected ==>
        address == Some(requested.accounts[0]) && isConnected && provider == Some(created)
      ensures notice != WalletConnected ==>
        address == old(address) && isConnected == old(isConnected) && provider == old(provider)
    {
      if !ethereum {
        return WalletNotFound;
      }
      match requested
      case Threw =>
        notice := ConnectionFailed;
      case Accounts(accounts) =>
        if |accounts| > 0 {
          address := Some(accounts[0]);
          isConnected := true;
          provider := Some(created);
          notice := WalletConnected;
        } else {
          notice := NoNotice;
        }
    }

    /** `disconnect`: all three cells are cleared, whatever they held. */
    method Disconnect()
      modifies this
      ensures Valid()
      ensures address == None && !isConnected && provider == None
    {
      address := None;
      isConnected := false;
      provider := None;
    }
  }
}

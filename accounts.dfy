/**
 * The libpurple account registry the importer writes into. An account is
 * addressed by its username and its protocol id (`purple_accounts_find`);
 * the registry is the ordered account list that `purple_accounts_add`
 * appends to, and the importer then changes the new account's fields one
 * setter at a time.
 */
module Accounts {
  import opened Wrappers

  /** The account fields the importer sets. */
  datatype Account = Account(
    username: string,
    protocolId: string,
    alias: Option<string>,
    enabled: bool,
    encoding: Option<string>,
    port: int,
    ssl: bool)

  /** What identifies an account: (username, protocol id). */
  type Key = (string, string)

  function KeyOf(a: Account): Key {
    (a.username, a.protocolId)
  }

  /** `purple_account_new (username, protocol_id)`: a fresh account with no settings. */
  function NewAccount(username: string, protocolId: string): (a: Account)
    ensures KeyOf(a) == (username, protocolId)
  {
    Account(username, protocolId, None, false, None, 0, false)
  }

  /** The keys of all accounts in `s`. */
  function Keys(s: seq<Account>): set<Key> {
    set i | 0 <= i < |s| :: KeyOf(s[i])
  }

  /** At most one account per (username, protocol id). */
  predicate Unique(s: seq<Account>) {
    forall i, j :: 0 <= i < |s| && 0 <= j < |s| && i != j ==> KeyOf(s[i]) != KeyOf(s[j])
  }

  /**
   * `purple_accounts_find (name, protocol)`: the position of the first
   * account with that username and protocol id, or `None`.
   */
  function Find(s: seq<Account>, username: string, protocolId: string): (r: Option<nat>)
    ensures r.Some? ==> r.value < |s| && KeyOf(s[r.value]) == (username, protocolId)
    ensures r.Some? ==> forall i :: 0 <= i < r.value ==> KeyOf(s[i]) != (username, protocolId)
    ensures r.None? <==> (username, protocolId) !in Keys(s)
  {
    if s == [] then None
    else if KeyOf(s[0]) == (username, protocolId) then Some(0)
    else
      match Find(s[1..], username, protocolId)
      case None =>
        assert forall i :: 0 < i < |s| ==> s[i] == s[1..][i - 1];
        None
      case Some(k) =>
        assert forall i :: 0 < i <= k + 1 ==> s[i] == s[1..][i - 1];
        Some(k + 1)
  }

  lemma UniqueAppend(s: seq<Account>, a: Account)
    requires Unique(s)
    requires KeyOf(a) !in Keys(s)
    ensures Unique(s + [a])
    ensures Keys(s + [a]) == Keys(s) + {KeyOf(a)}
  {
    var t := s + [a];
    assert forall i :: 0 <= i < |s| ==> t[i] == s[i];
    forall k | k in Keys(t) ensures k in Keys(s) + {KeyOf(a)} {
      var j :| 0 <= j < |t| && KeyOf(t[j]) == k;
      if j < |s| {
        assert KeyOf(s[j]) == k;
      }
    }
    forall k | k in Keys(s) + {KeyOf(a)} ensures k in Keys(t) {
      if k == KeyOf(a) {
        assert KeyOf(t[|s|]) == k;
      } else {
        var j :| 0 <= j < |s| && KeyOf(s[j]) == k;
        assert KeyOf(t[j]) == k;
      }
    }
  }

  /** Extending a list of accounts keeps every key it had. */
  lemma KeysOfPrefix(s: seq<Account>, t: seq<Account>)
    requires s <= t
    ensures Keys(s) <= Keys(t)
  {
    forall k | k in Keys(s) ensures k in Keys(t) {
      var j :| 0 <= j < |s| && KeyOf(s[j]) == k;
      assert t[j] == s[j];
    }
  }

  /** The registry itself: the account list that libpurple keeps and the setters it offers. */
  class AccountRegistry {
    var accounts: seq<Account>

    constructor (initial: seq<Account>)
      ensures accounts == initial
    {
      accounts := initial;
    }

    /** `purple_account_new` then `purple_accounts_add`: appends the fresh account, whose index is returned. */
    method Add(username: string, protocolId: string) returns (idx: nat)
      modifies this
      ensures accounts == old(accounts) + [NewAccount(username, protocolId)]
      ensures idx == |old(accounts)|
    {
      idx := |accounts|;
      accounts := accounts + [NewAccount(username, protocolId)];
    }

    /** `purple_account_set_username` */
    method SetUsername(idx: nat, username: string)
      requires idx < |accounts|
      modifies this
      ensures accounts == old(accounts)[idx := old(accounts)[idx].(username := username)]
    {
      accounts := accounts[idx := accounts[idx].(username := username)];
    }

    /** `purple_account_set_protocol_id` */
    method SetProtocolId(idx: nat, protocolId: string)
      requires idx < |accounts|
      modifies this
      ensures accounts == old(accounts)[idx := old(accounts)[idx].(protocolId := protocolId)]
    {
      accounts := accounts[idx := accounts[idx].(protocolId := protocolId)];
    }

    /** `purple_account_set_alias` (a `NULL` alias clears it) */
    method SetAlias(idx: nat, alias: Option<string>)
      requires idx < |accounts|
      modifies this
      ensures accounts == old(accounts)[idx := old(accounts)[idx].(alias := alias)]
    {
      accounts := accounts[idx := accounts[idx].(alias := alias)];
    }

    /** `purple_account_set_enabled` for the running user interface */
    method SetEnabled(idx: nat, enabled: bool)
      requires idx < |accounts|
      modifies this
      ensures accounts == old(accounts)[idx := old(accounts)[idx].(enabled := enabled)]
    {
      accounts := accounts[idx := accounts[idx].(enabled := enabled)];
    }

    /** `purple_account_set_string (account, "encoding", value)` */
    method SetEncoding(idx: nat, encoding: Option<string>)
      requires idx < |accounts|
      modifies this
      ensures accounts == old(accounts)[idx := old(accounts)[idx].(encoding := encoding)]
    {
      accounts := accounts[idx := accounts[idx].(encoding := encoding)];
    }

    /** `purple_account_set_int (account, "port", value)` */
    method SetPort(idx: nat, port: int)
      requires idx < |accounts|
      modifies this
      ensures accounts == old(accounts)[idx := old(accounts)[idx].(port := port)]
    {
      accounts := accounts[idx := accounts[idx].(port := port)];
    }

    /** `purple_account_set_bool (account, "ssl", value)` */
    method SetSsl(idx: nat, ssl: bool)
      requires idx < |accounts|
      modifies this
      ensures accounts == old(accounts)[idx := old(accounts)[idx].(ssl := ssl)]
    {
      accounts := accounts[idx := accounts[idx].(ssl := ssl)];
    }
  }
}

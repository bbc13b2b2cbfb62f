/**
 * The account import of the Empathy importer plugin: every group of the
 * loaded `accounts.cfg`, in file order, either becomes one new libpurple
 * account or is skipped with a warning. Only the `irc` protocol is
 * supported. `ImportGroup` and `ImportAll` say on values what one group and
 * a whole run do; `ImportAccounts` and `ImportEmpathy` are the loop and the
 * entry point that change the registry in place, proved equal to them.
 */
module Import {
  import opened Wrappers
  import opened CStrings
  import opened KeyFile
  import opened Accounts

  /** The `purple_debug_warning` lines a run emits, in order. */
  datatype Warning =
    | NoProtocol(group: string)
    | NoParamAccount(group: string)
    | NoParamServer(group: string)
    | SkipExisting(protocolId: string, username: string)
    | OnlyIrcSupported
    | UnsupportedProtocol(group: string, protocol: string)

  /** The registry's accounts after some groups, and the warnings they produced. */
  datatype Outcome = Outcome(accounts: seq<Account>, log: seq<Warning>)

  /** The one Empathy protocol the importer handles. */
  const Irc := "irc"

  /** libpurple's id for an Empathy protocol name: `g_strconcat ("prpl-", protocol, NULL)`. */
  function ProtocolId(protocol: string): string {
    "prpl-" + protocol
  }

  /** The libpurple username of an IRC account: `<param-account>@<param-server>`. */
  function Identity(account: string, server: string): string {
    account + "@" + server
  }

  /**
   * The key under which group `g` would create an account, or `None` when the
   * group is skipped whatever the registry holds (no protocol, a protocol
   * other than `irc`, or no `param-account` or `param-server`).
   */
  function GroupKey(g: Group): Option<Key> {
    if "protocol" in g.entries && g.entries["protocol"] == Irc
       && "param-account" in g.entries && "param-server" in g.entries
    then Some((Identity(g.entries["param-account"], g.entries["param-server"]), ProtocolId(Irc)))
    else None
  }

  /** The account that group `g` creates once all its setters have run. */
  function Imported(g: Group, username: string, protocolId: string): Account {
    Account(
      username,
      protocolId,
      GetString(g, "Nickname"),
      GetString(g, "Enabled") == Some("true"),
      GetString(g, "param-charset"),
      Atoi(GetString(g, "param-port")),
      GetString(g, "param-use-ssl") == Some("true"))
  }

  /** One pass of the per-group loop body against the registry `accounts`. */
  function ImportGroup(accounts: seq<Account>, g: Group): (r: Outcome)
    ensures GroupKey(g).None? ==> r.accounts == accounts
    ensures GroupKey(g).Some? && GroupKey(g).value in Keys(accounts) ==> r.accounts == accounts
    ensures GroupKey(g).Some? && GroupKey(g).value !in Keys(accounts) ==>
              r.accounts == accounts + [Imported(g, GroupKey(g).value.0, GroupKey(g).value.1)]
    ensures r.log == [] <==> r.accounts != accounts
  {
    match GetString(g, "protocol")
    case None => Outcome(accounts, [NoProtocol(g.name)])
    case Some(p) =>
      if p != Irc then Outcome(accounts, [OnlyIrcSupported, UnsupportedProtocol(g.name, p)])
      else
        var protocol := ProtocolId(p);
        match (GetString(g, "param-account"), GetString(g, "param-server"))
        case (None, _) => Outcome(accounts, [NoParamAccount(g.name)])
        case (Some(_), None) => Outcome(accounts, [NoParamServer(g.name)])
        case (Some(account), Some(server)) =>
          var name := Identity(account, server);
          if Find(accounts, name, protocol).Some? then Outcome(accounts, [SkipExisting(protocol, name)])
          else Outcome(accounts + [Imported(g, name, protocol)], [])
  }

  /**
   * The groups processed in file order, each against the registry the earlier
   * ones left. A run only appends accounts, at most one per group, and leaves
   * every existing account as it was.
   */
  function ImportAll(accounts: seq<Account>, groups: seq<Group>): (r: Outcome)
    ensures accounts <= r.accounts
    ensures |r.accounts| <= |accounts| + |groups|
    decreases |groups|
  {
    if groups == [] then Outcome(accounts, [])
    else
      var before := ImportAll(accounts, groups[..|groups| - 1]);
      var step := ImportGroup(before.accounts, groups[|groups| - 1]);
      Outcome(step.accounts, before.log + step.log)
  }

  /** `import_empathy`: no group is processed when the configuration failed to load. */
  function Import(accounts: seq<Account>, loaded: bool, groups: seq<Group>): Outcome {
    if loaded then ImportAll(accounts, groups) else Outcome(accounts, [])
  }

  // ---------------------------------------------------------------------
  // One group

  /** The warning each kind of skipped group records, and that it changes nothing. */
  lemma SkippedGroupWarnings(accounts: seq<Account>, g: Group)
    ensures "protocol" !in g.entries ==>
              ImportGroup(accounts, g) == Outcome(accounts, [NoProtocol(g.name)])
    ensures "protocol" in g.entries && g.entries["protocol"] != "irc" ==>
              ImportGroup(accounts, g)
              == Outcome(accounts, [OnlyIrcSupported, UnsupportedProtocol(g.name, g.entries["protocol"])])
    ensures "protocol" in g.entries && g.entries["protocol"] == "irc" && "param-account" !in g.entries ==>
              ImportGroup(accounts, g) == Outcome(accounts, [NoParamAccount(g.name)])
    ensures "protocol" in g.entries && g.entries["protocol"] == "irc" && "param-account" in g.entries
            && "param-server" !in g.entries ==>
              ImportGroup(accounts, g) == Outcome(accounts, [NoParamServer(g.name)])
  {
  }

  /** A complete `irc` group is skipped, unchanged, exactly when its key is already registered. */
  lemma CompleteGroupOutcome(accounts: seq<Account>, g: Group)
    requires "protocol" in g.entries && g.entries["protocol"] == "irc"
    requires "param-account" in g.entries && "param-server" in g.entries
    ensures var name := g.entries["param-account"] + "@" + g.entries["param-server"];
            var r := ImportGroup(accounts, g);
            && GroupKey(g) == Some((name, "prpl-irc"))
            && ((name, "prpl-irc") in Keys(accounts) ==>
                  r == Outcome(accounts, [SkipExisting("prpl-irc", name)]))
            && ((name, "prpl-irc") !in Keys(accounts) ==>
                  r.log == [] && |r.accounts| == |accounts| + 1 && r.accounts[..|accounts|] == accounts)
  {
    var r := ImportGroup(accounts, g);
    assert ProtocolId(Irc) == "prpl-irc";
    if GroupKey(g).value !in Keys(accounts) {
      assert r.accounts[..|accounts|] == accounts;
    }
  }

  /** The fields of the account a complete, new `irc` group creates. */
  lemma CreatedAccountFields(accounts: seq<Account>, g: Group)
    requires GroupKey(g).Some? && GroupKey(g).value !in Keys(accounts)
    ensures var r := ImportGroup(accounts, g).accounts;
            var a := r[|accounts|];
            && |r| == |accounts| + 1
            && a.username == g.entries["param-account"] + "@" + g.entries["param-server"]
            && a.protocolId == "prpl-irc"
            && a.alias == (if "Nickname" in g.entries then Some(g.entries["Nickname"]) else None)
            && (a.enabled <==> "Enabled" in g.entries && g.entries["Enabled"] == "true")
            && a.encoding == (if "param-charset" in g.entries then Some(g.entries["param-charset"]) else None)
            && a.port == (if "param-port" in g.entries then Atoi(Some(g.entries["param-port"])) else 0)
            && (a.ssl <==> "param-use-ssl" in g.entries && g.entries["param-use-ssl"] == "true")
  {
    var k := GroupKey(g).value;
    assert ProtocolId(Irc) == "prpl-irc";
    var r := ImportGroup(accounts, g).accounts;
    assert r[|accounts|] == Imported(g, k.0, k.1);
  }

  // ---------------------------------------------------------------------
  // Whole runs

  /** Importing `a + b` is importing `a`, then `b` against what `a` left. */
  lemma {:induction false} ImportAllAppend(accounts: seq<Account>, a: seq<Group>, b: seq<Group>)
    ensures var first := ImportAll(accounts, a);
            var second := ImportAll(first.accounts, b);
            ImportAll(accounts, a + b) == Outcome(second.accounts, first.log + second.log)
    decreases |b|
  {
    if b == [] {
      assert a + b == a;
    } else {
      var b' := b[..|b| - 1];
      assert (a + b)[..|a + b| - 1] == a + b';
      assert (a + b)[|a + b| - 1] == b[|b| - 1];
      ImportAllAppend(accounts, a, b');
    }
  }

  /** The registry holds at most one account per (username, protocol id) after a run if it did before. */
  lemma {:induction false} ImportAllUnique(accounts: seq<Account>, groups: seq<Group>)
    requires Unique(accounts)
    ensures Unique(ImportAll(accounts, groups).accounts)
    decreases |groups|
  {
    if groups != [] {
      var before := ImportAll(accounts, groups[..|groups| - 1]).accounts;
      ImportAllUnique(accounts, groups[..|groups| - 1]);
      var g := groups[|groups| - 1];
      if GroupKey(g).Some? && GroupKey(g).value !in Keys(before) {
        UniqueAppend(before, Imported(g, GroupKey(g).value.0, GroupKey(g).value.1));
      }
    }
  }

  /** After one group, the registry still has every key it had, and the group's key if it has one. */
  lemma ImportGroupCovers(accounts: seq<Account>, g: Group)
    ensures Keys(accounts) <= Keys(ImportGroup(accounts, g).accounts)
    ensures GroupKey(g).Some? ==> GroupKey(g).value in Keys(ImportGroup(accounts, g).accounts)
  {
    var after := ImportGroup(accounts, g).accounts;
    if after != accounts {
      var x := Imported(g, GroupKey(g).value.0, GroupKey(g).value.1);
      assert after == accounts + [x];
      assert after[..|accounts|] == accounts;
      assert KeyOf(after[|accounts|]) == GroupKey(g).value;
    }
    KeysOfPrefix(accounts, after);
  }

  /** After a run, every complete `irc` group of the file has its account in the registry. */
  lemma {:induction false} ImportAllCovers(accounts: seq<Account>, groups: seq<Group>)
    ensures forall g :: g in groups && GroupKey(g).Some? ==>
              GroupKey(g).value in Keys(ImportAll(accounts, groups).accounts)
    decreases |groups|
  {
    if groups != [] {
      var prefix := groups[..|groups| - 1];
      var last := groups[|groups| - 1];
      var before := ImportAll(accounts, prefix).accounts;
      var after := ImportAll(accounts, groups).accounts;
      assert after == ImportGroup(before, last).accounts;
      ImportAllCovers(accounts, prefix);
      ImportGroupCovers(before, last);
      forall g | g in groups && GroupKey(g).Some? ensures GroupKey(g).value in Keys(after) {
        if g != last {
          assert g in prefix by { assert groups == prefix + [last]; }
        }
      }
    }
  }

  /** A run in which every complete group's account already exists changes nothing. */
  lemma {:induction false} ImportAllStable(accounts: seq<Account>, groups: seq<Group>)
    requires forall g :: g in groups && GroupKey(g).Some? ==> GroupKey(g).value in Keys(accounts)
    ensures ImportAll(accounts, groups).accounts == accounts
    decreases |groups|
  {
    if groups != [] {
      var prefix := groups[..|groups| - 1];
      assert groups == prefix + [groups[|groups| - 1]];
      ImportAllStable(accounts, prefix);
    }
  }

  /**
   * Every account of `after` past the accounts of `accounts` has a key absent
   * from `accounts` that some complete group of `groups` derives.
   */
  predicate AddedFromGroups(accounts: seq<Account>, groups: seq<Group>, after: seq<Account>) {
    forall j :: |accounts| <= j < |after| ==>
      KeyOf(after[j]) !in Keys(accounts)
      && exists i :: 0 <= i < |groups| && GroupKey(groups[i]) == Some(KeyOf(after[j]))
  }

  /** Every account a run adds comes from a complete group of the file, and was not there before. */
  lemma {:induction false} ImportAllOrigin(accounts: seq<Account>, groups: seq<Group>)
    ensures AddedFromGroups(accounts, groups, ImportAll(accounts, groups).accounts)
    decreases |groups|
  {
    if groups != [] {
      var prefix := groups[..|groups| - 1];
      var g := groups[|groups| - 1];
      var before := ImportAll(accounts, prefix).accounts;
      var after := ImportAll(accounts, groups).accounts;
      assert after == ImportGroup(before, g).accounts;
      ImportAllOrigin(accounts, prefix);
      KeysOfPrefix(accounts, before);
      forall j | |accounts| <= j < |after|
        ensures KeyOf(after[j]) !in Keys(accounts)
        ensures exists i :: 0 <= i < |groups| && GroupKey(groups[i]) == Some(KeyOf(after[j]))
      {
        if j < |before| {
          assert after[j] == before[j];
          var i :| 0 <= i < |prefix| && GroupKey(prefix[i]) == Some(KeyOf(before[j]));
          assert groups[i] == prefix[i];
        } else {
          assert KeyOf(after[j]) == GroupKey(g).value;
          assert GroupKey(groups[|groups| - 1]) == Some(KeyOf(after[j]));
        }
      }
    }
  }

  /** Running the import a second time on the same groups leaves the registry as the first run left it. */
  lemma ImportAllIdempotent(accounts: seq<Account>, groups: seq<Group>)
    ensures var once := ImportAll(accounts, groups).accounts;
            ImportAll(once, groups).accounts == once
  {
    ImportAllCovers(accounts, groups);
    ImportAllStable(ImportAll(accounts, groups).accounts, groups);
  }

  /** The same for the entry point, whether or not the configuration loaded. */
  lemma ImportIdempotent(accounts: seq<Account>, loaded: bool, groups: seq<Group>)
    ensures var once := Import(accounts, loaded, groups).accounts;
            Import(once, loaded, groups).accounts == once
    ensures !loaded ==> Import(accounts, loaded, groups) == Outcome(accounts, [])
  {
    if loaded {
      ImportAllIdempotent(accounts, groups);
    }
  }

  /**
   * A group that is skipped whatever the registry holds does not stop the
   * groups after it: the registry ends as if it were not in the file, and
   * its warnings sit between those of the groups before and after it.
   */
  lemma SkippedGroupDoesNotStopLaterGroups(accounts: seq<Account>, a: seq<Group>, g: Group, b: seq<Group>)
    requires GroupKey(g).None?
    ensures var first := ImportAll(accounts, a);
            var rest := ImportAll(first.accounts, b);
            && ImportAll(accounts, a + [g] + b).accounts == ImportAll(accounts, a + b).accounts
            && ImportAll(accounts, a + [g] + b).log
               == first.log + ImportGroup(first.accounts, g).log + rest.log
  {
    ImportAllAppend(accounts, a + [g], b);
    ImportAllAppend(accounts, a, [g]);
    ImportAllAppend(accounts, a, b);
    assert [g][..0] == [];
  }

  // ---------------------------------------------------------------------
  // The imperative loop and entry point

  /** The creation steps of `import_empathy_accounts`: create and register the account of a complete group, then set its fields. */
  method AddImportedAccount(reg: AccountRegistry, group: Group, name: string, protocol: string)
    modifies reg
    ensures reg.accounts == old(reg.accounts) + [Imported(group, name, protocol)]
  {
    var idx := reg.Add(name, protocol);
    reg.SetUsername(idx, name);
    reg.SetProtocolId(idx, protocol);
    reg.SetAlias(idx, GetString(group, "Nickname"));
    reg.SetEnabled(idx, IsTrue(GetString(group, "Enabled")));
    reg.SetEncoding(idx, GetString(group, "param-charset"));
    reg.SetPort(idx, Atoi(GetString(group, "param-port")));
    reg.SetSsl(idx, IsTrue(GetString(group, "param-use-ssl")));
  }

  /** The body of the loop in `import_empathy_accounts` for one group, appending its warnings to `log`. */
  method ImportOneGroup(reg: AccountRegistry, group: Group, log: seq<Warning>) returns (log': seq<Warning>)
    modifies reg
    ensures reg.accounts == ImportGroup(old(reg.accounts), group).accounts
    ensures log' == log + ImportGroup(old(reg.accounts), group).log
  {
    var str1 := GetString(group, "protocol");
    if str1.None? {
      log' := log + [NoProtocol(group.name)];
    } else if Strcmp0(str1, Some(Irc)) == 0 {
      var protocol := ProtocolId(str1.value);
      var account := GetString(group, "param-account");
      var server := GetString(group, "param-server");
      if account.None? {
        log' := log + [NoParamAccount(group.name)];
      } else if server.None? {
        log' := log + [NoParamServer(group.name)];
      } else {
        var name := Identity(account.value, server.value);
        if Find(reg.accounts, name, protocol).Some? {
          log' := log + [SkipExisting(protocol, name)];
        } else {
          AddImportedAccount(reg, group, name, protocol);
          log' := log;
        }
      }
    } else {
      log' := log + [OnlyIrcSupported, UnsupportedProtocol(group.name, str1.value)];
    }
  }

  /** `import_empathy_accounts`: walks the groups in file order and updates the registry in place. */
  method ImportAccounts(reg: AccountRegistry, groups: seq<Group>) returns (log: seq<Warning>)
    modifies reg
    ensures reg.accounts == ImportAll(old(reg.accounts), groups).accounts
    ensures log == ImportAll(old(reg.accounts), groups).log
    ensures Unique(old(reg.accounts)) ==> Unique(reg.accounts)
  {
    log := [];
    var i := 0;
    while i < |groups|
      invariant 0 <= i <= |groups|
      invariant ImportAll(old(reg.accounts), groups[..i]) == Outcome(reg.accounts, log)
    {
      assert groups[..i + 1][..i] == groups[..i];
      log := ImportOneGroup(reg, groups[i], log);
      i := i + 1;
    }
    assert groups[..i] == groups;
    if Unique(old(reg.accounts)) {
      ImportAllUnique(old(reg.accounts), groups);
    }
  }

  /**
   * `import_empathy`: `loaded` is what loading `accounts.cfg` returned and
   * `groups` its groups; on failure no group is processed.
   */
  method ImportEmpathy(reg: AccountRegistry, loaded: bool, groups: seq<Group>) returns (log: seq<Warning>)
    modifies reg
    ensures Outcome(reg.accounts, log) == Import(old(reg.accounts), loaded, groups)
    ensures !loaded ==> reg.accounts == old(reg.accounts) && log == []
  {
    if !loaded {
      return [];
    }
    log := ImportAccounts(reg, groups);
  }
}

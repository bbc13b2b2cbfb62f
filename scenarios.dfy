/**
 * Worked examples of the import on concrete configuration files: a complete
 * IRC group, a rerun of the same file, and groups whose protocol the
 * importer does not support.
 */
module Scenarios {
  import opened Wrappers
  import opened CStrings
  import opened KeyFile
  import opened Accounts
  import opened Import

  function Alice(): Group {
    Group("acct1", map[
      "protocol" := "irc", "param-account" := "alice", "param-server" := "irc.example.com",
      "Nickname" := "Al", "Enabled" := "true", "param-port" := "6667", "param-use-ssl" := "false"])
  }

  function Bob(): Group {
    Group("acct2", map[
      "protocol" := "groupwise", "param-account" := "bob", "param-server" := "gw.example.com",
      "param-port" := "1677"])
  }

  function Carol(): Group {
    Group("acct3", map["protocol" := "jabber", "param-account" := "carol"])
  }

  function AliceAccount(): Account {
    Account("alice@irc.example.com", "prpl-irc", Some("Al"), true, None, 6667, false)
  }

  /** `atoi ("6667")` is 6667. */
  lemma PortOfAlice()
    ensures Atoi(Some("6667")) == 6667
  {
    assert NatToString(6667) == "6667";
    AtoiOfIntToString(6667, "");
    assert IntToString(6667) + "" == "6667";
  }

  /** Alice's group is a complete IRC group with key (`alice@irc.example.com`, `prpl-irc`). */
  lemma AliceKey()
    ensures GroupKey(Alice()) == Some(("alice@irc.example.com", "prpl-irc"))
  {
    var e := Alice().entries;
    assert e["protocol"] == "irc" && e["param-account"] == "alice" && e["param-server"] == "irc.example.com";
    assert Identity("alice", "irc.example.com") == "alice@irc.example.com";
    assert ProtocolId(Irc) == "prpl-irc";
  }

  /** A complete IRC group imported into an empty registry creates exactly its account. */
  lemma ImportAlice()
    ensures ImportAll([], [Alice()]) == Outcome([AliceAccount()], [])
  {
    var g := Alice();
    var e := g.entries;
    AliceKey();
    assert e["Nickname"] == "Al" && e["Enabled"] == "true" && e["param-use-ssl"] == "false";
    assert "param-charset" !in e;
    assert e["param-port"] == "6667";
    PortOfAlice();
    assert Imported(g, "alice@irc.example.com", "prpl-irc") == AliceAccount();
    assert [g][..0] == [];
  }

  /** Rerunning the same file creates nothing and reports the existing account. */
  lemma ReimportAlice()
    ensures ImportAll([AliceAccount()], [Alice()])
            == Outcome([AliceAccount()], [SkipExisting("prpl-irc", "alice@irc.example.com")])
  {
    AliceKey();
    assert KeyOf([AliceAccount()][0]) == ("alice@irc.example.com", "prpl-irc");
    assert ("alice@irc.example.com", "prpl-irc") in Keys([AliceAccount()]);
    CompleteGroupOutcome([AliceAccount()], Alice());
    assert [Alice()][..0] == [];
  }

  /**
   * Groups of other protocols, GroupWise among them, are skipped with two
   * warnings each, and the IRC group before them is still imported.
   */
  lemma ImportMixedFile()
    ensures ImportAll([], [Alice(), Bob(), Carol()])
            == Outcome([AliceAccount()], [
                 OnlyIrcSupported, UnsupportedProtocol("acct2", "groupwise"),
                 OnlyIrcSupported, UnsupportedProtocol("acct3", "jabber")])
  {
    var gs := [Alice(), Bob(), Carol()];
    assert Bob().entries["protocol"] == "groupwise";
    assert Carol().entries["protocol"] == "jabber";
    var bob := ImportGroup([AliceAccount()], Bob());
    assert bob == Outcome([AliceAccount()], [OnlyIrcSupported, UnsupportedProtocol("acct2", "groupwise")]);
    var carol := ImportGroup([AliceAccount()], Carol());
    assert carol == Outcome([AliceAccount()], [OnlyIrcSupported, UnsupportedProtocol("acct3", "jabber")]);
    assert gs[..2][..1] == [Alice()];
    assert gs[..2] == [Alice(), Bob()];
    ImportAlice();
    assert ImportAll([], gs[..2]) == Outcome([AliceAccount()], bob.log);
  }
}

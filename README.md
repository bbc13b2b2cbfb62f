# Empathy account importer — Dafny model

This project models the account import of the libpurple plugin
"Empathy Importer" (`import-empathy.c`). The plugin reads Empathy's
`accounts.cfg` key file. It walks the file's groups in order and turns each
complete IRC group into a new libpurple account. It skips a group, with a
debug warning, when:

- it names no protocol;
- its protocol is not `irc`;
- it lacks `param-account` or `param-server`;
- an account with the same username and protocol id already exists.

The model has six modules:

- `Wrappers`: `Option`, where `None` stands for a C `NULL`.
- `CStrings`: GLib's `g_strcmp0` and C's `atoi`, as defined in section
  7.22.1.2 of ISO C11.
- `KeyFile`: a configuration group, with a name and a `map<string, string>`.
  `GetString` is the definition that stands in for `g_key_file_get_string`:
  the value is present exactly when the key is.
- `Accounts`: the account record and the registry. The registry is a class
  holding the ordered account list. It has `purple_accounts_find` (the
  function `Find`), `purple_account_new` plus `purple_accounts_add` (the
  method `Add`), and one setter method per field the importer writes.
  `NewAccount` is the definition that stands in for `purple_account_new`.
  It is a fresh record with the given username and protocol id.
- `Import`: the loop `import_empathy_accounts` as the method
  `ImportAccounts`, and the guard in `import_empathy` as `ImportEmpathy`.
  The loop body is the method `ImportOneGroup`. Its account-creation steps
  are the method `AddImportedAccount`.
  Some of the functions here are definitions without a contract of their
  own. Their properties are stated by the lemmas named below:
  - `GroupKey`, the key a complete IRC group derives: `CompleteGroupOutcome`.
  - `Imported`, the account record a group yields: `CreatedAccountFields`.
  - `Import`, the load guard: `ImportIdempotent`.
  - `CStrings.Atoi`: `AtoiOfSignedDigits`, `AtoiWithoutDigits`,
    `AtoiSkipsLeadingSpace` and `AtoiOfIntToString`.
  Both are proved equal to the value-level functions `ImportGroup`,
  `ImportAll` and `Import`. The lemmas about those functions give the
  properties: fail-soft skipping, dedup, uniqueness, field coercions and
  idempotence.
- `Scenarios`: concrete configuration files worked through.

What the code does, on its own terms:

- The libpurple protocol id is `"prpl-irc"`, built as `"prpl-" + "irc"`
  (import-empathy.c:87).
- `irc` is the only protocol handled. A group of any other protocol,
  `groupwise` included, is skipped as unsupported with two warnings.
  `Scenarios.ImportMixedFile` shows this.
- `param-password` is never read. Only a TODO refers to a keyring lookup
  (import-empathy.c:118).

The plugin's I/O and environment become parameters:

- The loaded configuration is the parameter `groups`.
- The result of `g_key_file_load_from_file` is the boolean `loaded`.
- The libpurple registry is an `AccountRegistry` object.
- The debug warnings are an appended log of `Warning` values, returned by
  the methods.

## Model

| member | source | states |
|---|---|---|
| `CStrings.Strcmp` | import-empathy.c:83 | a result in -1..1 that is 0 exactly when the two strings are equal |
| `CStrings.StrcmpProperPrefix` | import-empathy.c:83 | a proper prefix sorts before the longer string (`strcmp` gives -1) |
| `CStrings.StrcmpFirstDifference` | import-empathy.c:83 | after a common prefix, the string with the smaller character sorts first (-1) |
| `CStrings.StrcmpAntisymmetric` | import-empathy.c:83 | swapping the two strings negates the result |
| `CStrings.Strcmp0` | import-empathy.c:83 | `g_strcmp0` with `NULL` ordered before every string; 0 exactly when both arguments are equal, `NULL` included |
| `CStrings.IsTrue` | import-empathy.c:116-117 | the coercion `!g_strcmp0 (s, "true")` holds exactly when `s` is present and is the literal `"true"` (absent gives false) |
| `CStrings.SkipSpace` | import-empathy.c:124 | `atoi` skips exactly the leading white-space characters and stops at the first character that is not white space |
| `CStrings.DigitRun` | import-empathy.c:124 | `atoi` reads the longest prefix of decimal digits |
| `CStrings.AtoiOfSignedDigits` | import-empathy.c:123-124 | for white space, then an empty, `+` or `-` sign, then a non-empty run of digits (leading zeros allowed), then any text not starting with a digit, `atoi` returns the value of the digits, negated after `-` |
| `CStrings.AtoiOfIntToString` | import-empathy.c:123-124 | `atoi` reads back every integer written in decimal, whatever non-digit text follows it |
| `CStrings.AtoiSkipsLeadingSpace` | import-empathy.c:124 | leading white space does not change the value `atoi` returns |
| `CStrings.AtoiWithoutDigits` | import-empathy.c:124 | for white space, an empty, `+` or `-` sign, then text that does not start with a digit (and, without a sign, not with white space or a sign either), `atoi` returns 0 |
| `Accounts.Find` | import-empathy.c:101 | `purple_accounts_find` returns the first account whose username and protocol id match, and returns none exactly when no account has that key |
| `Accounts.UniqueAppend` | import-empathy.c:107-108 | appending an account whose key is new keeps the registry free of duplicate keys and adds exactly that key |
| `Accounts.KeysOfPrefix` | import-empathy.c:108 | appending accounts never removes a key from the registry |
| `Accounts.AccountRegistry.Add` | import-empathy.c:107-108 | the fresh account is appended at the end of the registry and nothing else changes |
| `Accounts.AccountRegistry.SetUsername` | import-empathy.c:110 | only the username of that one account changes |
| `Accounts.AccountRegistry.SetProtocolId` | import-empathy.c:111 | only the protocol id of that one account changes |
| `Accounts.AccountRegistry.SetAlias` | import-empathy.c:112-114 | only the alias of that one account changes; a `NULL` alias clears it |
| `Accounts.AccountRegistry.SetEnabled` | import-empathy.c:115-117 | only the enabled flag of that one account changes |
| `Accounts.AccountRegistry.SetEncoding` | import-empathy.c:119-121 | only the `encoding` setting of that one account changes |
| `Accounts.AccountRegistry.SetPort` | import-empathy.c:122-124 | only the `port` setting of that one account changes |
| `Accounts.AccountRegistry.SetSsl` | import-empathy.c:125-127 | only the `ssl` setting of that one account changes |
| `Import.ImportGroup` | import-empathy.c:77-137 | one group leaves the registry unchanged when it is incomplete or its key exists, and otherwise appends its one account; it records a warning exactly when it creates nothing |
| `Import.SkippedGroupWarnings` | import-empathy.c:77-98 | a group with no `protocol`, a protocol other than `irc`, or no `param-account` or `param-server` changes nothing and records its warning(s); an unsupported protocol records both debug lines |
| `Import.CompleteGroupOutcome` | import-empathy.c:87-105 | a complete `irc` group has key (`param-account@param-server`, `prpl-irc`); if that key exists the registry is untouched and `SkipExisting` is recorded, otherwise exactly one account is appended and the earlier ones stay as they were |
| `Import.CreatedAccountFields` | import-empathy.c:107-127 | the new account has username `account@server`, protocol `prpl-irc`, alias = `Nickname` or none, enabled iff `Enabled` is `"true"`, encoding = `param-charset` or none, port = `atoi (param-port)` or 0 when absent, ssl iff `param-use-ssl` is `"true"` |
| `Import.ImportGroupCovers` | import-empathy.c:101-108 | after one group the registry keeps every key it had, and holds the group's key when the group is complete |
| `Import.ImportAll` | import-empathy.c:73-138 | a run only appends accounts, at most one per group, and every account that was in the registry before stays exactly as it was |
| `Import.ImportAllAppend` | import-empathy.c:73 | the groups are processed in file order: importing `a + b` is importing `a`, then `b` against the registry `a` left, with the logs concatenated |
| `Import.ImportAllUnique` | import-empathy.c:101-108 | if the registry held at most one account per (username, protocol id) before a run, it still does after, including when two groups share an identity |
| `Import.ImportAllCovers` | import-empathy.c:101-108 | after a run, every complete `irc` group of the file has its account in the registry |
| `Import.ImportAllStable` | import-empathy.c:101-105 | when every complete group's account already exists, a run changes nothing |
| `Import.ImportAllOrigin` | import-empathy.c:73-138 | every account a run adds has a key that was absent before and that some complete group of the file derives |
| `Import.ImportAllIdempotent` | import-empathy.c:101-108 | running the import a second time on the same groups leaves the registry as the first run left it |
| `Import.ImportIdempotent` | import-empathy.c:164-173 | the entry point is idempotent too, and when the configuration failed to load it touches nothing and logs nothing |
| `Import.SkippedGroupDoesNotStopLaterGroups` | import-empathy.c:73-138 | a group skipped for a missing or unsupported protocol or a missing parameter does not stop later groups: the registry ends as if the group were absent, and its warnings sit between those of the groups around it |
| `Import.AddImportedAccount` | import-empathy.c:107-127 | creating, registering and setting up the account appends exactly the account `Imported` describes, and nothing else changes |
| `Import.ImportOneGroup` | import-empathy.c:74-137 | the loop body changes the registry and extends the log exactly as `ImportGroup` gives them for that group |
| `Import.ImportAccounts` | import-empathy.c:65-140 | the loop leaves the registry and the log exactly as `ImportAll` gives them, and keeps the registry free of duplicate keys |
| `Import.ImportEmpathy` | import-empathy.c:164-173 | the entry point processes no group when loading failed and otherwise runs the loop |
| `Scenarios.PortOfAlice` | import-empathy.c:123-124 | `atoi ("6667")` is 6667 |
| `Scenarios.AliceKey` | import-empathy.c:87-99 | the group `acct1` (`alice` on `irc.example.com`) has key (`alice@irc.example.com`, `prpl-irc`) |
| `Scenarios.ImportAlice` | import-empathy.c:83-127 | a complete IRC group in an empty registry creates exactly the account `alice@irc.example.com` with alias `Al`, enabled, port 6667, no SSL and no encoding |
| `Scenarios.ReimportAlice` | import-empathy.c:101-105 | re-importing the same file creates nothing and records `SkipExisting` |
| `Scenarios.ImportMixedFile` | import-empathy.c:133-136 | `groupwise` and `jabber` groups are skipped with two warnings each, and the IRC group before them is still imported |

## Left out

- Configuration loading (`load_empathy_account_cfg`, import-empathy.c:46-63) is not modelled. It resolves the default path and calls GLib's key-file parser, which is file I/O and code outside the repository. The model takes the parsed groups and the boolean load result as parameters. The error message logged on a failed load belongs to that function, so `ImportEmpathy` logs nothing in that case.
- `g_key_file_get_string` unescaping (`\s`, `\n`, ...) and the merging of groups that share a name are parts of GLib's parser. The model receives the groups as already parsed values.
- `import_empathy_logs` (import-empathy.c:142-162) is not modelled. It only builds a directory name and frees it, and its body is TODO comments.
- The plugin lifecycle and UI registration are not modelled: `plugin_load`, `plugin_destroy`, `plugin_action_import_cb`, `plugin_actions`, `info` and `init_plugin` (import-empathy.c:175-250).
- Memory management is not modelled: `g_free`, `g_strfreev`, and the global `account_cfg` handle that is created again on every run.
- The model assumes that `g_free (name)` at import-empathy.c:129 is harmless, which the C code does not guarantee. For a group without `param-account` or `param-server`, the `goto out` at lines 93 and 97 reaches that call before `name` is ever assigned: it is declared uninitialised at line 85. Freeing that pointer is undefined behaviour and can abort the host before later groups run. So `Import.SkippedGroupDoesNotStopLaterGroups`, the missing-parameter cases of `Import.SkippedGroupWarnings`, and what `Import.ImportAll` and `Import.ImportAccounts` say about such groups describe the intended skip-and-continue behaviour, and they hold of the C code only under this assumption. Groups with no protocol or an unsupported protocol leave by `continue` and do not reach line 129.
- The keyring password lookup (import-empathy.c:118) is only a TODO, so there is no behaviour to model.
- import_empathy.c is not part of this model. It is an earlier draft that does not compile and holds only plugin boilerplate.
- Accounts.Find: libpurple's `purple_accounts_find` compares usernames after protocol-specific normalisation. The model compares usernames exactly, because the normaliser is libpurple code outside the repository.
- CStrings.Atoi: `atoi (NULL)`, reached when `param-port` is absent (import-empathy.c:123-124), is undefined behaviour in C. The model returns 0. A value that overflows `int` is also undefined, and the model returns the unbounded mathematical value.
- CStrings.Strcmp: characters are compared by code point, which matches C's unsigned byte comparison for UTF-8. C strings cannot hold an embedded NUL, and the model assumes that no value contains one.
- Accounts.AccountRegistry.SetEnabled: `purple_account_set_enabled` keeps one flag per user interface. The model keeps a single flag, namely the flag of the running UI (`purple_core_get_ui ()`).
- Accounts.NewAccount: the setting defaults of a fresh libpurple account are not modelled exactly. The importer sets all five fields right after creating the account, so its result does not depend on them.
- The debug messages are modelled as `Warning` values, not as formatted text.

/**
 * The loaded Empathy configuration (`accounts.cfg`), standing for GLib's
 * `GKeyFile`: the groups in file order, each with its name and its
 * key/value entries. Keys are case-sensitive; a key written twice in one
 * group keeps its last value, which a map already expresses.
 */
module KeyFile {
  import opened Wrappers

  datatype Group = Group(name: string, entries: map<string, string>)

  /** `g_key_file_get_string (cfg, group, key, NULL)`: the value, or `NULL` when the key is absent. */
  function GetString(g: Group, key: string): (r: Option<string>)
    ensures r.Some? <==> key in g.entries
    ensures r.Some? ==> r.value == g.entries[key]
  {
    if key in g.entries then Some(g.entries[key]) else None
  }
}

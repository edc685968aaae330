/**
 * Reading migration-runner configuration out of already-parsed YAML documents
 * (src/config.rs). The file is read and the YAML text is scanned elsewhere;
 * this module starts from the list of parsed documents.
 */
module Config {
  import opened Wrappers
  import opened YamlTree

  /** Rust's `u8`. */
  newtype u8 = x: int | 0 <= x < 0x100

  /** Rust's `u16`. */
  newtype u16 = x: int | 0 <= x < 0x1_0000

  /** The only error the post-parse step can raise: a top-level document that is not a hash. */
  datatype ConfigError = NoYamlHash

  /** One named configuration block; `runner` is the source's `_runner` field. */
  datatype Configuration = Configuration(
    runner: Option<string>,
    database: Option<string>,
    index: Option<string>,
    databaseNumber: Option<u8>,
    ipOrHostname: Option<string>,
    port: Option<u16>,
    username: Option<string>,
    password: Option<string>)

  /** The database number every configuration is given, whatever the YAML says. */
  const DefaultDatabaseNumber: u8 := 1

  /** The port every configuration is given, whatever the YAML says. */
  const DefaultPort: u16 := 1234

  // ---------------------------------------------------------------------------
  // Rendering keys

  /**
   * A node rendered as a key: a string node gives its text, every other node
   * the empty string, so all non-string keys look alike.
   */
  function AsString(y: Yaml): (r: string)
    ensures y.Str? ==> r == y.s
    ensures r == "" <==> !y.Str? || y.s == ""
  {
    match y
    case Str(s) => s
    case _ => ""
  }

  // ---------------------------------------------------------------------------
  // Looking a string up in a hash

  /** Hash entry `e` answers a lookup of `key`: its rendered key is `key` and its value is a string node. */
  predicate IsStringHit(e: (Yaml, Yaml), key: string) {
    AsString(e.0) == key && e.1.Str?
  }

  /**
   * What a front-to-back scan of `entries` that remembers the latest string
   * hit for `key` ends with: the value of the last hit, or None if none.
   */
  function LastHit(entries: seq<(Yaml, Yaml)>, key: string): Option<string> {
    if entries == [] then None
    else
      var last := entries[|entries| - 1];
      if IsStringHit(last, key) then Some(last.1.s) else LastHit(entries[..|entries| - 1], key)
  }

  /** The value `get_string` finds under `key` in node `y`; a node that is not a hash has none. */
  function Lookup(y: Yaml, key: string): (r: Option<string>)
    ensures !y.Hash? ==> r == None
  {
    if y.Hash? then LastHit(y.entries, key) else None
  }

  /**
   * `get_string`: walks the entries of a hash in order and overwrites its
   * result whenever an entry's rendered key is `searchKey` and its value is a
   * string; entries with a matching key but another kind of value leave the
   * result as it was.
   */
  method GetString(yaml: Yaml, searchKey: string) returns (result: Option<string>)
    ensures result == Lookup(yaml, searchKey)
    ensures !yaml.Hash? ==> result == None
  {
    result := None;
    match yaml {
      case Hash(entries) =>
        var i := 0;
        while i < |entries|
          invariant 0 <= i <= |entries|
          invariant result == LastHit(entries[..i], searchKey)
        {
          var (k, v) := entries[i];
          if AsString(k) == searchKey {
            match v {
              case Str(value) => result := Some(value);
              case _ =>
            }
          }
          assert entries[..i + 1][..i] == entries[..i];
          i := i + 1;
        }
        assert entries[..i] == entries;
      case _ =>
    }
  }

  // ---------------------------------------------------------------------------
  // Building configurations

  /**
   * The configuration read from a named block whose inner hash is `inner`:
   * the string fields come from the value of the inner hash's FIRST entry,
   * whatever its key (it is the `<<` line when the block begins with one), and
   * the database number and port are fixed. A block written flat, whose first
   * entry holds a string rather than a hash, therefore yields no string fields.
   */
  function ConfigOf(inner: seq<(Yaml, Yaml)>): (c: Configuration)
    requires |inner| > 0
    ensures c.databaseNumber == Some(DefaultDatabaseNumber) && c.port == Some(DefaultPort)
    ensures !inner[0].1.Hash? ==>
              c.runner == None && c.database == None && c.index == None &&
              c.ipOrHostname == None && c.username == None && c.password == None
  {
    var source := inner[0].1;
    Configuration(
      Lookup(source, "_runner"),
      Lookup(source, "database"),
      Lookup(source, "index"),
      Some(DefaultDatabaseNumber),
      Lookup(source, "ip_or_hostname"),
      Some(DefaultPort),
      Lookup(source, "username"),
      Lookup(source, "password"))
  }

  /** A top-level entry names a configuration block called `key`: its value is a hash and its key renders as `key`. */
  predicate IsBlock(e: (Yaml, Yaml), key: string) {
    e.1.Hash? && AsString(e.0) == key
  }

  /** A top-level entry the fold can process without panicking: a hash value has a first entry to unwrap. */
  predicate Readable(e: (Yaml, Yaml)) {
    e.1.Hash? ==> |e.1.entries| > 0
  }

  /** Every entry of `entries` is readable. */
  predicate AllReadable(entries: seq<(Yaml, Yaml)>) {
    forall j :: 0 <= j < |entries| ==> Readable(entries[j])
  }

  /**
   * The fold over `docs` never reaches an unreadable entry: every document up
   * to the first one that is not a hash has only readable entries. Documents
   * after a non-hash document are never looked at.
   */
  predicate NoPanic(docs: seq<Yaml>) {
    docs == [] || (docs[0].Hash? ==> AllReadable(docs[0].entries) && NoPanic(docs[1..]))
  }

  /** The map after processing one top-level entry: a block inserts (or replaces) its configuration, anything else is skipped. */
  function Put(m: map<string, Configuration>, e: (Yaml, Yaml)): map<string, Configuration>
    requires Readable(e)
  {
    if e.1.Hash? then m[AsString(e.0) := ConfigOf(e.1.entries)] else m
  }

  /** The map after processing `entries` in order, starting from `m`. */
  function Absorb(m: map<string, Configuration>, entries: seq<(Yaml, Yaml)>): map<string, Configuration>
    requires AllReadable(entries)
    decreases |entries|
  {
    if entries == [] then m
    else
      assert Readable(entries[0]);
      Absorb(Put(m, entries[0]), entries[1..])
  }

  /** The result of processing `docs` in order, starting from `m`; the first non-hash document ends it with an error. */
  function LoadFrom(m: map<string, Configuration>, docs: seq<Yaml>): Result<map<string, Configuration>, ConfigError>
    requires NoPanic(docs)
    decreases |docs|
  {
    if docs == [] then Ok(m)
    else if docs[0].Hash? then LoadFrom(Absorb(m, docs[0].entries), docs[1..])
    else Err(NoYamlHash)
  }

  /** The result of the post-parse part of `from_file` on the parsed documents `docs`. */
  function Load(docs: seq<Yaml>): (r: Result<map<string, Configuration>, ConfigError>)
    requires NoPanic(docs)
    ensures docs == [] ==> r == Ok(map[])
    ensures docs != [] && !docs[0].Hash? ==> r == Err(NoYamlHash)
  {
    LoadFrom(map[], docs)
  }

  /**
   * The post-parse part of `from_file`: every top-level document must be a
   * hash (otherwise the whole load fails with NoYamlHash, even after earlier
   * documents were processed); each entry of a document whose value is a hash
   * becomes a configuration stored under the entry's rendered key, a later
   * block with the same rendered key replacing an earlier one.
   */
  method FromDocuments(docs: seq<Yaml>) returns (r: Result<map<string, Configuration>, ConfigError>)
    requires NoPanic(docs)
    ensures r == Load(docs)
  {
    var hm: map<string, Configuration> := map[];
    var i := 0;
    while i < |docs|
      invariant 0 <= i <= |docs|
      invariant NoPanic(docs[i..])
      invariant Load(docs) == LoadFrom(hm, docs[i..])
    {
      match docs[i] {
        case Hash(entries) =>
          assert docs[i..][1..] == docs[i + 1..];
          var j := 0;
          while j < |entries|
            invariant 0 <= j <= |entries|
            invariant AllReadable(entries[j..])
            invariant Load(docs) == LoadFrom(Absorb(hm, entries[j..]), docs[i + 1..])
          {
            var (k, v) := entries[j];
            assert Readable(entries[j..][0]);
            assert entries[j..][1..] == entries[j + 1..];
            match v {
              case Hash(value) =>
                var configValue := value[0].1;
                var runner := GetString(configValue, "_runner");
                var database := GetString(configValue, "database");
                var index := GetString(configValue, "index");
                var ipOrHostname := GetString(configValue, "ip_or_hostname");
                var username := GetString(configValue, "username");
                var password := GetString(configValue, "password");
                var c := Configuration(runner, database, index, Some(DefaultDatabaseNumber),
                                       ipOrHostname, Some(DefaultPort), username, password);
                hm := hm[AsString(k) := c];
              case _ =>
            }
            j := j + 1;
          }
          i := i + 1;
        case _ =>
          return Err(NoYamlHash);
      }
    }
    return Ok(hm);
  }
}

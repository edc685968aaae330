# mitre configuration reader, modelled in Dafny

mitre is a migration runner. Its configuration lives in a YAML file that names one or more configuration blocks. Each block says which runner to use and how to reach the data store: database, index, host, credentials. This project models the part of `src/config.rs` that turns the already-parsed YAML documents into a map from block name to `Configuration`, and proves what that step promises.

The runner itself, `run_migrations` (src/runner.rs:17-25), only prints each migration and returns an empty list, so the configuration step is the only logic in the modelled files.

Files:

- `wrappers.dfy`: module `Wrappers`, with `Option` and `Result`.
- `yaml.dfy`: module `YamlTree`, an abstract parsed YAML node. A node is a string `Str(s)`, a hash `Hash(entries)` or `Other`. A hash's entries are an ordered sequence of key/value pairs, because yaml_rust's hash iterates in insertion order. `Other` stands for every other node kind.
- `config.dfy`: module `Config`. It holds the `Configuration` record and `AsString` (`as_string`). It holds `GetString` (`get_string`), a method with a loop proved against the specification function `Lookup`. It holds `FromDocuments`, the post-parse part of `from_file`: a method with nested loops proved against the specification function `Load`, which is a fold over documents and entries.
- `config_lemmas.dfy`: module `ConfigProperties`, with the properties of `Lookup` and `Load`.

Contracts and terms:

- `get_string` keeps overwriting its result as it scans. So the value it returns is the value of the *last* entry whose rendered key matches and whose value is a string. A later match with a non-string value does not clear an earlier result.
- Every non-string key renders as `""`.
- `from_file` makes a configuration only from top-level entries whose value is a hash. It reads the string fields from the value of the inner hash's *first* entry, whatever its key. That entry is the `<<` line when the block begins with one (yaml_rust does not expand merge keys). A block written flat, such as `a: {_runner: mysql, database: db}`, has a string as its first entry's value, so all six string fields come out None. The database number is always 1 and the port always 1234.
- The first top-level document that is not a hash ends the load with `NoYamlHash`. The configurations already built are discarded.
- `unwrap` panics on a block whose inner hash is empty. The model states this as the precondition `NoPanic`. That precondition covers only the documents the fold actually reaches, which are the ones before the first non-hash document.
- The source's field `_runner` is called `runner`, because a Dafny identifier cannot begin with an underscore.

## Model

| member | source | states |
|---|---|---|
| `Config.AsString` | src/config.rs:110-115 | a string node renders as its own text; the result is empty exactly when the node is not a string or is the empty string, so every non-string key collapses to `""` |
| `Config.Lookup` | src/config.rs:94-107 | a node that is not a hash yields None whatever the search key |
| `Config.GetString` | src/config.rs:90-108 | the loop over the hash entries returns exactly `Lookup(yaml, searchKey)`, and None for a node that is not a hash |
| `ConfigProperties.GetStringFinds` | src/config.rs:92-107 | the result is `Some(v)` if and only if the node is a hash whose last entry with rendered key `key` and a string value has value `v` |
| `ConfigProperties.GetStringMisses` | src/config.rs:92-107 | the result is None if and only if the node is not a hash or no entry has rendered key `key` and a string value |
| `ConfigProperties.GetStringKeepsEarlierHit` | src/config.rs:96-101 | later entries that are not string hits for the key, including a matching key with a non-string value, do not change the result |
| `ConfigProperties.GetStringLaterHitWins` | src/config.rs:96-99 | a later matching entry with a string value replaces whatever the earlier entries gave |
| `ConfigProperties.GetStringNonStringKey` | src/config.rs:97-99 | a string value stored under a non-string key is found by a lookup of `""` |
| `ConfigProperties.GetStringGetsString` | src/config.rs:177-195 | on the document `key: bestValue` the lookup of `key` yields `Some("bestValue")` |
| `ConfigProperties.LastHitAppend` | src/config.rs:96-103 | scanning a concatenation: a string hit in the second part decides the result, otherwise the first part does |
| `Config.ConfigOf` | src/config.rs:135-150 | every configuration gets database number 1 and port 1234; when the first inner entry's value is not a hash (a block written flat), all six string fields are None |
| `Config.Load` | src/config.rs:128-165 | the document/entry fold: an empty list gives an empty map, and a first document that is not a hash gives `Err(NoYamlHash)` at once |
| `ConfigProperties.FlatBlockReadsNothing` | src/config.rs:135-150 | the flat block `a: {_runner: mysql, database: db}` loads as a configuration with no string fields, only database number 1 and port 1234 |
| `ConfigProperties.MergeBlockReadsFirstEntry` | src/config.rs:135-150 | a block beginning with a `<<` line reads `_runner` from the merged hash and ignores its own later `database` entry |
| `Config.FromDocuments` | src/config.rs:128-165 | the nested loops over documents and entries, with the early error return, produce exactly `Load(docs)` |
| `ConfigProperties.LoadFails` | src/config.rs:128-165 | an empty document list gives an empty map; the result is `Err(NoYamlHash)` if and only if some top-level document is not a hash, wherever it stands |
| `ConfigProperties.LoadSucceeds` | src/config.rs:129-156 | a successful load saw only hash documents, and its map is the in-order fold of all their entries |
| `ConfigProperties.LoadKeys` | src/config.rs:132-155 | a name is in the result if and only if some top-level entry has a hash value and a key rendering to that name; entries with other values are skipped |
| `ConfigProperties.AbsorbLatest` | src/config.rs:132-155 | the configuration stored under a name is the one built from the last block with that name; later blocks overwrite earlier ones |
| `ConfigProperties.AbsorbMisses` | src/config.rs:132-155 | entries that are not blocks with a given name leave that name's presence and configuration unchanged |
| `ConfigProperties.LoadedConfiguration` | src/config.rs:135-151 | every configuration comes from the last block with its name: database number 1, port 1234, and `_runner`, `database`, `index`, `ip_or_hostname`, `username`, `password` equal to the lookup of that name in the value of the block's first inner entry |

## Left out

- Reading the file and scanning the YAML text (src/config.rs:125-126) are left out. They are I/O and an external parser. The model starts from the list of parsed documents, so the `Io` and `Yaml` error variants never arise and only `NoYamlHash` is kept.
- yaml_rust's node kinds other than strings and hashes (integers, reals, booleans, arrays, aliases, null) are merged into `Other`. The code treats them all alike: `as_string` gives `""`, and `get_string` and `from_file` skip them.
- The model does not require a hash's keys to be distinct. yaml_rust's hash does require that. So the model covers more inputs than the source can receive. Collisions that matter come only from non-string keys, which all render as `""`.
- The panic of `unwrap` on a block with an empty inner hash is not modelled as an outcome. `FromDocuments` and `Load` instead require `NoPanic` of their input.
- The debug `println!` and `warn!` output (src/config.rs:91, 137, 158) is left out. It is logging with no effect on the result.
- The `Display`, `cause` and `From` implementations of `ConfigError` (src/config.rs:16-61) are left out. They format or wrap foreign error values.
- src/main.rs is command-line plumbing (argument parsing, table output, logger set-up) and is left out.
- src/runner.rs only prints each migration and returns an empty list. It is left out.
- The `filename`, `migrations` and `reserved` modules (declared at src/main.rs:11-13) are outside this model.

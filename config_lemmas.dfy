/**
 * What the configuration reader promises: how `get_string` resolves several
 * matching entries, which top-level entries become configurations, when the
 * load fails, and what each configuration holds.
 */
module ConfigProperties {
  import opened Wrappers
  import opened YamlTree
  import opened Config

  // ---------------------------------------------------------------------------
  // get_string

  /** Entry `i` is a string hit for `key` and no later entry is one. */
  predicate LatestHitAt(entries: seq<(Yaml, Yaml)>, key: string, i: int) {
    0 <= i < |entries| && IsStringHit(entries[i], key) &&
    forall j :: i < j < |entries| ==> !IsStringHit(entries[j], key)
  }

  /** Scanning a concatenation: a string hit in the second part decides, otherwise the first part does. */
  lemma {:induction false} LastHitAppend(e1: seq<(Yaml, Yaml)>, e2: seq<(Yaml, Yaml)>, key: string)
    ensures LastHit(e1 + e2, key) == if LastHit(e2, key).Some? then LastHit(e2, key) else LastHit(e1, key)
    decreases |e2|
  {
    if e2 == [] {
      assert e1 + e2 == e1;
    } else {
      var n := |e2| - 1;
      assert (e1 + e2)[..|e1 + e2| - 1] == e1 + e2[..n];
      assert (e1 + e2)[|e1 + e2| - 1] == e2[n];
      LastHitAppend(e1, e2[..n], key);
    }
  }

  /** The value of the latest string hit is what the scan returns. */
  lemma {:induction false} LastHitIsLatest(entries: seq<(Yaml, Yaml)>, key: string, i: int)
    requires LatestHitAt(entries, key, i)
    ensures LastHit(entries, key) == Some(entries[i].1.s)
    decreases |entries|
  {
    var n := |entries| - 1;
    if i < n {
      assert !IsStringHit(entries[n], key);
      LastHitIsLatest(entries[..n], key, i);
    }
  }

  /** A value returned by the scan belongs to the latest string hit. */
  lemma {:induction false} LastHitHasWitness(entries: seq<(Yaml, Yaml)>, key: string)
    requires LastHit(entries, key).Some?
    ensures exists i :: LatestHitAt(entries, key, i) && entries[i].1.s == LastHit(entries, key).value
    decreases |entries|
  {
    var n := |entries| - 1;
    if IsStringHit(entries[n], key) {
      assert LatestHitAt(entries, key, n);
    } else {
      var prefix := entries[..n];
      LastHitHasWitness(prefix, key);
      var i :| LatestHitAt(prefix, key, i) && prefix[i].1.s == LastHit(prefix, key).value;
      assert LatestHitAt(entries, key, i);
    }
  }

  /** The scan finds nothing exactly when no entry is a string hit. */
  lemma {:induction false} LastHitNone(entries: seq<(Yaml, Yaml)>, key: string)
    ensures LastHit(entries, key) == None <==> forall i :: 0 <= i < |entries| ==> !IsStringHit(entries[i], key)
    decreases |entries|
  {
    if entries != [] {
      var n := |entries| - 1;
      LastHitNone(entries[..n], key);
      assert forall i :: 0 <= i < n ==> entries[..n][i] == entries[i];
    }
  }

  /**
   * `get_string` yields `Some(v)` exactly when the node is a hash and its last
   * entry whose rendered key is `key` and whose value is a string has value `v`.
   */
  lemma GetStringFinds(y: Yaml, key: string, v: string)
    ensures Lookup(y, key) == Some(v) <==>
            y.Hash? && exists i :: LatestHitAt(y.entries, key, i) && y.entries[i].1.s == v
  {
    if y.Hash? {
      if Lookup(y, key) == Some(v) {
        LastHitHasWitness(y.entries, key);
      }
      if i :| LatestHitAt(y.entries, key, i) && y.entries[i].1.s == v {
        LastHitIsLatest(y.entries, key, i);
      }
    }
  }

  /**
   * `get_string` yields None exactly when the node is not a hash or none of
   * its entries has rendered key `key` and a string value.
   */
  lemma GetStringMisses(y: Yaml, key: string)
    ensures Lookup(y, key) == None <==>
            !y.Hash? || forall i :: 0 <= i < |y.entries| ==> !IsStringHit(y.entries[i], key)
  {
    if y.Hash? {
      LastHitNone(y.entries, key);
    }
  }

  /**
   * Entries after the last string hit cannot clear it: appending entries
   * that are not string hits for `key` (a matching key with a non-string
   * value, or another key) leaves the lookup unchanged.
   */
  lemma GetStringKeepsEarlierHit(entries: seq<(Yaml, Yaml)>, rest: seq<(Yaml, Yaml)>, key: string)
    requires forall j :: 0 <= j < |rest| ==> !IsStringHit(rest[j], key)
    ensures Lookup(Hash(entries + rest), key) == Lookup(Hash(entries), key)
  {
    LastHitNone(rest, key);
    LastHitAppend(entries, rest, key);
  }

  /** A later string hit replaces whatever earlier entries gave. */
  lemma GetStringLaterHitWins(entries: seq<(Yaml, Yaml)>, k: Yaml, v: string, key: string)
    requires AsString(k) == key
    ensures Lookup(Hash(entries + [(k, Str(v))]), key) == Some(v)
  {
  }

  /** Every key that is not a string renders as "", so a lookup of "" sees values stored under any such key. */
  lemma GetStringNonStringKey(entries: seq<(Yaml, Yaml)>, v: string)
    ensures Lookup(Hash(entries + [(Other, Str(v))]), "") == Some(v)
  {
  }

  /** The document `key: bestValue` yields `bestValue` under "key". */
  lemma GetStringGetsString()
    ensures Lookup(Hash([(Str("key"), Str("bestValue"))]), "key") == Some("bestValue")
  {
  }

  /**
   * A block written flat (`a: {_runner: mysql, database: db}`) has the string
   * `mysql` as the value of its first entry, so none of its string fields is found.
   */
  lemma FlatBlockReadsNothing()
    ensures Load([Hash([(Str("a"), Hash([(Str("_runner"), Str("mysql")), (Str("database"), Str("db"))]))])])
         == Ok(map["a" := Configuration(None, None, None, Some(1), None, Some(1234), None, None)])
  {
  }

  /**
   * A block that begins with a merge line (`a: {<<: {_runner: mysql}, database: db}`)
   * reads its fields from the merged hash only; its own later entries are ignored.
   */
  lemma MergeBlockReadsFirstEntry()
    ensures Load([Hash([(Str("a"), Hash([(Str("<<"), Hash([(Str("_runner"), Str("mysql"))])), (Str("database"), Str("db"))]))])])
         == Ok(map["a" := Configuration(Some("mysql"), None, None, Some(1), None, Some(1234), None, None)])
  {
  }

  // ---------------------------------------------------------------------------
  // The entry fold

  /** Entry `j` is a configuration block named `key` and no later entry is one. */
  predicate LatestBlockAt(entries: seq<(Yaml, Yaml)>, key: string, j: int) {
    0 <= j < |entries| && IsBlock(entries[j], key) &&
    forall l :: j < l < |entries| ==> !IsBlock(entries[l], key)
  }

  /** Processing two runs of entries one after the other is processing their concatenation. */
  lemma {:induction false} AbsorbAppend(m: map<string, Configuration>, e1: seq<(Yaml, Yaml)>, e2: seq<(Yaml, Yaml)>)
    requires AllReadable(e1) && AllReadable(e2)
    ensures AllReadable(e1 + e2)
    ensures Absorb(m, e1 + e2) == Absorb(Absorb(m, e1), e2)
    decreases |e1|
  {
    assert forall j :: 0 <= j < |e1 + e2| ==> (e1 + e2)[j] == if j < |e1| then e1[j] else e2[j - |e1|];
    if e1 != [] {
      assert (e1 + e2)[1..] == e1[1..] + e2;
      assert Readable(e1[0]);
      AbsorbAppend(Put(m, e1[0]), e1[1..], e2);
    } else {
      assert e1 + e2 == e2;
    }
  }

  /** Entries that are not blocks named `key` leave that name's entry untouched. */
  lemma {:induction false} AbsorbMisses(m: map<string, Configuration>, entries: seq<(Yaml, Yaml)>, key: string)
    requires AllReadable(entries)
    requires forall j :: 0 <= j < |entries| ==> !IsBlock(entries[j], key)
    ensures key in Absorb(m, entries) <==> key in m
    ensures key in m ==> Absorb(m, entries)[key] == m[key]
    decreases |entries|
  {
    if entries != [] {
      assert !IsBlock(entries[0], key) && Readable(entries[0]);
      AbsorbMisses(Put(m, entries[0]), entries[1..], key);
    }
  }

  /** The configuration stored under a name is the one built from the last block with that name. */
  lemma {:induction false} AbsorbLatest(m: map<string, Configuration>, entries: seq<(Yaml, Yaml)>, key: string, j: int)
    requires AllReadable(entries)
    requires LatestBlockAt(entries, key, j)
    ensures Readable(entries[j]) && |entries[j].1.entries| > 0
    ensures key in Absorb(m, entries) && Absorb(m, entries)[key] == ConfigOf(entries[j].1.entries)
    decreases |entries|
  {
    assert Readable(entries[0]) && Readable(entries[j]);
    if j == 0 {
      AbsorbMisses(Put(m, entries[0]), entries[1..], key);
    } else {
      AbsorbLatest(Put(m, entries[0]), entries[1..], key, j - 1);
    }
  }

  /** A name ends up in the map exactly when it was there already or some entry is a block with that name. */
  lemma {:induction false} AbsorbKeys(m: map<string, Configuration>, entries: seq<(Yaml, Yaml)>, key: string)
    requires AllReadable(entries)
    ensures key in Absorb(m, entries) <==>
            key in m || exists j :: 0 <= j < |entries| && IsBlock(entries[j], key)
    decreases |entries|
  {
    if entries != [] {
      assert Readable(entries[0]);
      AbsorbKeys(Put(m, entries[0]), entries[1..], key);
      assert forall j :: 1 <= j < |entries| ==> entries[j] == entries[1..][j - 1];
      if exists l :: 0 <= l < |entries[1..]| && IsBlock(entries[1..][l], key) {
        var l :| 0 <= l < |entries[1..]| && IsBlock(entries[1..][l], key);
        assert IsBlock(entries[l + 1], key);
      }
    }
  }

  // ---------------------------------------------------------------------------
  // The document fold

  /** The entries of the hash documents of `docs`, in document order. */
  function Flatten(docs: seq<Yaml>): seq<(Yaml, Yaml)> {
    if docs == [] then []
    else (if docs[0].Hash? then docs[0].entries else []) + Flatten(docs[1..])
  }

  /** The load fails exactly when some top-level document is not a hash, wherever it stands. */
  lemma {:induction false} LoadFromFails(m: map<string, Configuration>, docs: seq<Yaml>)
    requires NoPanic(docs)
    ensures LoadFrom(m, docs).Err? <==> exists i :: 0 <= i < |docs| && !docs[i].Hash?
    decreases |docs|
  {
    if docs != [] && docs[0].Hash? {
      LoadFromFails(Absorb(m, docs[0].entries), docs[1..]);
      assert forall i :: 1 <= i < |docs| ==> docs[i] == docs[1..][i - 1];
      if exists i :: 0 <= i < |docs[1..]| && !docs[1..][i].Hash? {
        var i :| 0 <= i < |docs[1..]| && !docs[1..][i].Hash?;
        assert !docs[i + 1].Hash?;
      }
    }
  }

  /**
   * `from_file` after parsing: an empty list gives an empty map, and the
   * result is the NoYamlHash error exactly when some top-level document is
   * not a hash, even if hash documents come before it.
   */
  lemma LoadFails(docs: seq<Yaml>)
    requires NoPanic(docs)
    ensures docs == [] ==> Load(docs) == Ok(map[])
    ensures Load(docs) == Err(NoYamlHash) <==> exists i :: 0 <= i < |docs| && !docs[i].Hash?
  {
    LoadFromFails(map[], docs);
    if Load(docs).Err? {
      assert Load(docs).error == NoYamlHash;
    }
  }

  /** When every document is a hash, the load processes all their entries in order as one run. */
  lemma {:induction false} LoadFromFlattens(m: map<string, Configuration>, docs: seq<Yaml>)
    requires NoPanic(docs)
    requires forall i :: 0 <= i < |docs| ==> docs[i].Hash?
    ensures AllReadable(Flatten(docs))
    ensures LoadFrom(m, docs) == Ok(Absorb(m, Flatten(docs)))
    decreases |docs|
  {
    if docs != [] {
      assert docs[0].Hash?;
      assert forall i :: 0 <= i < |docs[1..]| ==> docs[1..][i] == docs[i + 1];
      LoadFromFlattens(Absorb(m, docs[0].entries), docs[1..]);
      AbsorbAppend(m, docs[0].entries, Flatten(docs[1..]));
    }
  }

  /** A successful load saw only hash documents, and its map is the fold of all their entries. */
  lemma LoadSucceeds(docs: seq<Yaml>, m: map<string, Configuration>)
    requires NoPanic(docs)
    requires Load(docs) == Ok(m)
    ensures forall i :: 0 <= i < |docs| ==> docs[i].Hash?
    ensures AllReadable(Flatten(docs))
    ensures m == Absorb(map[], Flatten(docs))
  {
    LoadFromFails(map[], docs);
    LoadFromFlattens(map[], docs);
  }

  /**
   * The names of a successful load are the rendered keys of the top-level
   * entries whose value is a hash; entries with any other value are skipped.
   */
  lemma LoadKeys(docs: seq<Yaml>, m: map<string, Configuration>, key: string)
    requires NoPanic(docs)
    requires Load(docs) == Ok(m)
    ensures key in m <==> exists j :: 0 <= j < |Flatten(docs)| && IsBlock(Flatten(docs)[j], key)
  {
    LoadSucceeds(docs, m);
    AbsorbKeys(map[], Flatten(docs), key);
  }

  /**
   * Each configuration of a successful load comes from the last block with
   * its name: its string fields are what `get_string` finds under the
   * matching field names in the value of that block's first inner entry, and
   * its database number and port are the fixed 1 and 1234.
   */
  lemma LoadedConfiguration(docs: seq<Yaml>, m: map<string, Configuration>, key: string)
    requires NoPanic(docs)
    requires Load(docs) == Ok(m)
    requires key in m
    ensures exists j :: LatestBlockAt(Flatten(docs), key, j) && |Flatten(docs)[j].1.entries| > 0 &&
              (var source := Flatten(docs)[j].1.entries[0].1;
               m[key].runner == Lookup(source, "_runner") &&
               m[key].database == Lookup(source, "database") &&
               m[key].index == Lookup(source, "index") &&
               m[key].databaseNumber == Some(1) &&
               m[key].ipOrHostname == Lookup(source, "ip_or_hostname") &&
               m[key].port == Some(1234) &&
               m[key].username == Lookup(source, "username") &&
               m[key].password == Lookup(source, "password"))
  {
    LoadSucceeds(docs, m);
    var f := Flatten(docs);
    LoadKeys(docs, m, key);
    var j0 :| 0 <= j0 < |f| && IsBlock(f[j0], key);
    var j := LatestBlock(f, key, j0);
    AbsorbLatest(map[], f, key, j);
  }

  /** Some block named `key` is the last one: the index of the last block at or after `j0`. */
  lemma {:induction false} LatestBlock(entries: seq<(Yaml, Yaml)>, key: string, j0: int) returns (j: int)
    requires 0 <= j0 < |entries| && IsBlock(entries[j0], key)
    ensures j0 <= j && LatestBlockAt(entries, key, j)
    decreases |entries| - j0
  {
    if l :| j0 < l < |entries| && IsBlock(entries[l], key) {
      j := LatestBlock(entries, key, l);
    } else {
      j := j0;
    }
  }
}

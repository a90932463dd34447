/**
  A chat widget's response table: the entries of its response object in
  declaration order (the order `Object.entries` lists them), keyed by the
  key phrase, with one entry under `'default'`.
 */
module ResponseTables {

  type Table = seq<(string, string)>

  const DefaultKey: string := "default"

  predicate HasKey(table: Table, key: string) {
    exists i :: 0 <= i < |table| && table[i].0 == key
  }

  /** An object literal cannot repeat a key. */
  predicate UniqueKeys(table: Table) {
    forall i, j :: 0 <= i < j < |table| ==> table[i].0 != table[j].0
  }

  /** `responses[key]` for a key the table holds. */
  function Lookup(table: Table, key: string): (r: string)
    requires HasKey(table, key)
    ensures exists i :: 0 <= i < |table| && table[i] == (key, r)
    ensures UniqueKeys(table) ==> forall i :: 0 <= i < |table| && table[i].0 == key ==> table[i].1 == r
  {
    if table[0].0 == key then table[0].1
    else
      assert HasKey(table[1..], key) by {
        var i :| 0 <= i < |table| && table[i].0 == key;
        assert table[1..][i - 1].0 == key;
      }
      var r := Lookup(table[1..], key);
      assert UniqueKeys(table) ==> UniqueKeys(table[1..]) by {
        if UniqueKeys(table) {
          forall i, j | 0 <= i < j < |table[1..]| ensures table[1..][i].0 != table[1..][j].0 {
            assert table[i + 1].0 != table[j + 1].0;
          }
        }
      }
      r
  }

  /** `s` is one of the table's responses. */
  predicate IsResponse(table: Table, s: string) {
    exists i :: 0 <= i < |table| && table[i].1 == s
  }
}

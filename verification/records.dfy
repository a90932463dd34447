/**
  The by-id operations the admin screens apply to their collections:
  `xs.map(x => x.id === id ? rec : x)`, `xs.filter(x => x.id !== id)` and
  `[...xs, rec]`, generic in the record type and its id field.
 */
module Records {
  import opened Seqs

  /** No two records share an id. */
  predicate UniqueKeys<T, K(==)>(xs: seq<T>, key: T -> K) {
    forall i, j :: 0 <= i < j < |xs| ==> key(xs[i]) != key(xs[j])
  }

  /** Some record has id `k`. */
  predicate HasKey<T, K(==)>(xs: seq<T>, key: T -> K, k: K) {
    exists i :: 0 <= i < |xs| && key(xs[i]) == k
  }

  /** Every record whose id is `k` is replaced by `rec`; the others stay where they are. */
  function ReplaceWhere<T, K(==)>(xs: seq<T>, key: T -> K, k: K, rec: T): (r: seq<T>)
    ensures |r| == |xs|
    ensures forall i :: 0 <= i < |xs| && key(xs[i]) != k ==> r[i] == xs[i]
    ensures forall i :: 0 <= i < |xs| && key(xs[i]) == k ==> r[i] == rec
  {
    seq(|xs|, i requires 0 <= i < |xs| => if key(xs[i]) == k then rec else xs[i])
  }

  /** With unique ids, replacing is an update at the one matching position,
      and ids stay unique when the new record keeps the id. */
  lemma ReplaceUnique<T, K>(xs: seq<T>, key: T -> K, j: nat, rec: T)
    requires UniqueKeys(xs, key)
    requires j < |xs| && key(rec) == key(xs[j])
    ensures ReplaceWhere(xs, key, key(xs[j]), rec) == xs[j := rec]
    ensures UniqueKeys(xs[j := rec], key)
  {
    var r := ReplaceWhere(xs, key, key(xs[j]), rec);
    forall i | 0 <= i < |xs|
      ensures r[i] == xs[j := rec][i]
    {
      if i != j {
        if i < j {
          assert key(xs[i]) != key(xs[j]);
        } else {
          assert key(xs[j]) != key(xs[i]);
        }
      }
    }
  }

  /** Replacing an id nobody has changes nothing. */
  lemma ReplaceMissing<T, K>(xs: seq<T>, key: T -> K, k: K, rec: T)
    requires !HasKey(xs, key, k)
    ensures ReplaceWhere(xs, key, k, rec) == xs
  {
  }

  function KeepOther<T, K(==)>(key: T -> K, k: K): T -> bool {
    x => key(x) != k
  }

  /** Every record whose id is `k` is dropped; the rest keep their order. */
  function RemoveWhere<T(==,!new), K(==)>(xs: seq<T>, key: T -> K, k: K): (r: seq<T>)
    ensures !HasKey(r, key, k)
    ensures IsSubsequence(r, xs)
    ensures forall x :: x in r <==> x in xs && key(x) != k
    ensures !HasKey(xs, key, k) ==> r == xs
  {
    var r := Filter(KeepOther(key, k), xs);
    FilterAllOrNone(KeepOther(key, k), xs);
    assert forall i :: 0 <= i < |r| ==> KeepOther(key, k)(r[i]);
    r
  }

  /** With unique ids, removing an id that is present takes out exactly the
      one record that has it. */
  lemma RemoveUnique<T(!new), K>(xs: seq<T>, key: T -> K, j: nat)
    requires UniqueKeys(xs, key)
    requires j < |xs|
    ensures RemoveWhere(xs, key, key(xs[j])) == xs[..j] + xs[j + 1..]
    ensures |RemoveWhere(xs, key, key(xs[j]))| == |xs| - 1
  {
    var p := KeepOther(key, key(xs[j]));
    forall i | 0 <= i < |xs| && i != j ensures p(xs[i]) {
      if i < j {
        assert key(xs[i]) != key(xs[j]);
      } else {
        assert key(xs[j]) != key(xs[i]);
      }
    }
    FilterDropsOne(p, xs, j);
  }

  /** A subsequence of records with unique ids has unique ids. */
  lemma {:induction false} SubsequenceUnique<T, K>(a: seq<T>, b: seq<T>, key: T -> K)
    requires IsSubsequence(a, b)
    requires UniqueKeys(b, key)
    ensures UniqueKeys(a, key)
    ensures forall i :: 0 <= i < |a| ==> HasKey(b, key, key(a[i]))
    decreases |b|
  {
    if |a| > 0 {
      assert UniqueKeys(b[1..], key) by {
        forall i, j | 0 <= i < j < |b[1..]| ensures key(b[1..][i]) != key(b[1..][j]) {
          assert key(b[i + 1]) != key(b[j + 1]);
        }
      }
      if a[0] == b[0] && IsSubsequence(a[1..], b[1..]) {
        SubsequenceUnique(a[1..], b[1..], key);
        forall i | 0 <= i < |a| ensures HasKey(b, key, key(a[i])) {
          if i == 0 {
            assert key(b[0]) == key(a[0]);
          } else {
            assert HasKey(b[1..], key, key(a[1..][i - 1]));
            var m :| 0 <= m < |b[1..]| && key(b[1..][m]) == key(a[i]);
            assert key(b[m + 1]) == key(a[i]);
          }
        }
        forall i, j | 0 <= i < j < |a| ensures key(a[i]) != key(a[j]) {
          if i == 0 {
            assert HasKey(b[1..], key, key(a[1..][j - 1]));
            var m :| 0 <= m < |b[1..]| && key(b[1..][m]) == key(a[j]);
            assert key(b[0]) != key(b[m + 1]);
          } else {
            assert key(a[1..][i - 1]) != key(a[1..][j - 1]);
          }
        }
      } else {
        SubsequenceUnique(a, b[1..], key);
        forall i | 0 <= i < |a| ensures HasKey(b, key, key(a[i])) {
          assert HasKey(b[1..], key, key(a[i]));
          var m :| 0 <= m < |b[1..]| && key(b[1..][m]) == key(a[i]);
          assert key(b[m + 1]) == key(a[i]);
        }
      }
    }
  }

  /** Removing by id keeps ids unique. */
  lemma RemoveKeepsUnique<T(!new), K>(xs: seq<T>, key: T -> K, k: K)
    requires UniqueKeys(xs, key)
    ensures UniqueKeys(RemoveWhere(xs, key, k), key)
  {
    SubsequenceUnique(RemoveWhere(xs, key, k), xs, key);
  }

  /** Appending a record with a fresh id keeps ids unique, and the new id is then present. */
  lemma AppendFresh<T, K>(xs: seq<T>, key: T -> K, rec: T)
    requires UniqueKeys(xs, key)
    requires !HasKey(xs, key, key(rec))
    ensures UniqueKeys(xs + [rec], key)
    ensures HasKey(xs + [rec], key, key(rec))
  {
    var ys := xs + [rec];
    assert key(ys[|xs|]) == key(rec);
    forall i, j | 0 <= i < j < |ys| ensures key(ys[i]) != key(ys[j]) {
      if j == |xs| {
        assert key(xs[i]) != key(rec);
      }
    }
  }
}

/**
 * The `edu.grinnell.csc207.util.AssociativeArray<String, V>` that both classes
 * store their data in. Its source is not part of this model, so its behaviour
 * is ASSUMED here, as the callers use it:
 *   - the array is a sequence of key/value pairs, searched linearly by key;
 *   - `set(k, v)` overwrites the value in place when `k` is present and
 *     appends `(k, v)` otherwise;
 *   - `keys()` lists the keys in sequence order;
 *   - `get(k)` on a missing key fails (`KeyNotFoundException`), here `None`;
 *   - `hasKey(k)` tells whether `k` is present;
 *   - only a `null` key is rejected by `set` (`NullKeyException`); callers
 *     model that case themselves.
 */
module AssociativeArray {
  import opened Wrappers
  import opened Sequences

  type Entries<V> = seq<(string, V)>

  /** The keys, in sequence order (`keys()`): one per entry, and exactly the keys of the entries. */
  function Keys<V>(s: Entries<V>): (r: seq<string>)
    ensures |r| == |s|
  {
    var r := seq(|s|, i requires 0 <= i < |s| => s[i].0);
    assert forall i | 0 <= i < |s| :: r[i] == s[i].0;
    r
  }

  /** No key occurs twice: the invariant `set` keeps. */
  predicate DistinctKeys<V>(s: Entries<V>)
  {
    forall i, j :: 0 <= i < j < |s| ==> s[i].0 != s[j].0
  }

  /** `hasKey(k)`. */
  function HasKey<V>(s: Entries<V>, k: string): (r: bool)
    ensures r <==> k in Keys(s)
    ensures r <==> exists i :: 0 <= i < |s| && s[i].0 == k
  {
    assert forall i :: 0 <= i < |s| ==> Keys(s)[i] == s[i].0;
    IndexOf(Keys(s), k) >= 0
  }

  /** `get(k)`; `None` where the array throws `KeyNotFoundException`. */
  function Get<V>(s: Entries<V>, k: string): (r: Option<V>)
    ensures r.Some? <==> k in Keys(s)
    ensures r.Some? ==> (k, r.value) in s
  {
    var i := IndexOf(Keys(s), k);
    if i < 0 then None else Some(s[i].1)
  }

  /**
   * `set(k, v)` for a non-null key: overwrite in place, or append. The
   * result holds `(k, v)` and grows only for a new key.
   */
  function Set<V>(s: Entries<V>, k: string, v: V): (r: Entries<V>)
    ensures |r| == if k in Keys(s) then |s| else |s| + 1
    ensures (k, v) in r
  {
    var i := IndexOf(Keys(s), k);
    if i < 0 then s + [(k, v)]
    else
      assert s[i := (k, v)][i] == (k, v);
      s[i := (k, v)]
  }

  /** With distinct keys, the value `get` finds is the one stored beside the key. */
  lemma GetAt<V>(s: Entries<V>, i: int)
    requires DistinctKeys(s) && 0 <= i < |s|
    ensures Get(s, s[i].0) == Some(s[i].1)
  {
    forall x | 0 <= x < i ensures Keys(s)[..i][x] != s[i].0 {
      assert Keys(s)[x] == s[x].0;
    }
    IndexOfUnique(Keys(s), s[i].0, i);
  }

  /** `set` leaves the key order alone when the key is present and appends it otherwise. */
  lemma SetKeys<V>(s: Entries<V>, k: string, v: V)
    ensures Keys(Set(s, k, v)) == if k in Keys(s) then Keys(s) else Keys(s) + [k]
  {
  }

  /** `set(k, v)` writes only `(k, v)`: every other entry is one that was already at that position. */
  lemma SetEntries<V>(s: Entries<V>, k: string, v: V)
    ensures forall j | 0 <= j < |Set(s, k, v)| :: Set(s, k, v)[j] == (k, v) || (j < |s| && Set(s, k, v)[j] == s[j])
  {
  }

  /** `set` keeps keys distinct. */
  lemma SetDistinct<V>(s: Entries<V>, k: string, v: V)
    requires DistinctKeys(s)
    ensures DistinctKeys(Set(s, k, v))
  {
    var i := IndexOf(Keys(s), k);
    if i < 0 {
      forall j | 0 <= j < |s| ensures s[j].0 != k {
        assert Keys(s)[j] == s[j].0;
      }
    }
  }

  /** Last write wins: after `set(k, v)`, `get(k)` gives `v`. */
  lemma GetSetSame<V>(s: Entries<V>, k: string, v: V)
    ensures Get(Set(s, k, v), k) == Some(v)
  {
    var i := IndexOf(Keys(s), k);
    var t := Set(s, k, v);
    if i < 0 {
      assert Keys(t)[..|s|] == Keys(s);
      IndexOfUnique(Keys(t), k, |s|);
    } else {
      assert Keys(t)[..i] == Keys(s)[..i];
      IndexOfUnique(Keys(t), k, i);
    }
  }

  /** `set(k, v)` changes nothing that `get` finds under another key. */
  lemma GetSetOther<V>(s: Entries<V>, k: string, k': string, v: V)
    requires k' != k
    ensures Get(Set(s, k, v), k') == Get(s, k')
  {
    var i := IndexOf(Keys(s), k);
    var t := Set(s, k, v);
    var a := IndexOf(Keys(s), k');
    assert forall x | 0 <= x < |s| :: Keys(t)[x] == (if x == i then k else Keys(s)[x]);
    if a >= 0 {
      forall x | 0 <= x < a ensures Keys(t)[x] != k' {
        assert Keys(s)[..a][x] == Keys(s)[x];
      }
      IndexOfUnique(Keys(t), k', a);
    } else {
      assert i < 0 ==> Keys(t) == Keys(s) + [k];
      assert k' !in Keys(t);
    }
  }
}

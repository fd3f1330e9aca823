/** The per-run state carrier (ParseContext.java): an identity-keyed map from
    keys to arbitrary values. A key is an object identity, modelled as a
    handle; equal handles are the same object. */
module ParseContexts {
  import opened Options

  type Key = nat

  datatype Context<V> = Context(entries: map<Key, V>)

  /** A fresh context holds nothing. */
  function Empty<V>(): (c: Context<V>)
    ensures forall k: Key :: Get(c, k) == None
  {
    Context(map[])
  }

  /** `get` (ParseContext.java:35-37): None is the null of a missing key. */
  function Get<V>(c: Context<V>, k: Key): (r: Option<V>)
    ensures r.Some? <==> k in c.entries
  {
    if k in c.entries then Some(c.entries[k]) else None
  }

  /** `put` (ParseContext.java:40-42): stores `v` under `k` and returns the
      value `k` held before, or None. */
  function Put<V>(c: Context<V>, k: Key, v: V): (r: (Context<V>, Option<V>))
    ensures Get(r.0, k) == Some(v)
    ensures r.1 == Get(c, k)
    ensures forall other: Key :: other != k ==> Get(r.0, other) == Get(c, other)
  {
    (Context(c.entries[k := v]), Get(c, k))
  }

  /** `remove` (ParseContext.java:45-47): drops `k` and returns the value it
      held, or None. */
  function Remove<V>(c: Context<V>, k: Key): (r: (Context<V>, Option<V>))
    ensures Get(r.0, k) == None
    ensures r.1 == Get(c, k)
    ensures forall other: Key :: other != k ==> Get(r.0, other) == Get(c, other)
  {
    (Context(c.entries - {k}), Get(c, k))
  }

  /** Putting back what `remove` returned restores the context. */
  lemma RemoveThenPutRestores<V>(c: Context<V>, k: Key)
    requires k in c.entries
    ensures Put(Remove(c, k).0, k, Remove(c, k).1.value).0 == c
  {
    assert Put(Remove(c, k).0, k, Remove(c, k).1.value).0.entries == c.entries;
  }

  /** A second `put` under the same key returns the first value and leaves
      only the second. */
  lemma PutPut<V>(c: Context<V>, k: Key, v1: V, v2: V)
    ensures Put(Put(c, k, v1).0, k, v2).1 == Some(v1)
    ensures Put(Put(c, k, v1).0, k, v2).0 == Put(c, k, v2).0
  {
  }
}

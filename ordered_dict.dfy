/** Python's insertion-ordered `dict` as the encoder uses it: string keys, integer
    values, and assignment that overwrites a present key in its first position and
    appends a new one. */
module OrderedDict {
  import opened Sequences

  datatype Entry = Entry(key: string, bit: int)

  function Keys(d: seq<Entry>): seq<string> {
    seq(|d|, i requires 0 <= i < |d| => d[i].key)
  }

  /** Position of the first occurrence of `k`. */
  function IndexOf(ks: seq<string>, k: string): (i: nat)
    requires k in ks
    ensures i < |ks| && ks[i] == k && k !in ks[..i]
  {
    if ks[0] == k then 0
    else
      var i' := IndexOf(ks[1..], k);
      assert ks[..i' + 1] == [ks[0]] + ks[1..][..i'];
      i' + 1
  }

  /** `d[e.key] = e.bit`. */
  function Put(d: seq<Entry>, e: Entry): seq<Entry> {
    if e.key in Keys(d) then d[IndexOf(Keys(d), e.key) := e] else d + [e]
  }

  /** Assigns the entries of `es` one after the other, as `dict.update` and a loop of
      assignments do. */
  function PutAll(d: seq<Entry>, es: seq<Entry>): seq<Entry>
    decreases |es|
  {
    if es == [] then d else PutAll(Put(d, es[0]), es[1..])
  }

  /** `d[key]`, or 0 when the key is absent (never the case for the rows the encoder frames). */
  function Lookup(d: seq<Entry>, key: string): int {
    if d == [] then 0
    else if d[0].key == key then d[0].bit
    else Lookup(d[1..], key)
  }

  /** An assignment adds its key at the end when it is new and leaves the key list alone otherwise. */
  lemma PutKeys(d: seq<Entry>, e: Entry)
    ensures Keys(Put(d, e)) == if e.key in Keys(d) then Keys(d) else Keys(d) + [e.key]
  {
    if e.key in Keys(d) {
      var i := IndexOf(Keys(d), e.key);
      assert Keys(d[i := e]) == Keys(d);
    } else {
      assert Keys(d + [e]) == Keys(d) + [e.key];
    }
  }

  /** The keys after a run of assignments are the old keys followed by the new ones in
      order of first assignment. */
  lemma {:induction false} PutAllKeys(d: seq<Entry>, es: seq<Entry>)
    ensures Keys(PutAll(d, es)) == AddNew(Keys(d), Keys(es))
    decreases |es|
  {
    if es != [] {
      PutKeys(d, es[0]);
      PutAllKeys(Put(d, es[0]), es[1..]);
      assert Keys(es)[0] == es[0].key && Keys(es)[1..] == Keys(es[1..]);
    }
  }

  /** Assigning `a` and then `b` is assigning `a + b`. */
  lemma {:induction false} PutAllAppend(d: seq<Entry>, a: seq<Entry>, b: seq<Entry>)
    ensures PutAll(PutAll(d, a), b) == PutAll(d, a + b)
    decreases |a|
  {
    if a == [] {
      assert a + b == b;
    } else {
      PutAllAppend(Put(d, a[0]), a[1..], b);
      assert (a + b)[0] == a[0] && (a + b)[1..] == a[1..] + b;
    }
  }

  /** When no key repeats, the assignments simply append their entries. */
  lemma {:induction false} PutAllFresh(d: seq<Entry>, es: seq<Entry>)
    requires Distinct(Keys(d) + Keys(es))
    ensures PutAll(d, es) == d + es
    decreases |es|
  {
    if es == [] {
      assert d + es == d;
    } else {
      var n := |Keys(d)|;
      assert (Keys(d) + Keys(es))[n] == es[0].key;
      forall i | 0 <= i < n ensures Keys(d)[i] != es[0].key {
        assert (Keys(d) + Keys(es))[i] == Keys(d)[i];
      }
      var d' := d + [es[0]];
      assert Keys(d') + Keys(es[1..]) == Keys(d) + Keys(es);
      PutAllFresh(d', es[1..]);
      assert d' + es[1..] == d + es;
    }
  }

  /** In a dict without repeated keys, looking up the key of position `k` finds that entry's value. */
  lemma {:induction false} LookupAt(d: seq<Entry>, k: nat)
    requires Distinct(Keys(d)) && k < |d|
    ensures Lookup(d, d[k].key) == d[k].bit
    decreases k
  {
    if k > 0 {
      assert Keys(d)[0] != Keys(d)[k];
      assert Keys(d[1..]) == Keys(d)[1..];
      LookupAt(d[1..], k - 1);
    }
  }
}

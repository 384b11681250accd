/** The hash table of the PF buffer pool (pf_hashtable.cc): doubly linked buckets that together hold a
    map from pages to buffer slots. */
module PfHash {

  /** A page of an open file. */
  datatype Key = Key(fd: nat, page: nat)

  datatype HashRc = HashOk | HashNotFound | HashPageExist

  class HashEntry {
    const key: Key
    const slot: nat
    var next: HashEntry?
    var prev: HashEntry?

    constructor (k: Key, s: nat, n: HashEntry?)
      ensures key == k && slot == s && next == n && prev == null
    {
      key, slot, next, prev := k, s, n, null;
    }
  }

  function Hash(k: Key, buckets: nat): (b: nat)
    requires buckets > 0
    ensures b < buckets
  {
    (k.fd + k.page) % buckets
  }

  // ----- which entries there are

  ghost predicate Has(c: seq<HashEntry>, k: Key) {
    exists i :: 0 <= i < |c| && c[i].key == k
  }

  ghost predicate DistinctKeys(c: seq<HashEntry>) {
    forall i, j :: 0 <= i < j < |c| ==> c[i].key != c[j].key
  }

  /** A chain of entries of the map, all in the bucket their keys hash to. */
  ghost predicate Bucket(c: seq<HashEntry>, b: nat, buckets: nat, contents: map<Key, nat>)
    requires buckets > 0
  {
    DistinctKeys(c) &&
    forall i :: 0 <= i < |c| ==>
      Hash(c[i].key, buckets) == b && c[i].key in contents && contents[c[i].key] == c[i].slot
  }

  /** The chains hold exactly the entries of contents. */
  ghost predicate Indexed(chains: seq<seq<HashEntry>>, buckets: nat, contents: map<Key, nat>) {
    buckets > 0 && |chains| == buckets &&
    (forall b :: 0 <= b < buckets ==> Bucket(chains[b], b, buckets, contents)) &&
    (forall k :: k in contents ==> Has(chains[Hash(k, buckets)], k))
  }

  lemma IndexedFind(chains: seq<seq<HashEntry>>, buckets: nat, contents: map<Key, nat>, k: Key)
    requires Indexed(chains, buckets, contents)
    ensures |chains| == buckets > 0
    ensures Has(chains[Hash(k, buckets)], k) <==> k in contents
    ensures Bucket(chains[Hash(k, buckets)], Hash(k, buckets), buckets, contents)
  {}

  lemma IndexedSize(chains: seq<seq<HashEntry>>, buckets: nat, contents: map<Key, nat>)
    requires Indexed(chains, buckets, contents)
    ensures |chains| == buckets
  {}

  lemma IndexedPush(chains: seq<seq<HashEntry>>, buckets: nat, contents: map<Key, nat>, e: HashEntry)
    requires Indexed(chains, buckets, contents) && e.key !in contents
    ensures var b := Hash(e.key, buckets);
            Indexed(chains[b := [e] + chains[b]], buckets, contents[e.key := e.slot])
  {
    var b := Hash(e.key, buckets);
    var r := chains[b := [e] + chains[b]];
    forall k | k in contents[e.key := e.slot] ensures Has(r[Hash(k, buckets)], k) {
      if k == e.key {
        assert r[b][0].key == k;
      } else if Hash(k, buckets) == b {
        var j :| 0 <= j < |chains[b]| && chains[b][j].key == k;
        assert r[b][j + 1].key == k;
      } else {
        assert r[Hash(k, buckets)] == chains[Hash(k, buckets)];
      }
    }
    forall c | 0 <= c < buckets ensures Bucket(r[c], c, buckets, contents[e.key := e.slot]) {
      assert Bucket(chains[c], c, buckets, contents);
    }
  }

  lemma BucketRemove(c: seq<HashEntry>, b: nat, buckets: nat, contents: map<Key, nat>, i: nat)
    requires buckets > 0 && Bucket(c, b, buckets, contents) && i < |c|
    ensures Bucket(c[..i] + c[i + 1..], b, buckets, contents - {c[i].key})
    ensures forall q :: q != c[i].key && Has(c, q) ==> Has(c[..i] + c[i + 1..], q)
  {
    var r := c[..i] + c[i + 1..];
    forall q | q != c[i].key && Has(c, q) ensures Has(r, q) {
      var j :| 0 <= j < |c| && c[j].key == q;
      assert r[if j < i then j else j - 1].key == q;
    }
  }

  lemma IndexedRemove(chains: seq<seq<HashEntry>>, buckets: nat, contents: map<Key, nat>, k: Key, i: nat)
    requires Indexed(chains, buckets, contents)
    requires i < |chains[Hash(k, buckets)]| && chains[Hash(k, buckets)][i].key == k
    ensures var b := Hash(k, buckets);
            Indexed(chains[b := chains[b][..i] + chains[b][i + 1..]], buckets, contents - {k})
  {
    hide Has, Hash;
    var b := Hash(k, buckets);
    var c := chains[b];
    var r := chains[b := c[..i] + c[i + 1..]];
    assert Bucket(c, b, buckets, contents);
    BucketRemove(c, b, buckets, contents, i);
    forall q | q in contents && q != k ensures Has(r[Hash(q, buckets)], q) {
      assert Has(chains[Hash(q, buckets)], q);
    }
    forall d | 0 <= d < buckets ensures Bucket(r[d], d, buckets, contents - {k}) {
      assert Bucket(chains[d], d, buckets, contents);
    }
  }

  /** No entry is in two places. */
  lemma IndexedApart(chains: seq<seq<HashEntry>>, buckets: nat, contents: map<Key, nat>, b: nat, i: nat)
    requires Indexed(chains, buckets, contents) && b < buckets && i < |chains[b]|
    ensures forall d :: 0 <= d < buckets && d != b ==> chains[b][i] !in chains[d]
    ensures forall j :: 0 <= j < |chains[b]| && j != i ==> chains[b][j] != chains[b][i]
  {
    assert Bucket(chains[b], b, buckets, contents);
    forall d | 0 <= d < buckets && d != b ensures chains[b][i] !in chains[d] {
      assert Bucket(chains[d], d, buckets, contents);
    }
  }

  // ----- how they are linked

  /** The entry at position i of a chain, or null beyond its ends. */
  ghost function Nth(c: seq<HashEntry>, i: int): HashEntry? {
    if 0 <= i < |c| then c[i] else null
  }

  ghost predicate Chained(head: HashEntry?, c: seq<HashEntry>)
    reads c
  {
    head == Nth(c, 0) && forall i :: 0 <= i < |c| ==> c[i].next == Nth(c, i + 1) && c[i].prev == Nth(c, i - 1)
  }

  ghost predicate Linked(heads: seq<HashEntry?>, chains: seq<seq<HashEntry>>, entries: set<HashEntry>)
    reads entries
  {
    |heads| == |chains| &&
    forall b :: 0 <= b < |chains| ==>
      (forall i :: 0 <= i < |chains[b]| ==> chains[b][i] in entries) && Chained(heads[b], chains[b])
  }

  lemma LinkedAt(heads: seq<HashEntry?>, chains: seq<seq<HashEntry>>, entries: set<HashEntry>, b: nat)
    requires Linked(heads, chains, entries) && b < |chains|
    ensures |heads| == |chains| && Others(heads, chains, entries, b) && Chained(heads[b], chains[b]) && forall i :: 0 <= i < |chains[b]| ==> chains[b][i] in entries
  {}

  /** Buckets other than b are chained. */
  ghost predicate Others(heads: seq<HashEntry?>, chains: seq<seq<HashEntry>>, entries: set<HashEntry>, b: nat)
    reads entries
  {
    |heads| == |chains| &&
    forall d :: 0 <= d < |chains| && d != b ==>
      (forall i :: 0 <= i < |chains[d]| ==> chains[d][i] in entries) && Chained(heads[d], chains[d])
  }

  lemma LinkedSwap(heads: seq<HashEntry?>, chains: seq<seq<HashEntry>>, entries: set<HashEntry>, b: nat,
                   head: HashEntry?, c: seq<HashEntry>, all: set<HashEntry>)
    requires Others(heads, chains, entries, b) && b < |chains|
    requires Chained(head, c) && entries <= all && forall i :: 0 <= i < |c| ==> c[i] in all
    ensures Linked(heads[b := head], chains[b := c], all)
  {}

  /** The neighbours of entry i point past it. */
  lemma ChainedRemove(head: HashEntry?, c: seq<HashEntry>, i: nat)
    requires i < |c| && head == Nth(c, if i == 0 then 1 else 0)
    requires forall j :: 0 <= j < |c| && j != i && j != i - 1 ==> c[j].next == Nth(c, j + 1)
    requires forall j :: 0 <= j < |c| && j != i && j != i + 1 ==> c[j].prev == Nth(c, j - 1)
    requires i > 0 ==> c[i - 1].next == Nth(c, i + 1)
    requires i + 1 < |c| ==> c[i + 1].prev == Nth(c, i - 1)
    ensures Chained(head, c[..i] + c[i + 1..])
  {
    hide Nth;
    var r := c[..i] + c[i + 1..];
    NthRemove(c, i, 0);
    forall j | 0 <= j < |r| ensures r[j].next == Nth(r, j + 1) && r[j].prev == Nth(r, j - 1) {
      NthRemove(c, i, j + 1);
      NthRemove(c, i, j - 1);
      var k := if j < i then j else j + 1;
      assert r[j] == c[k];
    }
  }

  lemma NthRemove(c: seq<HashEntry>, i: nat, j: int)
    requires i < |c|
    ensures Nth(c[..i] + c[i + 1..], j) == Nth(c, if j < i then j else j + 1)
  {}

  class HashTable {
    const numBuckets: nat
    const table: array<HashEntry?>
    ghost var chains: seq<seq<HashEntry>>
    ghost var entries: set<HashEntry>
    ghost var contents: map<Key, nat>

    ghost predicate Valid()
      reads this, table, entries
    {
      Indexed(chains, numBuckets, contents) && table.Length == numBuckets && Linked(table[..], chains, entries)
    }

    constructor (buckets: nat)
      requires buckets > 0
      ensures Valid() && contents == map[] && entries == {} && numBuckets == buckets && fresh(table)
    {
      numBuckets := buckets;
      table := new HashEntry?[buckets](_ => null);
      chains := seq(buckets, _ => []);
      entries, contents := {}, map[];
    }

    method Find(k: Key) returns (rc: HashRc, slot: nat)
      requires Valid()
      ensures rc == if k in contents then HashOk else HashNotFound
      ensures k in contents ==> slot == contents[k]
    {
      hide Indexed;
      IndexedFind(chains, numBuckets, contents, k);
      var bucket := Hash(k, numBuckets);
      ghost var c := chains[bucket];
      var entry := table[bucket];
      ghost var i := 0;
      LinkedAt(table[..], chains, entries, bucket);
      while entry != null
        invariant 0 <= i <= |c| && entry == Nth(c, i)
        invariant forall j :: 0 <= j < i ==> c[j].key != k
        decreases |c| - i
      {
        if entry.key == k {
          return HashOk, entry.slot;
        }
        entry := entry.next;
        i := i + 1;
      }
      rc, slot := HashNotFound, 0;
    }

    method Insert(k: Key, slot: nat) returns (rc: HashRc)
      requires Valid()
      modifies this, table, entries
      ensures Valid() && fresh(entries - old(entries))
      ensures rc == if k in old(contents) then HashPageExist else HashOk
      ensures contents == if k in old(contents) then old(contents) else old(contents)[k := slot]
    {
      hide Indexed;
      IndexedFind(chains, numBuckets, contents, k);
      var bucket := Hash(k, numBuckets);
      ghost var c := chains[bucket];
      var entry := table[bucket];
      ghost var i := 0;
      LinkedAt(table[..], chains, entries, bucket);
      while entry != null
        invariant 0 <= i <= |c| && entry == Nth(c, i)
        invariant forall j :: 0 <= j < i ==> c[j].key != k
        decreases |c| - i
      {
        if entry.key == k {
          return HashPageExist;
        }
        entry := entry.next;
        i := i + 1;
      }
      entry := new HashEntry(k, slot, table[bucket]);
      LinkFirst(bucket, entry);
      rc := HashOk;
    }

    /** Insert's last part: a new entry becomes the first of its bucket. */
    method LinkFirst(bucket: nat, entry: HashEntry)
      requires Valid() && entry.key !in contents && bucket == Hash(entry.key, numBuckets)
      requires entry.next == table[bucket] && entry.prev == null && entry !in entries
      modifies this, table, entries
      ensures Valid() && entries == old(entries) + {entry}
      ensures contents == old(contents)[entry.key := entry.slot]
    {
      hide Indexed, Hash, Linked;
      IndexedFind(chains, numBuckets, contents, entry.key);
      LinkedAt(table[..], chains, entries, bucket);
      IndexedPush(chains, numBuckets, contents, entry);
      ghost var heads, c := table[..], chains[bucket];
      if table[bucket] != null {
        IndexedApart(chains, numBuckets, contents, bucket, 0);
        table[bucket].prev := entry;
      }
      table[bucket] := entry;
      LinkedSwap(heads, chains, entries, bucket, entry, [entry] + c, entries + {entry});
      assert table[..] == heads[bucket := entry];
      chains := chains[bucket := [entry] + c];
      entries, contents := entries + {entry}, contents[entry.key := entry.slot];
    }

    method Delete(k: Key) returns (rc: HashRc)
      requires Valid()
      modifies this, table, entries
      ensures Valid() && entries == old(entries)
      ensures rc == if k in old(contents) then HashOk else HashNotFound
      ensures contents == old(contents) - {k}
    {
      hide Indexed;
      IndexedFind(chains, numBuckets, contents, k);
      var bucket := Hash(k, numBuckets);
      ghost var c := chains[bucket];
      var entry := table[bucket];
      ghost var i := 0;
      LinkedAt(table[..], chains, entries, bucket);
      while entry != null && entry.key != k
        invariant 0 <= i <= |c| && entry == Nth(c, i)
        invariant forall j :: 0 <= j < i ==> c[j].key != k
        decreases |c| - i
      {
        entry := entry.next;
        i := i + 1;
      }
      if entry == null {
        return HashNotFound;
      }
      IndexedRemove(chains, numBuckets, contents, k, i);
      Bypass(bucket, entry, i);
      chains := chains[bucket := c[..i] + c[i + 1..]];
      contents := contents - {k};
      rc := HashOk;
    }

    /** Delete's last part: the links lead past entry, which is at position i of its bucket. */
    method Bypass(bucket: nat, entry: HashEntry, ghost i: nat)
      requires Valid() && bucket < numBuckets && i < |chains[bucket]| && chains[bucket][i] == entry
      modifies table, entries
      ensures var c := chains[bucket];
              Linked(table[..], chains[bucket := c[..i] + c[i + 1..]], entries)
    {
      hide Indexed, Linked;
      IndexedSize(chains, numBuckets, contents);
      LinkedAt(table[..], chains, entries, bucket);
      ghost var heads, c := table[..], chains[bucket];
      IndexedApart(chains, numBuckets, contents, bucket, i);
      if i > 0 { IndexedApart(chains, numBuckets, contents, bucket, i - 1); }
      if i + 1 < |c| { IndexedApart(chains, numBuckets, contents, bucket, i + 1); }
      ghost var p, n := Nth(c, i - 1), Nth(c, i + 1);
      assert entry.prev == p && entry.next == n;
      if entry == table[bucket] {
        table[bucket] := entry.next;
      }
      if entry.prev != null {
        entry.prev.next := entry.next;
      }
      if entry.next != null {
        entry.next.prev := entry.prev;
      }
      assert Others(heads, chains, entries, bucket);
      ChainedRemove(table[bucket], c, i);
      LinkedSwap(heads, chains, entries, bucket, table[bucket], c[..i] + c[i + 1..], entries);
      assert table[..] == heads[bucket := table[bucket]];
    }
  }
}

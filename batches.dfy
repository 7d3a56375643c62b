/** The slicing the splitter uses to drain a work list in calls of at most
    fifty: `list.slice(0, 50)` is sent, `list.slice(50)` is kept. */
module Batches {

  /** Airtable takes at most fifty records per create or delete call. */
  const BATCH_SIZE: nat := 50

  /** `list.slice(0, n)`. */
  function Take<T>(s: seq<T>, n: nat): seq<T> {
    if |s| <= n then s else s[..n]
  }

  /** `list.slice(n)`: what is left, empty once the list is shorter than `n`. */
  function Drop<T>(s: seq<T>, n: nat): seq<T> {
    if |s| <= n then [] else s[n..]
  }

  /** The slice sent and the slice kept are the list, split in two. */
  lemma TakeDrop<T>(s: seq<T>, n: nat)
    ensures Take(s, n) + Drop(s, n) == s
  {
    if |s| > n {
      assert s == s[..n] + s[n..];
    }
  }

  /** The batches the drain loop sends, in order: slice off fifty until the
      list is empty. */
  function Chunks<T>(s: seq<T>): seq<seq<T>>
    decreases |s|
  {
    if s == [] then [] else [Take(s, BATCH_SIZE)] + Chunks(Drop(s, BATCH_SIZE))
  }

  /** Every batch holds between one and fifty items. */
  lemma {:induction false} ChunksBounded<T>(s: seq<T>)
    ensures forall k :: 0 <= k < |Chunks(s)| ==> 1 <= |Chunks(s)[k]| <= BATCH_SIZE
    decreases |s|
  {
    if s != [] {
      ChunksBounded(Drop(s, BATCH_SIZE));
    }
  }

  /** The batches, put back together, are the list: nothing is lost,
      repeated or reordered. */
  lemma {:induction false} ChunksFlatten<T>(s: seq<T>)
    ensures Flatten(Chunks(s)) == s
    decreases |s|
  {
    if s != [] {
      var rest := Chunks(Drop(s, BATCH_SIZE));
      ChunksFlatten(Drop(s, BATCH_SIZE));
      TakeDrop(s, BATCH_SIZE);
      assert ([Take(s, BATCH_SIZE)] + rest)[1..] == rest;
    }
  }

  function Flatten<T>(chunks: seq<seq<T>>): seq<T> {
    if chunks == [] then [] else chunks[0] + Flatten(chunks[1..])
  }

  /** Every batch but the last is full. */
  lemma {:induction false} ChunksFull<T>(s: seq<T>)
    ensures forall k :: 0 <= k < |Chunks(s)| - 1 ==> |Chunks(s)[k]| == BATCH_SIZE
    decreases |s|
  {
    if s != [] {
      var rest := Drop(s, BATCH_SIZE);
      ChunksFull(rest);
      if |s| <= BATCH_SIZE {
        assert Chunks(rest) == [];
      }
    }
  }

  /** The number of calls is the list length divided by fifty, rounded up. */
  lemma {:induction false} ChunksCount<T>(s: seq<T>)
    ensures |Chunks(s)| == (|s| + BATCH_SIZE - 1) / BATCH_SIZE
    decreases |s|
  {
    if s != [] {
      ChunksCount(Drop(s, BATCH_SIZE));
    }
  }

  /** A hundred and twenty items go out as 50, 50 and 20. */
  lemma ChunksOf120<T>(s: seq<T>)
    requires |s| == 120
    ensures |Chunks(s)| == 3
    ensures |Chunks(s)[0]| == 50 && |Chunks(s)[1]| == 50 && |Chunks(s)[2]| == 20
    ensures Chunks(s)[0] == s[..50] && Chunks(s)[1] == s[50..100] && Chunks(s)[2] == s[100..]
  {
    var s1 := Drop(s, BATCH_SIZE);
    var s2 := Drop(s1, BATCH_SIZE);
    assert s1 == s[50..] && s2 == s[100..];
    assert Chunks(s2) == [s2] + Chunks(Drop(s2, BATCH_SIZE));
    assert Drop(s2, BATCH_SIZE) == [];
    assert s1[..50] == s[50..100];
  }
}

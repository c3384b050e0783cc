/**
 * The loading half of the importer's `main`: the parsed records are cut into
 * consecutive batches of 100, each batch is handed to the collection's
 * `insert_many`, and the number of inserted records is summed up.
 */
module Loader {
  import opened Calendar
  import opened Adif

  /** `batch_size` in `main`. */
  const BatchSize: nat := 100

  /** The smaller of two numbers. */
  function Min(a: nat, b: nat): nat {
    if a < b then a else b
  }

  /** Python's `xs[lo:hi]` for `lo <= len(xs)`: a slice whose end is cut back to the length. */
  function Slice<T>(xs: seq<T>, lo: nat, hi: nat): (s: seq<T>)
    requires lo <= |xs|
    ensures |s| == if hi <= lo then 0 else Min(hi, |xs|) - lo
    ensures forall k :: 0 <= k < |s| ==> s[k] == xs[lo + k]
  {
    if hi <= lo then [] else xs[lo..Min(hi, |xs|)]
  }

  /**
   * `[xs[i:i + size] for i in range(0, len(xs), size)]`: the slices the loop of
   * `main` takes, front to back.
   */
  function Batches<T>(xs: seq<T>, size: nat): (bs: seq<seq<T>>)
    requires size > 0
    ensures forall k :: 0 <= k < |bs| ==> 0 < |bs[k]| <= size
    decreases |xs|
  {
    if xs == [] then []
    else
      var end := Min(size, |xs|);
      [xs[..end]] + Batches(xs[end..], size)
  }

  /** The batches laid end to end. */
  function Flatten<T>(bs: seq<seq<T>>): seq<T>
    decreases |bs|
  {
    if bs == [] then [] else bs[0] + Flatten(bs[1..])
  }

  // ---------------------------------------------------------------- batching laws

  /** Laying two runs of batches end to end is laying each, one after the other. */
  lemma {:induction false} FlattenAppend<T>(a: seq<seq<T>>, b: seq<seq<T>>)
    ensures Flatten(a + b) == Flatten(a) + Flatten(b)
    decreases |a|
  {
    if a == [] {
      assert a + b == b;
    } else {
      assert (a + b)[0] == a[0];
      assert (a + b)[1..] == a[1..] + b;
      FlattenAppend(a[1..], b);
    }
  }

  /** The batches together are the records, in order: none lost, none repeated. */
  lemma {:induction false} FlattenBatches<T>(xs: seq<T>, size: nat)
    requires size > 0
    ensures Flatten(Batches(xs, size)) == xs
    decreases |xs|
  {
    if xs != [] {
      var end := Min(size, |xs|);
      FlattenBatches(xs[end..], size);
      assert xs[..end] + xs[end..] == xs;
    }
  }

  /**
   * There are `ceil(len(xs) / size)` batches: just enough batches of `size` to
   * hold every record, and no empty one.
   */
  lemma {:induction false} BatchCount<T>(xs: seq<T>, size: nat)
    requires size > 0
    ensures (|Batches(xs, size)| - 1) * size < |xs| <= |Batches(xs, size)| * size
    decreases |xs|
  {
    if xs != [] {
      var end := Min(size, |xs|);
      var c := |Batches(xs[end..], size)|;
      BatchCount(xs[end..], size);
      assert |Batches(xs, size)| == c + 1;
      assert (c + 1) * size == c * size + size;
      if c == 0 {
        assert xs[end..] == [];
      }
    }
  }

  /** With batches of 100 the count is `(n + 99) // 100`. */
  lemma BatchCountHundred<T>(xs: seq<T>)
    ensures |Batches(xs, BatchSize)| == (|xs| + BatchSize - 1) / BatchSize
  {
    BatchCount(xs, BatchSize);
  }

  /** Batch `k` is `xs[k * size:(k + 1) * size]`, the slice the loop takes on its `k`-th pass. */
  lemma BatchAt<T>(xs: seq<T>, size: nat, k: nat)
    requires size > 0 && k < |Batches(xs, size)|
    ensures k * size < |xs|
    ensures Batches(xs, size)[k] == Slice(xs, k * size, (k + 1) * size)
  {
    BatchAtOffset(xs, size, k);
    OffsetIsProduct(k, size);
    OffsetIsProduct(k + 1, size);
  }

  /** Where batch `k` starts: `k` batches of `size` on. */
  function Offset(k: nat, size: nat): nat {
    if k == 0 then 0 else Offset(k - 1, size) + size
  }

  /** `k` batches of `size` are `k * size` records. */
  lemma {:induction false} OffsetIsProduct(k: nat, size: nat)
    ensures Offset(k, size) == k * size
  {
    if k > 0 {
      OffsetIsProduct(k - 1, size);
      assert k * size == (k - 1) * size + size;
    }
  }

  /** Batch `k` runs from `Offset(k, size)` to `Offset(k + 1, size)`, cut back to the length. */
  lemma {:induction false} BatchAtOffset<T>(xs: seq<T>, size: nat, k: nat)
    requires size > 0 && k < |Batches(xs, size)|
    ensures Offset(k, size) < |xs|
    ensures Batches(xs, size)[k] == Slice(xs, Offset(k, size), Offset(k + 1, size))
    decreases |xs|
  {
    BatchesFirst(xs, size);
    if k > 0 {
      var rest := xs[Min(size, |xs|)..];
      BatchAtOffset(rest, size, k - 1);
      assert Batches(xs, size)[k] == Batches(rest, size)[k - 1];
      SliceAfter(xs, size, Offset(k - 1, size), Offset(k, size));
    }
  }

  /** A non-empty run of records: its first batch, then the batches of the rest. */
  lemma BatchesFirst<T>(xs: seq<T>, size: nat)
    requires size > 0 && xs != []
    ensures Batches(xs, size) == [xs[..Min(size, |xs|)]] + Batches(xs[Min(size, |xs|)..], size)
  {
  }

  /** A slice of what follows the first `size` records is the slice `size` further on. */
  lemma SliceAfter<T>(xs: seq<T>, size: nat, lo: nat, hi: nat)
    requires size <= |xs| && lo <= |xs| - size
    ensures Slice(xs[size..], lo, hi) == Slice(xs, lo + size, hi + size)
  {
    if lo < hi {
      assert xs[size..][lo..Min(hi, |xs| - size)] == xs[lo + size..Min(hi + size, |xs|)];
    }
  }

  /** Every batch but the last holds exactly `size` records. */
  lemma BatchesFull<T>(xs: seq<T>, size: nat, k: nat)
    requires size > 0 && k + 1 < |Batches(xs, size)|
    ensures |Batches(xs, size)[k]| == size
  {
    BatchAt(xs, size, k + 1);
    BatchAt(xs, size, k);
    assert (k + 1) * size == k * size + size;
  }

  /** 250 records go in batches of 100, 100 and 50. */
  lemma TwoHundredFifty<T>(xs: seq<T>)
    requires |xs| == 250
    ensures |Batches(xs, BatchSize)| == 3
    ensures |Batches(xs, BatchSize)[0]| == 100
    ensures |Batches(xs, BatchSize)[1]| == 100
    ensures |Batches(xs, BatchSize)[2]| == 50
  {
    BatchCountHundred(xs);
    BatchAt(xs, BatchSize, 0);
    BatchAt(xs, BatchSize, 1);
    BatchAt(xs, BatchSize, 2);
  }

  // ---------------------------------------------------------------- the store

  /** The `qso` collection, seen only through what `insert_many` has been given. */
  class Collection {
    /** The batches inserted so far, oldest first. */
    var batches: seq<seq<Doc>>

    /** An empty collection. */
    constructor ()
      ensures batches == []
    {
      batches := [];
    }

    /** The documents in the collection, in insertion order. */
    function Documents(): seq<Doc>
      reads this
    {
      Flatten(batches)
    }

    /** `insert_many(batch)`: the batch is stored, and one id is reported per document. */
    method InsertMany(batch: seq<Doc>) returns (insertedIds: nat)
      modifies this
      ensures batches == old(batches) + [batch]
      ensures insertedIds == |batch|
      ensures Documents() == old(Documents()) + batch
    {
      FlattenAppend(batches, [batch]);
      assert Flatten([batch]) == batch + Flatten([]);
      batches := batches + [batch];
      insertedIds := |batch|;
    }
  }

  /** What `main` reports once the records are parsed. */
  datatype Report = NoRecordsFound | Imported(inserted: nat, total: nat)

  /**
   * The batching loop of `main`: every record is inserted, in order, in the
   * batches `Batches` describes, and `inserted` ends at the number of records.
   */
  method InsertInBatches(records: seq<Doc>, collection: Collection) returns (inserted: nat)
    modifies collection
    ensures inserted == |records|
    ensures collection.batches == old(collection.batches) + Batches(records, BatchSize)
    ensures collection.Documents() == old(collection.Documents()) + records
  {
    var batchSize := BatchSize;
    inserted := 0;
    var i := 0;
    while i < |records|
      invariant inserted == Min(i, |records|)
      invariant old(collection.batches) + Batches(records, batchSize) ==
        collection.batches + Batches(records[Min(i, |records|)..], batchSize)
    {
      var batch := Slice(records, i, i + batchSize);
      ghost var rest := records[i..];
      assert batch == rest[..Min(batchSize, |rest|)];
      assert rest[Min(batchSize, |rest|)..] == records[Min(i + batchSize, |records|)..];
      var insertedIds := collection.InsertMany(batch);
      inserted := inserted + insertedIds;
      i := i + batchSize;
    }
    assert records[|records|..] == [];
    FlattenAppend(old(collection.batches), Batches(records, BatchSize));
    FlattenBatches(records, BatchSize);
  }

  /**
   * `main` after the client is opened: parse the text, then insert the records
   * in batches when there are any; with none, nothing is inserted.
   */
  method Import(content: string, importedAt: DateTime, collection: Collection) returns (report: Report)
    modifies collection
    ensures var records := Parse(content, importedAt);
      && (records == [] ==> report == NoRecordsFound && collection.batches == old(collection.batches))
      && (records != [] ==>
            && report == Imported(|records|, |records|)
            && collection.batches == old(collection.batches) + Batches(records, BatchSize))
    ensures collection.Documents() == old(collection.Documents()) + Parse(content, importedAt)
  {
    var records := ParseAdif(content, importedAt);
    var totalRecords := |records|;
    if totalRecords > 0 {
      var inserted := InsertInBatches(records, collection);
      report := Imported(inserted, totalRecords);
    } else {
      report := NoRecordsFound;
      assert records == [];
    }
  }
}

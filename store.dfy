/**
  A reference metadata store: the behaviour the `MetaStore` interface documents,
  kept in memory. It holds the metadata of every stored object under a string key,
  the set of backends marked as replaced, and the queue of failed uploads.
 */
module Store {
  import opened Wrappers
  import opened Meta

  /**
    The failure queue with every entry equal to `fm` taken out and the other
    entries kept in their order.
   */
  function Without(q: seq<FailureMeta>, fm: FailureMeta): (r: seq<FailureMeta>)
    ensures fm !in r
    ensures forall x :: x in r <==> x in q && x != fm
    ensures |r| <= |q|
    decreases |q|
  {
    if q == [] then []
    else if q[0] == fm then Without(q[1..], fm)
    else [q[0]] + Without(q[1..], fm)
  }

  /** Deleting an entry that is not queued leaves the queue as it is. */
  lemma {:induction false} WithoutAbsent(q: seq<FailureMeta>, fm: FailureMeta)
    requires fm !in q
    ensures Without(q, fm) == q
  {
    if q != [] {
      assert q[0] != fm && fm !in q[1..];
      WithoutAbsent(q[1..], fm);
      assert q == [q[0]] + q[1..];
    }
  }

  /** Deleting the same entry twice has the effect of deleting it once. */
  lemma {:induction false} WithoutIdempotent(q: seq<FailureMeta>, fm: FailureMeta)
    ensures Without(Without(q, fm), fm) == Without(q, fm)
  {
    WithoutAbsent(Without(q, fm), fm);
  }

  /** Deleting removes every copy of `fm` and keeps every other entry as often as it was queued. */
  lemma {:induction false} WithoutCount(q: seq<FailureMeta>, fm: FailureMeta)
    ensures multiset(Without(q, fm)) == multiset(q)[fm := 0]
  {
    if q != [] {
      WithoutCount(q[1..], fm);
      assert q == [q[0]] + q[1..];
      assert multiset(q) == multiset{q[0]} + multiset(q[1..]);
    }
  }

  /** Deleting works on each part of the queue separately, so the order of what is kept does not change. */
  lemma {:induction false} WithoutConcat(a: seq<FailureMeta>, b: seq<FailureMeta>, fm: FailureMeta)
    ensures Without(a + b, fm) == Without(a, fm) + Without(b, fm)
    decreases |a|
  {
    if a == [] {
      assert a + b == b;
    } else {
      assert (a + b)[0] == a[0] && (a + b)[1..] == a[1..] + b;
      WithoutConcat(a[1..], b, fm);
    }
  }

  /** Deleting an entry that was just queued, and was not queued before, restores the queue. */
  lemma {:induction false} WithoutUndoesAppend(q: seq<FailureMeta>, fm: FailureMeta)
    requires fm !in q
    ensures Without(q + [fm], fm) == q
  {
    WithoutConcat(q, [fm], fm);
    WithoutAbsent(q, fm);
    assert Without([fm], fm) == Without([], fm);
  }

  /** `r` lists the entries of `metas` whose keys are in `done`, each key once. */
  ghost predicate Listing(metas: map<string, MetaRecord>, r: seq<(string, MetaRecord)>, done: set<string>)
  {
    && |r| == |done|
    && (forall i :: 0 <= i < |r| ==> r[i].0 in done && r[i].0 in metas && metas[r[i].0] == r[i].1)
    && (forall i, j :: 0 <= i < j < |r| ==> r[i].0 != r[j].0)
    && (forall k :: k in done ==> exists i :: 0 <= i < |r| && r[i].0 == k)
  }

  /** Listing one more stored key, not listed yet, keeps the listing exact. */
  lemma ListingExtend(metas: map<string, MetaRecord>, r: seq<(string, MetaRecord)>, done: set<string>, k: string)
    requires Listing(metas, r, done) && k in metas && k !in done
    ensures Listing(metas, r + [(k, metas[k])], done + {k})
  {
    var r' := r + [(k, metas[k])];
    assert |done + {k}| == |done| + 1;
    forall i, j | 0 <= i < j < |r'| ensures r'[i].0 != r'[j].0 {
      if j == |r| {
        assert r'[i] == r[i];
      }
    }
    forall x | x in done + {k} ensures exists i :: 0 <= i < |r'| && r'[i].0 == x {
      if x == k {
        assert r'[|r|].0 == x;
      } else {
        var i :| 0 <= i < |r| && r[i].0 == x;
        assert r'[i] == r[i];
      }
    }
  }

  /**
    A store of object metadata, replaced backends and failed uploads. Records
    addressed by a path are stored under the key `pathKey` derives from the path,
    so both addressing modes share one table.
   */
  class MetaStore {
    const pathKey: Path -> string
    var metas: map<string, MetaRecord>
    var replaced: set<ZdbConnectionInfo>
    var failures: seq<FailureMeta>

    /** An empty store. */
    constructor (pathKey: Path -> string)
      ensures this.pathKey == pathKey
      ensures metas == map[] && replaced == {} && failures == []
    {
      this.pathKey := pathKey;
      metas := map[];
      replaced := {};
      failures := [];
    }

    /** Saves the metadata for the file at `path`, replacing any earlier record for it. */
    method SaveMeta(path: Path, meta: MetaData)
      modifies this
      ensures metas == old(metas)[pathKey(path) := meta.Record()]
      ensures replaced == old(replaced) && failures == old(failures)
    {
      metas := metas[pathKey(path) := meta.Record()];
    }

    /** Saves the metadata under `key`, replacing any earlier record for it. */
    method SaveMetaByKey(key: string, meta: MetaData)
      modifies this
      ensures metas == old(metas)[key := meta.Record()]
      ensures replaced == old(replaced) && failures == old(failures)
    {
      metas := metas[key := meta.Record()];
    }

    /** The metadata saved for the file at `path`, or None when there is none. */
    method LoadMeta(path: Path) returns (r: Option<MetaRecord>)
      ensures r.Some? <==> pathKey(path) in metas
      ensures r.Some? ==> r.value == metas[pathKey(path)]
    {
      r := LoadMetaByKey(pathKey(path));
    }

    /** The metadata saved under `key`, or None when there is none. */
    method LoadMetaByKey(key: string) returns (r: Option<MetaRecord>)
      ensures r.Some? <==> key in metas
      ensures r.Some? ==> r.value == metas[key]
    {
      if key in metas {
        r := Some(metas[key]);
      } else {
        r := None;
      }
    }

    /** Marks the backend `ci` as replaced; marking it again changes nothing. */
    method SetReplaced(ci: ZdbConnectionInfo)
      modifies this
      ensures replaced == old(replaced) + {ci}
      ensures metas == old(metas) && failures == old(failures)
    {
      replaced := replaced + {ci};
    }

    /** Whether the backend `ci` has been marked as replaced. */
    method IsReplaced(ci: ZdbConnectionInfo) returns (b: bool)
      ensures b <==> ci in replaced
    {
      b := ci in replaced;
    }

    /** Every stored object as a (key, metadata) pair, each key once, in no particular order. */
    method ObjectMetas() returns (r: seq<(string, MetaRecord)>)
      ensures |r| == |metas|
      ensures forall i :: 0 <= i < |r| ==> r[i].0 in metas && metas[r[i].0] == r[i].1
      ensures forall i, j :: 0 <= i < j < |r| ==> r[i].0 != r[j].0
      ensures forall k :: k in metas ==> exists i :: 0 <= i < |r| && r[i].0 == k
    {
      var todo := metas.Keys;
      ghost var done: set<string> := {};
      r := [];
      while todo != {}
        invariant todo + done == metas.Keys && todo !! done
        invariant Listing(metas, r, done)
        decreases todo
      {
        var k :| k in todo;
        ListingExtend(metas, r, done, k);
        r := r + [(k, metas[k])];
        todo := todo - {k};
        done := done + {k};
      }
    }

    /** Queues a failed upload at the end of the failure queue. */
    method SaveFailure(dataPath: Path, keyDirPath: Option<Path>, shouldDelete: bool)
      modifies this
      ensures failures == old(failures) + [NewFailureMeta(dataPath, keyDirPath, shouldDelete)]
      ensures metas == old(metas) && replaced == old(replaced)
    {
      failures := failures + [NewFailureMeta(dataPath, keyDirPath, shouldDelete)];
    }

    /** Takes `fm` out of the failure queue; when it is not queued nothing changes. */
    method DeleteFailure(fm: FailureMeta)
      modifies this
      ensures failures == Without(old(failures), fm)
      ensures fm !in old(failures) ==> failures == old(failures)
      ensures metas == old(metas) && replaced == old(replaced)
    {
      if fm in failures {
        failures := Without(failures, fm);
      } else {
        WithoutAbsent(failures, fm);
      }
    }

    /** Every queued failed upload, oldest first. */
    method GetFailures() returns (r: seq<FailureMeta>)
      ensures r == failures
    {
      r := failures;
    }
  }

  /** Loading a key gives back the value of the metadata last saved under it, for both addressing modes. */
  method SaveThenLoad(store: MetaStore, key: string, path: Path, meta: MetaData)
      returns (byKey: Option<MetaRecord>, byPath: Option<MetaRecord>)
    modifies store
    ensures byKey == Some(meta.Record()) && byPath == Some(meta.Record())
  {
    store.SaveMetaByKey(key, meta);
    byKey := store.LoadMetaByKey(key);
    store.SaveMeta(path, meta);
    byPath := store.LoadMeta(path);
  }

  /** Of two saves for the same path, the later one is what a load returns. */
  method LastWriteWins(store: MetaStore, path: Path, first: MetaData, second: MetaData)
      returns (r: Option<MetaRecord>)
    modifies store
    ensures r == Some(second.Record())
  {
    store.SaveMeta(path, first);
    store.SaveMeta(path, second);
    r := store.LoadMeta(path);
  }

  /** A store keeps the value saved: shards added to the MetaData afterwards are not in the stored record. */
  method SaveIsSnapshot(store: MetaStore, key: string, meta: MetaData, si: ShardInfo)
      returns (r: Option<MetaRecord>)
    modifies store, meta
    ensures r == Some(old(meta.Record()))
    ensures meta.shards == old(meta.shards) + [si]
  {
    store.SaveMetaByKey(key, meta);
    meta.AddShard(si);
    r := store.LoadMetaByKey(key);
  }

  /**
    The encode pipeline from end to end: shards recorded in order, saved under a
    key and loaded back keep their order, indices and checksums.
   */
  method EncodeSaveLoad(store: MetaStore, key: string, dataShards: usize, parityShards: usize,
                        checksum: Checksum, encryption: Encryption, compression: Compression,
                        uploads: seq<(Checksum, seq<Key>, ZdbConnectionInfo)>)
      returns (r: Option<MetaRecord>)
    requires |uploads| < 0x1_0000_0000_0000_0000
    modifies store
    ensures r.Some? && r.value.dataShards == dataShards && r.value.parityShards == parityShards
    ensures r.value.checksum == checksum
    ensures |r.value.shards| == |uploads| && InEncodingOrder(r.value.shards)
    ensures forall i :: 0 <= i < |uploads| ==> r.value.shards[i].checksum == uploads[i].0
  {
    var meta := RecordUploads(dataShards, parityShards, checksum, encryption, compression, uploads);
    store.SaveMetaByKey(key, meta);
    r := store.LoadMetaByKey(key);
  }

  /** A marked backend reads as replaced, and marking it twice leaves the same state as once. */
  method ReplaceTwice(store: MetaStore, ci: ZdbConnectionInfo) returns (b: bool)
    modifies store
    ensures b
    ensures store.replaced == old(store.replaced) + {ci}
    ensures store.metas == old(store.metas) && store.failures == old(store.failures)
  {
    store.SetReplaced(ci);
    store.SetReplaced(ci);
    b := store.IsReplaced(ci);
  }

  /**
    A failed upload that was saved is listed last among the failures, whatever the
    queue held before; once it is deleted no copy of it is queued, and every other
    entry is still there in its order.
   */
  method SaveThenDelete(store: MetaStore, dataPath: Path, keyDirPath: Option<Path>, shouldDelete: bool)
      returns (listed: seq<FailureMeta>, after: seq<FailureMeta>)
    modifies store
    ensures listed == old(store.failures) + [NewFailureMeta(dataPath, keyDirPath, shouldDelete)]
    ensures NewFailureMeta(dataPath, keyDirPath, shouldDelete) !in after
    ensures after == Without(old(store.failures), NewFailureMeta(dataPath, keyDirPath, shouldDelete))
  {
    store.SaveFailure(dataPath, keyDirPath, shouldDelete);
    listed := store.GetFailures();
    var fm := NewFailureMeta(dataPath, keyDirPath, shouldDelete);
    WithoutConcat(old(store.failures), [fm], fm);
    assert Without([fm], fm) == Without([], fm);
    store.DeleteFailure(fm);
    after := store.GetFailures();
  }

  /**
    When the failed upload was not queued before, saving it and then deleting it
    gives back the queue as it was before the save.
   */
  method FailureRoundTrip(store: MetaStore, dataPath: Path, keyDirPath: Option<Path>, shouldDelete: bool)
      returns (listed: seq<FailureMeta>, after: seq<FailureMeta>)
    requires NewFailureMeta(dataPath, keyDirPath, shouldDelete) !in store.failures
    modifies store
    ensures listed == old(store.failures) + [NewFailureMeta(dataPath, keyDirPath, shouldDelete)]
    ensures after == old(store.failures)
  {
    store.SaveFailure(dataPath, keyDirPath, shouldDelete);
    listed := store.GetFailures();
    var fm := NewFailureMeta(dataPath, keyDirPath, shouldDelete);
    WithoutUndoesAppend(old(store.failures), fm);
    store.DeleteFailure(fm);
    after := store.GetFailures();
  }
}

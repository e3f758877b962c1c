/**
  The recovery record of an erasure-coded object: the shard and parity counts,
  the checksum of the whole file, the encryption and compression configuration,
  and the ordered list of shards with their checksums, storage keys and backend.
  Also the record kept for an upload that failed.
 */
module Meta {
  import opened Wrappers

  // Configurations and backend descriptors live in other modules of zstor; this
  // layer only stores them and compares them for equality.
  type Encryption(==)
  type Compression(==)
  type Key(==)
  type ZdbConnectionInfo(==)

  /** Rust's `usize` on a 64-bit target. */
  type usize = x: nat | x < 0x1_0000_0000_0000_0000

  /** A filesystem path, treated as an opaque string. */
  type Path = string

  /** The length of file and shard checksums, in bytes. */
  const CHECKSUM_LENGTH: usize := 16

  /** A checksum is a fixed-size array of exactly CHECKSUM_LENGTH bytes. */
  type Checksum = s: seq<bv8> | |s| == CHECKSUM_LENGTH
    witness [0, 0, 0, 0, 0, 0, 0, 0, 0, 0, 0, 0, 0, 0, 0, 0]

  /**
    Where one shard lives: its position in the encoding sequence, the checksum of
    its bytes, the keys under which the bytes are stored and the backend holding them.
    The destructors are the accessors: `index`, `checksum`, `keys` (Rust `key()`) and `zdb`.
   */
  datatype ShardInfo = ShardInfo(index: usize, checksum: Checksum, keys: seq<Key>, zdb: ZdbConnectionInfo)

  /** Builds a shard description; every accessor gives back what was passed in. */
  function NewShardInfo(shardIdx: usize, checksum: Checksum, keys: seq<Key>, ci: ZdbConnectionInfo): (si: ShardInfo)
    ensures si.index == shardIdx && si.checksum == checksum && si.keys == keys && si.zdb == ci
  {
    ShardInfo(shardIdx, checksum, keys, ci)
  }

  /**
    The value of a MetaData: what cloning copies, what equality compares and what
    a metadata store persists.
   */
  datatype MetaRecord = MetaRecord(
    dataShards: usize,
    parityShards: usize,
    checksum: Checksum,
    encryption: Encryption,
    compression: Compression,
    shards: seq<ShardInfo>)

  /** Shards whose positions in the list are their encoding indices, which recovery relies on. */
  ghost predicate InEncodingOrder(shards: seq<ShardInfo>)
  {
    forall i :: 0 <= i < |shards| ==> shards[i].index == i
  }

  /**
    Appending keeps a list in encoding order exactly when the list already was in
    order and the new shard's index is the current length.
   */
  lemma AppendInEncodingOrder(shards: seq<ShardInfo>, si: ShardInfo)
    ensures InEncodingOrder(shards + [si]) <==> InEncodingOrder(shards) && si.index == |shards|
  {
    if InEncodingOrder(shards + [si]) {
      assert (shards + [si])[|shards|] == si;
      forall i | 0 <= i < |shards| ensures shards[i].index == i {
        assert (shards + [si])[i] == shards[i];
      }
    }
  }

  /**
    The recovery record under construction. The only change after creation is
    AddShard, which appends without checking the index or the count; the other
    fields are constants.
   */
  class MetaData {
    // Set once by the constructor: nothing afterwards can change them.
    const dataShards: usize
    const parityShards: usize
    const checksum: Checksum
    const encryption: Encryption
    const compression: Compression
    var shards: seq<ShardInfo>

    /** The value of this MetaData. */
    function Record(): MetaRecord
      reads this
    {
      MetaRecord(dataShards, parityShards, checksum, encryption, compression, shards)
    }

    /**
      New encoding metadata: the arguments are stored as given and there are no
      shards yet. The capacity reserved for `dataShards + parityShards` shards is
      only a hint and bounds nothing.
     */
    constructor (dataShards: usize, parityShards: usize, checksum: Checksum,
                 encryption: Encryption, compression: Compression)
      ensures this.dataShards == dataShards && this.parityShards == parityShards
      ensures this.checksum == checksum
      ensures this.encryption == encryption && this.compression == compression
      ensures shards == []
    {
      this.dataShards := dataShards;
      this.parityShards := parityShards;
      this.checksum := checksum;
      this.encryption := encryption;
      this.compression := compression;
      this.shards := [];
    }

    /**
      Appends a shard. Any index and any number of shards are accepted, also more
      than `dataShards + parityShards`: keeping the list in encoding order is the
      caller's job (see AppendInEncodingOrder).
     */
    method AddShard(si: ShardInfo)
      modifies this
      ensures shards == old(shards) + [si]
      ensures |shards| == |old(shards)| + 1 && shards[|shards| - 1] == si
      ensures forall i :: 0 <= i < |old(shards)| ==> shards[i] == old(shards)[i]
    {
      shards := shards + [si];
    }
  }

  /**
    The encode pipeline's use of AddShard: after creating the record it appends one
    shard per upload, with index i for the i-th upload. The result is in encoding
    order, whatever n is compared with `dataShards + parityShards`.
   */
  method RecordUploads(dataShards: usize, parityShards: usize, checksum: Checksum,
                       encryption: Encryption, compression: Compression,
                       uploads: seq<(Checksum, seq<Key>, ZdbConnectionInfo)>)
      returns (m: MetaData)
    requires |uploads| < 0x1_0000_0000_0000_0000
    ensures fresh(m)
    ensures m.dataShards == dataShards && m.parityShards == parityShards && m.checksum == checksum
    ensures m.encryption == encryption && m.compression == compression
    ensures |m.shards| == |uploads| && InEncodingOrder(m.shards)
    ensures forall i :: 0 <= i < |uploads| ==>
      m.shards[i] == NewShardInfo(i, uploads[i].0, uploads[i].1, uploads[i].2)
  {
    m := new MetaData(dataShards, parityShards, checksum, encryption, compression);
    var i := 0;
    while i < |uploads|
      invariant 0 <= i <= |uploads|
      invariant |m.shards| == i && InEncodingOrder(m.shards)
      invariant forall j :: 0 <= j < i ==> m.shards[j] == NewShardInfo(j, uploads[j].0, uploads[j].1, uploads[j].2)
    {
      var si := NewShardInfo(i, uploads[i].0, uploads[i].1, uploads[i].2);
      AppendInEncodingOrder(m.shards, si);
      m.AddShard(si);
      i := i + 1;
    }
  }

  /** A failed upload: the file, the optional key directory and whether to delete the file once uploaded. */
  datatype FailureMeta = FailureMeta(dataPath: Path, keyDirPath: Option<Path>, shouldDelete: bool)

  /** Builds a failure record; every accessor gives back what was passed in. */
  function NewFailureMeta(dataPath: Path, keyDirPath: Option<Path>, shouldDelete: bool): (fm: FailureMeta)
    ensures fm.dataPath == dataPath && fm.keyDirPath == keyDirPath && fm.shouldDelete == shouldDelete
  {
    FailureMeta(dataPath, keyDirPath, shouldDelete)
  }
}

/**
  Optimistic transactions over the key-value store: RocksDBTxn,
  RocksDBConflictDetector and RocksDBKVStore.

  Each class carries the fields the source mutates. View() gives its state as a
  value, and every method is specified by a pure function on views, so that runs
  with many live transactions can be reasoned about without the heap.
 */
module TxnStore {
  import opened ByteStrings
  import opened KvTypes

  /** variant<monostate, optional<string>>: what a read-set entry claims about its key. */
  datatype Observation = Absent | Present(expected: Option<Value>)

  datatype TxnView = TxnView(
    snapshot: Db,
    startVersion: int,
    commitVersion: int,
    readSet: map<Key, Observation>,
    writeSet: WriteSet)

  datatype DetectorView = DetectorView(log: map<int, TxnView>, purged: int)

  // ------------------------------------------------------ specifications

  function Fresh(db: Db, startVersion: int): TxnView {
    TxnView(db, startVersion, -1, map[], map[])
  }

  /** AddReadConflictKey: monostate and "exists, any value" are stored alike. */
  function AfterAddRead(t: TxnView, k: Key, o: Observation): TxnView {
    t.(readSet := t.readSet[k := Present(if o.Absent? then None else o.expected)])
  }

  function AfterGet(t: TxnView, k: Key, exclude: bool): TxnView {
    if exclude then t
    else AfterAddRead(t, k, if k in t.snapshot then Present(Some(t.snapshot[k])) else Absent)
  }

  predicate HasConflict(t: TxnView, concurrent: TxnView) {
    !(concurrent.writeSet.Keys !! t.readSet.Keys)
  }

  /** The detector's verdict. */
  predicate ConflictFree(d: DetectorView, t: TxnView) {
    && d.purged <= t.startVersion
    && forall v :: v in d.log && t.startVersion <= v <= t.commitVersion ==> !HasConflict(t, d.log[v])
  }

  /** The CHECKs in IsConflictFree and HasConflict, for every entry the scan can reach. */
  predicate ChecksPass(d: DetectorView, t: TxnView) {
    && 0 < t.startVersion < t.commitVersion
    && (d.purged <= t.startVersion ==>
          forall v :: v in d.log && t.startVersion <= v <= t.commitVersion ==>
            d.log[v].commitVersion == v && t.startVersion < v < t.commitVersion)
  }

  function Purged(d: DetectorView, version: int): DetectorView {
    DetectorView(map v | v in d.log && v > version :: d.log[v],
                 if version > d.purged then version else d.purged)
  }

  datatype CommitResult = CommitResult(db: Db, version: int, txn: TxnView, ok: bool)

  /** CommitTxn: take a version, validate, and apply the whole write set or nothing. */
  function Commit(db: Db, version: int, d: DetectorView, t: TxnView): CommitResult {
    var t' := t.(commitVersion := version);
    var ok := ConflictFree(d, t');
    CommitResult(if ok then Overlay(db, t.writeSet) else db, version + 1, t', ok)
  }

  // -------------------------------------------------------------- RocksDBTxn

  class Txn {
    const snapshot: Db
    const startVersion: int
    var commitVersion: int
    var readSet: map<Key, Observation>
    var writeSet: WriteSet

    function View(): TxnView
      reads this
    {
      TxnView(snapshot, startVersion, commitVersion, readSet, writeSet)
    }

    constructor (db: Db, startVersion: int)
      ensures View() == Fresh(db, startVersion)
    {
      this.snapshot := db;
      this.startVersion := startVersion;
      commitVersion := -1;
      readSet := map[];
      writeSet := map[];
    }

    /**
      Reads the snapshot, never the transaction's own writes. A missing key enters the
      read set as "exists, any value": the two cases of the variant are stored alike.
     */
    method Get(k: Key, exclude: bool) returns (r: Option<Value>)
      modifies this`readSet
      ensures r == Lookup(snapshot, k)
      ensures readSet == if exclude then old(readSet) else old(readSet)[k := Present(r)]
      ensures View() == AfterGet(old(View()), k, exclude)
    {
      if k in snapshot {
        if !exclude { AddReadConflictKey(k, Present(Some(snapshot[k]))); }
        r := Some(snapshot[k]);
      } else {
        if !exclude { AddReadConflictKey(k, Absent); }
        r := None;
      }
    }

    method AddReadConflictKey(k: Key, o: Observation)
      modifies this`readSet
      ensures View() == AfterAddRead(old(View()), k, o)
      ensures readSet.Keys == old(readSet.Keys) + {k}
    {
      readSet := readSet[k := Present(if o.Absent? then None else o.expected)];
    }

    /** The first `limit` values of the snapshot's keys in [start, end), in key order. */
    method GetRange(cf: CF, start: Bytes, end: Bytes, limit: nat) returns (values: seq<Value>)
      ensures exists keys :: FirstOf(keys, RangeKeys(snapshot, cf, start, end), limit) && AreValuesAt(snapshot, cf, keys, values)
    {
      values := [];
      ghost var keys: seq<Bytes> := [];
      var family := FamilyKeys(snapshot, cf);
      ghost var range := RangeKeys(snapshot, cf, start, end);
      var iter := SeekFirst(family, start);
      while iter.Some? && Less(iter.value, end) && |values| < limit
        invariant |keys| <= limit && AreValuesAt(snapshot, cf, keys, values)
        invariant Ascending(keys)
        invariant forall k :: k in keys ==> k in range
        invariant forall k :: k in keys && iter.Some? ==> Less(k, iter.value)
        invariant iter.Some? ==> iter.value in family && !Less(iter.value, start)
        invariant forall y :: y in family && !Less(y, start) && y !in keys ==> iter.Some? && !Less(y, iter.value)
        decreases limit - |values|
      {
        values := values + [snapshot[Key(cf, iter.value)]];
        ghost var before, at := keys, iter.value;
        keys := keys + [iter.value];
        iter := SeekNext(family, iter.value);
        OrderLaws();
        AdvanceKeepsOrder(family, start, before, at, iter);
      }
      OrderLaws();
      FirstFound(range, family, start, end, keys, iter, limit);
    }

    method Put(k: Key, v: Value)
      modifies this`writeSet
      ensures View() == old(View()).(writeSet := old(writeSet)[k := Some(v)])
    {
      writeSet := writeSet[k := Some(v)];
    }

    method Del(k: Key)
      modifies this`writeSet
      ensures View() == old(View()).(writeSet := old(writeSet)[k := None])
    {
      writeSet := writeSet[k := None];
    }
  }

  // ------------------------------------------------------- rocksdb::Iterator

  function FamilyKeys(db: Db, cf: CF): set<Bytes> {
    set k | k in db && k.cf == cf :: k.bytes
  }

  ghost function RangeKeys(db: Db, cf: CF, start: Bytes, end: Bytes): set<Bytes> {
    set b | b in FamilyKeys(db, cf) && !Less(b, start) && Less(b, end)
  }

  predicate AreValuesAt(db: Db, cf: CF, keys: seq<Bytes>, values: seq<Value>) {
    && |values| == |keys|
    && forall i :: 0 <= i < |keys| ==> Key(cf, keys[i]) in db && values[i] == db[Key(cf, keys[i])]
  }

  /** Where Seek(from) leaves the iterator: the least key at or above `from`. */
  function SeekFirst(keys: set<Bytes>, from: Bytes): (r: Option<Bytes>)
    ensures r.Some? ==> IsSeek(keys, from, r.value)
    ensures r.None? ==> forall y :: y in keys ==> Less(y, from)
  {
    var above := set y | y in keys && !Less(y, from);
    if above == {} then
      assert forall y :: y in keys ==> y !in above;
      None
    else
      assert exists y :: y in above;
      SeekExists(keys, from);
      OrderLaws();
      var x :| IsSeek(keys, from, x);
      Some(x)
  }

  /** Where Next() leaves it: the least key above the current one. */
  function SeekNext(keys: set<Bytes>, at: Bytes): (r: Option<Bytes>)
    ensures r.Some? ==> r.value in keys && Less(at, r.value)
    ensures r.Some? ==> forall y :: y in keys && Less(at, y) ==> !Less(y, r.value)
    ensures r.None? ==> forall y :: y in keys ==> !Less(at, y)
  {
    OrderLaws();
    var above := set y | y in keys && Less(at, y);
    assert forall y :: y in keys && Less(at, y) ==> y in above;
    SeekFirst(above, at)
  }

  lemma AdvanceKeepsOrder(family: set<Bytes>, start: Bytes, before: seq<Bytes>, at: Bytes, iter: Option<Bytes>)
    requires iter == SeekNext(family, at)
    requires at in family
    requires forall y :: y in family && !Less(y, start) && y !in before ==> !Less(y, at)
    ensures forall y :: y in family && !Less(y, start) && y !in before + [at] ==> iter.Some? && !Less(y, iter.value)
  {
    forall y | y in family && !Less(y, start) && y !in before + [at]
      ensures iter.Some? && !Less(y, iter.value)
    {
      assert at in before + [at];
      assert y in before ==> y in before + [at];
      LessTotal(y, at);
      assert Less(at, y);
    }
  }

  lemma FirstFound(range: set<Bytes>, family: set<Bytes>, start: Bytes, end: Bytes,
                   keys: seq<Bytes>, iter: Option<Bytes>, limit: nat)
    requires range == set b | b in family && !Less(b, start) && Less(b, end)
    requires Ascending(keys) && |keys| <= limit && forall k :: k in keys ==> k in range
    requires forall k :: k in keys && iter.Some? ==> Less(k, iter.value)
    requires forall y :: y in family && !Less(y, start) && y !in keys ==> iter.Some? && !Less(y, iter.value)
    requires iter.None? || !Less(iter.value, end) || |keys| == limit
    ensures FirstOf(keys, range, limit)
  {
    forall x | x in range && x !in keys
      ensures |keys| == limit && forall k :: k in keys ==> Less(k, x)
    {
      assert iter.Some? && !Less(x, iter.value);
      LessTotal(x, iter.value);
      if !Less(iter.value, end) {
        if x != iter.value { LessTransitive(iter.value, x, end); }
        assert false;
      }
      forall k | k in keys ensures Less(k, x) {
        if x != iter.value { LessTransitive(k, iter.value, x); }
      }
    }
  }

  // ------------------------------------------------- RocksDBConflictDetector

  class ConflictDetector {
    /** By commit version; a committed transaction is never written to again. */
    var committedTxns: map<int, TxnView>
    var latestPurgedVersion: int

    function View(): DetectorView
      reads this
    {
      DetectorView(committedTxns, latestPurgedVersion)
    }

    constructor (latestPurgedVersion: int)
      ensures View() == DetectorView(map[], latestPurgedVersion)
    {
      committedTxns := map[];
      this.latestPurgedVersion := latestPurgedVersion;
    }

    method IsConflictFree(t: Txn) returns (ok: bool)
      requires ChecksPass(View(), t.View())
      ensures ok == ConflictFree(View(), t.View())
    {
      if t.startVersion < latestPurgedVersion {
        return false;
      }
      var window := set v | v in committedTxns && t.startVersion <= v <= t.commitVersion;
      var todo := window;
      while todo != {}
        invariant todo <= window
        invariant forall v :: v in window && v !in todo ==> !HasConflict(t.View(), committedTxns[v])
        decreases todo
      {
        var v :| v in todo;
        assert v == committedTxns[v].commitVersion && t.startVersion < v < t.commitVersion;
        if HasConflict(t.View(), committedTxns[v]) {
          return false;
        }
        todo := todo - {v};
      }
      return true;
    }

    method PurgeTo(version: int)
      modifies this
      ensures View() == Purged(old(View()), version)
    {
      committedTxns := map v | v in committedTxns && v > version :: committedTxns[v];
      if version > latestPurgedVersion {
        latestPurgedVersion := version;
      }
    }
  }

  // ---------------------------------------------------------- RocksDBKVStore

  /** CommitTxn's loop over the write set; the batch is right in whatever order the keys come. */
  method BuildBatch(db: Db, ws: WriteSet) returns (batch: seq<BatchOp>)
    ensures ApplyBatch(db, batch) == Overlay(db, ws)
  {
    batch := [];
    var todo := ws.Keys;
    ghost var done: WriteSet := map[];
    while todo != {}
      invariant todo <= ws.Keys && done.Keys == ws.Keys - todo
      invariant forall k :: k in done ==> done[k] == ws[k]
      invariant ApplyBatch(db, batch) == Overlay(db, done)
      decreases todo
    {
      var k :| k in todo;
      var op := if ws[k].Some? then PutOp(k, ws[k].value) else DeleteOp(k);
      ghost var before := batch;
      batch := batch + [op];
      assert batch[..|batch| - 1] == before;
      if op.PutOp? { OverlayPut(db, done, k, op.value); } else { OverlayDel(db, done, k); }
      done := done[k := ws[k]];
      todo := todo - {k};
    }
    assert done == ws;
  }

  class KvStore {
    var db: Db
    var version: int
    const detector: ConflictDetector

    /** Opens a store over whatever database is already on disk. */
    constructor (db: Db)
      ensures this.db == db && version == 1 && fresh(detector)
      ensures detector.View() == DetectorView(map[], 0)
    {
      this.db := db;
      version := 1;
      detector := new ConflictDetector(0);
    }

    method StartTxn() returns (t: Txn)
      modifies this`version
      ensures fresh(t) && t.View() == Fresh(db, old(version))
      ensures version == old(version) + 1
    {
      t := new Txn(db, version);
      version := version + 1;
    }

    method CommitTxn(t: Txn) returns (ok: bool)
      requires ChecksPass(detector.View(), t.View().(commitVersion := version))
      modifies this`db, this`version, t`commitVersion
      ensures CommitResult(db, version, t.View(), ok) ==
              Commit(old(db), old(version), old(detector.View()), old(t.View()))
    {
      t.commitVersion := version;
      version := version + 1;
      ok := detector.IsConflictFree(t);
      if !ok {
        return;
      }
      var batch := BuildBatch(db, t.writeSet);
      db := ApplyBatch(db, batch);
    }
  }
}

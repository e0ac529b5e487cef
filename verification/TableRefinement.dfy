/**
  The incremental four-family scheme refines an abstract table of directory rows
  with unique id and unique (parent, name).
 */
module TableRefinement {
  import opened ByteStrings
  import opened KvTypes
  import opened Serde
  import opened DirTable

  type Rows = map<U64, Dir>

  /** One call Write(orig, mod). */
  datatype RowWrite = RowWrite(orig: Option<Dir>, mod: Option<Dir>)

  /** The abstract effect of a Write. */
  function AfterRow(rows: Rows, w: RowWrite): Rows {
    var rows' := if w.orig.Some? then rows - {w.orig.value.id} else rows;
    if w.mod.Some? then rows'[w.mod.value.id := w.mod.value] else rows'
  }

  function AfterRows(rows: Rows, ws: seq<RowWrite>): Rows {
    if |ws| == 0 then rows else AfterRow(AfterRows(rows, ws[..|ws| - 1]), ws[|ws| - 1])
  }

  /** The concrete effect of a sequence of Writes on a transaction's write set. */
  function DirWrites(ws: WriteSet, writes: seq<RowWrite>): WriteSet {
    if |writes| == 0 then ws
    else
      var w := writes[|writes| - 1];
      DirWrite(DirWrites(ws, writes[..|writes| - 1]), w.orig, w.mod)
  }

  predicate SameName(a: Dir, b: Dir) { a.parentId == b.parentId && a.name == b.name }

  ghost predicate InSomeRow(rows: Rows, k: Key) {
    exists id :: id in rows && k in Entries(rows[id])
  }

  /** db is exactly the four-index image of rows, beside `other`. */
  ghost predicate Represents(db: Db, rows: Rows, other: Db) {
    && (forall id :: id in rows ==> rows[id].id == id && Holds(db, Entries(rows[id])))
    && Holds(db, other)
    && (forall k :: k in other ==> !InSomeRow(rows, k))
    && (forall k :: k in db ==> k in other || InSomeRow(rows, k))
  }

  /**
    What a caller of Write owes: the original row is the stored one (up to the
    unstored acl), and the new id and (parent, name) are free or unchanged.
   */
  ghost predicate WriteAllowed(rows: Rows, other: Db, w: RowWrite) {
    && (w.orig.Some? ==> w.orig.value.id in rows && Entries(w.orig.value) == Entries(rows[w.orig.value.id]))
    && (w.mod.Some? ==>
          && (w.mod.value.id in rows ==> w.orig.Some? && w.mod.value.id == w.orig.value.id)
          && (forall id :: id in rows && SameName(rows[id], w.mod.value) ==> w.orig.Some? && id == w.orig.value.id)
          && Entries(w.mod.value).Keys !! other.Keys)
  }

  ghost predicate WritesAllowed(rows: Rows, other: Db, ws: seq<RowWrite>) {
    |ws| > 0 ==>
      && WritesAllowed(rows, other, ws[..|ws| - 1])
      && WriteAllowed(AfterRows(rows, ws[..|ws| - 1]), other, ws[|ws| - 1])
  }

  // -------------------------------------------------------- keys of rows

  /** Two rows share a key exactly when they share an id or a (parent, name). */
  lemma RowsShareKeys(a: Dir, b: Dir)
    ensures Entries(a).Keys !! Entries(b).Keys <==> a.id != b.id && !SameName(a, b)
  {
    Encode64Injective(a.id, b.id);
    DentKeyInjective(a.parentId, a.name, b.parentId, b.name);
    if a.id == b.id { assert IdKey(InodeCF, a.id) in Entries(a) && IdKey(InodeCF, a.id) in Entries(b); }
    if SameName(a, b) { assert NameKey(a.parentId, a.name) in Entries(a) && NameKey(a.parentId, a.name) in Entries(b); }
  }

  /** What holding a row's entries says key by key. */
  lemma EntryLookups(db: Db, d: Dir)
    requires Holds(db, Entries(d))
    ensures Lookup(db, IdKey(InodeCF, d.id)) == Some(InodeDir(d.parentId, d.name, d.id, d.ctime))
    ensures Lookup(db, IdKey(MTimeCF, d.id)) == Some(TimeValue(d.mtime))
    ensures Lookup(db, IdKey(ATimeCF, d.id)) == Some(TimeValue(d.atime))
    ensures Lookup(db, NameKey(d.parentId, d.name)) == Some(DEntDir(d.parentId, d.name, d.id))
  {
  }

  /** A represented table has unique (parent, name): the dent can name only one of two rows. */
  lemma NamesUnique(db: Db, rows: Rows, other: Db, i: U64, j: U64)
    requires Represents(db, rows, other) && i in rows && j in rows && i != j
    ensures !SameName(rows[i], rows[j])
  {
    EntryLookups(db, rows[i]);
    EntryLookups(db, rows[j]);
  }

  /** The image determines the database. */
  lemma ImageDetermined(db: Db, db': Db, rows: Rows, other: Db)
    requires Represents(db, rows, other) && Represents(db', rows, other)
    ensures db == db'
  {
    forall k ensures Lookup(db, k) == Lookup(db', k) {
      if InSomeRow(rows, k) {
        var id :| id in rows && k in Entries(rows[id]);
        assert Holds(db, Entries(rows[id])) && Holds(db', Entries(rows[id]));
      }
    }
    SameLookups(db, db');
  }

  // ----------------------------------------------------------- refinement

  lemma SurvivingRow(db: Db, rows: Rows, other: Db, w: RowWrite, id: U64)
    requires Represents(db, rows, other) && WriteAllowed(rows, other, w)
    requires id in rows && (w.orig.Some? ==> id != w.orig.value.id)
    ensures Entries(rows[id]).Keys !! EntriesOf(w.orig).Keys
    ensures Entries(rows[id]).Keys !! EntriesOf(w.mod).Keys
  {
    if w.orig.Some? {
      NamesUnique(db, rows, other, id, w.orig.value.id);
      RowsShareKeys(rows[id], rows[w.orig.value.id]);
    }
    if w.mod.Some? { RowsShareKeys(rows[id], w.mod.value); }
  }

  lemma OriginalBesideOther(rows: Rows, other: Db, w: RowWrite)
    requires WriteAllowed(rows, other, w)
    requires forall k :: k in other ==> !InSomeRow(rows, k)
    ensures EntriesOf(w.orig).Keys !! other.Keys && EntriesOf(w.mod).Keys !! other.Keys
  {
  }

  function Swapped(db: Db, w: RowWrite): Db {
    (db - EntriesOf(w.orig).Keys) + EntriesOf(w.mod)
  }

  lemma SwapKeeps(db: Db, w: RowWrite, part: Db)
    requires Holds(db, part) && part.Keys !! EntriesOf(w.orig).Keys && part.Keys !! EntriesOf(w.mod).Keys
    ensures Holds(Swapped(db, w), part)
  {
  }

  lemma SwapStores(db: Db, w: RowWrite)
    ensures Holds(Swapped(db, w), EntriesOf(w.mod))
  {
  }

  lemma SwapHoldsRow(db: Db, rows: Rows, other: Db, w: RowWrite, id: U64)
    requires Represents(db, rows, other) && WriteAllowed(rows, other, w) && id in AfterRow(rows, w)
    ensures AfterRow(rows, w)[id].id == id && Holds(Swapped(db, w), Entries(AfterRow(rows, w)[id]))
  {
    if w.mod.Some? && id == w.mod.value.id {
      SwapStores(db, w);
    } else {
      SurvivingRow(db, rows, other, w, id);
      SwapKeeps(db, w, Entries(rows[id]));
    }
  }

  lemma SwapBesideOther(rows: Rows, other: Db, w: RowWrite, k: Key)
    requires WriteAllowed(rows, other, w) && k in other && !InSomeRow(rows, k)
    ensures !InSomeRow(AfterRow(rows, w), k)
  {
  }

  lemma SwapAddsNothing(rows: Rows, other: Db, w: RowWrite, k: Key)
    requires WriteAllowed(rows, other, w)
    requires k in EntriesOf(w.mod) || (InSomeRow(rows, k) && k !in EntriesOf(w.orig))
    ensures InSomeRow(AfterRow(rows, w), k)
  {
    if k in EntriesOf(w.mod) {
      assert AfterRow(rows, w)[w.mod.value.id] == w.mod.value;
    } else {
      var id :| id in rows && k in Entries(rows[id]);
      assert id in AfterRow(rows, w) && AfterRow(rows, w)[id] == rows[id];
    }
  }

  /** Swapping a row's entries in the image is updating the row in the table. */
  lemma SwapRefines(db: Db, rows: Rows, other: Db, w: RowWrite)
    requires Represents(db, rows, other) && WriteAllowed(rows, other, w)
    ensures Represents(Swapped(db, w), AfterRow(rows, w), other)
  {
    var rows' := AfterRow(rows, w);
    forall id | id in rows' ensures rows'[id].id == id && Holds(Swapped(db, w), Entries(rows'[id])) {
      SwapHoldsRow(db, rows, other, w, id);
    }
    OriginalBesideOther(rows, other, w);
    SwapKeeps(db, w, other);
    forall k | k in other ensures !InSomeRow(rows', k) { SwapBesideOther(rows, other, w, k); }
    forall k | k in Swapped(db, w) ensures k in other || InSomeRow(rows', k) {
      if k !in other { SwapAddsNothing(rows, other, w, k); }
    }
  }

  lemma WriteRefines(db: Db, ws: WriteSet, rows: Rows, other: Db, w: RowWrite)
    requires Represents(Overlay(db, ws), rows, other) && WriteAllowed(rows, other, w)
    ensures Represents(Overlay(db, DirWrite(ws, w.orig, w.mod)), AfterRow(rows, w), other)
  {
    if w.orig.Some? { assert Holds(Overlay(db, ws), Entries(rows[w.orig.value.id])); }
    WriteSwapsEntries(db, ws, w.orig, w.mod);
    SwapRefines(Overlay(db, ws), rows, other, w);
  }

  /**
    Table refinement. After any sequence of allowed Writes in a transaction, the
    database overlaid with the write set is exactly the four-index image of the
    updated rows, so the four families always agree.
   */
  lemma {:induction false} WritesRefine(db: Db, ws: WriteSet, rows: Rows, other: Db, writes: seq<RowWrite>)
    requires Represents(Overlay(db, ws), rows, other) && WritesAllowed(rows, other, writes)
    ensures Represents(Overlay(db, DirWrites(ws, writes)), AfterRows(rows, writes), other)
    decreases |writes|
  {
    if |writes| > 0 {
      var before := writes[..|writes| - 1];
      WritesRefine(db, ws, rows, other, before);
      WriteRefines(db, DirWrites(ws, before), AfterRows(rows, before), other, writes[|writes| - 1]);
    }
  }

  /**
    Creating a row under a fresh id without looking at its (parent, name) first
    leaves the image of some table exactly when that name was free.
   */
  lemma CreateKeepsTableIff(db: Db, rows: Rows, other: Db, d: Dir)
    requires Represents(db, rows, other)
    requires d.id !in rows && Entries(d).Keys !! other.Keys
    ensures (exists rows' :: Represents(Overlay(db, DirWrite(map[], None, Some(d))), rows', other)) <==>
            !(exists id :: id in rows && SameName(rows[id], d))
  {
    var w := RowWrite(None, Some(d));
    SameLookups(Overlay(db, map[]), db);
    WriteSwapsEntries(db, map[], None, Some(d));
    assert Overlay(db, DirWrite(map[], None, Some(d))) == Swapped(db, w);
    if id :| id in rows && SameName(rows[id], d) {
      forall rows' ensures !Represents(Swapped(db, w), rows', other) {
        NoTableAfterTakenName(db, rows, other, d, id, rows');
      }
    } else {
      SwapRefines(db, rows, other, w);
    }
  }

  lemma NoTableAfterTakenName(db: Db, rows: Rows, other: Db, d: Dir, id: U64, rows': Rows)
    requires Represents(db, rows, other) && id in rows && SameName(rows[id], d) && d.id !in rows
    ensures !Represents(Swapped(db, RowWrite(None, Some(d))), rows', other)
  {
    InodeKept(db, rows[id], d);
    assert InSomeRow(rows, IdKey(InodeCF, id)) by { assert IdKey(InodeCF, id) in Entries(rows[id]); }
    TwoInodesOneDent(Swapped(db, RowWrite(None, Some(d))), rows', other, rows[id], d);
  }

  /** The old inode still asks for a dent that names it, and the dent names the new one. */
  lemma TwoInodesOneDent(db: Db, rows: Rows, other: Db, r: Dir, d: Dir)
    requires SameName(r, d) && r.id != d.id && IdKey(InodeCF, r.id) !in other
    requires Lookup(db, IdKey(InodeCF, r.id)) == Some(InodeDir(r.parentId, r.name, r.id, r.ctime))
    requires Lookup(db, NameKey(d.parentId, d.name)) == Some(DEntDir(d.parentId, d.name, d.id))
    ensures !Represents(db, rows, other)
  {
    var ik := IdKey(InodeCF, r.id);
    if InSomeRow(rows, ik) {
      var j :| j in rows && ik in Entries(rows[j]);
      RepointedDent(db, r, d, rows[j]);
    }
  }

  lemma InodeKept(db: Db, r: Dir, d: Dir)
    requires Holds(db, Entries(r)) && r.id != d.id
    ensures var db' := Swapped(db, RowWrite(None, Some(d)));
            && Lookup(db', IdKey(InodeCF, r.id)) == Some(InodeDir(r.parentId, r.name, r.id, r.ctime))
            && Lookup(db', NameKey(d.parentId, d.name)) == Some(DEntDir(d.parentId, d.name, d.id))
  {
    EntryLookups(db, r);
    SwapStores(db, RowWrite(None, Some(d)));
    EntryLookups(Swapped(db, RowWrite(None, Some(d))), d);
    Encode64Injective(r.id, d.id);
    assert IdKey(InodeCF, r.id) !in Entries(d);
  }

  lemma RepointedDent(db: Db, r: Dir, d: Dir, r': Dir)
    requires SameName(r, d) && r.id != d.id
    requires Lookup(db, IdKey(InodeCF, r.id)) == Some(InodeDir(r.parentId, r.name, r.id, r.ctime))
    requires Lookup(db, NameKey(d.parentId, d.name)) == Some(DEntDir(d.parentId, d.name, d.id))
    requires IdKey(InodeCF, r.id) in Entries(r')
    ensures !Holds(db, Entries(r'))
  {
  }

  // --------------------------------------------------------- reading back

  /** A stored row read by id gives every field but the acl; read by name, only parent, name and id. */
  lemma ReadStored(db: Db, d: Dir)
    requires Holds(db, Entries(d))
    ensures ReadDir(db, d.id) == Found(d.(acl := NO_ACL))
    ensures ReadDent(db, d.parentId, d.name) == Found(Dir(d.parentId, d.name, d.id, NO_ACL, 0, 0, 0))
  {
    TimeRoundTrip(d.mtime);
    TimeRoundTrip(d.atime);
    EntryLookups(db, d);
  }

  /** Transactions committed one after another, each a sequence of Writes. */
  function CommitAll(db: Db, txns: seq<seq<RowWrite>>): Db {
    if |txns| == 0 then db
    else Overlay(CommitAll(db, txns[..|txns| - 1]), DirWrites(map[], txns[|txns| - 1]))
  }

  predicate Avoids(d: Dir, w: RowWrite) {
    && (w.orig.Some? ==> w.orig.value.id != d.id && !SameName(w.orig.value, d))
    && (w.mod.Some? ==> w.mod.value.id != d.id && !SameName(w.mod.value, d))
  }

  lemma WriteTouches(ws: WriteSet, w: RowWrite, k: Key)
    requires k !in ws && k !in EntriesOf(w.orig) && k !in EntriesOf(w.mod)
    ensures k !in DirWrite(ws, w.orig, w.mod)
  {
    if k.cf.DefaultCF? {
      WriteLeavesDefault(ws, w.orig, w.mod, k);
    } else {
      var c := CodecFor(k.cf);
      WriteByFamily(ws, c, w.orig, w.mod, k);
      if w.orig.Some? { EntryAt(w.orig.value, c, k); }
      if w.mod.Some? { EntryAt(w.mod.value, c, k); }
    }
  }

  lemma {:induction false} WritesAvoid(d: Dir, writes: seq<RowWrite>, k: Key)
    requires forall w :: w in writes ==> Avoids(d, w)
    requires k in Entries(d)
    ensures k !in DirWrites(map[], writes)
    decreases |writes|
  {
    if |writes| > 0 {
      var w := writes[|writes| - 1];
      assert w in writes;
      WritesAvoid(d, writes[..|writes| - 1], k);
      if w.orig.Some? { RowsShareKeys(d, w.orig.value); }
      if w.mod.Some? { RowsShareKeys(d, w.mod.value); }
      WriteTouches(DirWrites(map[], writes[..|writes| - 1]), w, k);
    }
  }

  lemma {:induction false} RowSurvives(db: Db, d: Dir, txns: seq<seq<RowWrite>>)
    requires Holds(db, Entries(d))
    requires forall t, w :: t in txns && w in t ==> Avoids(d, w)
    ensures Holds(CommitAll(db, txns), Entries(d))
    decreases |txns|
  {
    if |txns| > 0 {
      var t := txns[|txns| - 1];
      assert t in txns;
      RowSurvives(db, d, txns[..|txns| - 1]);
      forall k | k in Entries(d) ensures Lookup(CommitAll(db, txns), k) == Some(Entries(d)[k]) {
        WritesAvoid(d, t, k);
      }
    }
  }

  /**
    Write/read round trip: a row created and committed reads back, by id with every
    field but the acl and by name with parent, name and id, after any later
    transactions on rows with other ids and other (parent, name).
   */
  lemma RoundTrip(db: Db, d: Dir, txns: seq<seq<RowWrite>>)
    requires forall t, w :: t in txns && w in t ==> Avoids(d, w)
    ensures var db' := CommitAll(Overlay(db, DirWrite(map[], None, Some(d))), txns);
            && ReadDir(db', d.id) == Found(d.(acl := NO_ACL))
            && ReadDent(db', d.parentId, d.name) == Found(Dir(d.parentId, d.name, d.id, NO_ACL, 0, 0, 0))
  {
    var db1 := Overlay(db, DirWrite(map[], None, Some(d)));
    WriteSwapsEntries(db, map[], None, Some(d));
    assert Holds(db1, Entries(d));
    RowSurvives(db1, d, txns);
    ReadStored(CommitAll(db1, txns), d);
  }
}

/**
  What mkdir runs leave behind, told from the requests alone. The ledger of a run
  lists what was granted, in commit order: a request with the id and the time it
  drew. Reading the database by id or by name then gives the last entry of the
  ledger for that id or name, whatever the interleaving.
 */
module MkdirLedger {
  import opened ByteStrings
  import opened KvTypes
  import opened Serde
  import opened DirTable
  import opened Mkdirs
  import TableRefinement

  datatype Creation = Creation(req: Request, id: U64, now: I64)

  /** The row a creation asks for, as far as rows are stored. */
  function RowOf(c: Creation): Dir {
    Dir(c.req.parentId, c.req.name, c.id, NO_ACL, c.now, c.now, c.now)
  }

  /** What each op's latest effective draw gave it. */
  ghost function Granted(w: World, es: seq<Event>): map<int, Creation> {
    if |es| == 0 then map[]
    else
      var before, e := es[..|es| - 1], es[|es| - 1];
      var open := Run(w, before).open;
      if e.Draw? && e.op in open && open[e.op].made.None? then Granted(w, before)[e.op := Creation(open[e.op].req, e.id, e.now)]
      else Granted(w, before)
  }

  /** The granted creations whose commit was accepted, in commit order. */
  ghost function Ledger(w: World, es: seq<Event>): seq<Creation> {
    if |es| == 0 then []
    else
      var before, e := es[..|es| - 1], es[|es| - 1];
      if e.Finish? && e.accepted && Waiting(w, before, e.op) then Ledger(w, before) + [Granted(w, before)[e.op]] else Ledger(w, before)
  }

  /** The op has drawn its id and not finished. */
  ghost predicate Waiting(w: World, es: seq<Event>, op: int) {
    op in Run(w, es).open && Run(w, es).open[op].made.Some? && op in Granted(w, es)
  }

  /** A database with the rows of a ledger stored over it, one after the other. */
  ghost function Image(db: Db, cs: seq<Creation>): Db {
    if |cs| == 0 then db else Image(db, cs[..|cs| - 1]) + Entries(RowOf(cs[|cs| - 1]))
  }

  // --------------------------------------------------- runs follow the ledger

  /** The row an op is about to write is the one its request and its draw ask for. */
  ghost predicate AsAsked(d: Dir, c: Creation) {
    d.(acl := NO_ACL) == RowOf(c)
  }

  ghost predicate OpenAsAsked(open: map<int, Pending>, granted: map<int, Creation>) {
    forall op :: op in open && open[op].made.Some? ==> op in granted && AsAsked(open[op].made.value, granted[op])
  }

  lemma NewDirAsAsked(parent: Dir, req: Request, id: U64, now: I64)
    ensures AsAsked(NewDir(parent, req, id, now), Creation(req, id, now))
  {
  }

  lemma EntriesAsAsked(d: Dir, c: Creation)
    requires AsAsked(d, c)
    ensures Entries(d) == Entries(RowOf(c))
  {
  }

  lemma OpenStep(w: World, e: Event, granted: map<int, Creation>)
    requires OpenAsAsked(w.open, granted)
    ensures var granted' := if e.Draw? && e.op in w.open && w.open[e.op].made.None?
                            then granted[e.op := Creation(w.open[e.op].req, e.id, e.now)] else granted;
            OpenAsAsked(Step(w, e).open, granted')
  {
    if e.Draw? && e.op in w.open && w.open[e.op].made.None? {
      var p := w.open[e.op];
      var decision := Decide(p.snapshot, p.req);
      if decision.Make? { NewDirAsAsked(decision.parent, p.req, e.id, e.now); }
    }
  }

  lemma {:induction false} RunFollowsLedger(w: World, es: seq<Event>)
    requires w.open == map[]
    ensures OpenAsAsked(Run(w, es).open, Granted(w, es))
    ensures Run(w, es).db == Image(w.db, Ledger(w, es))
    decreases |es|
  {
    if |es| > 0 {
      var before, e := es[..|es| - 1], es[|es| - 1];
      var s := Run(w, before);
      RunFollowsLedger(w, before);
      OpenStep(s, e, Granted(w, before));
      DbStep(w, before, e);
    }
  }

  lemma DbStep(w: World, before: seq<Event>, e: Event)
    requires OpenAsAsked(Run(w, before).open, Granted(w, before)) && Run(w, before).db == Image(w.db, Ledger(w, before))
    ensures Step(Run(w, before), e).db ==
            if e.Finish? && e.accepted && Waiting(w, before, e.op) then Image(w.db, Ledger(w, before) + [Granted(w, before)[e.op]])
            else Image(w.db, Ledger(w, before))
  {
    var s := Run(w, before);
    if e.Finish? && e.op in s.open && s.open[e.op].made.Some? {
      var d, c := s.open[e.op].made.value, Granted(w, before)[e.op];
      CreateAddsEntries(s.db, d);
      EntriesAsAsked(d, c);
      ImageAppend(w.db, Ledger(w, before), c);
    }
  }

  lemma ImageAppend(db: Db, cs: seq<Creation>, c: Creation)
    ensures Image(db, cs + [c]) == Image(db, cs) + Entries(RowOf(c))
  {
    assert (cs + [c])[..|cs|] == cs;
  }

  // ------------------------------------------------------ reading an image

  /** The last creation under this id, or -1. */
  ghost function LastWithId(cs: seq<Creation>, id: U64): (i: int)
    ensures -1 <= i < |cs| && (i >= 0 ==> cs[i].id == id) && forall j :: i < j < |cs| ==> cs[j].id != id
  {
    if |cs| == 0 then -1 else if cs[|cs| - 1].id == id then |cs| - 1 else LastWithId(cs[..|cs| - 1], id)
  }

  /** The last creation of this (parent, name), or -1. */
  ghost function LastNamed(cs: seq<Creation>, parentId: U64, name: Bytes): (i: int)
    ensures -1 <= i < |cs| && (i >= 0 ==> cs[i].req.parentId == parentId && cs[i].req.name == name)
    ensures forall j :: i < j < |cs| ==> !(cs[j].req.parentId == parentId && cs[j].req.name == name)
  {
    if |cs| == 0 then -1
    else if cs[|cs| - 1].req.parentId == parentId && cs[|cs| - 1].req.name == name then |cs| - 1
    else LastNamed(cs[..|cs| - 1], parentId, name)
  }

  lemma ReadOverRow(db: Db, r: Dir, id: U64)
    requires r.acl == NO_ACL
    ensures ReadDir(db + Entries(r), id) == if id == r.id then Found(r) else ReadDir(db, id)
  {
    if id == r.id {
      TableRefinement.ReadStored(db + Entries(r), r);
    } else {
      Encode64Injective(id, r.id);
    }
  }

  lemma ReadDentOverRow(db: Db, r: Dir, parentId: U64, name: Bytes)
    ensures ReadDent(db + Entries(r), parentId, name) ==
            if parentId == r.parentId && name == r.name then Found(Dir(parentId, name, r.id, NO_ACL, 0, 0, 0)) else ReadDent(db, parentId, name)
  {
    if parentId == r.parentId && name == r.name {
      TableRefinement.ReadStored(db + Entries(r), r);
    } else {
      DentKeyInjective(parentId, name, r.parentId, r.name);
    }
  }

  lemma {:induction false} ReadImage(db: Db, cs: seq<Creation>, id: U64)
    ensures var i := LastWithId(cs, id); ReadDir(Image(db, cs), id) == if i >= 0 then Found(RowOf(cs[i])) else ReadDir(db, id)
    decreases |cs|
  {
    if |cs| > 0 {
      ReadImage(db, cs[..|cs| - 1], id);
      ReadOverRow(Image(db, cs[..|cs| - 1]), RowOf(cs[|cs| - 1]), id);
    }
  }

  lemma {:induction false} ReadDentImage(db: Db, cs: seq<Creation>, parentId: U64, name: Bytes)
    ensures var i := LastNamed(cs, parentId, name);
            ReadDent(Image(db, cs), parentId, name) ==
            if i >= 0 then Found(Dir(parentId, name, cs[i].id, NO_ACL, 0, 0, 0)) else ReadDent(db, parentId, name)
    decreases |cs|
  {
    if |cs| > 0 {
      ReadDentImage(db, cs[..|cs| - 1], parentId, name);
      ReadDentOverRow(Image(db, cs[..|cs| - 1]), RowOf(cs[|cs| - 1]), parentId, name);
    }
  }

  /**
    What a mkdir run leaves to be read. Over any database, however the ops interleave,
    whichever commits are accepted and whatever ids are drawn: a read by id gives the
    last creation granted under that id with the requested parent and name and the time
    drawn; a read by name gives the id of the last creation of that name; and where
    nothing was created the reads are those of the initial database.
   */
  lemma ReadsFollowLedger(w: World, es: seq<Event>, id: U64, parentId: U64, name: Bytes)
    requires w.open == map[]
    ensures var db, cs := Run(w, es).db, Ledger(w, es);
            var i, j := LastWithId(cs, id), LastNamed(cs, parentId, name);
            && ReadDir(db, id) == (if i >= 0 then Found(Dir(cs[i].req.parentId, cs[i].req.name, id, NO_ACL, cs[i].now, cs[i].now, cs[i].now))
                                   else ReadDir(w.db, id))
            && ReadDent(db, parentId, name) == (if j >= 0 then Found(Dir(parentId, name, cs[j].id, NO_ACL, 0, 0, 0))
                                                else ReadDent(w.db, parentId, name))
  {
    RunFollowsLedger(w, es);
    ReadImage(w.db, Ledger(w, es), id);
    ReadDentImage(w.db, Ledger(w, es), parentId, name);
  }

  /** One create, over any database: the new directory reads back as asked, by id and by name, and no other read changes. */
  lemma CreateReadsBack(db: Db, req: Request, id: U64, now: I64, other: U64, parentId: U64, name: Bytes)
    requires Decide(db, req).Make?
    ensures var db' := AfterCreate(db, NewDir(Decide(db, req).parent, req, id, now));
            && ReadDir(db', id) == Found(Dir(req.parentId, req.name, id, NO_ACL, now, now, now))
            && ReadDent(db', req.parentId, req.name) == Found(Dir(req.parentId, req.name, id, NO_ACL, 0, 0, 0))
            && (other != id ==> ReadDir(db', other) == ReadDir(db, other))
            && ((parentId, name) != (req.parentId, req.name) ==> ReadDent(db', parentId, name) == ReadDent(db, parentId, name))
  {
    var d, c := NewDir(Decide(db, req).parent, req, id, now), Creation(req, id, now);
    NewDirAsAsked(Decide(db, req).parent, req, id, now);
    CreateAddsEntries(db, d);
    EntriesAsAsked(d, c);
    ReadOverRow(db, RowOf(c), id);
    ReadOverRow(db, RowOf(c), other);
    ReadDentOverRow(db, RowOf(c), req.parentId, req.name);
    ReadDentOverRow(db, RowOf(c), parentId, name);
  }
}

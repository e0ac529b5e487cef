/**
  Runs of the transactional store with any number of transactions live at once.

  A run is a sequence of calls, each one atomic. The state keeps, beside the
  fields of the store, history variables: the initial database, the committed
  transactions in commit order, the refused ones, and every value a Get returned.
  No call of the source depends on them; only Record, below, reads the commits.

  Record is the insertion into committed_txns_ that the conflict detector relies
  on and that the source never performs. Runs without Record and PurgeTo are the
  runs of the code as written.
 */
module StoreRuns {
  import opened KvTypes
  import opened TxnStore

  /** What a Get returned, and whether it entered the read set. */
  datatype Read = Read(key: Key, value: Option<Value>, tracked: bool)

  datatype Live = Live(txn: TxnView, seen: seq<Read>)

  datatype State = State(
    initial: Db,
    db: Db,
    version: int,
    detector: DetectorView,
    live: map<int, Live>,
    commits: seq<Live>,
    refused: seq<TxnView>)

  /** A transaction is named by its start version. */
  datatype Event =
    | Start
    | Get(t: int, key: Key, exclude: bool)
    | AddRead(t: int, key: Key, o: Observation)
    | Put(t: int, key: Key, value: Value)
    | Del(t: int, key: Key)
    | Commit(t: int)
    | Record(i: nat)
    | PurgeTo(version: int)

  function Init(db: Db): State {
    State(db, db, 1, DetectorView(map[], 0), map[], [], [])
  }

  /** The effect of a call on the transaction it is made on. */
  function Touch(l: Live, e: Event): Live {
    match e
    case Get(_, k, ex) => Live(AfterGet(l.txn, k, ex), l.seen + [Read(k, Lookup(l.txn.snapshot, k), !ex)])
    case AddRead(_, k, o) => l.(txn := AfterAddRead(l.txn, k, o))
    case Put(_, k, v) => l.(txn := l.txn.(writeSet := l.txn.writeSet[k := Some(v)]))
    case Del(_, k) => l.(txn := l.txn.(writeSet := l.txn.writeSet[k := None]))
    case _ => l
  }

  function CommitOf(s: State, t: int): CommitResult
    requires t in s.live
  {
    TxnStore.Commit(s.db, s.version, s.detector, s.live[t].txn)
  }

  predicate Accepted(s: State, t: int) {
    t in s.live && CommitOf(s, t).ok
  }

  function Committed(s: State, t: int): Live
    requires t in s.live
  {
    Live(CommitOf(s, t).txn, s.live[t].seen)
  }

  function CommitStep(s: State, t: int): State
    requires t in s.live
  {
    var s' := s.(db := CommitOf(s, t).db, version := CommitOf(s, t).version, live := s.live - {t});
    if Accepted(s, t) then s'.(commits := s.commits + [Committed(s, t)])
    else s'.(refused := s.refused + [CommitOf(s, t).txn])
  }

  /** One call. A call on a transaction that is not live does nothing. */
  function Step(s: State, e: Event): State {
    match e
    case Start => s.(version := s.version + 1, live := s.live[s.version := Live(Fresh(s.db, s.version), [])])
    case Commit(t) => if t in s.live then CommitStep(s, t) else s
    case Record(i) =>
      if i >= |s.commits| then s else
        var c := s.commits[i].txn;
        s.(detector := s.detector.(log := s.detector.log[c.commitVersion := c]))
    case PurgeTo(v) => s.(detector := Purged(s.detector, v))
    case _ => if e.t in s.live then s.(live := s.live[e.t := Touch(s.live[e.t], e)]) else s
  }

  function Run(s: State, es: seq<Event>): State {
    if |es| == 0 then s else Step(Run(s, es[..|es| - 1]), es[|es| - 1])
  }

  /** The database after running the given transactions one at a time. */
  function Replay(initial: Db, commits: seq<Live>): Db {
    if |commits| == 0 then initial
    else Overlay(Replay(initial, commits[..|commits| - 1]), commits[|commits| - 1].txn.writeSet)
  }

  /** In this one-at-a-time order every tracked read returns what it returned in the run. */
  ghost predicate ReadsFit(initial: Db, order: seq<Live>) {
    forall i, r :: 0 <= i < |order| && r in order[i].seen && r.tracked ==>
      r.value == Lookup(Replay(initial, order[..i]), r.key)
  }

  /** Equivalent to running the committed transactions alone, in commit-version order. */
  ghost predicate Serializable(s: State) {
    ReadsFit(s.initial, s.commits) && s.db == Replay(s.initial, s.commits)
  }

  /** Every committed transaction above the purge mark is in the detector's log. */
  ghost predicate LogComplete(s: State) {
    forall i :: 0 <= i < |s.commits| && s.commits[i].txn.commitVersion > s.detector.purged ==>
      s.commits[i].txn.commitVersion in s.detector.log &&
      s.detector.log[s.commits[i].txn.commitVersion] == s.commits[i].txn
  }

  /** The hypothesis of the serializability theorem: the log is complete whenever a commit consults it. */
  ghost predicate CompleteAtCommits(s: State, es: seq<Event>) {
    |es| > 0 ==>
      && CompleteAtCommits(s, es[..|es| - 1])
      && (es[|es| - 1].Commit? ==> LogComplete(Run(s, es[..|es| - 1])))
  }

  // ------------------------------------------------------------ invariant

  function CommitVersion(l: Live): int { l.txn.commitVersion }

  /** How many of these commits precede version v. */
  function Before(commits: seq<Live>, v: int): (c: nat)
    ensures c <= |commits|
    ensures forall i :: c <= i < |commits| ==> CommitVersion(commits[i]) >= v
    ensures c > 0 ==> CommitVersion(commits[c - 1]) < v
  {
    if |commits| == 0 then 0
    else if CommitVersion(commits[|commits| - 1]) < v then |commits|
    else Before(commits[..|commits| - 1], v)
  }

  ghost predicate Versions(s: State) {
    && s.version >= 1
    && (forall i :: 0 <= i < |s.commits| ==>
          0 < s.commits[i].txn.startVersion < CommitVersion(s.commits[i]) < s.version)
    && (forall i, j :: 0 <= i < j < |s.commits| ==> CommitVersion(s.commits[i]) < CommitVersion(s.commits[j]))
    && (forall t :: t in s.live ==> 0 < t < s.version && s.live[t].txn.startVersion == t)
    && (forall t, i :: t in s.live && 0 <= i < |s.commits| ==> t != CommitVersion(s.commits[i]))
  }

  /** l read only the database as it was after the commits with smaller versions. */
  ghost predicate ReadsSnapshot(initial: Db, commits: seq<Live>, l: Live) {
    && l.txn.snapshot == Replay(initial, commits[..Before(commits, l.txn.startVersion)])
    && SeenInSnapshot(l)
  }

  ghost predicate SeenInSnapshot(l: Live) {
    forall r :: r in l.seen ==>
      r.value == Lookup(l.txn.snapshot, r.key) && (r.tracked ==> r.key in l.txn.readSet)
  }

  ghost predicate LiveRead(initial: Db, commits: seq<Live>, live: map<int, Live>) {
    forall t :: t in live ==> ReadsSnapshot(initial, commits, live[t])
  }

  ghost predicate CommitsRead(initial: Db, commits: seq<Live>, part: seq<Live>) {
    forall l :: l in part ==> ReadsSnapshot(initial, commits, l)
  }

  ghost predicate Snapshots(s: State) {
    LiveRead(s.initial, s.commits, s.live) && CommitsRead(s.initial, s.commits, s.commits)
  }

  ghost predicate LogSound(log: map<int, TxnView>, commits: seq<Live>) {
    forall v :: v in log ==>
      log[v].commitVersion == v && exists i :: 0 <= i < |commits| && log[v] == commits[i].txn
  }

  ghost predicate Inv(s: State) {
    && Versions(s)
    && Snapshots(s)
    && LogSound(s.detector.log, s.commits)
    && s.db == Replay(s.initial, s.commits)
  }

  lemma VersionsCommit(s: State, t: int)
    requires Versions(s) && t in s.live
    ensures Versions(CommitStep(s, t))
  {
  }

  lemma VersionsStep(s: State, e: Event)
    requires Versions(s)
    ensures Versions(Step(s, e))
  {
    if e.Commit? && e.t in s.live { VersionsCommit(s, e.t); }
  }

  /** A commit at or above l's start version leaves l's view of the past alone. */
  lemma LaterCommitUnseen(initial: Db, commits: seq<Live>, c: Live, l: Live)
    requires ReadsSnapshot(initial, commits, l)
    requires CommitVersion(c) >= l.txn.startVersion
    ensures ReadsSnapshot(initial, commits + [c], l)
  {
    assert (commits + [c])[..|commits|] == commits;
    var n := Before(commits, l.txn.startVersion);
    assert Before(commits + [c], l.txn.startVersion) == n;
    assert (commits + [c])[..n] == commits[..n];
  }

  lemma BeforeAll(commits: seq<Live>, v: int)
    requires forall i :: 0 <= i < |commits| ==> CommitVersion(commits[i]) < v
    ensures Before(commits, v) == |commits| && commits[..|commits|] == commits
  {
  }

  lemma TouchReadsSnapshot(initial: Db, commits: seq<Live>, l: Live, e: Event)
    requires ReadsSnapshot(initial, commits, l)
    ensures ReadsSnapshot(initial, commits, Touch(l, e))
  {
  }

  lemma LiveReadAppend(initial: Db, commits: seq<Live>, live: map<int, Live>, c: Live)
    requires LiveRead(initial, commits, live)
    requires forall t :: t in live ==> live[t].txn.startVersion <= CommitVersion(c)
    ensures LiveRead(initial, commits + [c], live)
  {
    forall t | t in live ensures ReadsSnapshot(initial, commits + [c], live[t]) {
      LaterCommitUnseen(initial, commits, c, live[t]);
    }
  }

  lemma CommitsReadAppend(initial: Db, commits: seq<Live>, part: seq<Live>, c: Live)
    requires CommitsRead(initial, commits, part)
    requires forall l :: l in part ==> l.txn.startVersion <= CommitVersion(c)
    requires ReadsSnapshot(initial, commits + [c], c)
    ensures CommitsRead(initial, commits + [c], part + [c])
  {
    forall l | l in part + [c] ensures ReadsSnapshot(initial, commits + [c], l) {
      if l in part { LaterCommitUnseen(initial, commits, c, l); }
    }
  }

  lemma SnapshotsCommit(s: State, t: int)
    requires Versions(s) && Snapshots(s) && Accepted(s, t)
    ensures Snapshots(CommitStep(s, t))
  {
    var c := Committed(s, t);
    LiveReadAppend(s.initial, s.commits, s.live, c);
    SameReads(s.initial, s.commits + [c], s.live[t], c);
    CommitsReadAppend(s.initial, s.commits, s.commits, c);
  }

  lemma SameReads(initial: Db, commits: seq<Live>, l: Live, c: Live)
    requires ReadsSnapshot(initial, commits, l)
    requires c == l.(txn := l.txn.(commitVersion := c.txn.commitVersion))
    ensures ReadsSnapshot(initial, commits, c)
  {
  }

  lemma SnapshotsStart(s: State)
    requires Inv(s)
    ensures Snapshots(Step(s, Start))
  {
    BeforeAll(s.commits, s.version);
    assert ReadsSnapshot(s.initial, s.commits, Live(Fresh(s.db, s.version), []));
  }

  lemma SnapshotsStep(s: State, e: Event)
    requires Inv(s)
    ensures Snapshots(Step(s, e))
  {
    match e
    case Start => SnapshotsStart(s);
    case Commit(t) => if Accepted(s, t) { SnapshotsCommit(s, t); }
    case Record(i) =>
    case PurgeTo(v) =>
    case _ => if e.t in s.live { TouchReadsSnapshot(s.initial, s.commits, s.live[e.t], e); }
  }

  lemma LogSoundStep(s: State, e: Event)
    requires LogSound(s.detector.log, s.commits)
    ensures LogSound(Step(s, e).detector.log, Step(s, e).commits)
  {
    var s' := Step(s, e);
    forall v | v in s'.detector.log
      ensures s'.detector.log[v].commitVersion == v && exists i :: 0 <= i < |s'.commits| && s'.detector.log[v] == s'.commits[i].txn
    {
      if v in s.detector.log && s'.detector.log[v] == s.detector.log[v] {
        var i :| 0 <= i < |s.commits| && s.detector.log[v] == s.commits[i].txn;
        assert s'.commits[i] == s.commits[i];
      } else {
        assert s'.commits[e.i] == s.commits[e.i];
      }
    }
  }

  lemma ReplayAppend(initial: Db, commits: seq<Live>, c: Live)
    ensures Replay(initial, commits + [c]) == Overlay(Replay(initial, commits), c.txn.writeSet)
  {
  }

  lemma OnlyCommitsChangeHistory(s: State, e: Event)
    requires !e.Commit? || !Accepted(s, e.t)
    ensures var s' := Step(s, e);
            s'.initial == s.initial && s'.db == s.db && s'.commits == s.commits &&
            (e.Record? || e.PurgeTo? || s'.detector == s.detector)
  {
  }

  lemma DbStep(s: State, e: Event)
    requires s.db == Replay(s.initial, s.commits)
    ensures Step(s, e).db == Replay(s.initial, Step(s, e).commits) && Step(s, e).initial == s.initial
  {
    if e.Commit? && Accepted(s, e.t) {
      ReplayAppend(s.initial, s.commits, Committed(s, e.t));
    } else {
      OnlyCommitsChangeHistory(s, e);
    }
  }

  lemma InvStep(s: State, e: Event)
    requires Inv(s)
    ensures Inv(Step(s, e)) && Step(s, e).initial == s.initial
  {
    VersionsStep(s, e);
    SnapshotsStep(s, e);
    LogSoundStep(s, e);
    DbStep(s, e);
  }

  lemma {:induction false} InvRun(db: Db, es: seq<Event>)
    ensures Inv(Run(Init(db), es)) && Run(Init(db), es).initial == db
    decreases |es|
  {
    if |es| > 0 {
      InvRun(db, es[..|es| - 1]);
      InvStep(Run(Init(db), es[..|es| - 1]), es[|es| - 1]);
    }
  }
}

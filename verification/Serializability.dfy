/**
  What every run of the store keeps, and when its history is serializable: the
  theorem the conflict detector is built for, what the detector's verdict means
  exactly, and what the store does as written.
 */
module Serializability {
  import opened KvTypes
  import opened TxnStore
  import opened StoreRuns

  // ------------------------------------------------- what every run keeps

  /**
    Version discipline. The CHECKs on versions hold for any live transaction that
    commits next, whatever has been recorded and purged, and no version is both
    some transaction's start and some transaction's commit.
   */
  lemma ChecksAlwaysPass(db: Db, es: seq<Event>, t: int)
    requires t in Run(Init(db), es).live
    ensures var s := Run(Init(db), es);
            && ChecksPass(s.detector, CommitOf(s, t).txn)
            && (forall i :: 0 <= i < |s.commits| ==>
                  s.commits[i].txn.startVersion < CommitVersion(s.commits[i]) < s.version &&
                  t != CommitVersion(s.commits[i]))
            && (forall i, j :: 0 <= i < j < |s.commits| ==> CommitVersion(s.commits[i]) < CommitVersion(s.commits[j]))
  {
    InvRun(db, es);
    var s := Run(Init(db), es);
    forall v | v in s.detector.log && t <= v ensures t < v < s.version && s.detector.log[v].commitVersion == v {
      var i :| 0 <= i < |s.commits| && s.detector.log[v] == s.commits[i].txn;
      assert v == CommitVersion(s.commits[i]);
    }
  }

  /** No version of one transaction is a version of the other. */
  predicate Apart(a: TxnView, b: TxnView) {
    && a.startVersion != b.startVersion && a.commitVersion != b.commitVersion
    && a.startVersion != b.commitVersion && b.startVersion != a.commitVersion
  }

  /** These transactions ended before `version` and none of them is live. */
  ghost predicate AllEnded(ts: seq<TxnView>, version: int, live: set<int>) {
    forall i :: 0 <= i < |ts| ==>
      0 < ts[i].startVersion < ts[i].commitVersion < version && ts[i].startVersion !in live && ts[i].commitVersion !in live
  }

  ghost predicate AllApart(ts: seq<TxnView>) {
    forall i, j :: 0 <= i < j < |ts| ==> Apart(ts[i], ts[j])
  }

  ghost predicate CrossApart(ts: seq<TxnView>, us: seq<TxnView>) {
    forall i, j :: 0 <= i < |ts| && 0 <= j < |us| ==> Apart(ts[i], us[j])
  }

  ghost function Txns(commits: seq<Live>): (ts: seq<TxnView>)
    ensures |ts| == |commits| && forall i :: 0 <= i < |ts| ==> ts[i] == commits[i].txn
  {
    seq(|commits|, i requires 0 <= i < |commits| => commits[i].txn)
  }

  /** The versions of live, committed and refused transactions are all different. */
  ghost predicate VersionsApart(s: State) {
    && AllEnded(Txns(s.commits), s.version, s.live.Keys) && AllEnded(s.refused, s.version, s.live.Keys)
    && AllApart(Txns(s.commits)) && AllApart(s.refused) && CrossApart(Txns(s.commits), s.refused)
  }

  /** One start for every transaction, and a commit version for every one that ended. */
  ghost predicate AllVersionsUsed(s: State) {
    s.version - 1 == |s.live| + 2 * |s.commits| + 2 * |s.refused|
  }

  lemma EndedAppend(ts: seq<TxnView>, us: seq<TxnView>, c: TxnView, live: set<int>)
    requires AllEnded(ts, c.commitVersion, live) && AllEnded(us, c.commitVersion, live)
    requires AllApart(ts) && CrossApart(ts, us) && c.startVersion in live && 0 < c.startVersion < c.commitVersion
    requires forall t :: t in live ==> t < c.commitVersion
    ensures AllEnded(ts + [c], c.commitVersion + 1, live - {c.startVersion})
    ensures AllEnded(us, c.commitVersion + 1, live - {c.startVersion})
    ensures AllApart(ts + [c]) && CrossApart(ts + [c], us) && CrossApart(us, ts + [c])
  {
  }

  lemma VersionsApartCommit(s: State, t: int)
    requires Versions(s) && VersionsApart(s) && t in s.live
    ensures VersionsApart(CommitStep(s, t))
  {
    var c := CommitOf(s, t).txn;
    var live := s.live.Keys;
    assert (s.live - {t}).Keys == live - {t};
    if Accepted(s, t) {
      EndedAppend(Txns(s.commits), s.refused, c, live);
      assert Txns(s.commits + [Committed(s, t)]) == Txns(s.commits) + [c];
    } else {
      assert CrossApart(s.refused, Txns(s.commits));
      EndedAppend(s.refused, Txns(s.commits), c, live);
    }
  }

  lemma VersionsUsedCommit(s: State, t: int)
    requires t in s.live && AllVersionsUsed(s)
    ensures AllVersionsUsed(CommitStep(s, t))
  {
    assert (s.live - {t}).Keys == s.live.Keys - {t};
  }

  lemma VersionsUsedStep(s: State, e: Event)
    requires Versions(s) && AllVersionsUsed(s)
    ensures AllVersionsUsed(Step(s, e))
  {
    match e
    case Start => assert Step(s, e).live.Keys == s.live.Keys + {s.version};
    case Commit(t) => if t in s.live { VersionsUsedCommit(s, t); }
    case Record(i) =>
    case PurgeTo(v) =>
    case _ => assert Step(s, e).live.Keys == s.live.Keys;
  }

  lemma VersionsApartStep(s: State, e: Event)
    requires Versions(s) && VersionsApart(s)
    ensures VersionsApart(Step(s, e))
  {
    if e.Commit? && e.t in s.live { VersionsApartCommit(s, e.t); }
  }

  /**
    Every version below the next one was handed out exactly once: as the start of one
    transaction or as the commit of one that ended, whether accepted or refused.
   */
  lemma {:induction false} VersionsHandedOutOnce(db: Db, es: seq<Event>)
    ensures VersionsApart(Run(Init(db), es)) && AllVersionsUsed(Run(Init(db), es))
    decreases |es|
  {
    if |es| > 0 {
      var before, e := es[..|es| - 1], es[|es| - 1];
      VersionsHandedOutOnce(db, before);
      InvRun(db, before);
      VersionsApartStep(Run(Init(db), before), e);
      VersionsUsedStep(Run(Init(db), before), e);
    }
  }

  /**
    Repeatable snapshot reads: every Get a live transaction ever made returned what
    replaying exactly the commits older than its start gives.
   */
  lemma RepeatableReads(db: Db, es: seq<Event>, t: int, n: nat)
    requires t in Run(Init(db), es).live
    requires n <= |Run(Init(db), es).commits|
    requires forall i :: 0 <= i < |Run(Init(db), es).commits| ==>
               (i < n <==> CommitVersion(Run(Init(db), es).commits[i]) < t)
    ensures forall r :: r in Run(Init(db), es).live[t].seen ==>
              r.value == Lookup(Replay(db, Run(Init(db), es).commits[..n]), r.key)
  {
    InvRun(db, es);
    var s := Run(Init(db), es);
    assert ReadsSnapshot(s.initial, s.commits, s.live[t]);
    BeforeIs(s.commits, t, n);
  }

  lemma {:induction false} BeforeIs(commits: seq<Live>, v: int, n: nat)
    requires n <= |commits|
    requires forall i :: 0 <= i < |commits| ==> (i < n <==> CommitVersion(commits[i]) < v)
    ensures Before(commits, v) == n
    decreases |commits|
  {
    if n < |commits| { BeforeIs(commits[..|commits| - 1], v, n); }
  }

  lemma {:induction false} LookupAcross(initial: Db, commits: seq<Live>, j: nat, k: Key)
    requires j <= |commits|
    requires forall i :: j <= i < |commits| ==> k !in commits[i].txn.writeSet
    ensures Lookup(Replay(initial, commits), k) == Lookup(Replay(initial, commits[..j]), k)
    decreases |commits|
  {
    if j == |commits| {
      assert commits[..j] == commits;
    } else {
      var n := |commits| - 1;
      LookupAcross(initial, commits[..n], j, k);
      assert commits[..n][..j] == commits[..j];
    }
  }

  /** The last of these commits that wrote k, or -1. */
  function LastWriter(commits: seq<Live>, k: Key): (w: int)
    ensures -1 <= w < |commits|
    ensures w >= 0 ==> k in commits[w].txn.writeSet
    ensures forall j :: w < j < |commits| ==> k !in commits[j].txn.writeSet
  {
    if |commits| == 0 then -1
    else if k in commits[|commits| - 1].txn.writeSet then |commits| - 1
    else LastWriter(commits[..|commits| - 1], k)
  }

  /** Per key the last committed Put or Del wins. */
  lemma {:induction false} LastWriteWins(initial: Db, commits: seq<Live>, k: Key)
    ensures var w := LastWriter(commits, k);
            Lookup(Replay(initial, commits), k) == if w < 0 then Lookup(initial, k) else commits[w].txn.writeSet[k]
    decreases |commits|
  {
    if |commits| > 0 && k !in commits[|commits| - 1].txn.writeSet {
      LastWriteWins(initial, commits[..|commits| - 1], k);
    }
  }

  // ----------------------------------------- the detector's verdict, exactly

  /**
    Purge soundness and exactness. With a complete log, the verdict on the trimmed
    log is a refusal of a start older than the purge mark, or else exactly "no
    transaction that committed after t started wrote a key t has read".
   */
  lemma VerdictExact(db: Db, es: seq<Event>, t: int)
    requires LogComplete(Run(Init(db), es)) && t in Run(Init(db), es).live
    ensures var s := Run(Init(db), es);
            Accepted(s, t) <==>
              && s.detector.purged <= t
              && forall i :: 0 <= i < |s.commits| && t < CommitVersion(s.commits[i]) ==>
                   s.commits[i].txn.writeSet.Keys !! s.live[t].txn.readSet.Keys
  {
    InvRun(db, es);
    VerdictInState(Run(Init(db), es), t);
  }

  lemma VerdictInState(s: State, t: int)
    requires Inv(s) && LogComplete(s) && t in s.live
    ensures Accepted(s, t) <==>
              && s.detector.purged <= t
              && forall i :: 0 <= i < |s.commits| && t < CommitVersion(s.commits[i]) ==>
                   s.commits[i].txn.writeSet.Keys !! s.live[t].txn.readSet.Keys
  {
    var log := s.detector.log;
    if Accepted(s, t) {
      forall i | 0 <= i < |s.commits| && t < CommitVersion(s.commits[i])
        ensures s.commits[i].txn.writeSet.Keys !! s.live[t].txn.readSet.Keys
      {
        var v := CommitVersion(s.commits[i]);
        assert v in log && log[v] == s.commits[i].txn;
        assert !HasConflict(CommitOf(s, t).txn, log[v]);
      }
    }
    if s.detector.purged <= t && !Accepted(s, t) {
      var v :| v in log && t <= v && HasConflict(CommitOf(s, t).txn, log[v]);
      var i :| 0 <= i < |s.commits| && log[v] == s.commits[i].txn;
      assert t < CommitVersion(s.commits[i]);
    }
  }

  // ------------------------------------------------------- serializability

  /** The values l tracked are still the database's values. */
  ghost predicate StillCurrent(db: Db, l: Live) {
    forall r :: r in l.seen && r.tracked ==> r.value == Lookup(db, r.key)
  }

  lemma ReadsFitAppend(initial: Db, commits: seq<Live>, c: Live)
    ensures ReadsFit(initial, commits + [c]) <==> ReadsFit(initial, commits) && StillCurrent(Replay(initial, commits), c)
  {
    var all := commits + [c];
    assert all[..|commits|] == commits;
    assert forall i :: 0 <= i < |commits| ==> all[..i] == commits[..i];
    if ReadsFit(initial, all) {
      assert all[|commits|] == c;
      forall i, r | 0 <= i < |commits| && r in commits[i].seen && r.tracked
        ensures r.value == Lookup(Replay(initial, commits[..i]), r.key)
      {
        assert r in all[i].seen;
      }
    }
  }

  /** One accepted commit keeps the history serializable exactly when its tracked reads are still current. */
  lemma CommitKeepsSerializableIff(s: State, t: int)
    requires Inv(s) && Accepted(s, t)
    ensures Serializable(Step(s, Commit(t))) <==> Serializable(s) && StillCurrent(s.db, s.live[t])
  {
    ReadsFitAppend(s.initial, s.commits, Committed(s, t));
    ReplayAppend(s.initial, s.commits, Committed(s, t));
  }

  /** A validated transaction's tracked reads are still current. */
  lemma ValidatedIsCurrent(s: State, t: int)
    requires Inv(s) && LogComplete(s) && Accepted(s, t)
    ensures StillCurrent(s.db, s.live[t])
  {
    VerdictInState(s, t);
    var l := s.live[t];
    assert ReadsSnapshot(s.initial, s.commits, l);
    forall r | r in l.seen && r.tracked ensures r.value == Lookup(s.db, r.key) {
      assert r.key in l.txn.readSet;
      LookupAcross(s.initial, s.commits, Before(s.commits, t), r.key);
    }
  }

  lemma SerializableStep(s: State, e: Event)
    requires Inv(s) && Serializable(s) && (e.Commit? ==> LogComplete(s))
    ensures Serializable(Step(s, e))
  {
    if e.Commit? && Accepted(s, e.t) { ValidatedIsCurrent(s, e.t); }
    SerializableStepIff(s, e);
  }

  /**
    Serializability. In every interleaved run in which the log is complete whenever
    a commit consults it, running the committed transactions one at a time in
    commit-version order gives every tracked point read the value it saw and ends
    in the same database.
   */
  lemma {:induction false} CommitOrderSerializable(db: Db, es: seq<Event>)
    requires CompleteAtCommits(Init(db), es)
    ensures Serializable(Run(Init(db), es))
    decreases |es|
  {
    if |es| > 0 {
      var n := |es| - 1;
      CommitOrderSerializable(db, es[..n]);
      InvRun(db, es[..n]);
      SerializableStep(Run(Init(db), es[..n]), es[n]);
    }
  }

  /** At every accepted commit of the run, the committer's tracked reads were still current. */
  ghost predicate CurrentAtCommits(s: State, es: seq<Event>) {
    |es| > 0 ==>
      && CurrentAtCommits(s, es[..|es| - 1])
      && CommitIsCurrent(Run(s, es[..|es| - 1]), es[|es| - 1])
  }

  ghost predicate CommitIsCurrent(s: State, e: Event) {
    e.Commit? && Accepted(s, e.t) ==> StillCurrent(s.db, s.live[e.t])
  }

  lemma SerializableStepIff(s: State, e: Event)
    requires Inv(s)
    ensures Serializable(Step(s, e)) <==> Serializable(s) && CommitIsCurrent(s, e)
  {
    if e.Commit? && Accepted(s, e.t) { CommitKeepsSerializableIff(s, e.t); }
  }

  /** Without any hypothesis on the log: a run is serializable in commit order exactly when no commit was stale. */
  lemma {:induction false} SerializableIffCurrent(db: Db, es: seq<Event>)
    ensures Serializable(Run(Init(db), es)) <==> CurrentAtCommits(Init(db), es)
    decreases |es|
  {
    if |es| > 0 {
      var n := |es| - 1;
      SerializableIffCurrent(db, es[..n]);
      InvRun(db, es[..n]);
      SerializableStepIff(Run(Init(db), es[..n]), es[n]);
    }
  }

  // ---------------------------------------- the same, through the version window

  /**
    The last earlier commit that wrote the key of c's read r does not exist, is older
    than c's start, or wrote the very value read.
   */
  ghost predicate ReadUnharmed(earlier: seq<Live>, c: Live, r: Read) {
    var w := LastWriter(earlier, r.key);
    w < 0 || CommitVersion(earlier[w]) < c.txn.startVersion || earlier[w].txn.writeSet[r.key] == r.value
  }

  /** No tracked read of a committed transaction was overwritten inside its window. */
  ghost predicate WindowsClean(commits: seq<Live>) {
    forall i, r :: 0 <= i < |commits| && r in commits[i].seen && r.tracked ==> ReadUnharmed(commits[..i], commits[i], r)
  }

  lemma {:induction false} BeforeOfPrefix(commits: seq<Live>, i: nat, v: int)
    requires i <= |commits| && forall j :: i <= j < |commits| ==> CommitVersion(commits[j]) >= v
    ensures Before(commits[..i], v) == Before(commits, v)
    decreases |commits|
  {
    if i == |commits| {
      assert commits[..i] == commits;
    } else {
      BeforeOfPrefix(commits[..|commits| - 1], i, v);
      assert commits[..|commits| - 1][..i] == commits[..i];
    }
  }

  /** What c read is what the commits before its start left. */
  lemma ReadFromStart(initial: Db, commits: seq<Live>, i: nat, r: Read)
    requires i < |commits| && ReadsSnapshot(initial, commits, commits[i]) && r in commits[i].seen
    requires forall j :: i <= j < |commits| ==> CommitVersion(commits[j]) >= commits[i].txn.startVersion
    ensures var n := Before(commits[..i], commits[i].txn.startVersion);
            r.value == Lookup(Replay(initial, commits[..i][..n]), r.key)
  {
    BeforeOfPrefix(commits, i, commits[i].txn.startVersion);
    var n := Before(commits[..i], commits[i].txn.startVersion);
    assert commits[..i][..n] == commits[..n];
  }

  lemma ReadFitsIff(initial: Db, earlier: seq<Live>, c: Live, r: Read)
    requires forall i, j :: 0 <= i < j < |earlier| ==> CommitVersion(earlier[i]) < CommitVersion(earlier[j])
    requires r.value == Lookup(Replay(initial, earlier[..Before(earlier, c.txn.startVersion)]), r.key)
    ensures r.value == Lookup(Replay(initial, earlier), r.key) <==> ReadUnharmed(earlier, c, r)
  {
    var n, w := Before(earlier, c.txn.startVersion), LastWriter(earlier, r.key);
    LastWriteWins(initial, earlier, r.key);
    if w < n { LookupAcross(initial, earlier, n, r.key); }
  }

  /**
    With no hypothesis on the log or the verdicts: a run is serializable in commit
    order exactly when no tracked read of a committed transaction was overwritten,
    with another value, by the last commit between its start and its own commit.
   */
  lemma SerializableIffWindowsClean(db: Db, es: seq<Event>)
    ensures Serializable(Run(Init(db), es)) <==> WindowsClean(Run(Init(db), es).commits)
  {
    InvRun(db, es);
    ReadsFitIffClean(Run(Init(db), es));
  }

  lemma CommittedReadFitsIff(s: State, i: nat, r: Read)
    requires Inv(s) && i < |s.commits| && r in s.commits[i].seen
    ensures r.value == Lookup(Replay(s.initial, s.commits[..i]), r.key) <==> ReadUnharmed(s.commits[..i], s.commits[i], r)
  {
    assert ReadsSnapshot(s.initial, s.commits, s.commits[i]);
    ReadFromStart(s.initial, s.commits, i, r);
    ReadFitsIff(s.initial, s.commits[..i], s.commits[i], r);
  }

  lemma ReadsFitIffClean(s: State)
    requires Inv(s)
    ensures ReadsFit(s.initial, s.commits) <==> WindowsClean(s.commits)
  {
    forall i, r | 0 <= i < |s.commits| && r in s.commits[i].seen
      ensures r.value == Lookup(Replay(s.initial, s.commits[..i]), r.key) <==> ReadUnharmed(s.commits[..i], s.commits[i], r)
    {
      CommittedReadFitsIff(s, i, r);
    }
  }

  // ------------------------------------- recording every commit is enough

  /** The same calls, with each Commit followed at once by the missing insertion. */
  function Recording(s: State, es: seq<Event>): seq<Event> {
    if |es| == 0 then []
    else
      var before := Recording(s, es[..|es| - 1]);
      var e := es[|es| - 1];
      if e.Commit? then before + [e, Record(|Run(s, before).commits|)] else before + [e]
  }

  lemma LogCompleteRecord(s: State, i: nat)
    requires Versions(s) && LogComplete(s) && i < |s.commits|
    ensures LogComplete(Step(s, Record(i)))
  {
  }

  lemma LogCompletePurge(s: State, v: int)
    requires LogComplete(s)
    ensures LogComplete(Step(s, PurgeTo(v)))
  {
  }

  lemma LogCompleteStep(s: State, e: Event)
    requires Inv(s) && LogComplete(s) && !e.Commit?
    ensures LogComplete(Step(s, e))
  {
    if e.Record? {
      if e.i < |s.commits| { LogCompleteRecord(s, e.i); }
    } else if e.PurgeTo? {
      LogCompletePurge(s, e.version);
    } else {
      OnlyCommitsChangeHistory(s, e);
    }
  }

  /** LogComplete without the state around it. */
  ghost predicate LogHolds(log: map<int, TxnView>, purged: int, commits: seq<Live>) {
    forall i :: 0 <= i < |commits| && CommitVersion(commits[i]) > purged ==> InLog(log, commits[i])
  }

  predicate InLog(log: map<int, TxnView>, c: Live) {
    CommitVersion(c) in log && log[CommitVersion(c)] == c.txn
  }

  lemma LogHoldsAppend(log: map<int, TxnView>, purged: int, commits: seq<Live>, c: Live)
    requires LogHolds(log, purged, commits)
    requires forall i :: 0 <= i < |commits| ==> CommitVersion(commits[i]) != CommitVersion(c)
    ensures LogHolds(log[CommitVersion(c) := c.txn], purged, commits + [c])
  {
    forall i | 0 <= i < |commits + [c]| && CommitVersion((commits + [c])[i]) > purged
      ensures InLog(log[CommitVersion(c) := c.txn], (commits + [c])[i])
    {
      if i < |commits| { assert InLog(log, commits[i]); }
    }
  }

  lemma CommitAppends(s: State, t: int)
    requires Versions(s) && Accepted(s, t)
    ensures var c, s' := Committed(s, t), Step(s, Commit(t));
            && s'.commits == s.commits + [c] && s'.detector == s.detector
            && forall i :: 0 <= i < |s.commits| ==> CommitVersion(s.commits[i]) != CommitVersion(c)
  {
  }

  lemma LogCompleteCommit(s: State, t: int)
    requires Inv(s) && LogComplete(s) && Accepted(s, t)
    ensures LogComplete(Step(Step(s, Commit(t)), Record(|s.commits|)))
  {
    CommitAppends(s, t);
    LogHoldsAppend(s.detector.log, s.detector.purged, s.commits, Committed(s, t));
    RecordLast(Step(s, Commit(t)), s.commits, Committed(s, t));
  }

  lemma RecordLast(s: State, before: seq<Live>, c: Live)
    requires s.commits == before + [c]
    requires LogHolds(s.detector.log[CommitVersion(c) := c.txn], s.detector.purged, s.commits)
    ensures LogComplete(Step(s, Record(|before|)))
  {
  }

  lemma RunAppend(s: State, es: seq<Event>, e: Event)
    ensures Run(s, es + [e]) == Step(Run(s, es), e)
  {
  }

  lemma RecordedCommitSerializable(s: State, t: int)
    requires Inv(s) && LogComplete(s) && Serializable(s)
    ensures Serializable(Step(Step(s, Commit(t)), Record(|s.commits|)))
  {
    InvStep(s, Commit(t));
    SerializableStep(s, Commit(t));
    SerializableStep(Step(s, Commit(t)), Record(|s.commits|));
  }

  lemma RecordedCommitLogged(s: State, t: int)
    requires Inv(s) && LogComplete(s)
    ensures LogComplete(Step(Step(s, Commit(t)), Record(|s.commits|)))
  {
    if Accepted(s, t) { LogCompleteCommit(s, t); } else { OnlyCommitsChangeHistory(s, Commit(t)); }
  }

  /** With the insertion added, every run is serializable and its log is always complete. */
  lemma {:induction false} RecordingSerializable(db: Db, es: seq<Event>)
    ensures var s := Run(Init(db), Recording(Init(db), es));
            Serializable(s) && LogComplete(s)
    decreases |es|
  {
    if |es| > 0 {
      RecordingSerializable(db, es[..|es| - 1]);
      var before, e := Recording(Init(db), es[..|es| - 1]), es[|es| - 1];
      var s := Run(Init(db), before);
      InvRun(db, before);
      RunAppend(Init(db), before, e);
      if e.Commit? {
        var record := Record(|s.commits|);
        RunAppend(Init(db), before + [e], record);
        assert before + [e] + [record] == before + [e, record];
        RecordedCommitSerializable(s, e.t);
        RecordedCommitLogged(s, e.t);
      } else {
        SerializableStep(s, e);
        LogCompleteStep(s, e);
      }
    }
  }

  // -------------------------------------------------------------- purging

  /** In every run the purge mark is the greatest version purged to, or 0. */
  lemma {:induction false} PurgeMarkIsGreatest(db: Db, es: seq<Event>)
    ensures var mark := Run(Init(db), es).detector.purged;
            && mark >= 0 && (mark == 0 || PurgeTo(mark) in es)
            && forall e :: e in es && e.PurgeTo? ==> e.version <= mark
    decreases |es|
  {
    if |es| > 0 {
      var before, e := es[..|es| - 1], es[|es| - 1];
      PurgeMarkIsGreatest(db, before);
      assert es == before + [e];
      var s := Run(Init(db), before);
      if !e.PurgeTo? { MarkKept(s, e); }
    }
  }

  lemma MarkKept(s: State, e: Event)
    requires !e.PurgeTo?
    ensures Step(s, e).detector.purged == s.detector.purged
    ensures !e.Record? ==> Step(s, e).detector == s.detector
  {
  }

  ghost predicate NoneBelowMark(s: State) {
    forall v :: v in s.detector.log ==> v > s.detector.purged
  }

  lemma NoneBelowCommit(s: State, t: int)
    requires Versions(s) && NoneBelowMark(s)
    ensures NoneBelowMark(Step(Step(s, Commit(t)), Record(|s.commits|)))
  {
    MarkKept(s, Commit(t));
    if Accepted(s, t) { CommitAppends(s, t); }
  }

  lemma NoneBelowStep(s: State, e: Event)
    requires NoneBelowMark(s) && !e.Commit? && !e.Record?
    ensures NoneBelowMark(Step(s, e))
  {
    if !e.PurgeTo? { MarkKept(s, e); }
  }

  /**
    What purging keeps. If every commit is recorded as it happens, the log holds exactly
    the commits above the purge mark, after any purges.
   */
  lemma {:induction false} LogIsAboveMark(db: Db, es: seq<Event>)
    requires forall e :: e in es ==> !e.Record?
    ensures var s := Run(Init(db), Recording(Init(db), es));
            && NoneBelowMark(s)
            && (forall i :: 0 <= i < |s.commits| ==> (CommitVersion(s.commits[i]) in s.detector.log <==> CommitVersion(s.commits[i]) > s.detector.purged))
    decreases |es|
  {
    RecordingSerializable(db, es);
    if |es| > 0 {
      var before, e := Recording(Init(db), es[..|es| - 1]), es[|es| - 1];
      assert e in es;
      LogIsAboveMark(db, es[..|es| - 1]);
      var s := Run(Init(db), before);
      InvRun(db, before);
      RunAppend(Init(db), before, e);
      if e.Commit? {
        var record := Record(|s.commits|);
        RunAppend(Init(db), before + [e], record);
        assert before + [e] + [record] == before + [e, record];
        NoneBelowCommit(s, e.t);
      } else {
        NoneBelowStep(s, e);
      }
    }
  }

  // ----------------------------------------------------- the code as written

  /** The shown code never inserts into committed_txns_ and never calls PurgeTo. */
  ghost predicate AsWritten(es: seq<Event>) {
    forall e :: e in es ==> !e.Record? && !e.PurgeTo?
  }

  /** As written, the log stays empty, no commit is refused, and the database is the fold of the committed write sets. */
  lemma {:induction false} AsWrittenAcceptsAll(db: Db, es: seq<Event>)
    requires AsWritten(es)
    ensures var s := Run(Init(db), es);
            && s.detector == DetectorView(map[], 0)
            && s.refused == []
            && s.db == Replay(db, s.commits)
            && forall t :: t in s.live ==> Accepted(s, t)
    decreases |es|
  {
    InvRun(db, es);
    if |es| > 0 {
      AsWrittenAcceptsAll(db, es[..|es| - 1]);
      assert es[|es| - 1] in es;
    }
  }

  /**
    As written the store is not serializable. Two transactions each read the key the
    other writes (with x == y, a lost update); both commit, and neither one-at-a-time
    order explains the reads.
   */
  lemma AsWrittenWriteSkew(x: Key, y: Key, v: Value)
    ensures AsWritten(SkewRun(x, y, v))
    ensures NoSerialOrder(Run(Init(map[]), SkewRun(x, y, v)))
  {
    assert AsWritten(SkewRun(x, y, v));
    var s := SkewResult(x, y, v);
    SkewHasNoOrder(s, s.commits[0], s.commits[1], x, y, v);
  }

  /** Two transactions committed, and neither order of the two gives their reads. */
  ghost predicate NoSerialOrder(s: State) {
    |s.commits| == 2 && !ReadsFit(s.initial, s.commits) && !ReadsFit(s.initial, [s.commits[1], s.commits[0]])
  }

  lemma SkewHasNoOrder(s: State, a: Live, b: Live, x: Key, y: Key, v: Value)
    requires s.initial == map[] && s.commits == [a, b]
    requires a.txn.writeSet == map[y := Some(v)] && a.seen == [Read(x, None, true)]
    requires b.txn.writeSet == map[x := Some(v)] && b.seen == [Read(y, None, true)]
    ensures NoSerialOrder(s)
  {
    SkewOrder(a, b, y, v);
    SkewOrder(b, a, x, v);
  }

  lemma SkewResult(x: Key, y: Key, v: Value) returns (s: State)
    ensures s == Run(Init(map[]), SkewRun(x, y, v))
    ensures s.initial == map[] && |s.commits| == 2 && s.commits == [s.commits[0], s.commits[1]]
    ensures s.commits[0].txn.writeSet == map[y := Some(v)] && s.commits[0].seen == [Read(x, None, true)]
    ensures s.commits[1].txn.writeSet == map[x := Some(v)] && s.commits[1].seen == [Read(y, None, true)]
  {
    SkewReads(x, y, v);
    RunOfEight(Init(map[]), SkewRun(x, y, v));
    s := SkewCommits(BothRead(x, y, v), Reader(1, x, y, v), Reader(2, y, x, v));
  }

  lemma SkewCommits(s: State, a: Live, b: Live) returns (s': State)
    requires s.detector == DetectorView(map[], 0) && s.commits == [] && s.live == map[1 := a, 2 := b]
    requires a.txn.startVersion == 1 && b.txn.startVersion == 2
    ensures s' == Step(Step(s, Commit(1)), Commit(2)) && s'.initial == s.initial
    ensures s'.commits == [a.(txn := a.txn.(commitVersion := s.version)), b.(txn := b.txn.(commitVersion := s.version + 1))]
  {
    EmptyLogAccepts(s, 1);
    EmptyLogAccepts(Step(s, Commit(1)), 2);
    s' := Step(Step(s, Commit(1)), Commit(2));
  }

  lemma EmptyLogAccepts(s: State, t: int)
    requires s.detector == DetectorView(map[], 0)
    requires t in s.live && s.live[t].txn.startVersion >= 0
    ensures Step(s, Commit(t)).commits == s.commits + [s.live[t].(txn := s.live[t].txn.(commitVersion := s.version))]
    ensures Step(s, Commit(t)).detector == s.detector
    ensures Step(s, Commit(t)).live == s.live - {t}
    ensures Step(s, Commit(t)).version == s.version + 1
    ensures Step(s, Commit(t)).initial == s.initial
  {
  }

  /** A transaction that found `read` missing and then put `write`. */
  function Reader(t: int, read: Key, write: Key, v: Value): Live {
    Live(TxnView(map[], t, -1, map[read := Present(None)], map[write := Some(v)]), [Read(read, None, true)])
  }

  function BothRead(x: Key, y: Key, v: Value): State {
    Init(map[]).(version := 3, live := map[1 := Reader(1, x, y, v), 2 := Reader(2, y, x, v)])
  }

  lemma ReaderBuilt(t: int, read: Key, write: Key, v: Value)
    ensures Touch(Touch(Live(Fresh(map[], t), []), Get(t, read, false)), Put(t, write, v)) == Reader(t, read, write, v)
  {
  }

  lemma SkewReads(x: Key, y: Key, v: Value)
    ensures var es := SkewRun(x, y, v);
            var s2 := Step(Step(Init(map[]), es[0]), es[1]);
            Step(Step(Step(Step(s2, es[2]), es[3]), es[4]), es[5]) == BothRead(x, y, v)
  {
    var es := SkewRun(x, y, v);
    var a, b := Live(Fresh(map[], 1), []), Live(Fresh(map[], 2), []);
    var s2 := Step(Step(Init(map[]), es[0]), es[1]);
    assert s2 == Init(map[]).(version := 3, live := map[1 := a, 2 := b]);
    var a', b' := Touch(a, es[2]), Touch(b, es[3]);
    var s4 := Step(Step(s2, es[2]), es[3]);
    assert s4 == s2.(live := map[1 := a', 2 := b']);
    assert Step(Step(s4, es[4]), es[5]) == s2.(live := map[1 := Touch(a', es[4]), 2 := Touch(b', es[5])]);
    ReaderBuilt(1, x, y, v);
    ReaderBuilt(2, y, x, v);
  }

  function SkewRun(x: Key, y: Key, v: Value): seq<Event> {
    [Start, Start, Get(1, x, false), Get(2, y, false), Put(1, y, v), Put(2, x, v), Commit(1), Commit(2)]
  }

  lemma RunOfEight(s: State, es: seq<Event>)
    requires |es| == 8
    ensures Run(s, es) == Step(Step(Step(Step(Step(Step(Step(Step(s, es[0]), es[1]), es[2]), es[3]), es[4]), es[5]), es[6]), es[7])
  {
    assert es[..7][..6] == es[..6] && es[..6][..5] == es[..5] && es[..5][..4] == es[..4];
    assert es[..4][..3] == es[..3] && es[..3][..2] == es[..2] && es[..2][..1] == es[..1] && es[..1][..0] == [];
    assert Run(s, es[..2]) == Step(Run(s, es[..1]), es[1]);
    assert Run(s, es[..4]) == Step(Step(Run(s, es[..2]), es[2]), es[3]);
    assert Run(s, es[..6]) == Step(Step(Run(s, es[..4]), es[4]), es[5]);
  }

  /** b read y as missing although a, run before it, wrote y. */
  lemma SkewOrder(a: Live, b: Live, y: Key, v: Value)
    requires a.txn.writeSet == map[y := Some(v)]
    requires b.seen == [Read(y, None, true)]
    ensures !ReadsFit(map[], [a, b])
  {
    var order := [a, b];
    assert order[..1] == [a];
    ReplayAppend(map[], [], a);
    assert [] + [a] == [a];
    assert Read(y, None, true) in order[1].seen;
    assert Lookup(Replay(map[], order[..1]), y) == Some(v);
  }
}

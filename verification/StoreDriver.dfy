/**
  The store and transaction objects do what the steps of StoreRuns say: a driver
  that performs a call on the objects keeps them in correspondence with the run,
  what they return is what the run records, and no CHECK stands in its way.
 */
module StoreDriver {
  import KvTypes
  import opened TxnStore
  import opened StoreRuns

  /** The objects hold the state; each live transaction is an object of its own. */
  ghost predicate Mirrors(store: KvStore, live: map<int, Txn>, s: State)
    reads store, store.detector, live.Values
  {
    && store.db == s.db && store.version == s.version && store.detector.View() == s.detector
    && live.Keys == s.live.Keys
    && (forall t :: t in live ==> live[t].View() == s.live[t].txn)
    && (forall t, u :: t in live && u in live && t != u ==> live[t] != live[u])
  }

  lemma CommitChecksPass(s: State, t: int)
    requires Inv(s) && t in s.live
    ensures ChecksPass(s.detector, s.live[t].txn.(commitVersion := s.version))
  {
  }

  method PerformStart(store: KvStore, live: map<int, Txn>, ghost s: State) returns (live': map<int, Txn>)
    requires Inv(s) && Mirrors(store, live, s)
    modifies store
    ensures Mirrors(store, live', Step(s, Start))
    ensures forall t :: t in live' ==> live'[t] in live.Values || fresh(live'[t])
  {
    var v := store.version;
    var txn := store.StartTxn();
    live' := live[v := txn];
  }

  method PerformCommit(store: KvStore, live: map<int, Txn>, t: int, ghost s: State) returns (live': map<int, Txn>, ok: bool)
    requires Inv(s) && Mirrors(store, live, s) && t in live
    modifies store, live.Values
    ensures Mirrors(store, live', Step(s, Commit(t)))
    ensures live' == live - {t} && ok == Accepted(s, t)
  {
    CommitChecksPass(s, t);
    ok := store.CommitTxn(live[t]);
    live' := live - {t};
  }

  /** What a call returns: nothing, the value a Get found, or CommitTxn's verdict. */
  datatype Reply = NoReply | Value(found: KvTypes.Option<KvTypes.Value>) | Verdict(ok: bool)

  predicate OnTxn(e: Event) { e.Get? || e.AddRead? || e.Put? || e.Del? }

  method PerformOn(txn: Txn, e: Event, ghost l: Live) returns (reply: Reply)
    requires OnTxn(e) && txn.View() == l.txn
    modifies txn
    ensures txn.View() == Touch(l, e).txn
    ensures if e.Get? then reply.Value? && Touch(l, e).seen == l.seen + [Read(e.key, reply.found, !e.exclude)]
            else reply == NoReply
  {
    reply := NoReply;
    match e
    case Get(_, k, exclude) => var found := txn.Get(k, exclude); reply := Value(found);
    case AddRead(_, k, o) => txn.AddReadConflictKey(k, o);
    case Put(_, k, v) => txn.Put(k, v);
    case Del(_, k) => txn.Del(k);
  }

  /** The calls that touch one transaction leave the others alone. */
  method PerformTouch(store: KvStore, live: map<int, Txn>, e: Event, ghost s: State) returns (reply: Reply)
    requires Mirrors(store, live, s) && OnTxn(e) && e.t in live
    modifies live.Values
    ensures Mirrors(store, live, s.(live := s.live[e.t := Touch(s.live[e.t], e)]))
    ensures if e.Get? then reply.Value? && Touch(s.live[e.t], e).seen == s.live[e.t].seen + [Read(e.key, reply.found, !e.exclude)]
            else reply == NoReply
  {
    reply := PerformOn(live[e.t], e, s.live[e.t]);
  }

  /** The run's record of the call: a Get's value is the one it appends to `seen`, a verdict is Accepted. */
  ghost predicate Recorded(s: State, e: Event, reply: Reply) {
    if e.Get? && e.t in s.live then
      && reply.Value?
      && Step(s, e).live[e.t].seen == s.live[e.t].seen + [Read(e.key, reply.found, !e.exclude)]
    else if e.Commit? && e.t in s.live then reply == Verdict(Accepted(s, e.t))
    else reply == NoReply
  }

  /** Any call but Record, for which there is no code. */
  method Perform(store: KvStore, live: map<int, Txn>, e: Event, ghost s: State) returns (live': map<int, Txn>, reply: Reply)
    requires Inv(s) && Mirrors(store, live, s) && !e.Record?
    modifies store, store.detector, live.Values
    ensures Mirrors(store, live', Step(s, e)) && Recorded(s, e, reply)
    ensures forall t :: t in live' ==> live'[t] in live.Values || fresh(live'[t])
  {
    live', reply := live, NoReply;
    if e.Start? {
      live' := PerformStart(store, live, s);
    } else if e.PurgeTo? {
      store.detector.PurgeTo(e.version);
    } else if e.t in live {
      if e.Commit? {
        var ok;
        live', ok := PerformCommit(store, live, e.t, s);
        reply := Verdict(ok);
      } else {
        reply := PerformTouch(store, live, e, s);
      }
    }
  }
}

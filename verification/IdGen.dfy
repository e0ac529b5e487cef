/**
  The time-based ID generator. An ID packs a timestamp, a node id, a clock
  sequence and an auto-increment counter into 64 bits; which end of the word the
  first declared bit-field takes is up to the ABI, so the placement is a parameter.

  A run is a sequence of Next calls and updates, where an update is either atomic
  or split at the point between its load and its store. A failed CHECK ends the run.
 */
module IdGen {
  import opened ByteStrings
  import opened KvTypes
  import DirTable

  const TWO24: int := 0x100_0000
  const TWO32: int := 0x1_0000_0000
  const TWO40: int := 0x100_0000_0000

  type U32 = v: int | 0 <= v < TWO32

  const MAX_AUTO: int := 10_000_000

  /** Is timestamp_seconds, the first declared bit-field, in the high or the low half of the word? */
  datatype Layout = TimestampHigh | TimestampLow

  datatype Fields = Fields(timestamp: int, node: int, clock: int, auto: int)

  predicate InRange(f: Fields) {
    0 <= f.timestamp < TWO32 && 0 <= f.node < 0x10 && 0 <= f.clock < 0x10 && 0 <= f.auto < 0x100_0000
  }

  /** Of the half word that does not hold the timestamp, node and clock sequence share one byte. */
  function Unpack(l: Layout, raw: U64): (f: Fields)
    ensures InRange(f)
  {
    var hi, lo := raw / TWO32, raw % TWO32;
    match l
    case TimestampHigh => Fields(hi, lo / TWO24 / 0x10, lo / TWO24 % 0x10, lo % TWO24)
    case TimestampLow => Fields(lo, hi % 0x10, hi % 0x100 / 0x10, hi / 0x100)
  }

  function Pack(l: Layout, f: Fields): (raw: U64)
    requires InRange(f)
    ensures Unpack(l, raw) == f
  {
    match l
    case TimestampHigh =>
      var top, lo := f.node * 0x10 + f.clock, (f.node * 0x10 + f.clock) * TWO24 + f.auto;
      Halves(f.timestamp, lo);
      assert lo / TWO24 == top && lo % TWO24 == f.auto;
      assert top / 0x10 == f.node && top % 0x10 == f.clock;
      f.timestamp * TWO32 + lo
    case TimestampLow =>
      var low, hi := f.clock * 0x10 + f.node, f.auto * 0x100 + (f.clock * 0x10 + f.node);
      Halves(hi, f.timestamp);
      assert hi / 0x100 == f.auto && hi % 0x100 == low;
      assert hi % 0x10 == f.node && low / 0x10 == f.clock;
      hi * TWO32 + f.timestamp
  }

  /** Where the fields lie in the word. */
  function WordOf(l: Layout, f: Fields): int {
    match l
    case TimestampHigh => f.timestamp * 0x1_0000_0000 + f.node * 0x1000_0000 + f.clock * 0x100_0000 + f.auto
    case TimestampLow => f.timestamp + f.node * 0x1_0000_0000 + f.clock * 0x10_0000_0000 + f.auto * 0x100_0000_0000
  }

  lemma LowHalf(lo: U32)
    ensures lo == lo / TWO24 / 0x10 * 0x1000_0000 + lo / TWO24 % 0x10 * 0x100_0000 + lo % TWO24
  {
    var top := lo / TWO24;
    assert top == top / 0x10 * 0x10 + top % 0x10;
  }

  lemma HighHalf(hi: U32)
    ensures hi == hi % 0x10 + hi % 0x100 / 0x10 * 0x10 + hi / 0x100 * 0x100
  {
    var low := hi % 0x100;
    assert low % 0x10 == hi % 0x10;
  }

  lemma SplitWord(raw: U64)
    ensures raw == raw / TWO32 * TWO32 + raw % TWO32 && raw / TWO32 < TWO32
  {
  }

  /** Every word is the sum of its fields, each in its place. */
  lemma WordLayout(l: Layout, raw: U64)
    ensures raw == WordOf(l, Unpack(l, raw))
  {
    SplitWord(raw);
    match l
    case TimestampHigh => LowHalf(raw % TWO32);
    case TimestampLow => HighHalf(raw / TWO32);
  }

  lemma Halves(hi: U32, lo: U32)
    ensures (hi * TWO32 + lo) / TWO32 == hi && (hi * TWO32 + lo) % TWO32 == lo
    ensures 0 <= hi * TWO32 + lo < TWO64
  {
  }

  /** What a generator is configured with. */
  datatype Config = Config(layout: Layout, node: int, clock: int)

  /** The three CHECKs of Next and Update. */
  predicate Checks(c: Config, raw: U64) {
    var f := Unpack(c.layout, raw);
    f.node == c.node && f.clock == c.clock && f.auto < MAX_AUTO
  }

  /** fetch_add(1) + 1 on an unsigned 64-bit word. */
  function Increment(raw: U64): U64 { (raw + 1) % TWO64 }

  /** The word Update stores, if it stores at all. */
  function UpdateTo(c: Config, raw: U64, timestamp: U32): Option<U64> {
    var f := Unpack(c.layout, raw);
    if f.timestamp >= timestamp then None else Some(Pack(c.layout, f.(timestamp := timestamp, auto := 0)))
  }

  /** What an update to a timestamp does to the fields of a word. */
  ghost predicate Updated(c: Config, before: U64, after: U64, timestamp: U32) {
    var f, f' := Unpack(c.layout, before), Unpack(c.layout, after);
    if timestamp > f.timestamp then f' == Fields(timestamp, f.node, f.clock, 0) else after == before
  }

  /** The timestamp becomes the later of the two; only if it moves is the counter cleared; node and clock stay. */
  lemma UpdateFields(c: Config, raw: U64, timestamp: U32)
    ensures var after := if UpdateTo(c, raw, timestamp).Some? then UpdateTo(c, raw, timestamp).value else raw;
            Updated(c, raw, after, timestamp)
  {
  }

  class IDGen {
    const config: Config
    var id: U64

    /** The constructor's Update reads a zero word, so its CHECKs pass only for node 0 and clock sequence 0. */
    constructor (layout: Layout, timestamp: U32, node: int, clock: int)
      requires Checks(Config(layout, node, clock), 0)
      ensures config == Config(layout, node, clock)
      ensures id == match UpdateTo(config, 0, timestamp) case None => 0 case Some(v) => v
      ensures Unpack(layout, id) == Fields(timestamp, 0, 0, 0)
    {
      config := Config(layout, node, clock);
      id := 0;
      new;
      var ok := Update(timestamp);
    }

    /** None is a failed CHECK; the word has moved on all the same. */
    method Next() returns (r: Option<U64>)
      modifies this`id
      ensures id == Increment(old(id))
      ensures r == if Checks(config, id) then Some(id) else None
    {
      id := Increment(id);
      var f := Unpack(config.layout, id);
      if f.node != config.node || f.clock != config.clock || f.auto >= MAX_AUTO {
        return None;
      }
      return Some(id);
    }

    method Update(timestamp: U32) returns (ok: bool)
      modifies this`id
      ensures ok == Checks(config, old(id))
      ensures id == if ok && UpdateTo(config, old(id), timestamp).Some? then UpdateTo(config, old(id), timestamp).value else old(id)
      ensures if ok then Updated(config, old(id), id, timestamp) else id == old(id)
    {
      var f := Unpack(config.layout, id);
      if f.node != config.node || f.clock != config.clock || f.auto >= MAX_AUTO {
        return false;
      }
      if f.timestamp >= timestamp {
        return true;
      }
      f := f.(timestamp := timestamp, auto := 0);
      id := Pack(config.layout, f);
      return true;
    }
  }

  /** A generator can be constructed only for node 0 and clock sequence 0, in either placement. */
  lemma ConstructibleIff(l: Layout, node: int, clock: int)
    ensures Checks(Config(l, node, clock), 0) <==> node == 0 && clock == 0
  {
  }

  // ----------------------------------------------------------------- runs

  /** Update is an undisturbed update; Load and Store are its halves when Next calls fall between them. */
  datatype Event = Next | Update(timestamp: U32) | Load(timestamp: U32) | Store

  datatype State = State(word: U64, pending: Option<U64>, returned: seq<U64>, failed: bool)

  function Load1(c: Config, s: State, timestamp: U32): State {
    if s.pending.Some? then s // the only updater is busy
    else if !Checks(c, s.word) then s.(failed := true)
    else s.(pending := UpdateTo(c, s.word, timestamp))
  }

  function Store1(s: State): State {
    if s.pending.Some? then s.(word := s.pending.value, pending := None) else s
  }

  function Next1(c: Config, s: State): State {
    var raw := Increment(s.word);
    if Checks(c, raw) then s.(word := raw, returned := s.returned + [raw]) else s.(word := raw, failed := true)
  }

  function Step(c: Config, s: State, e: Event): State {
    if s.failed then s else
      match e
      case Next => Next1(c, s)
      case Load(t) => Load1(c, s, t)
      case Store => Store1(s)
      case Update(t) => if s.pending.Some? then s else Store1(Load1(c, s, t))
  }

  function Run(c: Config, s: State, es: seq<Event>): State {
    if |es| == 0 then s else Step(c, Run(c, s, es[..|es| - 1]), es[|es| - 1])
  }

  /** A constructed generator's word, before the constructor's own Update moved it. */
  const START: State := State(0, None, [], false)

  ghost predicate Sequential(es: seq<Event>) {
    forall e :: e in es ==> e.Next? || e.Update?
  }

  ghost predicate Increasing(ids: seq<U64>) {
    forall i, j :: 0 <= i < j < |ids| ==> ids[i] < ids[j]
  }

  ghost predicate AtMost(ids: seq<U64>, bound: int) {
    forall i :: 0 <= i < |ids| ==> ids[i] <= bound
  }

  /** Returned ids increase and the word is at or past the last of them. */
  ghost predicate Ordered(c: Config, s: State) {
    Increasing(s.returned) && (!s.failed ==> Checks(c, s.word) && AtMost(s.returned, s.word))
  }

  lemma IncrementNoWrap(c: Config, word: U64)
    requires Checks(c, word) && (c.layout.TimestampLow? ==> word < TWO40)
    ensures Increment(word) == word + 1
  {
  }

  // ----------------------------------------------- timestamp in the high bits

  ghost predicate HighInv(c: Config, s: State) {
    && Ordered(c, s)
    && (!s.failed && s.pending.Some? ==>
          Checks(c, s.pending.value) && s.pending.value / TWO32 > s.word / TWO32)
  }

  lemma HighNext(c: Config, word: U64)
    requires c.layout.TimestampHigh? && Checks(c, word)
    ensures Increment(word) == word + 1 && (word + 1) / TWO32 == word / TWO32
  {
  }

  lemma HighUpdate(c: Config, word: U64, timestamp: U32)
    requires c.layout.TimestampHigh? && Checks(c, word) && UpdateTo(c, word, timestamp).Some?
    ensures var w := UpdateTo(c, word, timestamp).value;
            Checks(c, w) && w / TWO32 > word / TWO32
  {
  }

  lemma HighStep(c: Config, s: State, e: Event)
    requires c.layout.TimestampHigh? && HighInv(c, s)
    ensures HighInv(c, Step(c, s, e))
  {
    if !s.failed {
      match e
      case Next => HighNext(c, s.word);
      case Store =>
      case _ => if s.pending.None? && UpdateTo(c, s.word, e.timestamp).Some? { HighUpdate(c, s.word, e.timestamp); }
    }
  }

  /**
    Interleaved uniqueness. With the timestamp in the high bits and one updater,
    any Next calls between an update's load and its store leave the returned ids
    strictly increasing, hence distinct, up to the first failed CHECK.
   */
  lemma {:induction false} HighInterleavedIncreasing(c: Config, s: State, es: seq<Event>)
    requires c.layout.TimestampHigh? && HighInv(c, s)
    ensures HighInv(c, Run(c, s, es)) && Increasing(Run(c, s, es).returned)
    decreases |es|
  {
    if |es| > 0 {
      HighInterleavedIncreasing(c, s, es[..|es| - 1]);
      HighStep(c, Run(c, s, es[..|es| - 1]), es[|es| - 1]);
    }
  }

  // ------------------------------------------------ timestamp in the low bits

  /** The auto-increment field, now the high bits, stays zero: that is what lets Update clear it. */
  ghost predicate LowInv(c: Config, s: State) {
    Ordered(c, s) && s.pending.None? && (!s.failed ==> s.word < TWO40)
  }

  lemma LowStep(c: Config, s: State, e: Event)
    requires c.layout.TimestampLow? && LowInv(c, s) && (e.Next? || e.Update?)
    ensures LowInv(c, Step(c, s, e))
  {
    if !s.failed {
      if e.Next? { IncrementNoWrap(c, s.word); }
    }
  }

  /**
    Sequential monotonicity, for either placement: over any sequence of Next and
    Update calls, with timestamps that may repeat or go backwards, the returned ids
    strictly increase up to the first failed CHECK.
   */
  lemma {:induction false} SequentialIncreasing(c: Config, s: State, es: seq<Event>)
    requires Sequential(es)
    requires if c.layout.TimestampHigh? then HighInv(c, s) else LowInv(c, s)
    ensures var s' := Run(c, s, es);
            Increasing(s'.returned) && if c.layout.TimestampHigh? then HighInv(c, s') else LowInv(c, s')
    decreases |es|
  {
    if |es| > 0 {
      var e := es[|es| - 1];
      assert e in es;
      SequentialIncreasing(c, s, es[..|es| - 1]);
      var before := Run(c, s, es[..|es| - 1]);
      if c.layout.TimestampHigh? { HighStep(c, before, e); } else { LowStep(c, before, e); }
    }
  }

  /** What holds in every run of either placement, split updates included. */
  ghost predicate Sane(c: Config, s: State) {
    !s.failed ==>
      && Checks(c, s.word) && (c.layout.TimestampLow? ==> s.word < TWO40)
      && (s.pending.Some? ==>
            Checks(c, s.pending.value) && s.pending.value > 0 && (c.layout.TimestampLow? ==> s.pending.value < TWO40))
  }

  lemma UpdateMovesUp(c: Config, word: U64, timestamp: U32)
    requires Checks(c, word) && (c.layout.TimestampLow? ==> word < TWO40)
    requires UpdateTo(c, word, timestamp).Some?
    ensures var w := UpdateTo(c, word, timestamp).value;
            w > word && Checks(c, w) && (c.layout.TimestampLow? ==> w < TWO40)
  {
  }

  lemma SaneStep(c: Config, s: State, e: Event)
    requires Sane(c, s)
    ensures Sane(c, Step(c, s, e))
  {
    if !s.failed {
      match e
      case Next => IncrementNoWrap(c, s.word);
      case Store =>
      case _ => if s.pending.None? && UpdateTo(c, s.word, e.timestamp).Some? { UpdateMovesUp(c, s.word, e.timestamp); }
    }
  }

  // ------------------------------------------------- how late an id is

  /** The word, and the word a pending store is about to write, carry a timestamp of at least t. */
  ghost predicate NotBefore(c: Config, s: State, t: U32) {
    !s.failed ==>
      && Unpack(c.layout, s.word).timestamp >= t
      && (s.pending.Some? ==> Unpack(c.layout, s.pending.value).timestamp >= t)
  }

  /** The id passed its CHECKs and carries a timestamp of at least t. */
  predicate LateEnough(c: Config, id: U64, t: U32) {
    Checks(c, id) && Unpack(c.layout, id).timestamp >= t
  }

  lemma NibbleMoves(hi: int)
    ensures (hi + 1) % 0x10 != hi % 0x10
  {
  }

  lemma CarryOrNot(word: U64)
    requires word + 1 < TWO64
    ensures if word % TWO32 == TWO32 - 1 then (word + 1) / TWO32 == word / TWO32 + 1 else (word + 1) % TWO32 == word % TWO32 + 1
  {
  }

  lemma NextKeepsTimestamp(c: Config, word: U64)
    requires Checks(c, word) && (c.layout.TimestampLow? ==> word < TWO40) && Checks(c, Increment(word))
    ensures Unpack(c.layout, Increment(word)).timestamp >= Unpack(c.layout, word).timestamp
  {
    IncrementNoWrap(c, word);
    match c.layout
    case TimestampHigh => HighNext(c, word);
    case TimestampLow =>
      CarryOrNot(word);
      NibbleMoves(word / TWO32);
  }

  lemma NotBeforeStep(c: Config, s: State, e: Event, t: U32)
    requires Sane(c, s) && NotBefore(c, s, t)
    ensures NotBefore(c, Step(c, s, e), t)
    ensures var s' := Step(c, s, e);
            s.returned <= s'.returned && forall i :: |s.returned| <= i < |s'.returned| ==> LateEnough(c, s'.returned[i], t)
  {
    if !s.failed {
      match e
      case Next => if Checks(c, Increment(s.word)) { NextKeepsTimestamp(c, s.word); }
      case Store =>
      case _ => UpdateFields(c, s.word, e.timestamp);
    }
  }

  lemma {:induction false} NotBeforeRun(c: Config, s: State, es: seq<Event>, t: U32)
    requires Sane(c, s) && NotBefore(c, s, t)
    ensures Sane(c, Run(c, s, es)) && NotBefore(c, Run(c, s, es), t)
    ensures var s' := Run(c, s, es);
            s.returned <= s'.returned && forall i :: |s.returned| <= i < |s'.returned| ==> LateEnough(c, s'.returned[i], t)
    decreases |es|
  {
    if |es| > 0 {
      var before := Run(c, s, es[..|es| - 1]);
      NotBeforeRun(c, s, es[..|es| - 1], t);
      SaneStep(c, before, es[|es| - 1]);
      NotBeforeStep(c, before, es[|es| - 1], t);
    }
  }

  /**
    Ids carry their time. After an undisturbed update to t, every id returned by any
    further calls, split updates included, has a timestamp field of at least t and the
    generator's node and clock sequence, in either placement.
   */
  lemma IdsNotBeforeUpdate(c: Config, s: State, t: U32, es: seq<Event>)
    requires Sane(c, s) && s.pending.None?
    ensures var s1 := Step(c, s, Update(t));
            var s' := Run(c, s1, es);
            && s1.returned == s.returned <= s'.returned
            && forall i :: |s.returned| <= i < |s'.returned| ==> LateEnough(c, s'.returned[i], t)
  {
    var s1 := Step(c, s, Update(t));
    SaneStep(c, s, Update(t));
    UpdateFields(c, s.word, t);
    NotBeforeRun(c, s1, es, t);
  }

  // ------------------------------------------------ how many ids there are

  function Nexts(n: nat): seq<Event> { seq(n, _ => Next) }

  lemma PackedWord(l: Layout, f: Fields)
    requires InRange(f)
    ensures Pack(l, f) == WordOf(l, f)
  {
    WordLayout(l, Pack(l, f));
  }

  /** Adding to a word adds to its lowest field while that field has room. */
  lemma AddedFields(l: Layout, raw: U64, n: nat)
    requires var f := Unpack(l, raw); if l.TimestampHigh? then f.auto + n < TWO24 else f.timestamp + n < TWO32
    ensures raw + n < TWO64
    ensures var f := Unpack(l, raw);
            Unpack(l, raw + n) == if l.TimestampHigh? then f.(auto := f.auto + n) else f.(timestamp := f.timestamp + n)
  {
    var f := Unpack(l, raw);
    WordLayout(l, raw);
    PackedWord(l, if l.TimestampHigh? then f.(auto := f.auto + n) else f.(timestamp := f.timestamp + n));
  }

  lemma NextsAppend(n: nat)
    requires n > 0
    ensures Nexts(n)[..n - 1] == Nexts(n - 1) && Nexts(n)[n - 1] == Next && |Nexts(n)| == n
  {
  }

  /** The m-th Next from this word does not wrap and passes its CHECKs. */
  predicate PassesAt(c: Config, word: U64, m: int) {
    0 <= word + m - 1 && word + m < TWO64 && Checks(c, word + m)
  }

  predicate FailsAt(c: Config, word: U64, m: int) {
    0 <= word + m < TWO64 && !Checks(c, word + m)
  }

  lemma HighNth(c: Config, word: U64, m: nat)
    requires c.layout.TimestampHigh? && Checks(c, word) && Unpack(c.layout, word).auto == 0 && 0 < m <= 10_000_000
    ensures if m < 10_000_000 then PassesAt(c, word, m) else FailsAt(c, word, m)
  {
    AddedFields(c.layout, word, m);
  }

  lemma LowNth(c: Config, word: U64, m: nat)
    requires c.layout.TimestampLow? && Checks(c, word) && m > 0 && Unpack(c.layout, word).timestamp + m < TWO32
    ensures PassesAt(c, word, m)
  {
    AddedFields(c.layout, word, m);
  }

  lemma NextAt(c: Config, s: State, raw: U64)
    requires !s.failed && Increment(s.word) == raw
    ensures var s' := Step(c, s, Next);
            && s'.word == raw && s'.pending == s.pending && (s'.failed <==> !Checks(c, raw))
            && |s'.returned| == |s.returned| + (if Checks(c, raw) then 1 else 0)
  {
  }

  lemma RunNexts(c: Config, s: State, n: nat)
    requires n > 0
    ensures Run(c, s, Nexts(n)) == Step(c, Run(c, s, Nexts(n - 1)), Next)
  {
    NextsAppend(n);
  }

  /** n calls of Next succeeded in a row. */
  ghost predicate Counted(s: State, s': State, n: nat) {
    !s'.failed && s'.pending == s.pending && |s'.returned| == |s.returned| + n && s'.word == s.word + n
  }

  lemma CountOne(c: Config, s: State, before: State, n: nat)
    requires n > 0 && Counted(s, before, n - 1) && PassesAt(c, s.word, n)
    ensures Counted(s, Step(c, before, Next), n)
  {
    NextAt(c, before, s.word + n);
  }

  ghost predicate AllPass(c: Config, word: U64, n: nat) {
    forall m :: 0 < m <= n ==> PassesAt(c, word, m)
  }

  lemma {:induction false} CountNexts(c: Config, s: State, n: nat)
    requires !s.failed && AllPass(c, s.word, n)
    ensures Counted(s, Run(c, s, Nexts(n)), n)
  {
    if n > 0 {
      CountNexts(c, s, n - 1);
      RunNexts(c, s, n);
      CountOne(c, s, Run(c, s, Nexts(n - 1)), n);
    }
  }

  lemma {:induction false} FailedForGood(c: Config, s: State, m: nat, n: nat)
    requires m <= n && Run(c, s, Nexts(m)).failed
    ensures Run(c, s, Nexts(n)) == Run(c, s, Nexts(m))
  {
    if m < n {
      FailedForGood(c, s, m, n - 1);
      RunNexts(c, s, n);
    }
  }

  /** If the calls before the cap-th pass and the cap-th does not, no run of calls returns more. */
  lemma CountUpTo(c: Config, s: State, cap: nat, n: nat)
    requires 0 < cap <= n && !s.failed && AllPass(c, s.word, cap - 1) && FailsAt(c, s.word, cap)
    ensures var s' := Run(c, s, Nexts(n)); s'.failed && |s'.returned| == |s.returned| + cap - 1
  {
    CountNexts(c, s, cap - 1);
    RunNexts(c, s, cap);
    FailOne(c, s, Run(c, s, Nexts(cap - 1)), cap);
    FailedForGood(c, s, cap, n);
  }

  lemma FailOne(c: Config, s: State, before: State, n: nat)
    requires n > 0 && Counted(s, before, n - 1) && FailsAt(c, s.word, n)
    ensures var s' := Step(c, before, Next); s'.failed && |s'.returned| == |s.returned| + n - 1
  {
    NextAt(c, before, s.word + n);
  }

  lemma HighAllPass(c: Config, word: U64, n: nat)
    requires c.layout.TimestampHigh? && Checks(c, word) && Unpack(c.layout, word).auto == 0 && n < MAX_AUTO
    ensures AllPass(c, word, n)
  {
    forall m | 0 < m <= n ensures PassesAt(c, word, m) { HighNth(c, word, m); }
  }

  lemma LowAllPass(c: Config, word: U64, n: nat)
    requires c.layout.TimestampLow? && Checks(c, word) && Unpack(c.layout, word).timestamp + n < TWO32
    ensures AllPass(c, word, n)
  {
    forall m | 0 < m <= n ensures PassesAt(c, word, m) { LowNth(c, word, m); }
  }

  /**
    Ids per second. With the timestamp in the high bits, after an update that moved the
    word exactly 9,999,999 calls of Next succeed before the CHECK on the counter fails,
    unless a later update comes first.
   */
  lemma HighCapacity(c: Config, s: State, n: nat)
    requires c.layout.TimestampHigh? && !s.failed && Checks(c, s.word) && Unpack(c.layout, s.word).auto == 0
    ensures var s' := Run(c, s, Nexts(n));
            if n < 10_000_000 then Counted(s, s', n) else s'.failed && |s'.returned| == |s.returned| + 9_999_999
  {
    if n < MAX_AUTO {
      HighAllPass(c, s.word, n);
      CountNexts(c, s, n);
    } else {
      HighAllPass(c, s.word, MAX_AUTO - 1);
      HighNth(c, s.word, MAX_AUTO);
      CountUpTo(c, s, MAX_AUTO, n);
    }
  }

  lemma OldUpdateIgnored(c: Config, s: State, t: U32)
    requires !s.failed && s.pending.None? && Checks(c, s.word) && t <= Unpack(c.layout, s.word).timestamp
    ensures Step(c, s, Update(t)) == s
  {
  }

  /**
    With the timestamp in the low bits Next counts in the timestamp field: after n calls
    the generator's time is n seconds further on, and an update to no more is ignored.
   */
  lemma LowRunsAhead(c: Config, s: State, n: nat, t: U32)
    requires c.layout.TimestampLow? && !s.failed && Checks(c, s.word) && s.pending.None?
    requires Unpack(c.layout, s.word).timestamp + n < TWO32
    ensures var s', f := Run(c, s, Nexts(n)), Unpack(c.layout, s.word);
            && !s'.failed && |s'.returned| == |s.returned| + n
            && Unpack(c.layout, s'.word) == f.(timestamp := f.timestamp + n)
            && (t <= f.timestamp + n ==> Step(c, s', Update(t)) == s')
  {
    LowAllPass(c, s.word, n);
    CountNexts(c, s, n);
    AddedFields(c.layout, s.word, n);
    if t <= Unpack(c.layout, s.word).timestamp + n { OldUpdateIgnored(c, Run(c, s, Nexts(n)), t); }
  }

  // ------------------------------- split updates with the timestamp in the low bits

  /** No gaps above the word, nor above the word a pending store is about to write. */
  ghost predicate NoGaps(s: State) {
    !s.failed ==>
      && (forall r: U64, x: U64 :: r in s.returned && s.word < x <= r ==> x in s.returned)
      && (s.pending.Some? ==> forall x: U64 :: s.pending.value < x <= s.word ==> x in s.returned)
  }

  lemma NoGapsStep(c: Config, s: State, e: Event)
    requires c.layout.TimestampLow? && Sane(c, s) && NoGaps(s)
    ensures NoGaps(Step(c, s, e))
  {
    var s' := Step(c, s, e);
    if !s.failed && !s'.failed {
      match e
      case Next =>
        IncrementNoWrap(c, s.word);
        assert forall x: U64 :: x in s'.returned <==> x in s.returned || x == s'.word;
      case Store =>
      case _ => if s.pending.None? && UpdateTo(c, s.word, e.timestamp).Some? { UpdateMovesUp(c, s.word, e.timestamp); }
    }
  }

  lemma {:induction false} LowRun(c: Config, es: seq<Event>)
    requires c.layout.TimestampLow? && c.node == 0 && c.clock == 0
    ensures Sane(c, Run(c, START, es)) && NoGaps(Run(c, START, es))
    decreases |es|
  {
    if |es| > 0 {
      LowRun(c, es[..|es| - 1]);
      SaneStep(c, Run(c, START, es[..|es| - 1]), es[|es| - 1]);
      NoGapsStep(c, Run(c, START, es[..|es| - 1]), es[|es| - 1]);
    }
  }

  /** The word is at or past every id handed out. */
  ghost predicate Ahead(s: State) {
    forall r: U64 :: r in s.returned ==> r <= s.word
  }

  ghost predicate Distinct(ids: seq<U64>) {
    forall i, j :: 0 <= i < j < |ids| ==> ids[i] != ids[j]
  }

  /** Every Next that returned did so while the word was ahead of all earlier ids. */
  ghost predicate AheadAtNexts(c: Config, s: State, es: seq<Event>) {
    |es| > 0 ==>
      && AheadAtNexts(c, s, es[..|es| - 1])
      && (es[|es| - 1].Next? && |Run(c, s, es).returned| > |Run(c, s, es[..|es| - 1]).returned| ==>
            Ahead(Run(c, s, es[..|es| - 1])))
  }

  lemma FreshIffAhead(c: Config, s: State)
    requires c.layout.TimestampLow? && Sane(c, s) && NoGaps(s) && !s.failed
    ensures Increment(s.word) in s.returned <==> !Ahead(s)
  {
  }

  lemma DistinctAppend(ids: seq<U64>, id: U64)
    ensures Distinct(ids + [id]) <==> Distinct(ids) && id !in ids
  {
    var all := ids + [id];
    if Distinct(all) {
      assert forall i :: 0 <= i < |ids| ==> all[i] == ids[i] && all[i] != all[|ids|];
    }
  }

  /**
    With the timestamp in the low bits and updates split by Next calls, the ids of a
    run are distinct exactly when each of them was drawn while the word was ahead of
    the ids already handed out.
   */
  lemma {:induction false} LowDistinctIff(c: Config, es: seq<Event>)
    requires c.layout.TimestampLow? && c.node == 0 && c.clock == 0
    ensures Distinct(Run(c, START, es).returned) <==> AheadAtNexts(c, START, es)
    decreases |es|
  {
    if |es| > 0 {
      var before, e := es[..|es| - 1], es[|es| - 1];
      LowDistinctIff(c, before);
      LowRun(c, before);
      var s := Run(c, START, before);
      var s' := Step(c, s, e);
      if e.Next? && |s'.returned| > |s.returned| {
        FreshIffAhead(c, s);
        DistinctAppend(s.returned, Increment(s.word));
      } else {
        assert s'.returned == s.returned;
      }
    }
  }

  /** A pending store leaves the word ahead exactly when it does not move the word back. */
  lemma StoreStaysAheadIff(c: Config, es: seq<Event>)
    requires c.layout.TimestampLow? && c.node == 0 && c.clock == 0
    requires var s := Run(c, START, es); !s.failed && s.pending.Some? && Ahead(s)
    ensures var s := Run(c, START, es); Ahead(Step(c, s, Store)) <==> s.pending.value >= s.word
  {
    LowRun(c, es);
    var s := Run(c, START, es);
    assert s.pending.value < s.word ==> s.word in s.returned;
  }

  lemma LowNextPasses(c: Config, low: U64, high: U64)
    requires c.layout.TimestampLow? && c.node == 0 && c.clock == 0
    requires Checks(c, high) && high < TWO40 && low < high
    ensures Increment(low) == low + 1 && Checks(c, low + 1)
  {
  }

  /** If it does move the word back, the very next id is a repeat. */
  lemma StoreBackRepeats(c: Config, es: seq<Event>)
    requires c.layout.TimestampLow? && c.node == 0 && c.clock == 0
    requires var s := Run(c, START, es); !s.failed && s.pending.Some? && s.pending.value < s.word
    ensures !Distinct(Step(c, Step(c, Run(c, START, es), Store), Next).returned)
  {
    LowRun(c, es);
    var s := Run(c, START, es);
    var x := s.pending.value;
    LowNextPasses(c, x, s.word);
    assert x + 1 in s.returned;
    DistinctAppend(s.returned, x + 1);
  }

  /** In that placement two Next calls inside one update already return an id twice. */
  lemma LowInterleavedDuplicate()
    ensures var c := Config(TimestampLow, 0, 0);
            Run(c, START, [Load(1), Next, Next, Store, Next]).returned == [1, 2, 2]
  {
    var c := Config(TimestampLow, 0, 0);
    var es := [Load(1), Next, Next, Store, Next];
    var s1 := Step(c, START, Load(1));
    assert s1 == State(0, Some(1), [], false);
    var s3 := Step(c, Step(c, s1, Next), Next);
    assert s3 == State(2, Some(1), [1, 2], false);
    var s5 := Step(c, Step(c, s3, Store), Next);
    assert es[..4][..3] == es[..3] && es[..3][..2] == es[..2] && es[..2][..1] == es[..1] && es[..1][..0] == [];
    assert Run(c, START, es[..1]) == s1;
    assert Run(c, START, es[..3]) == s3;
    assert Run(c, START, es) == s5;
  }

  /** The guard Update's store lacks: no pending store of the run moves the word back. */
  ghost predicate StoresMoveUp(c: Config, s: State, es: seq<Event>) {
    |es| > 0 ==>
      && StoresMoveUp(c, s, es[..|es| - 1])
      && StoreMovesUp(Run(c, s, es[..|es| - 1]), es[|es| - 1])
  }

  ghost predicate StoreMovesUp(s: State, e: Event) {
    e.Store? && s.pending.Some? ==> s.pending.value >= s.word
  }

  lemma OrderedStep(c: Config, s: State, e: Event)
    requires Sane(c, s) && Ordered(c, s) && StoreMovesUp(s, e)
    ensures Ordered(c, Step(c, s, e))
  {
    if !s.failed {
      match e
      case Next => IncrementNoWrap(c, s.word);
      case Store =>
      case _ => if s.pending.None? && UpdateTo(c, s.word, e.timestamp).Some? { UpdateMovesUp(c, s.word, e.timestamp); }
    }
  }

  /** With that guard the ids of a run with split updates strictly increase, in either placement. */
  lemma {:induction false} GuardedIncreasing(c: Config, s: State, es: seq<Event>)
    requires Sane(c, s) && Ordered(c, s) && StoresMoveUp(c, s, es)
    ensures Sane(c, Run(c, s, es)) && Ordered(c, Run(c, s, es))
    decreases |es|
  {
    if |es| > 0 {
      var before, e := es[..|es| - 1], es[|es| - 1];
      GuardedIncreasing(c, s, before);
      SaneStep(c, Run(c, s, before), e);
      OrderedStep(c, Run(c, s, before), e);
    }
  }

  // --------------------------------------------------------- the root inode

  /** Among these events is the load of an update to a positive timestamp. */
  ghost predicate PositiveLoad(es: seq<Event>) {
    exists i :: 0 <= i < |es| && es[i].Load? && es[i].timestamp > 0
  }

  /**
    Nothing has touched the zero word: no Next, no store of a positive load, and no
    positive update, unless such a load kept the updater busy.
   */
  ghost predicate Untouched(es: seq<Event>) {
    forall i :: 0 <= i < |es| ==> LeavesZero(es[..i], es[i])
  }

  ghost predicate LeavesZero(before: seq<Event>, e: Event) {
    match e
    case Next => false
    case Load(_) => true
    case Store => !PositiveLoad(before)
    case Update(t) => t == 0 || PositiveLoad(before)
  }

  /** Some Next came while nothing had touched the word. */
  ghost predicate NextFirst(es: seq<Event>) {
    exists n :: 0 <= n < |es| && es[n].Next? && Untouched(es[..n])
  }

  lemma PrefixEvents(es: seq<Event>)
    requires |es| > 0
    ensures var before, e := es[..|es| - 1], es[|es| - 1];
            && (Untouched(es) <==> Untouched(before) && LeavesZero(before, e))
            && (PositiveLoad(es) <==> PositiveLoad(before) || (e.Load? && e.timestamp > 0))
            && (NextFirst(es) <==> NextFirst(before) || (Untouched(before) && e.Next?))
  {
    var before, e := es[..|es| - 1], es[|es| - 1];
    assert forall n :: 0 <= n < |before| ==> before[n] == es[n] && before[..n] == es[..n];
    assert es == before + [e];
  }

  /** In an untouched run the word is still zero, and an update is pending exactly if a positive one was loaded. */
  ghost predicate StillZero(s: State, es: seq<Event>) {
    s.word == 0 && s.returned == [] && !s.failed && (s.pending.Some? <==> PositiveLoad(es))
  }

  lemma UpdateOfZero(c: Config, timestamp: U32)
    requires c.node == 0 && c.clock == 0
    ensures Checks(c, 0) && (UpdateTo(c, 0, timestamp).Some? <==> timestamp > 0)
  {
  }

  lemma {:induction false} UntouchedRun(c: Config, es: seq<Event>)
    requires c.node == 0 && c.clock == 0 && Untouched(es)
    ensures StillZero(Run(c, START, es), es)
    decreases |es|
  {
    if |es| > 0 {
      PrefixEvents(es);
      UntouchedRun(c, es[..|es| - 1]);
      if es[|es| - 1].Load? || es[|es| - 1].Update? { UpdateOfZero(c, es[|es| - 1].timestamp); }
    }
  }

  lemma FirstTouch(c: Config, s: State, before: seq<Event>, e: Event)
    requires c.node == 0 && c.clock == 0 && Sane(c, s) && StillZero(s, before) && !LeavesZero(before, e)
    ensures var s' := Step(c, s, e);
            s'.word >= DirTable.ROOT_ID && s'.returned == if e.Next? then [DirTable.ROOT_ID] else []
  {
    if e.Update? { UpdateOfZero(c, e.timestamp); UpdateMovesUp(c, 0, e.timestamp); }
  }

  /** Once the word is past zero the root's id cannot come up again. */
  lemma NotRootAgain(c: Config, s: State, e: Event)
    requires Sane(c, s) && (s.failed || s.word >= DirTable.ROOT_ID)
    ensures var s' := Step(c, s, e);
            (DirTable.ROOT_ID in s'.returned <==> DirTable.ROOT_ID in s.returned) && (s'.failed || s'.word >= DirTable.ROOT_ID)
  {
    if !s.failed {
      match e
      case Next => IncrementNoWrap(c, s.word);
      case Store =>
      case _ => if s.pending.None? && UpdateTo(c, s.word, e.timestamp).Some? { UpdateMovesUp(c, s.word, e.timestamp); }
    }
  }

  /**
    The generator hands out the root directory's id exactly when some Next comes while
    nothing has touched the word, in either placement and however updates are split.
   */
  lemma {:induction false} RootIdIff(c: Config, es: seq<Event>)
    requires c.node == 0 && c.clock == 0
    ensures DirTable.ROOT_ID in Run(c, START, es).returned <==> NextFirst(es)
    ensures Sane(c, Run(c, START, es))
    ensures !Untouched(es) ==> var s := Run(c, START, es); s.failed || s.word >= DirTable.ROOT_ID
    decreases |es|
  {
    if |es| > 0 {
      var before, e := es[..|es| - 1], es[|es| - 1];
      RootIdIff(c, before);
      PrefixEvents(es);
      var s := Run(c, START, before);
      SaneStep(c, s, e);
      if Untouched(before) {
        UntouchedRun(c, before);
        if LeavesZero(before, e) { UntouchedRun(c, es); } else { FirstTouch(c, s, before, e); }
      } else {
        NotRootAgain(c, s, e);
      }
    }
  }

  // ------------------------------------------------------------ all together

  /**
    The ids of a run of a constructed generator. They are distinct in the high
    placement always and in the low one exactly under LowDistinctIff's condition,
    which holds whenever no update is split and whenever no store moves the word
    back; and the root's id is among them exactly under RootIdIff's.
   */
  lemma GeneratedIds(c: Config, es: seq<Event>)
    requires c.node == 0 && c.clock == 0
    ensures var ids := Run(c, START, es).returned;
            && (Distinct(ids) <==> c.layout.TimestampHigh? || AheadAtNexts(c, START, es))
            && (Sequential(es) || StoresMoveUp(c, START, es) ==> Distinct(ids))
            && (DirTable.ROOT_ID in ids <==> NextFirst(es))
  {
    if c.layout.TimestampHigh? {
      HighInterleavedIncreasing(c, START, es);
    } else {
      LowDistinctIff(c, es);
      if Sequential(es) { SequentialIncreasing(c, START, es); }
      if StoresMoveUp(c, START, es) { GuardedIncreasing(c, START, es); }
    }
    RootIdIff(c, es);
  }
}

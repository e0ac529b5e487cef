/**
  The readdir cursor of the FUSE client: a cached batch of directory entries with
  the stream offsets it covers, drained into caller-sized buffers and refilled by
  ListDir replies.
 */
module ReadDirStream {
  import opened KvTypes
  import opened Protocol

  /** An entry written to a reply buffer, with the offset of the entry after it. */
  datatype Emitted = Emitted(entry: DEnt, off: int)

  /** CacheDirEntries: entries holds stream positions from startOff on; endOff is the next to read. */
  datatype Cursor = Cursor(startOff: int, endOff: int, entries: seq<DEnt>, hasMore: bool)

  predicate Valid(c: Cursor) {
    0 <= c.startOff <= c.endOff <= c.startOff + |c.entries|
  }

  /** Total buffer space of some entries; sizeOf is what fuse_add_direntry needs for one. */
  function Space(es: seq<DEnt>, sizeOf: DEnt -> nat): nat {
    if |es| == 0 then 0 else Space(es[..|es| - 1], sizeOf) + sizeOf(es[|es| - 1])
  }

  function Unread(c: Cursor): seq<DEnt>
    requires Valid(c)
  {
    c.entries[c.endOff - c.startOff..]
  }

  /** n is how many of the unread entries a buffer takes: all that fit, in order, and no more. */
  ghost predicate Fits(es: seq<DEnt>, room: nat, sizeOf: DEnt -> nat, n: nat) {
    && n <= |es|
    && Space(es[..n], sizeOf) <= room
    && (n < |es| ==> Space(es[..n], sizeOf) + sizeOf(es[n]) > room)
  }

  function Emissions(c: Cursor, n: nat): seq<Emitted>
    requires Valid(c) && n <= |Unread(c)|
  {
    seq(n, i requires 0 <= i < n => Emitted(Unread(c)[i], c.endOff + i + 1))
  }

  /** The cursor after n more entries were read; a drained batch is dropped. */
  function Advance(c: Cursor, n: nat): (c': Cursor)
    requires Valid(c) && n <= |Unread(c)|
    ensures Valid(c')
  {
    var end := c.endOff + n;
    if end - c.startOff == |c.entries| then Cursor(end, end, [], c.hasMore) else c.(endOff := end)
  }

  /** n entries were read: the end moves by n, and a batch read to its end, and only such a batch, is gone. */
  predicate ReadBy(c: Cursor, n: nat, c': Cursor)
    requires Valid(c)
  {
    var drained := n == |Unread(c)|;
    && c'.endOff == c.endOff + n && c'.hasMore == c.hasMore
    && c'.entries == (if drained then [] else c.entries)
    && c'.startOff == (if drained then c'.endOff else c.startOff)
  }

  lemma AdvanceReads(c: Cursor, n: nat)
    requires Valid(c) && n <= |Unread(c)|
    ensures ReadBy(c, n, Advance(c, n))
  {
  }

  /** The cursor open hands to the first readdir: self, parent, then the first batch. */
  function Opened(self: DEnt, parent: DEnt, ents: seq<DEnt>, hasMore: bool): (c: Cursor)
    ensures Valid(c)
  {
    Cursor(0, 0, [self, parent] + ents, hasMore)
  }

  class CacheDirEntries {
    var startOff: int
    var endOff: int
    var entries: seq<DEnt>
    var hasMore: bool

    function View(): Cursor
      reads this
    {
      Cursor(startOff, endOff, entries, hasMore)
    }

    /** FuseOpenDirOp::OnSuccess. */
    constructor (self: DEnt, parent: DEnt, ents: seq<DEnt>, hasMore: bool)
      ensures View() == Opened(self, parent, ents, hasMore)
    {
      startOff := 0;
      endOff := 0;
      entries := [self, parent] + ents;
      this.hasMore := hasMore;
    }

    /** PopulateDirEntriesBuffer with an empty buffer of the given size. */
    method Populate(size: nat, sizeOf: DEnt -> nat) returns (reply: seq<Emitted>, used: nat)
      requires Valid(View())
      modifies this
      ensures Fits(Unread(old(View())), size, sizeOf, |reply|)
      ensures reply == Emissions(old(View()), |reply|)
      ensures used == Space(Unread(old(View()))[..|reply|], sizeOf) <= size
      ensures View() == Advance(old(View()), |reply|)
      ensures ReadBy(old(View()), |reply|, View())
    {
      reply, used := [], 0;
      ghost var unread := Unread(View());
      while endOff - startOff < |entries|
        invariant startOff == old(startOff) && entries == old(entries) && hasMore == old(hasMore)
        invariant endOff == old(endOff) + |reply| && |reply| <= |unread|
        invariant used == Space(unread[..|reply|], sizeOf) <= size
        invariant reply == Emissions(old(View()), |reply|)
        decreases |entries| - (endOff - startOff)
      {
        var entry := entries[endOff - startOff];
        assert entry == unread[|reply|];
        var written := sizeOf(entry);
        if written > size - used {
          break;
        }
        assert unread[..|reply| + 1][..|reply|] == unread[..|reply|];
        reply := reply + [Emitted(entry, endOff + 1)];
        endOff := endOff + 1;
        used := used + written;
      }
      if endOff - startOff == |entries| {
        startOff := endOff;
        entries := [];
      }
      AdvanceReads(old(View()), |reply|);
    }

    /** OnSuccess of a ListDir reply: its two CHECKs are its precondition. */
    method Refill(batch: seq<DEnt>, more: bool)
      requires endOff == startOff && entries == []
      modifies this`entries, this`hasMore
      ensures View() == old(View()).(entries := batch, hasMore := more)
    {
      entries := batch;
      hasMore := more;
    }
  }

  // ----------------------------------------------------------------- runs

  datatype Rpc = Listed(batch: seq<DEnt>, hasMore: bool) | RpcFailed

  /** One readdir call; the RPC result matters only if the call sends one. */
  datatype Call = Call(off: int, size: nat, rpc: Rpc)

  /**
    delivered: every entry any batch brought in, in order. announced: whether the last
    batch said there is more. emitted: every entry any reply carried. offsetFailed,
    cursorFailed: a CHECK of the constructor, of OnSuccess, failed.
   */
  datatype State = State(
    cursor: Cursor,
    delivered: seq<DEnt>,
    announced: bool,
    emitted: seq<Emitted>,
    offsetFailed: bool,
    cursorFailed: bool)

  ghost function Taken(c: Cursor, size: nat, sizeOf: DEnt -> nat): (n: nat)
    requires Valid(c)
    ensures Fits(Unread(c), size, sizeOf, n)
  {
    FitsExists(Unread(c), size, sizeOf);
    var n: nat :| Fits(Unread(c), size, sizeOf, n);
    n
  }

  lemma {:induction false} FitsExists(es: seq<DEnt>, room: nat, sizeOf: DEnt -> nat)
    ensures exists n: nat :: Fits(es, room, sizeOf, n)
    decreases |es|
  {
    if |es| == 0 {
      assert Fits(es, room, sizeOf, 0);
    } else {
      var init := es[..|es| - 1];
      FitsExists(init, room, sizeOf);
      var n: nat :| Fits(init, room, sizeOf, n);
      assert init[..n] == es[..n];
      if n < |init| || Space(init, sizeOf) + sizeOf(es[|es| - 1]) > room {
        assert init[..|init|] == init;
        assert Fits(es, room, sizeOf, n);
      } else {
        assert init[..|init|] == init && es[..|es|] == es;
        assert Fits(es, room, sizeOf, |es|);
      }
    }
  }

  ghost function Drain(s: State, size: nat, sizeOf: DEnt -> nat): State
    requires Valid(s.cursor)
  {
    var n := Taken(s.cursor, size, sizeOf);
    s.(cursor := Advance(s.cursor, n), emitted := s.emitted + Emissions(s.cursor, n))
  }

  /** The state with the RPC's batch in the cache. */
  ghost function Refilled(s: State, call: Call): State
    requires call.rpc.Listed?
  {
    s.(cursor := s.cursor.(entries := call.rpc.batch, hasMore := call.rpc.hasMore),
       delivered := s.delivered + call.rpc.batch,
       announced := call.rpc.hasMore)
  }

  ghost function Step(s: State, call: Call, sizeOf: DEnt -> nat): (s': State)
    requires Valid(s.cursor)
    ensures Valid(s'.cursor)
  {
    var c := s.cursor;
    if call.off != c.endOff then s.(offsetFailed := true)
    else if |c.entries| > 0 || !c.hasMore then Drain(s, call.size, sizeOf)
    else if call.rpc.RpcFailed? then s
    else if c.endOff != c.startOff || |c.entries| > 0 then s.(cursorFailed := true)
    else Drain(Refilled(s, call), call.size, sizeOf)
  }

  ghost function Run(s: State, calls: seq<Call>, sizeOf: DEnt -> nat): (s': State)
    requires Valid(s.cursor)
    ensures Valid(s'.cursor)
  {
    if |calls| == 0 then s else Step(Run(s, calls[..|calls| - 1], sizeOf), calls[|calls| - 1], sizeOf)
  }

  ghost function Start(self: DEnt, parent: DEnt, ents: seq<DEnt>, hasMore: bool): (s: State)
    ensures Valid(s.cursor)
  {
    State(Opened(self, parent, ents, hasMore), [self, parent] + ents, hasMore, [], false, false)
  }

  /**
    The emitted entries are the delivered ones from the first on, each with its 1-based
    position as offset, and the cache is empty exactly when none is left to emit.
   */
  ghost predicate InStream(s: State) {
    && Valid(s.cursor)
    && s.cursor.startOff + |s.cursor.entries| == |s.delivered|
    && s.cursor.entries == s.delivered[s.cursor.startOff..]
    && (s.cursor.entries == [] <==> |s.emitted| == |s.delivered|)
    && s.cursor.hasMore == s.announced
    && |s.emitted| == s.cursor.endOff
    && (forall i :: 0 <= i < |s.emitted| ==> s.emitted[i] == Emitted(s.delivered[i], i + 1))
    && !s.cursorFailed
  }

  lemma DrainInStream(s: State, size: nat, sizeOf: DEnt -> nat)
    requires InStream(s)
    ensures InStream(Drain(s, size, sizeOf))
  {
    var n := Taken(s.cursor, size, sizeOf);
    var s' := Drain(s, size, sizeOf);
    assert Unread(s.cursor) == s.delivered[s.cursor.endOff..];
    forall i | 0 <= i < |s'.emitted| ensures s'.emitted[i] == Emitted(s.delivered[i], i + 1) {
      if i >= |s.emitted| { assert s'.emitted[i] == Emissions(s.cursor, n)[i - |s.emitted|]; }
    }
  }

  lemma RefillInStream(s: State, call: Call)
    requires InStream(s) && s.cursor.entries == [] && call.rpc.Listed?
    ensures InStream(Refilled(s, call))
  {
    assert Refilled(s, call).delivered[s.cursor.startOff..] == call.rpc.batch;
  }

  lemma StepInStream(s: State, call: Call, sizeOf: DEnt -> nat)
    requires InStream(s)
    ensures InStream(Step(s, call, sizeOf))
  {
    var c := s.cursor;
    if call.off == c.endOff {
      if |c.entries| > 0 || !c.hasMore {
        DrainInStream(s, call.size, sizeOf);
      } else if call.rpc.Listed? {
        RefillInStream(s, call);
        DrainInStream(Refilled(s, call), call.size, sizeOf);
      }
    }
  }

  /**
    The readdir stream. Over any calls with any buffer sizes and any refills, the
    emitted entries are a prefix of the delivered ones without skip or repeat, each
    carries its 1-based position, and OnSuccess's CHECKs on the cursor never fail.
    The cache is empty exactly when everything delivered has been emitted.
   */
  lemma {:induction false} StreamIsPrefix(self: DEnt, parent: DEnt, ents: seq<DEnt>, hasMore: bool,
                                          calls: seq<Call>, sizeOf: DEnt -> nat)
    ensures var s := Run(Start(self, parent, ents, hasMore), calls, sizeOf);
            && InStream(s)
            && (s.cursor.entries == [] <==> |s.emitted| == |s.delivered|)
    decreases |calls|
  {
    if |calls| > 0 {
      StreamIsPrefix(self, parent, ents, hasMore, calls[..|calls| - 1], sizeOf);
      StepInStream(Run(Start(self, parent, ents, hasMore), calls[..|calls| - 1], sizeOf), calls[|calls| - 1], sizeOf);
    }
  }

  /** A call asks for more exactly when all is emitted, more was announced, and the offset is right. */
  ghost predicate Asks(s: State, call: Call) {
    call.off == |s.emitted| == |s.delivered| && s.announced
  }

  /**
    When batches arrive. In every run the next call takes in its RPC's batch exactly
    when everything delivered has been emitted, the last batch announced more, the
    offset is right and the RPC succeeds; no other call changes what was delivered.
   */
  lemma RefillsWhenDrained(self: DEnt, parent: DEnt, ents: seq<DEnt>, hasMore: bool,
                           calls: seq<Call>, call: Call, sizeOf: DEnt -> nat)
    ensures var s := Run(Start(self, parent, ents, hasMore), calls, sizeOf);
            var s' := Step(s, call, sizeOf);
            if Asks(s, call) && call.rpc.Listed? then
              s'.delivered == s.delivered + call.rpc.batch && s'.announced == call.rpc.hasMore
            else s'.delivered == s.delivered && s'.announced == s.announced
  {
    StreamIsPrefix(self, parent, ents, hasMore, calls, sizeOf);
  }

  lemma DrainEmits(s: State, size: nat, sizeOf: DEnt -> nat)
    requires InStream(s) && |s.emitted| < |s.delivered| && sizeOf(s.delivered[|s.emitted|]) <= size
    ensures |Drain(s, size, sizeOf).emitted| > |s.emitted|
  {
    assert Unread(s.cursor) == s.delivered[|s.emitted|..];
    EmptyReplyIff(s.cursor, size, sizeOf);
  }

  lemma StepEmits(s: State, call: Call, sizeOf: DEnt -> nat)
    requires InStream(s)
    ensures var s' := Step(s, call, sizeOf);
            call.off == |s.emitted| < |s'.delivered| && sizeOf(s'.delivered[|s.emitted|]) <= call.size ==>
              |s'.emitted| > |s.emitted|
  {
    var s' := Step(s, call, sizeOf);
    if call.off == |s.emitted| < |s'.delivered| && sizeOf(s'.delivered[|s.emitted|]) <= call.size {
      if s.cursor.entries == [] && s.cursor.hasMore {
        RefillInStream(s, call);
        DrainEmits(Refilled(s, call), call.size, sizeOf);
      } else {
        DrainEmits(s, call.size, sizeOf);
      }
    }
  }

  /**
    No stall. In every run a call at the right offset emits at least one entry if one is
    left, or brought in by the call's own RPC, and the buffer has room for it.
   */
  lemma ReadsOn(self: DEnt, parent: DEnt, ents: seq<DEnt>, hasMore: bool, calls: seq<Call>, call: Call, sizeOf: DEnt -> nat)
    ensures var s := Run(Start(self, parent, ents, hasMore), calls, sizeOf);
            var s' := Step(s, call, sizeOf);
            call.off == |s.emitted| < |s'.delivered| && sizeOf(s'.delivered[|s.emitted|]) <= call.size ==>
              |s'.emitted| > |s.emitted|
  {
    StreamIsPrefix(self, parent, ents, hasMore, calls, sizeOf);
    StepEmits(Run(Start(self, parent, ents, hasMore), calls, sizeOf), call, sizeOf);
  }

  /**
    FuseReadDirOp from construction to reply, on a cursor some run has reached: None
    for a failed offset CHECK or a failed RPC, else the entries put in the buffer.
   */
  method ReadDirOp(cache: CacheDirEntries, call: Call, sizeOf: DEnt -> nat, ghost s: State) returns (reply: Option<seq<Emitted>>)
    requires InStream(s) && cache.View() == s.cursor
    modifies cache
    ensures cache.View() == Step(s, call, sizeOf).cursor
    ensures Step(s, call, sizeOf).emitted == s.emitted + (if reply.Some? then reply.value else [])
    ensures reply.None? <==> call.off != s.cursor.endOff || (s.cursor.entries == [] && s.cursor.hasMore && call.rpc.RpcFailed?)
  {
    if call.off != cache.endOff {
      return None;
    }
    if !(|cache.entries| > 0 || !cache.hasMore) {
      if call.rpc.RpcFailed? {
        return None;
      }
      cache.Refill(call.rpc.batch, call.rpc.hasMore);
    }
    ghost var c := cache.View();
    var es, _ := cache.Populate(call.size, sizeOf);
    FitsUnique(Unread(c), call.size, sizeOf, |es|, Taken(c, call.size, sizeOf));
    return Some(es);
  }

  // ------------------------------------------- when a reply carries nothing

  lemma {:induction false} SpaceMonotone(es: seq<DEnt>, m: nat, n: nat, sizeOf: DEnt -> nat)
    requires m <= n <= |es|
    ensures Space(es[..m], sizeOf) <= Space(es[..n], sizeOf)
    decreases n - m
  {
    if m < n {
      SpaceMonotone(es, m, n - 1, sizeOf);
      assert es[..n][..n - 1] == es[..n - 1];
    }
  }

  lemma SpaceNext(es: seq<DEnt>, n: nat, sizeOf: DEnt -> nat)
    requires n < |es|
    ensures Space(es[..n + 1], sizeOf) == Space(es[..n], sizeOf) + sizeOf(es[n])
  {
    assert es[..n + 1][..n] == es[..n];
  }

  /** A buffer takes a definite number of entries, so Populate's contract fixes its reply. */
  lemma FitsUnique(es: seq<DEnt>, room: nat, sizeOf: DEnt -> nat, m: nat, n: nat)
    requires Fits(es, room, sizeOf, m) && Fits(es, room, sizeOf, n)
    ensures m == n
  {
    if m < n {
      SpaceNext(es, m, sizeOf);
      SpaceMonotone(es, m + 1, n, sizeOf);
    } else if n < m {
      SpaceNext(es, n, sizeOf);
      SpaceMonotone(es, n + 1, m, sizeOf);
    }
  }

  /**
    An empty reply, which the kernel reads as end of directory, means end of the
    cached batch exactly when the buffer has room for the next entry.
   */
  lemma EmptyReplyIff(c: Cursor, size: nat, sizeOf: DEnt -> nat)
    requires Valid(c)
    ensures Taken(c, size, sizeOf) == 0 <==> Unread(c) == [] || sizeOf(Unread(c)[0]) > size
  {
    var es := Unread(c);
    assert es[..0] == [];
    if es != [] && sizeOf(es[0]) > size { assert Fits(es, size, sizeOf, 0); FitsUnique(es, size, sizeOf, 0, Taken(c, size, sizeOf)); }
  }
}

/** The packet queue of a muxed UDP connection under every interleaving of writers, readers and Close: each step below
    is what one goroutine does between two points where another can run. */
module MuxedQueue {
  import opened Bits

  type Id = nat

  datatype Packet = Packet(data: seq<byte>, addr: nat)

  // The capacity of every buffer holder.
  const RECEIVE_MTU := 8192

  datatype ConnState = Open | Waiting | Closed

  datatype Writer =
    | Idle
    | Got(id: Id)       // a holder taken from the pool, to be filled
    | Filled(id: Id)    // about to lock
    | Refused(id: Id)   // found the connection closed; about to give the holder back
    | MustNotify        // unlocked after finding a reader waiting; about to send the token

  datatype Reader =
    | Resting                   // outside ReadFrom
    | Checking                  // about to lock
    | Blocked                   // waiting for the token or for Close
    | Copying(id: Id, k: nat)   // took a packet, the k-th to be taken; about to copy it out
    | Done(id: Id)              // about to give the holder back

  /** Who has a buffer holder. */
  datatype Place = InPool | InQueue | ByWriter(w: nat) | ByReader(r: nat) | Elsewhere

  /** `memory` holds the contents of every holder, `token` is the one-slot notify channel, and `closing` says that Close
      has the lock. `owner`, `written`, `taken`, `returned`, `lost` and `dropped` only record what has happened; `lost`
      lists the packets that were taken into a buffer too short for them. */
  datatype Conn = Conn(
    state: ConnState, queue: seq<Id>, token: bool, closing: bool,
    pool: set<Id>, next: Id, memory: map<Id, Packet>,
    writers: seq<Writer>, readers: seq<Reader>,
    owner: map<Id, Place>, written: seq<Packet>, taken: seq<Packet>, returned: seq<(nat, Packet)>, lost: seq<nat>,
    dropped: seq<Packet>)

  datatype Event =
    | Get(w: nat, id: Id)           // the pool hands out a holder of its own, or a new one
    | TooLong(w: nat, p: Packet)    // the holder cannot take the packet
    | Fill(w: nat, p: Packet)
    | Enqueue(w: nat)
    | GiveUp(w: nat)
    | Notify(w: nat)
    | Call(r: nat)
    | Check(r: nat)
    | Wake(r: nat)
    | SeeClosed(r: nat)
    | CopyOut(r: nat, size: nat)    // into the caller's buffer, of this size
    | CopyShort(r: nat, size: nat)  // the buffer is shorter than the packet: an error, and the packet is gone
    | GiveBack(r: nat)
    | BeginClose
    | ReleaseFirst                  // Close gives one queued holder back
    | EndClose
    | Leave(id: Id)                 // another connection takes a holder, or the pool drops it
    | Return(id: Id)                // another connection gives one back

  function Initial(writers: nat, readers: nat): Conn {
    Conn(Open, [], false, false, {}, 0, map[], seq(writers, _ => Idle), seq(readers, _ => Resting),
         map[], [], [], [], [], [])
  }

  predicate Enabled(c: Conn, e: Event) {
    match e
    case Get(w, id) => w < |c.writers| && c.writers[w] == Idle && (id in c.pool || id == c.next)
    case TooLong(w, p) => w < |c.writers| && c.writers[w].Got? && |p.data| > RECEIVE_MTU
    case Fill(w, p) => w < |c.writers| && c.writers[w].Got? && |p.data| <= RECEIVE_MTU
    case Enqueue(w) => w < |c.writers| && c.writers[w].Filled? && !c.closing
    case GiveUp(w) => w < |c.writers| && c.writers[w].Refused?
    case Notify(w) => w < |c.writers| && c.writers[w] == MustNotify
    case Call(r) => r < |c.readers| && c.readers[r] == Resting
    case Check(r) => r < |c.readers| && c.readers[r] == Checking && !c.closing
    case Wake(r) => r < |c.readers| && c.readers[r] == Blocked && c.token
    case SeeClosed(r) => r < |c.readers| && c.readers[r] == Blocked && c.state == Closed
    case CopyOut(r, size) =>
      r < |c.readers| && c.readers[r].Copying? && size >= |Content(c.memory, c.readers[r].id).data|
    case CopyShort(r, size) =>
      r < |c.readers| && c.readers[r].Copying? && size < |Content(c.memory, c.readers[r].id).data|
    case GiveBack(r) => r < |c.readers| && c.readers[r].Done?
    case BeginClose => !c.closing && c.state != Closed
    case ReleaseFirst => c.closing && c.queue != []
    case EndClose => c.closing && c.queue == []
    case Leave(id) => id in c.pool
    case Return(id) => id in c.owner && c.owner[id] == Elsewhere
  }

  /** What a holder holds; a new one holds nothing. */
  function Content(memory: map<Id, Packet>, id: Id): Packet {
    if id in memory then memory[id] else Packet([], 0)
  }

  function Writing(c: Conn, w: nat, pc: Writer): Conn
    requires w < |c.writers|
  {
    c.(writers := c.writers[w := pc])
  }

  function Reading(c: Conn, r: nat, pc: Reader): Conn
    requires r < |c.readers|
  {
    c.(readers := c.readers[r := pc])
  }

  function ToPool(c: Conn, id: Id): Conn {
    c.(pool := c.pool + {id}, owner := c.owner[id := InPool])
  }

  function AfterEnqueue(c: Conn, w: nat): Conn
    requires Enabled(c, Enqueue(w))
  {
    var id := c.writers[w].id;
    if c.state == Closed then Writing(c, w, Refused(id))
    else
      Writing(c, w, if c.state == Waiting then MustNotify else Idle)
        .(queue := c.queue + [id], owner := c.owner[id := InQueue], state := Open, written := c.written + [Content(c.memory, id)])
  }

  function AfterCheck(c: Conn, r: nat): Conn
    requires Enabled(c, Check(r))
  {
    if c.queue != [] then
      var id := c.queue[0];
      Reading(c, r, Copying(id, |c.taken|))
        .(queue := c.queue[1..], owner := c.owner[id := ByReader(r)], taken := c.taken + [Content(c.memory, id)])
    else if c.state == Closed then Reading(c, r, Resting)
    else Reading(c, r, Blocked).(state := Waiting)
  }

  function Apply(c: Conn, e: Event): Conn
    requires Enabled(c, e)
  {
    match e
    case Get(w, id) =>
      Writing(c, w, Got(id))
        .(pool := c.pool - {id}, next := if id == c.next then id + 1 else c.next, owner := c.owner[id := ByWriter(w)])
    case TooLong(w, _) => ToPool(Writing(c, w, Idle), c.writers[w].id)
    case Fill(w, p) => Writing(c, w, Filled(c.writers[w].id)).(memory := c.memory[c.writers[w].id := p])
    case Enqueue(w) => AfterEnqueue(c, w)
    case GiveUp(w) => ToPool(Writing(c, w, Idle), c.writers[w].id)
    case Notify(w) => Writing(c, w, Idle).(token := true)
    case Call(r) => Reading(c, r, Checking)
    case Check(r) => AfterCheck(c, r)
    case Wake(r) => Reading(c, r, Checking).(token := false)
    case SeeClosed(r) => Reading(c, r, Resting)
    case CopyOut(r, _) =>
      Reading(c, r, Done(c.readers[r].id)).(returned := c.returned + [(c.readers[r].k, Content(c.memory, c.readers[r].id))])
    case CopyShort(r, _) => Reading(c, r, Done(c.readers[r].id)).(lost := c.lost + [c.readers[r].k])
    case GiveBack(r) => ToPool(Reading(c, r, Resting), c.readers[r].id)
    case BeginClose => c.(closing := true)
    case ReleaseFirst =>
      ToPool(c, c.queue[0]).(queue := c.queue[1..], dropped := c.dropped + [Content(c.memory, c.queue[0])])
    case EndClose => c.(closing := false, state := Closed)
    case Leave(id) => c.(pool := c.pool - {id}, owner := c.owner[id := Elsewhere])
    case Return(id) => ToPool(c, id)
  }

  function RunFrom(c: Conn, es: seq<Event>): Option<Conn>
    decreases es
  {
    if es == [] then Some(c)
    else if !Enabled(c, es[0]) then None
    else RunFrom(Apply(c, es[0]), es[1..])
  }

  function Run(writers: nat, readers: nat, es: seq<Event>): Option<Conn> {
    RunFrom(Initial(writers, readers), es)
  }

  // ---------------------------------------------------------------- nobody shares a holder

  predicate OwnedBy(c: Conn, id: Id, p: Place) {
    id in c.owner && c.owner[id] == p && id < c.next
  }

  predicate Holds(w: Writer) {
    w.Got? || w.Filled? || w.Refused?
  }

  predicate Carrying(r: Reader) {
    r.Copying? || r.Done?
  }

  predicate Distinct(s: seq<Id>) {
    forall i, j :: 0 <= i < j < |s| ==> s[i] != s[j]
  }

  predicate WriterOwns(c: Conn, w: nat)
    requires w < |c.writers|
  {
    Holds(c.writers[w]) ==> OwnedBy(c, c.writers[w].id, ByWriter(w))
  }

  predicate ReaderOwns(c: Conn, r: nat)
    requires r < |c.readers|
  {
    Carrying(c.readers[r]) ==> OwnedBy(c, c.readers[r].id, ByReader(r))
  }

  /** Every holder in sight is where the record says. */
  ghost predicate Owned(c: Conn) {
    && (forall id :: id in c.pool ==> OwnedBy(c, id, InPool))
    && (forall i :: 0 <= i < |c.queue| ==> OwnedBy(c, c.queue[i], InQueue))
    && Distinct(c.queue)
    && (forall w :: 0 <= w < |c.writers| ==> WriterOwns(c, w))
    && (forall r :: 0 <= r < |c.readers| ==> ReaderOwns(c, r))
    && (forall id :: id in c.owner ==> id < c.next)
  }

  predicate ByAWriter(e: Event) {
    e.Get? || e.TooLong? || e.Fill? || e.Enqueue? || e.GiveUp? || e.Notify?
  }

  predicate ByAReader(e: Event) {
    e.Call? || e.Check? || e.Wake? || e.SeeClosed? || e.CopyOut? || e.CopyShort? || e.GiveBack?
  }

  lemma WriterStepOwns(c: Conn, e: Event)
    requires Owned(c) && Enabled(c, e) && ByAWriter(e)
    ensures Owned(Apply(c, e))
  {
    var d := Apply(c, e);
    assert WriterOwns(c, e.w);
    forall w | 0 <= w < |d.writers| ensures WriterOwns(d, w) { assert WriterOwns(c, w); }
    forall r | 0 <= r < |d.readers| ensures ReaderOwns(d, r) { assert ReaderOwns(c, r); }
  }

  lemma TakeOwns(c: Conn, r: nat)
    requires Owned(c) && Enabled(c, Check(r)) && c.queue != []
    ensures Owned(Apply(c, Check(r)))
  {
    var d := Apply(c, Check(r));
    forall w | 0 <= w < |d.writers| ensures WriterOwns(d, w) { assert WriterOwns(c, w); }
    forall q | 0 <= q < |d.readers| ensures ReaderOwns(d, q) { assert ReaderOwns(c, q); }
  }

  lemma GiveBackOwns(c: Conn, r: nat)
    requires Owned(c) && Enabled(c, GiveBack(r))
    ensures Owned(Apply(c, GiveBack(r)))
  {
    var d := Apply(c, GiveBack(r));
    assert ReaderOwns(c, r);
    forall w | 0 <= w < |d.writers| ensures WriterOwns(d, w) { assert WriterOwns(c, w); }
    forall q | 0 <= q < |d.readers| ensures ReaderOwns(d, q) { assert ReaderOwns(c, q); }
  }

  /** No holder changes hands. */
  lemma SameOwns(c: Conn, d: Conn)
    requires Owned(c) && d.pool == c.pool && d.queue == c.queue && d.owner == c.owner && d.next == c.next
    requires d.writers == c.writers && |d.readers| == |c.readers|
    requires forall q :: 0 <= q < |d.readers| && Carrying(d.readers[q]) ==>
               Carrying(c.readers[q]) && d.readers[q].id == c.readers[q].id
    ensures Owned(d)
  {
    forall w | 0 <= w < |d.writers| ensures WriterOwns(d, w) { assert WriterOwns(c, w); }
    forall q | 0 <= q < |d.readers| ensures ReaderOwns(d, q) { assert ReaderOwns(c, q); }
  }

  lemma ReaderStepOwns(c: Conn, e: Event)
    requires Owned(c) && Enabled(c, e) && ByAReader(e)
    ensures Owned(Apply(c, e))
  {
    if e.Check? && c.queue != [] {
      TakeOwns(c, e.r);
    } else if e.GiveBack? {
      GiveBackOwns(c, e.r);
    } else {
      SameOwns(c, Apply(c, e));
    }
  }

  lemma OtherStepOwns(c: Conn, e: Event)
    requires Owned(c) && Enabled(c, e) && !ByAWriter(e) && !ByAReader(e)
    ensures Owned(Apply(c, e))
  {
    var d := Apply(c, e);
    forall w | 0 <= w < |d.writers| ensures WriterOwns(d, w) { assert WriterOwns(c, w); }
    forall r | 0 <= r < |d.readers| ensures ReaderOwns(d, r) { assert ReaderOwns(c, r); }
  }

  lemma StepOwns(c: Conn, e: Event)
    requires Owned(c) && Enabled(c, e)
    ensures Owned(Apply(c, e))
  {
    if ByAWriter(e) { WriterStepOwns(c, e); } else if ByAReader(e) { ReaderStepOwns(c, e); } else { OtherStepOwns(c, e); }
  }

  // ---------------------------------------------------------------- first in, first out

  function Contents(memory: map<Id, Packet>, ids: seq<Id>): (ps: seq<Packet>)
    ensures |ps| == |ids| && forall i :: 0 <= i < |ids| ==> ps[i] == Content(memory, ids[i])
  {
    if ids == [] then [] else [Content(memory, ids[0])] + Contents(memory, ids[1..])
  }

  /** What was written was taken, was dropped by Close, or is still queued, in that order. */
  ghost predicate Fifo(c: Conn) {
    && c.written == c.taken + c.dropped + Contents(c.memory, c.queue)
    && (c.dropped != [] ==> c.closing || c.state == Closed)
    && (c.state == Closed ==> c.queue == [] && !c.closing)
  }

  lemma SameContents(memory: map<Id, Packet>, memory1: map<Id, Packet>, ids: seq<Id>)
    requires forall i :: 0 <= i < |ids| ==> Content(memory, ids[i]) == Content(memory1, ids[i])
    ensures Contents(memory, ids) == Contents(memory1, ids)
  {
  }

  lemma FirstOf(memory: map<Id, Packet>, ids: seq<Id>)
    requires ids != []
    ensures Contents(memory, ids) == [Content(memory, ids[0])] + Contents(memory, ids[1..])
  {
  }

  lemma LastOf(memory: map<Id, Packet>, ids: seq<Id>, id: Id)
    ensures Contents(memory, ids + [id]) == Contents(memory, ids) + [Content(memory, id)]
  {
  }

  /** Filling a holder does not touch the queued ones. */
  lemma FillFifo(c: Conn, w: nat, p: Packet)
    requires Owned(c) && Fifo(c) && Enabled(c, Fill(w, p))
    ensures Fifo(Apply(c, Fill(w, p)))
  {
    assert WriterOwns(c, w);
    SameContents(c.memory, Apply(c, Fill(w, p)).memory, c.queue);
  }

  lemma EnqueueFifo(c: Conn, w: nat)
    requires Fifo(c) && Enabled(c, Enqueue(w))
    ensures Fifo(Apply(c, Enqueue(w)))
  {
    LastOf(c.memory, c.queue, c.writers[w].id);
  }

  lemma CheckFifo(c: Conn, r: nat)
    requires Fifo(c) && Enabled(c, Check(r))
    ensures Fifo(Apply(c, Check(r)))
  {
    if c.queue != [] {
      FirstOf(c.memory, c.queue);
      assert c.dropped == [];
      Shift(c.taken, Content(c.memory, c.queue[0]), Contents(c.memory, c.queue[1..]));
    }
  }

  lemma Shift(taken: seq<Packet>, p: Packet, rest: seq<Packet>)
    ensures taken + [] + ([p] + rest) == taken + [p] + [] + rest
  {
  }

  lemma ReleaseFifo(c: Conn)
    requires Fifo(c) && Enabled(c, ReleaseFirst)
    ensures Fifo(Apply(c, ReleaseFirst))
  {
    FirstOf(c.memory, c.queue);
    Drop(c.taken, c.dropped, Content(c.memory, c.queue[0]), Contents(c.memory, c.queue[1..]));
  }

  lemma Drop(taken: seq<Packet>, dropped: seq<Packet>, p: Packet, rest: seq<Packet>)
    ensures taken + dropped + ([p] + rest) == taken + (dropped + [p]) + rest
  {
  }

  lemma StepFifo(c: Conn, e: Event)
    requires Owned(c) && Fifo(c) && Enabled(c, e)
    ensures Fifo(Apply(c, e))
  {
    match e
    case Fill(w, p) => FillFifo(c, w, p);
    case Enqueue(w) => EnqueueFifo(c, w);
    case Check(r) => CheckFifo(c, r);
    case ReleaseFirst => ReleaseFifo(c);
    case _ =>
  }

  // ---------------------------------------------------------------- each packet is returned at most once

  /** A reader that took packet `k` still has its bytes, and nobody else took it. */
  predicate Carries(c: Conn, r: nat)
    requires r < |c.readers|
  {
    var pc := c.readers[r];
    pc.Copying? ==>
      && pc.k < |c.taken| && Content(c.memory, pc.id) == c.taken[pc.k]
      && (forall i :: 0 <= i < |c.returned| ==> c.returned[i].0 != pc.k) && pc.k !in c.lost
      && (forall q :: 0 <= q < |c.readers| && q != r && c.readers[q].Copying? ==> c.readers[q].k != pc.k)
  }

  ghost predicate Reads(c: Conn) {
    && (forall r :: 0 <= r < |c.readers| ==> Carries(c, r))
    && (forall i :: 0 <= i < |c.returned| ==> c.returned[i].0 < |c.taken| && c.returned[i].1 == c.taken[c.returned[i].0])
    && (forall i, j :: 0 <= i < j < |c.returned| ==> c.returned[i].0 != c.returned[j].0)
    && (forall k :: k in c.lost ==> k < |c.taken|)
    && (forall i :: 0 <= i < |c.returned| ==> c.returned[i].0 !in c.lost)
  }

  lemma CheckReads(c: Conn, r: nat)
    requires Reads(c) && Enabled(c, Check(r))
    ensures Reads(Apply(c, Check(r)))
  {
    var d := Apply(c, Check(r));
    forall q | 0 <= q < |c.readers| && c.readers[q].Copying? ensures c.readers[q].k < |c.taken| { assert Carries(c, q); }
    forall q | 0 <= q < |d.readers| ensures Carries(d, q) { assert Carries(c, q); }
  }

  lemma CopyOutReads(c: Conn, r: nat, size: nat)
    requires Reads(c) && Enabled(c, CopyOut(r, size))
    ensures Reads(Apply(c, CopyOut(r, size)))
  {
    var d := Apply(c, CopyOut(r, size));
    assert Carries(c, r);
    forall q | 0 <= q < |d.readers| ensures Carries(d, q) { assert Carries(c, q); }
  }

  lemma CopyShortReads(c: Conn, r: nat, size: nat)
    requires Reads(c) && Enabled(c, CopyShort(r, size))
    ensures Reads(Apply(c, CopyShort(r, size)))
  {
    var d := Apply(c, CopyShort(r, size));
    assert Carries(c, r);
    forall q | 0 <= q < |d.readers| ensures Carries(d, q) { assert Carries(c, q); }
  }

  lemma FillReads(c: Conn, w: nat, p: Packet)
    requires Owned(c) && Reads(c) && Enabled(c, Fill(w, p))
    ensures Reads(Apply(c, Fill(w, p)))
  {
    var d := Apply(c, Fill(w, p));
    assert WriterOwns(c, w);
    forall q | 0 <= q < |d.readers| ensures Carries(d, q) { assert Carries(c, q) && ReaderOwns(c, q); }
  }

  /** Nothing is taken, returned or overwritten, and no other reader starts to copy. */
  lemma OtherReads(c: Conn, d: Conn)
    requires Reads(c) && d.taken == c.taken && d.returned == c.returned && d.lost == c.lost && d.memory == c.memory
    requires |d.readers| == |c.readers|
    requires forall q :: 0 <= q < |d.readers| && d.readers[q].Copying? ==> d.readers[q] == c.readers[q]
    ensures Reads(d)
  {
    forall q | 0 <= q < |d.readers| ensures Carries(d, q) { assert Carries(c, q); }
  }

  lemma StepReads(c: Conn, e: Event)
    requires Owned(c) && Reads(c) && Enabled(c, e)
    ensures Reads(Apply(c, e))
  {
    match e
    case Check(r) => CheckReads(c, r);
    case CopyOut(r, size) => CopyOutReads(c, r, size);
    case CopyShort(r, size) => CopyShortReads(c, r, size);
    case Fill(w, p) => FillReads(c, w, p);
    case _ => OtherReads(c, Apply(c, e));
  }

  // ---------------------------------------------------------------- with at most one reader

  /** How many of the lost packets come before packet `k`. */
  function LostBefore(lost: seq<nat>, k: nat): (n: nat)
    ensures n == 0 <==> forall i :: 0 <= i < |lost| ==> lost[i] >= k
  {
    if lost == [] then 0 else LostBefore(lost[..|lost| - 1], k) + if lost[|lost| - 1] < k then 1 else 0
  }

  lemma OneMoreLost(lost: seq<nat>, j: nat, k: nat)
    ensures LostBefore(lost + [j], k) == LostBefore(lost, k) + if j < k then 1 else 0
  {
    assert (lost + [j])[..|lost|] == lost;
  }

  lemma InPlaceIff(lost: seq<nat>, k: nat)
    requires k !in lost
    ensures LostBefore(lost, k) == 0 <==> forall j :: j in lost ==> j > k
  {
    if LostBefore(lost, k) == 0 {
      forall j | j in lost ensures j > k {
        var i :| 0 <= i < |lost| && lost[i] == j;
      }
    } else {
      var i :| 0 <= i < |lost| && lost[i] < k;
      assert lost[i] in lost;
    }
  }

  lemma {:induction false} AllLostBefore(lost: seq<nat>, k: nat)
    requires forall i :: 0 <= i < |lost| ==> lost[i] < k
    ensures LostBefore(lost, k) == |lost|
  {
    if lost != [] { AllLostBefore(lost[..|lost| - 1], k); }
  }

  predicate Copies(c: Conn) {
    |c.readers| == 1 && c.readers[0].Copying?
  }

  /** Each packet taken was returned or lost, but for one that is being copied; and a packet is returned later than its
      place by as many as were lost before it. */
  ghost predicate InOrder(c: Conn) {
    && |c.readers| <= 1
    && |c.taken| == |c.returned| + |c.lost| + (if Copies(c) then 1 else 0)
    && (Copies(c) ==> c.readers[0].k == |c.taken| - 1)
    && (forall i :: 0 <= i < |c.returned| ==>
          c.returned[i].0 < |c.returned| + |c.lost| && c.returned[i].0 == i + LostBefore(c.lost, c.returned[i].0))
    && (forall i :: 0 <= i < |c.lost| ==> c.lost[i] < |c.returned| + |c.lost|)
    && (forall i, j :: 0 <= i < j < |c.returned| ==> c.returned[i].0 < c.returned[j].0)
  }

  lemma CopyOutInOrder(c: Conn, r: nat, size: nat)
    requires InOrder(c) && Enabled(c, CopyOut(r, size))
    ensures InOrder(Apply(c, CopyOut(r, size)))
  {
    AllLostBefore(c.lost, c.readers[0].k);
  }

  lemma CopyShortInOrder(c: Conn, r: nat, size: nat)
    requires InOrder(c) && Enabled(c, CopyShort(r, size))
    ensures InOrder(Apply(c, CopyShort(r, size)))
  {
    var k := c.readers[0].k;
    forall i | 0 <= i < |c.returned| ensures LostBefore(c.lost + [k], c.returned[i].0) == LostBefore(c.lost, c.returned[i].0) {
      OneMoreLost(c.lost, k, c.returned[i].0);
    }
  }

  lemma CheckInOrder(c: Conn, r: nat)
    requires InOrder(c) && Enabled(c, Check(r))
    ensures InOrder(Apply(c, Check(r)))
  {
  }

  /** Nothing is taken, returned or lost. */
  lemma OtherInOrder(c: Conn, d: Conn)
    requires InOrder(c) && d.returned == c.returned && d.lost == c.lost && d.taken == c.taken
    requires |d.readers| == |c.readers| && Copies(d) == Copies(c) && (Copies(d) ==> d.readers[0].k == c.readers[0].k)
    ensures InOrder(d)
  {
  }

  lemma ReaderStepInOrder(c: Conn, e: Event)
    requires InOrder(c) && Enabled(c, e) && ByAReader(e)
    ensures InOrder(Apply(c, e))
  {
    if e.CopyOut? {
      CopyOutInOrder(c, e.r, e.size);
    } else if e.CopyShort? {
      CopyShortInOrder(c, e.r, e.size);
    } else if e.Check? {
      CheckInOrder(c, e.r);
    } else {
      OtherInOrder(c, Apply(c, e));
    }
  }

  lemma StepInOrder(c: Conn, e: Event)
    requires InOrder(c) && Enabled(c, e)
    ensures InOrder(Apply(c, e))
  {
    if ByAReader(e) { ReaderStepInOrder(c, e); } else { OtherInOrder(c, Apply(c, e)); }
  }

  /** A token is there, or about to be. */
  predicate WakeupComing(c: Conn) {
    c.token || exists w :: 0 <= w < |c.writers| && c.writers[w] == MustNotify
  }

  /** A blocked reader is one that a writer will see waiting, or a wakeup is coming. */
  predicate Wakeable(c: Conn) {
    forall r :: 0 <= r < |c.readers| && c.readers[r] == Blocked && c.state != Closed ==>
      (c.state == Waiting && c.queue == []) || WakeupComing(c)
  }

  lemma StepWakeable(c: Conn, e: Event)
    requires |c.readers| <= 1 && Wakeable(c) && Enabled(c, e)
    ensures Wakeable(Apply(c, e))
  {
    var d := Apply(c, e);
    if e.Enqueue? && c.state == Waiting {
      assert d.writers[e.w] == MustNotify;
    } else if WakeupComing(c) && !c.token && !e.Notify? {
      var w :| 0 <= w < |c.writers| && c.writers[w] == MustNotify;
      assert d.writers[w] == MustNotify;
    }
  }

  // ---------------------------------------------------------------- every run

  ghost predicate Invariant(c: Conn) {
    Owned(c) && Fifo(c) && Reads(c)
  }

  ghost predicate OneReader(c: Conn) {
    InOrder(c) && Wakeable(c)
  }

  lemma {:induction false} RunKeeps(c: Conn, es: seq<Event>)
    requires Invariant(c) && RunFrom(c, es).Some?
    ensures Invariant(RunFrom(c, es).value)
    ensures OneReader(c) ==> OneReader(RunFrom(c, es).value)
    decreases es
  {
    if es != [] {
      StepOwns(c, es[0]);
      StepFifo(c, es[0]);
      StepReads(c, es[0]);
      if OneReader(c) {
        StepInOrder(c, es[0]);
        StepWakeable(c, es[0]);
      }
      RunKeeps(Apply(c, es[0]), es[1..]);
    }
  }

  /** No holder is in two places: not in the pool and in the queue, not twice in the queue, and not in either while a
      writer or a reader has it; and no two writers, no two readers and no writer and reader have the same one. */
  ghost predicate NoSharing(c: Conn) {
    && Distinct(c.queue)
    && (forall i :: 0 <= i < |c.queue| ==> c.queue[i] !in c.pool)
    && (forall w :: 0 <= w < |c.writers| && Holds(c.writers[w]) ==>
          c.writers[w].id !in c.pool && c.writers[w].id !in c.queue)
    && (forall r :: 0 <= r < |c.readers| && Carrying(c.readers[r]) ==>
          c.readers[r].id !in c.pool && c.readers[r].id !in c.queue)
    && (forall v, w :: 0 <= v < w < |c.writers| && Holds(c.writers[v]) && Holds(c.writers[w]) ==>
          c.writers[v].id != c.writers[w].id)
    && (forall q, r :: 0 <= q < r < |c.readers| && Carrying(c.readers[q]) && Carrying(c.readers[r]) ==>
          c.readers[q].id != c.readers[r].id)
    && (forall w, r :: 0 <= w < |c.writers| && 0 <= r < |c.readers| && Holds(c.writers[w]) && Carrying(c.readers[r]) ==>
          c.writers[w].id != c.readers[r].id)
  }

  lemma OwnedIsNoSharing(c: Conn)
    requires Owned(c)
    ensures NoSharing(c)
  {
    forall w | 0 <= w < |c.writers| && Holds(c.writers[w])
      ensures c.writers[w].id !in c.pool && c.writers[w].id !in c.queue
    {
      assert WriterOwns(c, w);
    }
    forall r | 0 <= r < |c.readers| && Carrying(c.readers[r])
      ensures c.readers[r].id !in c.pool && c.readers[r].id !in c.queue
    {
      assert ReaderOwns(c, r);
    }
    forall v, w | 0 <= v < w < |c.writers| && Holds(c.writers[v]) && Holds(c.writers[w])
      ensures c.writers[v].id != c.writers[w].id
    {
      assert WriterOwns(c, v) && WriterOwns(c, w);
    }
    forall q, r | 0 <= q < r < |c.readers| && Carrying(c.readers[q]) && Carrying(c.readers[r])
      ensures c.readers[q].id != c.readers[r].id
    {
      assert ReaderOwns(c, q) && ReaderOwns(c, r);
    }
    forall w, r | 0 <= w < |c.writers| && 0 <= r < |c.readers| && Holds(c.writers[w]) && Carrying(c.readers[r])
      ensures c.writers[w].id != c.readers[r].id
    {
      assert WriterOwns(c, w) && ReaderOwns(c, r);
    }
  }

  lemma InitialInvariant(writers: nat, readers: nat)
    ensures Invariant(Initial(writers, readers))
    ensures readers <= 1 ==> OneReader(Initial(writers, readers))
  {
    var c := Initial(writers, readers);
    forall w | 0 <= w < |c.writers| ensures WriterOwns(c, w) { }
    forall r | 0 <= r < |c.readers| ensures ReaderOwns(c, r) && Carries(c, r) { }
  }

  lemma TakenFirst(c: Conn)
    requires Fifo(c)
    ensures c.taken <= c.written
    ensures !c.closing && c.state != Closed ==> c.written == c.taken + Contents(c.memory, c.queue)
  {
    var rest := Contents(c.memory, c.queue);
    assert c.taken + c.dropped + rest == c.taken + (c.dropped + rest);
    if c.dropped == [] { assert c.taken + [] == c.taken; }
  }

  /** Over every run, with any number of writers and readers. */
  lemma HoldersAreNeverShared(writers: nat, readers: nat, es: seq<Event>)
    requires Run(writers, readers, es).Some?
    ensures NoSharing(Run(writers, readers, es).value)
  {
    InitialInvariant(writers, readers);
    RunKeeps(Initial(writers, readers), es);
    OwnedIsNoSharing(Run(writers, readers, es).value);
  }

  lemma PlacesIff(c: Conn)
    requires Reads(c) && InOrder(c)
    ensures forall i :: 0 <= i < |c.returned| ==>
              (c.returned[i].0 == i <==> forall k :: k in c.lost ==> k > c.returned[i].0)
  {
    forall i | 0 <= i < |c.returned|
      ensures c.returned[i].0 == i <==> forall k :: k in c.lost ==> k > c.returned[i].0
    {
      InPlaceIff(c.lost, c.returned[i].0);
    }
  }

  /** Packets are taken in the order they were written and none is skipped before Close; each is returned or lost to a
      short buffer at most once, and returned with the bytes it was written with. A single reader gets them in order,
      and a packet in its own place exactly when no read before it was short. */
  lemma PacketsComeOutInOrder(writers: nat, readers: nat, es: seq<Event>)
    requires Run(writers, readers, es).Some?
    ensures var c := Run(writers, readers, es).value;
            && c.taken <= c.written
            && (!c.closing && c.state != Closed ==> c.written == c.taken + Contents(c.memory, c.queue))
            && (forall i :: 0 <= i < |c.returned| ==>
                  c.returned[i].0 < |c.written| && c.returned[i].1 == c.written[c.returned[i].0])
            && (forall i, j :: 0 <= i < j < |c.returned| ==> c.returned[i].0 != c.returned[j].0)
            && (forall i :: 0 <= i < |c.returned| ==> c.returned[i].0 !in c.lost)
            && (readers <= 1 ==>
                  && (forall i, j :: 0 <= i < j < |c.returned| ==> c.returned[i].0 < c.returned[j].0)
                  && (forall i :: 0 <= i < |c.returned| ==>
                        (c.returned[i].0 == i <==> forall k :: k in c.lost ==> k > c.returned[i].0)))
  {
    InitialInvariant(writers, readers);
    RunKeeps(Initial(writers, readers), es);
    TakenFirst(Run(writers, readers, es).value);
    if readers <= 1 { PlacesIff(Run(writers, readers, es).value); }
  }

  function ShortReads(es: seq<Event>): nat {
    if es == [] then 0 else ShortReads(es[1..]) + if es[0].CopyShort? then 1 else 0
  }

  lemma {:induction false} LostToShortReads(c: Conn, es: seq<Event>)
    requires RunFrom(c, es).Some?
    ensures |RunFrom(c, es).value.lost| == |c.lost| + ShortReads(es)
    decreases es
  {
    if es != [] { LostToShortReads(Apply(c, es[0]), es[1..]); }
  }

  /** A single reader has been returned the packets it took, every one and in order, exactly when no read was short. */
  lemma NothingSkippedIff(writers: nat, es: seq<Event>)
    requires Run(writers, 1, es).Some?
    ensures var c := Run(writers, 1, es).value;
            && |c.taken| == |c.returned| + ShortReads(es) + (if Copies(c) then 1 else 0)
            && (ShortReads(es) == 0 <==> c.lost == [])
            && (ShortReads(es) == 0 ==> forall i :: 0 <= i < |c.returned| ==> c.returned[i].0 == i)
  {
    InitialInvariant(writers, 1);
    RunKeeps(Initial(writers, 1), es);
    LostToShortReads(Initial(writers, 1), es);
  }

  // ---------------------------------------------------------------- buffers that are long enough

  /** Every read is into a buffer of at least this size. */
  predicate Roomy(es: seq<Event>, size: nat) {
    forall i :: 0 <= i < |es| && (es[i].CopyOut? || es[i].CopyShort?) ==> es[i].size >= size
  }

  predicate Bounded(memory: map<Id, Packet>) {
    forall id :: id in memory ==> |memory[id].data| <= RECEIVE_MTU
  }

  lemma {:induction false} RoomyReads(c: Conn, es: seq<Event>)
    requires Bounded(c.memory) && RunFrom(c, es).Some? && Roomy(es, RECEIVE_MTU)
    ensures ShortReads(es) == 0
    decreases es
  {
    if es != [] {
      assert !es[0].CopyShort?;
      RoomyReads(Apply(c, es[0]), es[1..]);
    }
  }

  /** A reader blocks on a queue that has a packet, with no wakeup coming and the connection not closed. */
  predicate Stuck(c: Conn) {
    c.queue != [] && c.state != Closed && !WakeupComing(c) && exists r :: 0 <= r < |c.readers| && c.readers[r] == Blocked
  }

  lemma NoLostWakeup(writers: nat, readers: nat, es: seq<Event>)
    requires readers <= 1 && Run(writers, readers, es).Some?
    ensures !Stuck(Run(writers, readers, es).value)
  {
    InitialInvariant(writers, readers);
    RunKeeps(Initial(writers, readers), es);
  }

  // ---------------------------------------------------------------- runs that show it

  lemma {:induction false} OneMoreEvent(c: Conn, es: seq<Event>, e: Event)
    requires RunFrom(c, es).Some? && Enabled(RunFrom(c, es).value, e)
    ensures RunFrom(c, es + [e]) == Some(Apply(RunFrom(c, es).value, e))
    decreases es
  {
    if es == [] {
      assert [] + [e] == [e] && [e][1..] == [];
    } else {
      assert (es + [e])[1..] == es[1..] + [e];
      OneMoreEvent(Apply(c, es[0]), es[1..], e);
    }
  }

  lemma Blocks(c: Conn, es: seq<Event>, r: nat) returns (es1: seq<Event>)
    requires RunFrom(c, es).Some?
    requires var d := RunFrom(c, es).value;
             r < |d.readers| && d.readers[r] == Resting && d.queue == [] && d.state != Closed && !d.closing
    ensures RunFrom(c, es1).Some?
    ensures var d := RunFrom(c, es).value;
            RunFrom(c, es1).value == Reading(d, r, Blocked).(state := Waiting)
  {
    OneMoreEvent(c, es, Call(r));
    OneMoreEvent(c, es + [Call(r)], Check(r));
    es1 := es + [Call(r)] + [Check(r)];
    var d := RunFrom(c, es).value;
    assert d.readers[r := Checking][r := Blocked] == d.readers[r := Blocked];
  }

  /** The only writer writes a packet, and tells a reader if one is waiting. */
  lemma Writes(c: Conn, es: seq<Event>, p: Packet) returns (es1: seq<Event>)
    requires RunFrom(c, es).Some?
    requires |p.data| <= RECEIVE_MTU
    requires var d := RunFrom(c, es).value; d.writers == [Idle] && d.state != Closed && !d.closing
    ensures RunFrom(c, es1).Some? && forall size :: Roomy(es, size) ==> Roomy(es1, size)
    ensures var d, d1 := RunFrom(c, es).value, RunFrom(c, es1).value;
            && d1.writers == [Idle] && d1.readers == d.readers && d1.state == Open && !d1.closing
            && d1.queue == d.queue + [d.next] && d1.token == (d.token || d.state == Waiting)
            && d1.memory == d.memory[d.next := p] && d1.next == d.next + 1
            && d1.taken == d.taken && d1.returned == d.returned
  {
    var d := RunFrom(c, es).value;
    OneMoreEvent(c, es, Get(0, d.next));
    OneMoreEvent(c, es + [Get(0, d.next)], Fill(0, p));
    OneMoreEvent(c, es + [Get(0, d.next)] + [Fill(0, p)], Enqueue(0));
    es1 := es + [Get(0, d.next)] + [Fill(0, p)] + [Enqueue(0)];
    if d.state == Waiting {
      OneMoreEvent(c, es1, Notify(0));
      es1 := es1 + [Notify(0)];
    }
  }

  /** The only reader takes the first packet, and copies it out or finds its buffer too short. */
  lemma ReadsOne(c: Conn, es: seq<Event>, size: nat) returns (es1: seq<Event>)
    requires RunFrom(c, es).Some? && Roomy(es, size)
    requires var d := RunFrom(c, es).value; d.readers == [Resting] && d.queue != [] && !d.closing
    ensures RunFrom(c, es1).Some? && Roomy(es1, size)
    ensures var d, d1 := RunFrom(c, es).value, RunFrom(c, es1).value;
            && d1.readers == [Resting] && d1.queue == d.queue[1..] && d1.closing == d.closing && d1.memory == d.memory
            && |d1.taken| == |d.taken| + 1
            && d1.returned == d.returned + if size < |Content(d.memory, d.queue[0]).data| then []
                                           else [(|d.taken|, Content(d.memory, d.queue[0]))]
  {
    var d := RunFrom(c, es).value;
    var read := if size < |Content(d.memory, d.queue[0]).data| then CopyShort(0, size) else CopyOut(0, size);
    OneMoreEvent(c, es, Call(0));
    OneMoreEvent(c, es + [Call(0)], Check(0));
    es1 := es + [Call(0)] + [Check(0)];
    OneMoreEvent(c, es1, read);
    OneMoreEvent(c, es1 + [read], GiveBack(0));
    es1 := es1 + [read] + [GiveBack(0)];
  }

  lemma TwoAreWritten(p: Packet, q: Packet, size: nat) returns (es: seq<Event>)
    requires |p.data| <= RECEIVE_MTU && |q.data| <= RECEIVE_MTU
    ensures Run(1, 1, es).Some? && Roomy(es, size)
    ensures var c := Run(1, 1, es).value;
            && c.readers == [Resting] && !c.closing && c.queue == [0, 1]
            && Content(c.memory, 0) == p && Content(c.memory, 1) == q && c.taken == [] && c.returned == []
  {
    var c := Initial(1, 1);
    assert c.writers == [Idle] && c.readers == [Resting];
    es := Writes(c, [], p);
    es := Writes(c, es, q);
  }

  lemma FirstIsLost(p: Packet, q: Packet, size: nat) returns (es: seq<Event>)
    requires size < |p.data| <= RECEIVE_MTU && |q.data| <= RECEIVE_MTU
    ensures Run(1, 1, es).Some? && Roomy(es, size)
    ensures var c := Run(1, 1, es).value;
            && c.readers == [Resting] && !c.closing && c.queue == [1] && Content(c.memory, 1) == q
            && |c.taken| == 1 && c.returned == []
  {
    es := TwoAreWritten(p, q, size);
    es := ReadsOne(Initial(1, 1), es, size);
  }

  /** Two packets are written and read into buffers of the same size, which is too short for the first: the first one
      returned is the second. */
  lemma ShortReadSkips(p: Packet, q: Packet, size: nat) returns (es: seq<Event>)
    requires |q.data| <= size < |p.data| <= RECEIVE_MTU
    ensures Run(1, 1, es).Some? && Roomy(es, size) && Run(1, 1, es).value.returned == [(1, q)]
  {
    es := FirstIsLost(p, q, size);
    es := ReadsOne(Initial(1, 1), es, size);
  }

  /** Two readers wait, and two packets are written before either of them runs: there is one token, the first reader takes
      one packet, and the second stays blocked in front of the other, with nobody left to wake it. */
  lemma LostWakeup(readers: nat, p: Packet) returns (es: seq<Event>)
    requires readers >= 2 && |p.data| <= RECEIVE_MTU
    ensures Run(1, readers, es).Some? && Stuck(Run(1, readers, es).value)
  {
    var c := Initial(1, readers);
    es := Blocks(c, [], 0);
    es := Blocks(c, es, 1);
    es := Writes(c, es, p);
    es := Writes(c, es, p);
    OneMoreEvent(c, es, Wake(0));
    OneMoreEvent(c, es + [Wake(0)], Check(0));
    es := es + [Wake(0)] + [Check(0)];
    assert RunFrom(c, es).value.readers[1] == Blocked;
  }

  ghost predicate NeverStuck(readers: nat) {
    forall writers: nat, es :: Run(writers, readers, es).Some? ==> !Stuck(Run(writers, readers, es).value)
  }

  /** A blocked reader is always woken exactly when there is at most one. */
  lemma NeverStuckIff(readers: nat)
    ensures NeverStuck(readers) <==> readers <= 1
  {
    if readers <= 1 {
      forall writers: nat, es | Run(writers, readers, es).Some? ensures !Stuck(Run(writers, readers, es).value) {
        NoLostWakeup(writers, readers, es);
      }
    } else {
      var es := LostWakeup(readers, Packet([], 0));
      assert Run(1, readers, es).Some?;
    }
  }

  /** Whatever is written, a single reader with buffers of at least this size is returned every packet it takes. */
  ghost predicate NeverSkips(size: nat) {
    forall writers: nat, es :: Run(writers, 1, es).Some? && Roomy(es, size) ==> ReturnsAll(Run(writers, 1, es).value)
  }

  predicate ReturnsAll(c: Conn) {
    && |c.taken| == |c.returned| + (if Copies(c) then 1 else 0)
    && forall i :: 0 <= i < |c.returned| ==> c.returned[i].0 == i
  }

  lemma NeverSkipsIff(size: nat)
    ensures NeverSkips(size) <==> size >= RECEIVE_MTU
  {
    if size >= RECEIVE_MTU {
      forall writers: nat, es | Run(writers, 1, es).Some? && Roomy(es, size) ensures ReturnsAll(Run(writers, 1, es).value) {
        RoomyReads(Initial(writers, 1), es);
        NothingSkippedIff(writers, es);
      }
    } else {
      var es := ShortReadSkips(Packet(seq(RECEIVE_MTU, _ => 0), 0), Packet([], 0), size);
      assert Run(1, 1, es).value.returned[0].0 == 1;
    }
  }
}

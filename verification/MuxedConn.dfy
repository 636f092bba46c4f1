/** The hand-linked packet queue of a muxed UDP connection and the pool its buffer holders come from. */
module MuxedConns {
  import opened Bits
  import Q = MuxedQueue

  class BufferHolder {
    var next: BufferHolder?
    var buf: seq<byte>
    const capacity: nat
    var addr: Option<nat>

    constructor (size: nat)
      ensures next == null && buf == [] && capacity == size && addr == None
    {
      next, buf, capacity, addr := null, [], size, None;
    }

    method Reset()
      modifies this`next, this`addr
      ensures next == null && addr == None
    {
      next := null;
      addr := None;
    }
  }

  class BufferPool {
    var free: set<BufferHolder>
    const size: nat

    constructor (size: nat)
      ensures free == {} && this.size == size
    {
      free, this.size := {}, size;
    }

    /** A free holder, or a new one. */
    method Get() returns (h: BufferHolder)
      modifies this
      ensures (h in old(free) && free == old(free) - {h}) || (fresh(h) && free == old(free) && h.next == null)
    {
      if free == {} {
        h := new BufferHolder(size);
      } else {
        h :| h in free;
        free := free - {h};
      }
    }

    method Put(h: BufferHolder)
      modifies this
      ensures free == old(free) + {h}
    {
      free := free + {h};
    }
  }

  datatype ReadResult = Packet(data: seq<byte>, addr: Option<nat>) | ShortBuffer | Eof | MustWait
  datatype WriteResult = Written(notify: bool) | TooShort | ClosedPipe

  class UdpMuxedConn {
    const pool: BufferPool
    var bufHead: BufferHolder?
    var bufTail: BufferHolder?
    var state: Q.ConnState
    ghost var queue: seq<BufferHolder>

    ghost predicate Linked()
      reads this, queue
    {
      && (forall i, j :: 0 <= i < j < |queue| ==> queue[i] != queue[j])
      && (if queue == [] then bufHead == null && bufTail == null
          else bufTail == queue[0] && bufHead == queue[|queue| - 1] && queue[|queue| - 1].next == null)
      && (forall i :: 0 <= i < |queue| - 1 ==> queue[i].next == queue[i + 1])
    }

    /** Queued and free holders are different ones, and a free one leads nowhere. */
    ghost predicate Valid()
      reads this, queue, pool, pool.free
    {
      && Linked()
      && (forall h :: h in pool.free ==> h.next == null && h !in queue)
      && (state == Q.Closed ==> queue == [])
    }

    ghost function Packets(q: seq<BufferHolder>): (ps: seq<(seq<byte>, Option<nat>)>)
      reads q
      ensures |ps| == |q| && forall i :: 0 <= i < |q| ==> ps[i] == (q[i].buf, q[i].addr)
    {
      seq(|q|, i requires 0 <= i < |q| reads q => (q[i].buf, q[i].addr))
    }

    constructor (pool: BufferPool)
      requires forall h :: h in pool.free ==> h.next == null
      ensures Valid() && this.pool == pool && queue == [] && state == Q.Open
    {
      this.pool := pool;
      bufHead, bufTail, state, queue := null, null, Q.Open, [];
    }

    /** Links a filled holder in at the head of the queue. */
    method Link(pkt: BufferHolder)
      requires Linked() && pkt !in queue && pkt.next == null
      modifies this`bufHead, this`bufTail, this`queue, (if bufHead == null then {} else {bufHead})`next
      ensures Linked() && queue == old(queue) + [pkt]
    {
      if bufHead != null {
        bufHead.next := pkt;
      }
      bufHead := pkt;
      if bufTail == null {
        bufTail := pkt;
      }
      queue := queue + [pkt];
    }

    /** Unlinks the holder at the tail. */
    method Unlink() returns (pkt: BufferHolder)
      requires Linked() && queue != []
      modifies this`bufHead, this`bufTail, this`queue
      ensures Linked() && pkt == old(queue)[0] && queue == old(queue)[1..] && pkt !in queue
      ensures Packets(queue) == old(Packets(queue))[1..] && (pkt.buf, pkt.addr) == old(Packets(queue))[0]
    {
      pkt := bufTail;
      bufTail := pkt.next;
      if pkt == bufHead {
        bufHead := null;
      }
      queue := queue[1..];
    }

    /** Takes a holder for a packet and fills it, unless it is too small. */
    method Fill(data: seq<byte>, addr: nat) returns (pkt: BufferHolder?)
      requires Valid()
      modifies pool, pool.free
      ensures Valid() && Packets(queue) == old(Packets(queue))
      ensures pkt != null ==> pkt !in queue && pkt !in pool.free && pkt.next == null
      ensures pkt != null ==> pkt.buf == data && pkt.addr == Some(addr) && (fresh(pkt) || pkt in old(pool.free))
      ensures forall h :: h in pool.free ==> fresh(h) || h in old(pool.free)
    {
      pkt := pool.Get();
      if pkt.capacity < |data| {
        pool.Put(pkt);
        return null;
      }
      pkt.buf := data;
      pkt.addr := Some(addr);
    }

    method WritePacket(data: seq<byte>, addr: nat) returns (r: WriteResult)
      requires Valid()
      modifies this, pool, pool.free, queue
      ensures Valid()
      ensures !r.Written? ==> Packets(queue) == old(Packets(queue)) && state == old(state)
      ensures r.ClosedPipe? ==> old(state) == Q.Closed
      ensures r.Written? ==> Packets(queue) == old(Packets(queue)) + [(data, Some(addr))]
      ensures r.Written? ==> old(state) != Q.Closed && state == Q.Open && r.notify == (old(state) == Q.Waiting)
    {
      var pkt := Fill(data, addr);
      if pkt == null {
        return TooShort;
      }
      if state == Q.Closed {
        pkt.Reset();
        pool.Put(pkt);
        return ClosedPipe;
      }
      Link(pkt);
      var was := state;
      state := Q.Open;
      return Written(was == Q.Waiting);
    }

    /** Takes the packet at the tail, copies it out if there is room, and gives its holder back. */
    method TakePacket(size: nat) returns (r: ReadResult)
      requires Valid() && queue != []
      modifies this`bufHead, this`bufTail, this`queue, pool, queue
      ensures Valid() && queue == old(queue)[1..] && Packets(queue) == old(Packets(queue))[1..]
      ensures var (data, addr) := old(Packets(queue))[0]; r == if size < |data| then ShortBuffer else Packet(data, addr)
    {
      var pkt := Unlink();
      ghost var rest := Packets(queue);
      if size < |pkt.buf| {
        r := ShortBuffer;
      } else {
        r := Packet(pkt.buf, pkt.addr);
      }
      pkt.Reset();
      assert Packets(queue) == rest;
      pool.Put(pkt);
    }

    /** One pass of the loop in `ReadFrom`. */
    method TryRead(size: nat) returns (r: ReadResult)
      requires Valid()
      modifies this, pool, queue
      ensures Valid()
      ensures old(queue) == [] ==> queue == [] && r == (if old(state) == Q.Closed then Eof else MustWait)
      ensures old(queue) == [] ==> state == (if old(state) == Q.Closed then Q.Closed else Q.Waiting)
      ensures old(queue) != [] ==> Packets(queue) == old(Packets(queue))[1..] && state == old(state)
      ensures old(queue) != [] ==>
                var (data, addr) := old(Packets(queue))[0]; r == if size < |data| then ShortBuffer else Packet(data, addr)
    {
      if bufTail != null {
        r := TakePacket(size);
        return;
      }
      if state == Q.Closed {
        return Eof;
      }
      state := Q.Waiting;
      return MustWait;
    }

    ghost function Queued(q: seq<BufferHolder>): set<BufferHolder> {
      set h | h in q
    }

    /** The loop in `Close`: resets every queued holder and gives it back. */
    method ReleaseAll()
      requires Valid()
      modifies pool, queue
      ensures pool.free == old(pool.free) + Queued(queue)
      ensures forall h :: h in pool.free ==> h.next == null
    {
      ghost var i := 0;
      var pkt := bufTail;
      while pkt != null
        invariant 0 <= i <= |queue|
        invariant pkt == if i < |queue| then queue[i] else null
        invariant forall k :: i <= k < |queue| - 1 ==> queue[k].next == queue[k + 1]
        invariant i < |queue| ==> queue[|queue| - 1].next == null
        invariant pool.free == old(pool.free) + Queued(queue[..i])
        invariant forall h :: h in pool.free ==> h.next == null
        decreases |queue| - i
      {
        var next := pkt.next;
        pkt.Reset();
        pool.Put(pkt);
        assert queue[..i + 1] == queue[..i] + [pkt];
        pkt := next;
        i := i + 1;
      }
      assert queue[..|queue|] == queue;
    }

    method Close()
      requires Valid()
      modifies this, pool, queue
      ensures Valid() && state == Q.Closed && queue == []
      ensures pool.free == old(pool.free) + old(Queued(queue))
    {
      if state != Q.Closed {
        ReleaseAll();
        bufHead := null;
        bufTail := null;
        queue := [];
        state := Q.Closed;
      }
    }
  }
}

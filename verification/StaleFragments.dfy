/** Fragments of messages that were already popped: `push` still takes them and `pop` never gets to them, so they stay in
    the buffer for good. */
module StaleFragments {
  import opened Bits
  import opened Reassembly
  import opened Fragmentation
  import opened Delivery

  /** What is held under numbers that have been popped. */
  function Stale(b: Buffer): Cache {
    map k | k in b.cache && k < b.current :: b.cache[k]
  }

  predicate Within(m: Cache, m1: Cache) {
    forall k :: k in m ==> k in m1 && m[k] <= m1[k]
  }

  lemma {:induction false} LongerList(frags: seq<Fragment>, frags1: seq<Fragment>)
    requires frags <= frags1
    ensures FragmentBytes(frags) <= FragmentBytes(frags1)
  {
    if |frags| < |frags1| { LongerList(frags, frags1[..|frags1| - 1]); } else { assert frags == frags1; }
  }

  lemma {:induction false} LargerCache(m: Cache, m1: Cache)
    requires Within(m, m1)
    ensures CacheSize(m) <= CacheSize(m1)
    decreases |m|
  {
    if m != map[] {
      var k :| k in m;
      CacheSizeSplit(m, k);
      CacheSizeSplit(m1, k);
      LongerList(m[k], m1[k]);
      assert m.Keys == (m - {k}).Keys + {k};
      LargerCache(m - {k}, m1 - {k});
    }
  }

  /** Stale fragments stay, and stay stale. */
  predicate StaysStale(b: Buffer, b1: Buffer) {
    b.current <= b1.current && Within(Stale(b), Stale(b1))
  }

  lemma StaysStaleOn(b: Buffer, b1: Buffer, b2: Buffer)
    requires StaysStale(b, b1) && StaysStale(b1, b2)
    ensures StaysStale(b, b2)
  {
    forall k | k in Stale(b) ensures k in Stale(b2) && Stale(b)[k] <= Stale(b2)[k] {
      assert Stale(b)[k] <= Stale(b1)[k];
    }
  }

  lemma {:induction false} DrainStale(sent: seq<Message>, b: Buffer, popped: seq<Popped>)
    requires InOrder(sent, b, popped)
    ensures StaysStale(b, Drain(b).0)
    decreases |b.cache|
  {
    if AfterPop(b).1.Some? {
      var (b1, out) := AfterPop(b);
      DrainOne(b, popped);
      PopInOrder(sent, b, popped);
      DrainStale(sent, b1, popped + [out.value]);
      assert StaysStale(b, b1);
      StaysStaleOn(b, b1, Drain(b1).0);
    } else {
      DrainStops(b, popped);
    }
  }

  lemma PushStale(sent: seq<Message>, b: Buffer, record: seq<byte>)
    requires HonestRecord(sent, record)
    ensures StaysStale(b, AfterPush(b, record).0)
  {
    PushHonest(sent, b, record);
  }

  lemma StepStale(l: Link, e: Event)
    requires Invariant(l) && Enabled(l, e)
    ensures StaysStale(l.buffer, Apply(l, e).buffer)
  {
    if e.Deliver? {
      PushHonest(l.sent, l.buffer, e.record);
      PushStale(l.sent, l.buffer, e.record);
      var (b1, r) := AfterPush(l.buffer, e.record);
      if r.Pushed? {
        assert InOrder(l.sent, b1, l.popped);
        DrainStale(l.sent, b1, l.popped);
        StaysStaleOn(l.buffer, b1, Drain(b1).0);
      }
    }
  }

  /** Whatever happens, nothing that was held under a popped number is ever given up. */
  lemma {:induction false} StaleFragmentsStay(es: seq<Event>, n: nat)
    requires Run(es).Some? && n <= |es|
    ensures Run(es[..n]).Some? && StaysStale(Run(es[..n]).value.buffer, Run(es).value.buffer)
    decreases |es|
  {
    if n < |es| {
      var before := es[..|es| - 1];
      assert before[..n] == es[..n];
      StaleFragmentsStay(before, n);
      RunKeeps(before);
      StepStale(Run(before).value, es[|es| - 1]);
      StaysStaleOn(Run(es[..n]).value.buffer, Run(before).value.buffer, Run(es).value.buffer);
    } else {
      assert es[..n] == es;
    }
  }
}

/** Generic NACK packing (section 6.2.1 of RFC 4585). */
module Nack {
  import opened Bits
  import opened BitLemmas

  /** A packet id and a bitmap of the 16 packets after it. */
  datatype NackPair = NackPair(packetId: uint16, lostPackets: uint16)

  const WINDOW := 16

  function Plus(a: uint16, b: uint16): (c: uint16) {
    if a + b < 0x1_0000 then a + b else a + b - 0x1_0000
  }

  /** uint16 `1 << n`, which is 0 for shifts of 16 and more. */
  function Shift1(n: uint16): (x: uint16) {
    if n >= 16 then 0 else Pow2Small(n)
  }

  function Pow2Small(n: nat): (x: uint16)
    requires n < 16
    ensures x == Pow2(n)
  {
    assert Pow2(15) == 0x8000 by { assert Pow2(8) == 0x100; }
    Pow2Monotone(n, 15);
    Pow2(n)
  }

  lemma {:induction false} Pow2Monotone(a: nat, b: nat)
    requires a <= b
    ensures Pow2(a) <= Pow2(b)
  {
    if a < b { Pow2Monotone(a, b - 1); }
  }

  function Or16(x: uint16, y: uint16): (z: uint16)
    ensures z == Or(x, y)
  {
    Pow2Sixteen();
    OrBound(x, y, 16);
    Or(x, y)
  }

  // ---------------------------------------------------------------- what a pair covers

  /** The packet that bit `i` stands for. */
  function Following(p: NackPair, i: nat): uint16
    requires i < WINDOW
  {
    Plus(p.packetId, i + 1)
  }

  /** The packets named by the bits from `i` on. */
  function ListFrom(p: NackPair, i: nat): seq<uint16>
    requires i <= WINDOW
    decreases WINDOW - i
  {
    if i == WINDOW then []
    else (if Bit(p.lostPackets, i) then [Following(p, i)] else []) + ListFrom(p, i + 1)
  }

  function List(p: NackPair): seq<uint16> {
    [p.packetId] + ListFrom(p, 0)
  }

  predicate Covers(p: NackPair, x: uint16) {
    var d := Minus(x, p.packetId);
    d == 0 || (d <= WINDOW && Bit(p.lostPackets, d - 1))
  }

  lemma {:induction false} ListFromCovers(p: NackPair, i: nat, x: uint16)
    requires i <= WINDOW
    ensures x in ListFrom(p, i) <==>
              var d := Minus(x, p.packetId); i < d <= WINDOW && Bit(p.lostPackets, d - 1)
    decreases WINDOW - i
  {
    if i < WINDOW {
      ListFromCovers(p, i + 1, x);
      assert x == Following(p, i) <==> Minus(x, p.packetId) == i + 1;
    }
  }

  lemma ListIsCovered(p: NackPair, x: uint16)
    ensures x in List(p) <==> Covers(p, x)
  {
    ListFromCovers(p, 0, x);
  }

  // ---------------------------------------------------------------- packing

  function Add(p: NackPair, m: uint16): NackPair {
    p.(lostPackets := Or16(p.lostPackets, Shift1(Minus(Minus(m, p.packetId), 1))))
  }

  function PackFrom(p: NackPair, rest: seq<uint16>): seq<NackPair>
    decreases rest
  {
    if rest == [] then [p]
    else if Minus(rest[0], p.packetId) > WINDOW then [p] + PackFrom(NackPair(rest[0], 0), rest[1..])
    else PackFrom(Add(p, rest[0]), rest[1..])
  }

  function Packed(sequenceNumbers: seq<uint16>): seq<NackPair> {
    if sequenceNumbers == [] then [] else PackFrom(NackPair(sequenceNumbers[0], 0), sequenceNumbers[1..])
  }

  function Unpacked(pairs: seq<NackPair>): seq<uint16> {
    if pairs == [] then [] else List(pairs[0]) + Unpacked(pairs[1..])
  }

  method NackPairsFromSequenceNumbers(sequenceNumbers: seq<uint16>) returns (pairs: seq<NackPair>)
    ensures pairs == Packed(sequenceNumbers)
  {
    pairs := [];
    if |sequenceNumbers| == 0 {
      return;
    }
    var nackPair := NackPair(sequenceNumbers[0], 0);
    for i := 1 to |sequenceNumbers|
      invariant pairs + PackFrom(nackPair, sequenceNumbers[i..]) == Packed(sequenceNumbers)
    {
      var m := sequenceNumbers[i];
      assert sequenceNumbers[i..][1..] == sequenceNumbers[i + 1..];
      if Minus(m, nackPair.packetId) > WINDOW {
        pairs := pairs + [nackPair];
        nackPair := NackPair(m, 0);
        continue;
      }
      nackPair := Add(nackPair, m);
    }
    pairs := pairs + [nackPair];
  }

  /** A list, up to and including the first number at which the callback says stop. */
  function Through(s: seq<uint16>, more: uint16 -> bool): seq<uint16> {
    if s == [] then [] else [s[0]] + if more(s[0]) then Through(s[1..], more) else []
  }

  /** The callbacks `Range` makes for the bits from `i` on. */
  function CallsFrom(p: NackPair, i: nat, more: uint16 -> bool): seq<uint16>
    requires i <= WINDOW
    decreases WINDOW - i
  {
    if i == WINDOW then []
    else if !Bit(p.lostPackets, i) then CallsFrom(p, i + 1, more)
    else [Following(p, i)] + if more(Following(p, i)) then CallsFrom(p, i + 1, more) else []
  }

  lemma {:induction false} CallsFollowList(p: NackPair, i: nat, more: uint16 -> bool)
    requires i <= WINDOW
    ensures CallsFrom(p, i, more) == Through(ListFrom(p, i), more)
    decreases WINDOW - i
  {
    if i < WINDOW {
      CallsFollowList(p, i + 1, more);
      if Bit(p.lostPackets, i) {
        assert ListFrom(p, i)[1..] == ListFrom(p, i + 1);
      } else {
        assert ListFrom(p, i) == ListFrom(p, i + 1);
      }
    }
  }

  method Range(p: NackPair, more: uint16 -> bool) returns (calls: seq<uint16>)
    ensures calls == Through(List(p), more)
  {
    calls := [p.packetId];
    ghost var all := RangeCalls(p, more);
    if !more(p.packetId) {
      return;
    }
    var b: nat := p.lostPackets;
    var i := 0;
    while b != 0
      invariant 0 <= i <= WINDOW && Remaining(b, p, i)
      invariant ToCall(calls, all, p, i, more)
      decreases WINDOW - i
    {
      var hit;
      hit, b := TakeBit(b, p, i);
      CallNext(calls, all, p, i, more);
      if hit {
        var seqno := Following(p, i);
        calls := calls + [seqno];
        if !more(seqno) {
          return;
        }
      }
      i := i + 1;
    }
    NothingLeft(calls, all, p, i, more);
  }

  /** Tests bit `i` of what is left of the map, and clears it. */
  method TakeBit(b: nat, p: NackPair, i: nat) returns (hit: bool, rest: nat)
    requires b != 0 && Remaining(b, p, i)
    ensures i < WINDOW && Remaining(rest, p, i + 1)
    ensures hit <==> Bit(p.lostPackets, i)
  {
    NextBit(b, p, i);
    var mask := And(b, Pow2(i));
    hit, rest := mask != 0, b - mask;
  }

  /** After `calls`, the bits from `i` on account for the rest of `all`. */
  ghost predicate ToCall(calls: seq<uint16>, all: seq<uint16>, p: NackPair, i: nat, more: uint16 -> bool) {
    i <= WINDOW && calls + CallsFrom(p, i, more) == all
  }

  lemma CallNext(calls: seq<uint16>, all: seq<uint16>, p: NackPair, i: nat, more: uint16 -> bool)
    requires i < WINDOW && ToCall(calls, all, p, i, more)
    ensures !Bit(p.lostPackets, i) ==> ToCall(calls, all, p, i + 1, more)
    ensures Bit(p.lostPackets, i) ==>
              var called := calls + [Following(p, i)];
              if more(Following(p, i)) then ToCall(called, all, p, i + 1, more) else called == all
  {
  }

  lemma RangeCalls(p: NackPair, more: uint16 -> bool) returns (all: seq<uint16>)
    ensures all == Through(List(p), more)
    ensures if more(p.packetId) then ToCall([p.packetId], all, p, 0, more) else all == [p.packetId]
  {
    CallsFollowList(p, 0, more);
    assert List(p)[1..] == ListFrom(p, 0);
    all := Through(List(p), more);
  }

  lemma NothingLeft(calls: seq<uint16>, all: seq<uint16>, p: NackPair, i: nat, more: uint16 -> bool)
    requires Remaining(0, p, i) && ToCall(calls, all, p, i, more)
    ensures calls == all
  {
    NoCalls(p, i, more);
  }

  /** The bits of the map from `i` on, the earlier ones cleared. */
  ghost predicate Remaining(b: nat, p: NackPair, i: nat) {
    forall j: nat {:trigger Bit(b, j)} {:trigger Bit(p.lostPackets, j)} :: Bit(b, j) <==> j >= i && Bit(p.lostPackets, j)
  }

  lemma NextBit(b: nat, p: NackPair, i: nat)
    requires b != 0 && Remaining(b, p, i)
    ensures i < WINDOW
    ensures And(b, Pow2(i)) == if Bit(p.lostPackets, i) then Pow2(i) else 0
    ensures And(b, Pow2(i)) <= b && Remaining(b - And(b, Pow2(i)), p, i + 1)
  {
    SomeBit(b);
    BitsEndAtWindow(p);
    AndPow2(b, i);
    var rest := b - And(b, Pow2(i));
    if !Bit(b, i) {
      assert rest == b;
    } else {
      ClearBit(b, i, i);
      assert rest == b - Pow2(i);
      forall j: nat ensures Bit(rest, j) <==> Bit(b, j) && j != i { ClearBit(b, i, j); }
    }
    assert Remaining(rest, p, i + 1);
  }

  method PacketList(p: NackPair) returns (out: seq<uint16>)
    ensures out == List(p)
  {
    out := Range(p, x => true);
    ThroughAll(List(p));
  }

  lemma {:induction false} ThroughAll(s: seq<uint16>)
    ensures Through(s, x => true) == s
  {
    if s != [] { ThroughAll(s[1..]); }
  }

  lemma BitsEndAtWindow(p: NackPair)
    ensures forall j: nat :: Bit(p.lostPackets, j) ==> j < WINDOW
  {
    Pow2Sixteen();
    forall j: nat | Bit(p.lostPackets, j) ensures j < WINDOW { BitBound(p.lostPackets, 16, j); }
  }

  lemma {:induction false} NoCalls(p: NackPair, i: nat, more: uint16 -> bool)
    requires i <= WINDOW && Remaining(0, p, i)
    ensures CallsFrom(p, i, more) == []
    decreases WINDOW - i
  {
    if i < WINDOW {
      ZeroBit(i);
      NoCalls(p, i + 1, more);
    }
  }

  lemma {:induction false} NothingListed(p: NackPair, i: nat)
    requires i <= WINDOW && p.lostPackets == 0
    ensures ListFrom(p, i) == []
    decreases WINDOW - i
  {
    if i < WINDOW {
      ZeroBit(i);
      NothingListed(p, i + 1);
    }
  }
}

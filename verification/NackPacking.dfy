/** Packing names exactly the given packets, in order, and with as few pairs as possible. */
module NackPacking {
  import opened Bits
  import opened BitLemmas
  import opened Nack

  // ---------------------------------------------------------------- exact, for any list

  lemma AddBit(p: NackPair, m: uint16, k: nat)
    requires 0 < Minus(m, p.packetId) <= WINDOW
    ensures Bit(Add(p, m).lostPackets, k) <==> Bit(p.lostPackets, k) || k == Minus(m, p.packetId) - 1
  {
    var d := Minus(m, p.packetId);
    assert Minus(d, 1) == d - 1;
    OrBit(p.lostPackets, Pow2(d - 1), k);
    Pow2Bit(d - 1, k);
  }

  lemma AddSelf(p: NackPair)
    ensures Add(p, p.packetId) == p
  {
    assert Minus(0, 1) == 0xffff;
  }

  lemma AddCovers(p: NackPair, m: uint16, x: uint16)
    requires Minus(m, p.packetId) <= WINDOW
    ensures Covers(Add(p, m), x) <==> Covers(p, x) || x == m
  {
    var e := Minus(x, p.packetId);
    if Minus(m, p.packetId) == 0 {
      AddSelf(p);
    } else if 0 < e <= WINDOW {
      AddBit(p, m, e - 1);
    }
  }

  lemma FreshCovers(m: uint16, x: uint16)
    ensures Covers(NackPair(m, 0), x) <==> x == m
  {
    if Minus(x, m) > 0 { ZeroBit(Minus(x, m) - 1); }
  }

  lemma UnpackedFirst(p: NackPair, ps: seq<NackPair>)
    ensures Unpacked([p] + ps) == List(p) + Unpacked(ps)
    ensures Unpacked([p]) == List(p)
  {
    assert ([p] + ps)[1..] == ps;
    assert [p][1..] == [] && List(p) + [] == List(p);
  }

  lemma {:induction false} PackFromCovers(p: NackPair, rest: seq<uint16>, x: uint16)
    ensures x in Unpacked(PackFrom(p, rest)) <==> Covers(p, x) || x in rest
    decreases rest
  {
    ListIsCovered(p, x);
    UnpackedFirst(p, []);
    if rest != [] {
      var m := rest[0];
      if Minus(m, p.packetId) > WINDOW {
        PackFromCovers(NackPair(m, 0), rest[1..], x);
        FreshCovers(m, x);
        UnpackedFirst(p, PackFrom(NackPair(m, 0), rest[1..]));
      } else {
        PackFromCovers(Add(p, m), rest[1..], x);
        AddCovers(p, m, x);
      }
    }
  }

  /** For any list at all, repeated and unordered numbers included, the pairs name exactly the given packets. */
  lemma PackedNamesExactlyTheInputs(sequenceNumbers: seq<uint16>, x: uint16)
    ensures x in Unpacked(Packed(sequenceNumbers)) <==> x in sequenceNumbers
  {
    if sequenceNumbers != [] {
      var first := NackPair(sequenceNumbers[0], 0);
      PackFromCovers(first, sequenceNumbers[1..], x);
      FreshCovers(first.packetId, x);
      assert sequenceNumbers == [sequenceNumbers[0]] + sequenceNumbers[1..];
    }
  }

  // ---------------------------------------------------------------- in order, for increasing lists

  /** Strictly increasing modulo 2^16, counted from `base`. */
  predicate IncreasingFrom(base: uint16, s: seq<uint16>) {
    forall i, j :: 0 <= i < j < |s| ==> Minus(s[i], base) < Minus(s[j], base)
  }

  predicate Increasing(s: seq<uint16>) {
    s == [] || IncreasingFrom(s[0], s)
  }

  /** All of the pair's packets come before `m`. */
  ghost predicate EndsBefore(p: NackPair, m: uint16) {
    forall k: nat :: Bit(p.lostPackets, k) ==> k + 1 < Minus(m, p.packetId)
  }

  /** Setting bit `d` - 1, above all set bits, appends one packet to the list. */
  lemma {:induction false} ListFromAdd(p: NackPair, q: NackPair, d: nat, i: nat)
    requires q.packetId == p.packetId && 0 < d <= WINDOW && i <= WINDOW
    requires forall k: nat :: Bit(q.lostPackets, k) <==> Bit(p.lostPackets, k) || k == d - 1
    requires forall k: nat :: Bit(p.lostPackets, k) ==> k + 1 < d
    ensures ListFrom(q, i) == ListFrom(p, i) + if i < d then [Following(p, d - 1)] else []
    ensures i >= d ==> ListFrom(p, i) == []
    decreases WINDOW - i
  {
    if i < WINDOW {
      ListFromAdd(p, q, d, i + 1);
      assert Bit(q.lostPackets, i) <==> Bit(p.lostPackets, i) || i == d - 1;
      assert Following(q, i) == Following(p, i);
    }
  }

  lemma AddEndsBefore(p: NackPair, m: uint16, next: uint16)
    requires 0 < Minus(m, p.packetId) <= WINDOW && EndsBefore(p, m) && Minus(m, p.packetId) < Minus(next, p.packetId)
    ensures EndsBefore(Add(p, m), next)
  {
    forall k: nat | Bit(Add(p, m).lostPackets, k) ensures k + 1 < Minus(next, p.packetId) {
      AddBit(p, m, k);
    }
  }

  lemma MinusFromBase(base: uint16, a: uint16, b: uint16)
    requires Minus(a, base) < Minus(b, base)
    ensures Minus(b, a) == Minus(b, base) - Minus(a, base)
  {
  }

  lemma FreshList(m: uint16)
    ensures List(NackPair(m, 0)) == [m]
    ensures forall next: uint16 :: EndsBefore(NackPair(m, 0), next)
  {
    forall k: nat ensures !Bit(0, k) { ZeroBit(k); }
    NothingListed(NackPair(m, 0), 0);
  }

  lemma AddList(p: NackPair, m: uint16)
    requires 0 < Minus(m, p.packetId) <= WINDOW && EndsBefore(p, m)
    ensures List(Add(p, m)) == List(p) + [m]
  {
    var q, d := Add(p, m), Minus(m, p.packetId);
    forall k: nat ensures Bit(q.lostPackets, k) <==> Bit(p.lostPackets, k) || k == d - 1 { AddBit(p, m, k); }
    ListFromAdd(p, q, d, 0);
    assert Following(p, d - 1) == m;
  }

  /** The numbers after `first` come after it, each further than the one before. */
  lemma IncreasingGaps(base: uint16, first: uint16, rest: seq<uint16>)
    requires rest != [] && IncreasingFrom(base, [first] + rest)
    ensures 0 < Minus(rest[0], first)
    ensures |rest| > 1 ==> Minus(rest[0], first) < Minus(rest[1], first)
  {
    var all := [first] + rest;
    assert all[0] == first && all[1] == rest[0];
    MinusFromBase(base, first, rest[0]);
    if |rest| > 1 {
      assert all[2] == rest[1];
      MinusFromBase(base, first, rest[1]);
    }
  }

  lemma NextPairInOrder(p: NackPair, rest: seq<uint16>)
    requires rest != [] && Minus(rest[0], p.packetId) > WINDOW
    requires Unpacked(PackFrom(NackPair(rest[0], 0), rest[1..])) == [rest[0]] + rest[1..]
    ensures Unpacked(PackFrom(p, rest)) == List(p) + rest
  {
    UnpackedFirst(p, PackFrom(NackPair(rest[0], 0), rest[1..]));
    assert [rest[0]] + rest[1..] == rest;
  }

  lemma Rejoin(first: seq<uint16>, rest: seq<uint16>)
    requires rest != []
    ensures first + [rest[0]] + rest[1..] == first + rest
  {
    assert rest == [rest[0]] + rest[1..];
  }

  lemma {:induction false} PackFromInOrder(base: uint16, p: NackPair, rest: seq<uint16>)
    requires IncreasingFrom(base, [p.packetId] + rest)
    requires rest != [] ==> EndsBefore(p, rest[0])
    ensures Unpacked(PackFrom(p, rest)) == List(p) + rest
    decreases rest
  {
    if rest == [] {
      UnpackedFirst(p, []);
      assert List(p) + [] == List(p);
    } else if Minus(rest[0], p.packetId) > WINDOW {
      FreshList(rest[0]);
      DropFirst(base, p.packetId, rest);
      PackFromInOrder(base, NackPair(rest[0], 0), rest[1..]);
      NextPairInOrder(p, rest);
    } else {
      IncreasingGaps(base, p.packetId, rest);
      AddList(p, rest[0]);
      DropSecond(base, p.packetId, rest);
      if |rest| > 1 { AddEndsBefore(p, rest[0], rest[1]); }
      PackFromInOrder(base, Add(p, rest[0]), rest[1..]);
      Rejoin(List(p), rest);
    }
  }

  lemma DropFirst(base: uint16, first: uint16, rest: seq<uint16>)
    requires rest != [] && IncreasingFrom(base, [first] + rest)
    ensures IncreasingFrom(base, [rest[0]] + rest[1..])
  {
    var all := [first] + rest;
    assert [rest[0]] + rest[1..] == rest;
    forall i, j | 0 <= i < j < |rest| ensures Minus(rest[i], base) < Minus(rest[j], base) {
      assert rest[i] == all[i + 1] && rest[j] == all[j + 1];
    }
  }

  lemma DropSecond(base: uint16, first: uint16, rest: seq<uint16>)
    requires rest != [] && IncreasingFrom(base, [first] + rest)
    ensures IncreasingFrom(base, [first] + rest[1..])
  {
    var all, fewer := [first] + rest, [first] + rest[1..];
    forall i, j | 0 <= i < j < |fewer| ensures Minus(fewer[i], base) < Minus(fewer[j], base) {
      assert fewer[j] == all[j + 1];
      assert fewer[i] == if i == 0 then all[0] else all[i + 1];
    }
  }

  /** Reading the pairs back, one after the other, gives an increasing input list back unchanged. */
  lemma PackedReadsBack(sequenceNumbers: seq<uint16>)
    requires Increasing(sequenceNumbers)
    ensures Unpacked(Packed(sequenceNumbers)) == sequenceNumbers
  {
    if sequenceNumbers != [] {
      var first, rest := NackPair(sequenceNumbers[0], 0), sequenceNumbers[1..];
      assert [first.packetId] + rest == sequenceNumbers;
      FreshList(first.packetId);
      PackFromInOrder(sequenceNumbers[0], first, rest);
    }
  }

  // ---------------------------------------------------------------- as few pairs as possible

  /** The distance, modulo 2^16, from the first number to the last. */
  function Span(s: seq<uint16>): uint16 {
    if s == [] then 0 else Minus(s[|s| - 1], s[0])
  }

  predicate CoveredBy(pairs: seq<NackPair>, x: uint16) {
    exists i :: 0 <= i < |pairs| && Covers(pairs[i], x)
  }

  ghost predicate CoverAll(pairs: seq<NackPair>, s: seq<uint16>) {
    forall k :: 0 <= k < |s| ==> CoveredBy(pairs, s[k])
  }

  /** Each number lies more than a window after the ones before, and the whole span is too short to wrap into one. */
  predicate Spread(base: uint16, s: seq<uint16>) {
    && (forall i, j :: 0 <= i < j < |s| ==> Minus(s[i], base) + WINDOW < Minus(s[j], base))
    && (forall i :: 0 <= i < |s| ==> Minus(s[i], base) < 0x1_0000 - WINDOW)
  }

  /** No pair reaches two numbers of a spread list. */
  lemma OneReach(base: uint16, a: uint16, b: uint16, q: NackPair)
    requires Minus(a, base) + WINDOW < Minus(b, base) < 0x1_0000 - WINDOW
    ensures !(Covers(q, a) && Covers(q, b))
  {
  }

  lemma {:induction false} SpreadNeedsAPairEach(base: uint16, s: seq<uint16>, pairs: seq<NackPair>)
    requires Spread(base, s) && CoverAll(pairs, s)
    ensures |pairs| >= |s|
    decreases s
  {
    if s != [] {
      assert CoveredBy(pairs, s[0]);
      var i :| 0 <= i < |pairs| && Covers(pairs[i], s[0]);
      var fewer := pairs[..i] + pairs[i + 1..];
      forall k | 0 <= k < |s[1..]| ensures CoveredBy(fewer, s[1..][k]) {
        assert CoveredBy(pairs, s[k + 1]);
        var j :| 0 <= j < |pairs| && Covers(pairs[j], s[k + 1]);
        OneReach(base, s[0], s[k + 1], pairs[i]);
        assert Covers(fewer[if j < i then j else j - 1], s[1..][k]);
      }
      SpreadNeedsAPairEach(base, s[1..], fewer);
    }
  }

  function Ids(pairs: seq<NackPair>): (ids: seq<uint16>)
    ensures |ids| == |pairs| && forall i :: 0 <= i < |pairs| ==> ids[i] == pairs[i].packetId
  {
    if pairs == [] then [] else [pairs[0].packetId] + Ids(pairs[1..])
  }

  /** A spread list that starts with `first` and goes on with some of the rest. */
  predicate SpreadOut(base: uint16, first: uint16, rest: seq<uint16>, ids: seq<uint16>) {
    && ids != [] && ids[0] == first && Spread(base, ids)
    && forall k :: 0 <= k < |ids| ==> ids[k] in [first] + rest
  }

  lemma {:induction false} PackFromSpread(base: uint16, p: NackPair, rest: seq<uint16>)
    requires IncreasingFrom(base, [p.packetId] + rest)
    requires forall i :: 0 <= i < |rest| ==> Minus(rest[i], base) < 0x1_0000 - WINDOW
    requires Minus(p.packetId, base) < 0x1_0000 - WINDOW
    ensures SpreadOut(base, p.packetId, rest, Ids(PackFrom(p, rest)))
    decreases rest
  {
    if rest != [] {
      if Minus(rest[0], p.packetId) > WINDOW {
        DropFirst(base, p.packetId, rest);
        PackFromSpread(base, NackPair(rest[0], 0), rest[1..]);
        NextSpread(base, p, rest, Ids(PackFrom(NackPair(rest[0], 0), rest[1..])));
        assert Ids(PackFrom(p, rest)) == [p.packetId] + Ids(PackFrom(NackPair(rest[0], 0), rest[1..]));
      } else {
        DropSecond(base, p.packetId, rest);
        PackFromSpread(base, Add(p, rest[0]), rest[1..]);
        SameSpread(base, p.packetId, rest, Ids(PackFrom(Add(p, rest[0]), rest[1..])));
      }
    }
  }

  lemma SameSpread(base: uint16, first: uint16, rest: seq<uint16>, ids: seq<uint16>)
    requires rest != [] && SpreadOut(base, first, rest[1..], ids)
    ensures SpreadOut(base, first, rest, ids)
  {
    assert forall x :: x in [first] + rest[1..] ==> x in [first] + rest;
  }

  lemma NextSpread(base: uint16, p: NackPair, rest: seq<uint16>, ids: seq<uint16>)
    requires rest != [] && Minus(rest[0], p.packetId) > WINDOW
    requires IncreasingFrom(base, [p.packetId] + rest) && Minus(p.packetId, base) < 0x1_0000 - WINDOW
    requires SpreadOut(base, rest[0], rest[1..], ids)
    ensures SpreadOut(base, p.packetId, rest, [p.packetId] + ids)
  {
    assert [rest[0]] + rest[1..] == rest;
    var all := [p.packetId] + rest;
    assert all[0] == p.packetId && all[1] == rest[0];
    MinusFromBase(base, p.packetId, rest[0]);
    var more := [p.packetId] + ids;
    forall i, j | 0 <= i < j < |more| ensures Minus(more[i], base) + WINDOW < Minus(more[j], base) {
      assert more[j] == ids[j - 1];
      if i > 0 { assert more[i] == ids[i - 1]; }
    }
  }

  /** For an increasing list that spans less than 65520, no list of pairs that covers it is shorter than the packed one. */
  lemma PackedIsOptimal(sequenceNumbers: seq<uint16>, pairs: seq<NackPair>)
    requires Increasing(sequenceNumbers) && Span(sequenceNumbers) < 65520
    requires CoverAll(pairs, sequenceNumbers)
    ensures |Packed(sequenceNumbers)| <= |pairs|
  {
    if sequenceNumbers != [] {
      var first, rest := NackPair(sequenceNumbers[0], 0), sequenceNumbers[1..];
      assert [first.packetId] + rest == sequenceNumbers;
      var ids := Ids(PackFrom(first, rest));
      PackFromSpread(first.packetId, first, rest);
      forall k | 0 <= k < |ids| ensures CoveredBy(pairs, ids[k]) {
        var i :| 0 <= i < |sequenceNumbers| && sequenceNumbers[i] == ids[k];
      }
      SpreadNeedsAPairEach(first.packetId, ids, pairs);
    }
  }

  /** At a span of 65520 one pair can reach both ends around the wrap, and the packed list is longer than need be. */
  lemma SpanBoundIsSharp()
    ensures var s, wrapped := [0, 65520], [NackPair(65520, 0x8000)];
            Increasing(s) && Span(s) == 65520 && CoverAll(wrapped, s) && |Packed(s)| == 2
  {
    var s: seq<uint16>, wrapped := [0, 65520], [NackPair(65520, 0x8000)];
    Pow2Bit(15, 15);
    assert Pow2(15) == 0x8000 by { assert Pow2(8) == 0x100; }
    assert Covers(wrapped[0], s[0]) && Covers(wrapped[0], s[1]);
    assert s[1..] == [65520] && s[1..][1..] == [];
  }
}

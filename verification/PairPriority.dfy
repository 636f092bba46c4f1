/** Candidate priorities (section 5.1.2.1 of RFC 8445, section 4.2 of RFC 6544) and pair priorities (section 5.7.2 of
    RFC 5245). */
module PairPriority {
  import opened Bits

  datatype CandidateType = Host | ServerReflexive | PeerReflexive | Relay | UnspecifiedType
  datatype TcpType = Active | Passive | SimultaneousOpen | UnspecifiedTcp

  /** What a candidate's priority is computed from; an override of 0 is none. */
  datatype Traits = Traits(typ: CandidateType, isTcp: bool, tcpType: TcpType, component: uint16, override: uint32)

  const DEFAULT_LOCAL_PREFERENCE: uint16 := 65535
  const DEFAULT_TCP_PRIORITY_OFFSET: uint16 := 27

  function Preference(typ: CandidateType): uint16 {
    match typ
    case Host => 126
    case PeerReflexive => 110
    case ServerReflexive => 100
    case Relay => 0
    case UnspecifiedType => 0
  }

  function DirectionPref(typ: CandidateType, tcpType: TcpType): uint16 {
    match tcpType
    case Active => if typ.Host? || typ.Relay? then 6 else if typ.UnspecifiedType? then 0 else 4
    case Passive => if typ.Host? || typ.Relay? then 4 else if typ.UnspecifiedType? then 0 else 2
    case SimultaneousOpen => if typ.Host? || typ.Relay? then 2 else if typ.UnspecifiedType? then 0 else 6
    case UnspecifiedTcp => 0
  }

  function LocalPreference(c: Traits): uint16 {
    if c.isTcp then 0x2000 * DirectionPref(c.typ, c.tcpType) as int + 8191 else DEFAULT_LOCAL_PREFERENCE
  }

  function TypePreference(c: Traits, tcpPriorityOffset: uint16): uint16 {
    var pref := Preference(c.typ);
    if pref == 0 || !c.isTcp then pref else Minus(pref, tcpPriorityOffset)
  }

  /** In uint32 arithmetic; `256 - component` is one of uint16. */
  function Priority(c: Traits, tcpPriorityOffset: uint16): uint32 {
    if c.override != 0 then c.override
    else
      (0x100_0000 * TypePreference(c, tcpPriorityOffset) as int + 0x100 * LocalPreference(c) as int
       + Minus(256, c.component)) % 0x1_0000_0000
  }

  /** A computed priority stays below 2^31 for every component, whatever the type, with the default TCP offset. */
  lemma ComputedPriorityBelow(c: Traits)
    requires c.override == 0
    ensures Priority(c, DEFAULT_TCP_PRIORITY_OFFSET) < 0x8000_0000
    ensures 1 <= c.component <= 256 ==>
              Priority(c, DEFAULT_TCP_PRIORITY_OFFSET) ==
              0x100_0000 * TypePreference(c, DEFAULT_TCP_PRIORITY_OFFSET) as int + 0x100 * LocalPreference(c) as int
              + (256 - c.component)
  {
    assert TypePreference(c, DEFAULT_TCP_PRIORITY_OFFSET) <= 126;
  }

  // ---------------------------------------------------------------- pairs

  function Min(x: uint32, y: uint32): uint32 { if x < y then x else y }
  function Max(x: uint32, y: uint32): uint32 { if x > y then x else y }

  /** The formula of the standard, for the controlling agent's `g` and the controlled agent's `d`. */
  function Standard(g: uint32, d: uint32): nat {
    0x1_0000_0000 * Min(g, d) as int + 2 * Max(g, d) as int + if g > d then 1 else 0
  }

  /** The formula of the code: its multiplier is one less. Its value always fits in 64 bits. */
  function PairPriorityOf(g: uint32, d: uint32): (p: uint64) {
    NeverWraps(g, d);
    0xFFFF_FFFF * Min(g, d) as int + 2 * Max(g, d) as int + if g > d then 1 else 0
  }

  /** For any uint32 inputs the sum stays within uint64. */
  lemma NeverWraps(g: uint32, d: uint32)
    ensures 0xFFFF_FFFF * Min(g, d) as int + 2 * Max(g, d) as int + (if g > d then 1 else 0) < 0x1_0000_0000_0000_0000
  {
    if g > d { assert d <= 0xFFFF_FFFE; }
  }

  /** The part below the multiplier. */
  function Low(g: uint32, d: uint32): nat {
    2 * Max(g, d) as int + if g > d then 1 else 0
  }

  lemma LowBounds(g: uint32, d: uint32)
    requires g < 0x8000_0000 && d < 0x8000_0000
    ensures 2 * Min(g, d) as int <= Low(g, d) <= 0xFFFF_FFFF
  {
  }

  /** Both formulas compare the smaller priorities first, and then the low parts. */
  lemma CodeIsLexicographic(g: uint32, d: uint32, g1: uint32, d1: uint32)
    requires g < 0x8000_0000 && d < 0x8000_0000 && g1 < 0x8000_0000 && d1 < 0x8000_0000
    requires Min(g, d) < Min(g1, d1)
    ensures PairPriorityOf(g, d) < PairPriorityOf(g1, d1) && Standard(g, d) < Standard(g1, d1)
  {
    LowBounds(g, d);
    LowBounds(g1, d1);
    var m, m1 := Min(g, d), Min(g1, d1);
    assert 0xFFFF_FFFF * m as int + 0xFFFF_FFFF <= 0xFFFF_FFFF * m1 as int;
    assert PairPriorityOf(g, d) == 0xFFFF_FFFF * m as int + Low(g, d);
    assert PairPriorityOf(g1, d1) == 0xFFFF_FFFF * m1 as int + Low(g1, d1);
  }

  /** For candidate priorities up to 2^31-1 the code orders any two pairs exactly as the standard does. */
  lemma OrdersAsStandard(g: uint32, d: uint32, g1: uint32, d1: uint32)
    requires g < 0x8000_0000 && d < 0x8000_0000 && g1 < 0x8000_0000 && d1 < 0x8000_0000
    ensures PairPriorityOf(g, d) < PairPriorityOf(g1, d1) <==> Standard(g, d) < Standard(g1, d1)
    ensures PairPriorityOf(g, d) == PairPriorityOf(g1, d1) <==> Standard(g, d) == Standard(g1, d1)
  {
    if Min(g, d) < Min(g1, d1) {
      CodeIsLexicographic(g, d, g1, d1);
    } else if Min(g1, d1) < Min(g, d) {
      CodeIsLexicographic(g1, d1, g, d);
    } else {
      assert PairPriorityOf(g, d) - PairPriorityOf(g1, d1) == Standard(g, d) - Standard(g1, d1);
    }
  }

  /** The smaller priorities decide first, then the larger, then which side has the larger. */
  predicate Below(g: uint32, d: uint32, g1: uint32, d1: uint32) {
    || Min(g, d) < Min(g1, d1)
    || (Min(g, d) == Min(g1, d1) && Max(g, d) < Max(g1, d1))
    || (Min(g, d) == Min(g1, d1) && Max(g, d) == Max(g1, d1) && g <= d && g1 > d1)
  }

  lemma StandardIsLexicographic(g: uint32, d: uint32, g1: uint32, d1: uint32)
    requires g < 0x8000_0000 && d < 0x8000_0000 && g1 < 0x8000_0000 && d1 < 0x8000_0000
    ensures Standard(g, d) < Standard(g1, d1) <==> Below(g, d, g1, d1)
  {
    if Min(g, d) < Min(g1, d1) {
      CodeIsLexicographic(g, d, g1, d1);
    } else if Min(g1, d1) < Min(g, d) {
      CodeIsLexicographic(g1, d1, g, d);
    } else {
      assert Standard(g, d) - Standard(g1, d1) == Low(g, d) - Low(g1, d1);
    }
  }

  /** With a priority of 2^31 it does not: here the standard prefers the second pair and the code sees a tie. */
  lemma BoundIsSharp()
    ensures Standard(0x8000_0000, 0) < Standard(1, 1) && PairPriorityOf(0x8000_0000, 0) == PairPriorityOf(1, 1)
  {
  }
}

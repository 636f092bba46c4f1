/** The absolute send time extension: 24 bits of an NTP time, and what a receiver makes of them. */
module AbsSendTime {
  import opened Bits
  import opened BitFields

  const SECOND := 1_000_000_000
  const FRACTION := 0x1_0000_0000           // NTP units per second
  const NTP_OFFSET := 0x83AA_7E80           // seconds between the NTP epoch and the Unix epoch
  const UNIT := 0x4000                      // NTP units per tick of the extension, 2^14
  const CYCLE := 0x40_0000_0000             // NTP units after which the extension repeats, 2^38

  // ---------------------------------------------------------------- the code

  /** Unix nanoseconds to a 64-bit NTP time, in uint64 arithmetic. */
  function ToNtpTime(u: uint64): uint64 {
    var s := (u / SECOND + NTP_OFFSET) % FRACTION;
    var f := u % SECOND * FRACTION / SECOND;
    s * FRACTION + f
  }

  function ToTime(t: uint64): uint64 {
    var f := t % FRACTION * SECOND / FRACTION;
    var s := (t / FRACTION - NTP_OFFSET) % 0x1_0000_0000_0000_0000;
    (s * SECOND + f) % 0x1_0000_0000_0000_0000
  }

  /** The timestamp of a new extension. */
  function NewTimestamp(sendTime: uint64): uint64 {
    ToNtpTime(sendTime) / UNIT
  }

  function Marshaled(timestamp: uint64): seq<byte> {
    [timestamp / 0x1_0000 % 0x100, timestamp / 0x100 % 0x100, timestamp % 0x100]
  }

  function Unmarshaled(raw: seq<byte>): Option<uint64> {
    if |raw| < 3 then None else Some(0x1_0000 * raw[0] as int + 0x100 * raw[1] as int + raw[2])
  }

  /** The NTP time that is estimated: the receiver's time with its low 38 bits replaced, one cycle back if that is in the
      future. */
  function EstimateNtp(timestamp: uint64, receiveNtp: uint64): uint64 {
    var ntp := receiveNtp - receiveNtp % CYCLE + timestamp % 0x100_0000 * UNIT;
    if receiveNtp < ntp then (ntp - CYCLE) % 0x1_0000_0000_0000_0000 else ntp
  }

  function Estimate(timestamp: uint64, receive: uint64): uint64 {
    ToTime(EstimateNtp(timestamp, ToNtpTime(receive)))
  }

  // ---------------------------------------------------------------- times from 1970 to 2036

  /** The NTP seconds of the time fit in 32 bits. */
  predicate InEra(u: uint64) {
    u / SECOND + NTP_OFFSET < FRACTION
  }

  function RoundDown(ntp: uint64): uint64 {
    ntp - ntp % UNIT
  }

  /** The 24 bits carry the send time, rounded down, modulo a cycle. */
  lemma CarriedBits(ntp: uint64)
    ensures ntp / UNIT % 0x100_0000 * UNIT == RoundDown(ntp) % CYCLE
  {
    var ticks, r := ntp / UNIT, ntp % UNIT;
    var q, low := ticks / 0x100_0000, ticks % 0x100_0000;
    assert ntp == UNIT * ticks + r && ticks == 0x100_0000 * q + low;
    assert RoundDown(ntp) == CYCLE * q + UNIT * low && 0 <= UNIT * low < CYCLE;
  }

  /** Within one cycle of the receiver there is one time with these low bits. */
  lemma EstimateNtpIff(send: uint64, receive: uint64)
    requires receive >= CYCLE
    ensures EstimateNtp(send / UNIT, receive) == RoundDown(send) <==>
            RoundDown(send) <= receive < RoundDown(send) + CYCLE
  {
    CarriedBits(send);
    var s := RoundDown(send);
    var a, x := receive / CYCLE, receive % CYCLE;
    var b, y := s / CYCLE, s % CYCLE;
    assert receive == CYCLE * a + x && s == CYCLE * b + y && a >= 1;
    Cycles(a, x, b, y);
  }

  lemma Cycles(a: nat, x: nat, b: nat, y: nat)
    requires x < CYCLE && y < CYCLE && a >= 1
    ensures var ntp := if x < y then CYCLE * a + y - CYCLE else CYCLE * a + y;
            ntp == CYCLE * b + y <==> CYCLE * b + y <= CYCLE * a + x < CYCLE * b + y + CYCLE
  {
    if x < y {
      if b == a - 1 { } else if b >= a { } else { assert b <= a - 2; }
    } else {
      if b == a { } else if b > a { } else { assert b <= a - 1; }
    }
  }

  lemma NtpInEra(u: uint64)
    requires InEra(u)
    ensures var s, f := u / SECOND + NTP_OFFSET, u % SECOND * FRACTION / SECOND;
            f < FRACTION && ToNtpTime(u) == s * FRACTION + f >= CYCLE
  {
    var ns := u % SECOND;
    assert ns * FRACTION < SECOND * FRACTION;
  }

  /** A rounded NTP time is turned back into a time at most 3815 ns before the one it came from, and never after it. */
  lemma RoundedBack(u: uint64)
    requires InEra(u)
    ensures ToTime(RoundDown(ToNtpTime(u))) <= u <= ToTime(RoundDown(ToNtpTime(u))) + 3815
  {
    NtpInEra(u);
    var s, ns := u / SECOND + NTP_OFFSET, u % SECOND;
    var f := ns * FRACTION / SECOND;
    var f1 := f - f % UNIT;
    RoundedParts(s, f);
    FractionError(ns, f, f1);
    var q := f1 * SECOND / FRACTION;
    WholeTime(s, f1, q);
  }

  /** Rounding down only touches the fraction. */
  lemma RoundedParts(s: nat, f: nat)
    requires s < FRACTION && f < FRACTION
    ensures var ntp := s * FRACTION + f; ntp - ntp % UNIT == s * FRACTION + (f - f % UNIT)
  {
    var k, r := f / UNIT, f % UNIT;
    assert s * FRACTION + f == UNIT * (s * 0x4_0000 + k) + r;
  }

  lemma FractionError(ns: nat, f: nat, f1: nat)
    requires ns < SECOND && f == ns * FRACTION / SECOND && f1 == f - f % UNIT
    ensures var q := f1 * SECOND / FRACTION; q <= ns <= q + 3815 && q < SECOND
  {
    var q := f1 * SECOND / FRACTION;
    assert f * SECOND <= ns * FRACTION < (f + 1) * SECOND;
    assert f1 <= f && f + 1 <= f1 + UNIT;
    assert q * FRACTION <= f1 * SECOND < (q + 1) * FRACTION;
    assert UNIT * SECOND < 3815 * FRACTION;
  }

  lemma WholeTime(s: nat, f1: nat, q: nat)
    requires NTP_OFFSET <= s < FRACTION && f1 < FRACTION && q == f1 * SECOND / FRACTION < SECOND
    ensures s * FRACTION + f1 < 0x1_0000_0000_0000_0000
    ensures ToTime(s * FRACTION + f1) == (s - NTP_OFFSET) * SECOND + q
  {
    var t := s * FRACTION + f1;
    assert t / FRACTION == s && t % FRACTION == f1;
  }

  /** The receive time, in NTP units, is not before the rounded send time and less than a cycle, 64 seconds, after it. */
  predicate WithinCycle(send: uint64, receive: uint64) {
    RoundDown(ToNtpTime(send)) <= ToNtpTime(receive) < RoundDown(ToNtpTime(send)) + CYCLE
  }

  /** The estimate is the rounded send time exactly when the packet arrives within a cycle; it is then never later than
      the send time and at most 3815 ns earlier. */
  lemma EstimateRecoversSendTime(send: uint64, receive: uint64)
    requires InEra(send) && InEra(receive)
    ensures EstimateNtp(NewTimestamp(send), ToNtpTime(receive)) == RoundDown(ToNtpTime(send)) <==> WithinCycle(send, receive)
    ensures WithinCycle(send, receive) ==>
              Estimate(NewTimestamp(send), receive) <= send <= Estimate(NewTimestamp(send), receive) + 3815
  {
    NtpInEra(send);
    NtpInEra(receive);
    EstimateNtpIff(ToNtpTime(send), ToNtpTime(receive));
    RoundedBack(send);
  }

  /** The three bytes on the wire carry all that the estimate needs. */
  lemma WireKeepsEstimate(timestamp: uint64, receive: uint64)
    ensures Unmarshaled(Marshaled(timestamp)) == Some(timestamp % 0x100_0000)
    ensures Estimate(timestamp % 0x100_0000, receive) == Estimate(timestamp, receive)
  {
    ThreeParts(timestamp);
    SameLowBits(timestamp, ToNtpTime(receive));
  }

  lemma SameLowBits(timestamp: uint64, receiveNtp: uint64)
    ensures EstimateNtp(timestamp % 0x100_0000, receiveNtp) == EstimateNtp(timestamp, receiveNtp)
  {
    var low := timestamp % 0x100_0000;
    assert low % 0x100_0000 == low;
  }

  lemma ThreeParts(x: nat)
    ensures x % 0x100_0000 == 0x1_0000 * (x / 0x1_0000 % 0x100) + 0x100 * (x / 0x100 % 0x100) + x % 0x100
  {
    ThreeBytes(x);
    TwoBytes(x / 0x100);
    assert x / 0x1_0000 == x / 0x100 / 0x100;
  }
}

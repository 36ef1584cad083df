/** How a numbered control is read back from its bytes, and which controls are acts. */
module Wire {
  import opened Options
  import opened SerialNumbers

  /** What a numbered packet is about; an act carries its own number in its key. */
  datatype ControlKey =
    | Control(id: u8)
    | Yaesu(slot: u8, control: u8)
    | Action(id: u8, number: u32)
    | YaesuAction(slot: u8, control: u8, number: u32)
  {
    predicate IsAct() {
      Action? || YaesuAction?
    }
  }

  const CONTROL_TYPE: u8 := 0x04
  const YAESU_CONTROL_TYPE: u8 := 0x2C
  const CONTROL_SIZE := 7
  const YAESU_CONTROL_SIZE := 8

  /** The fourteen controls of which every send is an act. */
  const ACTIONS: set<int> := {
    0x19,  // VfoSwap
    0x25,  // YaesuReadMemories
    0x27,  // YaesuWriteMemories
    0x2D,  // YaesuButton
    0x2E,  // YaesuReadMenus
    0x2F,  // YaesuSetMenu
    0x4A,  // DiversityAutoNull
    0x46,  // DiversityRead
    0x97,  // YaesuReadMemoryTones
    0x85,  // Yaesu2ReadMemories
    0x87,  // Yaesu2WriteMemories
    0x8D,  // Yaesu2Button
    0x8E,  // Yaesu2ReadMenus
    0x8F   // Yaesu2SetMenu
  }
  const YAESU_SELECT_VFO := 0x28
  const YAESU2_SELECT_VFO := 0x88
  const CLAR_STEP := 24

  predicate IsAction(id: u8, value: int) {
    id in ACTIONS || ((id == YAESU_SELECT_VFO || id == YAESU2_SELECT_VFO) && value >= 2)
  }

  predicate IsYaesuAction(control: u8, value: int) {
    control == CLAR_STEP
  }

  function U16(high: u8, low: u8): int {
    (high as int) * 0x100 + low
  }

  function ToBytes(n: u32): seq<u8> {
    [n / 0x100_0000, n / 0x1_0000 % 0x100, n / 0x100 % 0x100, n % 0x100]
  }

  function FromBytes(b: seq<u8>): (n: u32)
    requires |b| == 4
  {
    U16(b[0], b[1]) * 0x1_0000 + U16(b[2], b[3])
  }

  /** `numbered_control`: the key and the number of a numbered packet, `None` for any other. */
  function NumberedControl(buf: seq<u8>): Option<(ControlKey, u32)> {
    if |buf| <= 2 || (buf[2] != CONTROL_TYPE && buf[2] != YAESU_CONTROL_TYPE) then
      None
    else
      var at := if buf[2] == CONTROL_TYPE then CONTROL_SIZE else YAESU_CONTROL_SIZE;
      if |buf| < at + 4 then
        None
      else
        var number := FromBytes(buf[at..at + 4]);
        if buf[2] == CONTROL_TYPE then
          if IsAction(buf[4], U16(buf[5], buf[6]))
          then Some((Action(buf[4], number), number))
          else Some((Control(buf[4]), number))
        else
          if IsYaesuAction(buf[5], U16(buf[6], buf[7]))
          then Some((YaesuAction(buf[4], buf[5], number), number))
          else Some((Yaesu(buf[4], buf[5]), number))
  }

  /** A packet as its serializer writes it: what `send` is to be given. */
  predicate IsControlPacket(packet: seq<u8>) {
    || (|packet| == CONTROL_SIZE && packet[2] == CONTROL_TYPE)
    || (|packet| == YAESU_CONTROL_SIZE && packet[2] == YAESU_CONTROL_TYPE)
  }

  /** The most significant byte first. */
  lemma BytesRoundTrip(n: u32)
    ensures FromBytes(ToBytes(n)) == n
    ensures var b := ToBytes(n);
            n == (b[0] as int) * 0x100_0000 + (b[1] as int) * 0x1_0000 + (b[2] as int) * 0x100 + b[3]
  {
    var b := ToBytes(n);
    var q := n / 0x100;
    assert n == q * 0x100 + n % 0x100;
    assert n / 0x1_0000 == q / 0x100;
    assert q == q / 0x100 * 0x100 + q % 0x100;
    assert n / 0x100_0000 == q / 0x100 / 0x100;
  }

  /**
   The number comes back as it was put on, whatever the packet; the key is the setting's own,
   the same under every number, or an act's, with that number in it.
   */
  lemma NumberReadsBack(packet: seq<u8>, n: u32, m: u32)
    requires IsControlPacket(packet)
    ensures var sent := NumberedControl(packet + ToBytes(n));
            var again := NumberedControl(packet + ToBytes(m));
            && sent.Some? && sent.value.1 == n
            && (sent.value.0.IsAct() ==> sent.value.0.number == n)
            && again.Some? && again.value.0.IsAct() == sent.value.0.IsAct()
            && (!sent.value.0.IsAct() ==> again.value.0 == sent.value.0)
            && (sent.value.0.IsAct() && n != m ==> again.value.0 != sent.value.0)
  {
    BytesRoundTrip(n);
    BytesRoundTrip(m);
    var at := |packet|;
    assert (packet + ToBytes(n))[at..at + 4] == ToBytes(n);
    assert (packet + ToBytes(m))[at..at + 4] == ToBytes(m);
  }

  // ---- which controls share a key ---------------------------------------------------

  /** The bytes name the same control: the same type and id, or the same type, radio and control. */
  predicate SameControl(buf: seq<u8>, other: seq<u8>)
    requires |buf| > 5 && |other| > 5
  {
    buf[2] == other[2] && buf[4] == other[4] && (buf[2] == 0x2C ==> buf[5] == other[5])
  }

  /** The bytes ask for an act: by the id alone, by a value of a VFO selection above 1, or by a clarifier step. */
  predicate AsksForAct(buf: seq<u8>)
    requires |buf| > 6
  {
    if buf[2] == 0x04 then
      || buf[4] == 0x19 || buf[4] == 0x25 || buf[4] == 0x27 || buf[4] == 0x2D || buf[4] == 0x2E || buf[4] == 0x2F
      || buf[4] == 0x46 || buf[4] == 0x4A || buf[4] == 0x85 || buf[4] == 0x87 || buf[4] == 0x8D || buf[4] == 0x8E
      || buf[4] == 0x8F || buf[4] == 0x97
      || ((buf[4] == 0x28 || buf[4] == 0x88) && !(buf[5] == 0 && buf[6] <= 1))
    else
      buf[5] == 24
  }

  /** What a numbered packet is, told from its bytes. */
  lemma KeyFromBytes(buf: seq<u8>)
    requires NumberedControl(buf).Some?
    ensures |buf| >= 11 && (buf[2] == 0x04 || (buf[2] == 0x2C && |buf| >= 12))
    ensures NumberedControl(buf).value.0.IsAct() <==> AsksForAct(buf)
  {
    hide FromBytes;
  }

  /**
   Of any two numbered packets: they have the same key exactly when both set the same control,
   whatever the values and the numbers, or both ask for the same act under the same number.
   */
  lemma SameKeyIff(buf: seq<u8>, other: seq<u8>)
    requires NumberedControl(buf).Some? && NumberedControl(other).Some?
    ensures |buf| > 6 && |other| > 6
    ensures var ((key, number), (otherKey, otherNumber)) := (NumberedControl(buf).value, NumberedControl(other).value);
            key == otherKey <==>
              && SameControl(buf, other) && AsksForAct(buf) == AsksForAct(other)
              && (AsksForAct(buf) ==> number == otherNumber)
  {
    KeyFromBytes(buf);
    KeyFromBytes(other);
    hide FromBytes, IsAction, IsYaesuAction;
  }

  /** A packet is numbered exactly when it is a control, with four bytes behind it. */
  lemma NumberedIff(buf: seq<u8>)
    ensures NumberedControl(buf).Some? <==>
            |buf| > 2 && ((buf[2] == 0x04 && |buf| >= 11) || (buf[2] == 0x2C && |buf| >= 12))
  {
    hide FromBytes;
  }
}

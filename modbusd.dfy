/** modbusd: the serial timing of the Modbus bridge — the rate a termios speed
    code stands for, the character size, and the time one byte takes on the
    line, which the daemon waits per byte instead of draining the UART.
    Speed codes and flag bits are the Linux termios encodings. */
module Modbus {

  /** The rate of each speed code get_baud lists (B50 = 01 … B38400 = 017,
      B57600 = 010001 … B4000000 = 010017 in octal). */
  const BAUD_RATES: map<nat, nat> := map[
    0x1 := 50, 0x2 := 75, 0x3 := 110, 0x4 := 134, 0x5 := 150, 0x6 := 200, 0x7 := 300,
    0x8 := 600, 0x9 := 1200, 0xA := 1800, 0xB := 2400, 0xC := 4800, 0xD := 9600,
    0xE := 19200, 0xF := 38400,
    0x1001 := 57600, 0x1002 := 115200, 0x1003 := 230400, 0x1004 := 460800,
    0x1005 := 500000, 0x1006 := 576000, 0x1007 := 921600, 0x1008 := 1000000,
    0x1009 := 1152000, 0x100A := 1500000, 0x100B := 2000000, 0x100C := 2500000,
    0x100D := 3000000, 0x100E := 3500000, 0x100F := 4000000]

  const B19200 := 0xE
  const DEFAULT_BAUD := 19200

  /** The c_cflag bits the timing reads. */
  const CSIZE: bv32 := 0x30
  const CS5: bv32 := 0x00
  const CS6: bv32 := 0x10
  const CS7: bv32 := 0x20
  const CSTOPB: bv32 := 0x40
  const PARENB: bv32 := 0x100

  /** get_baud: a listed code's rate; 19200 for B19200 and for anything else. */
  function GetBaud(speed: nat): (baud: nat)
    ensures speed in BAUD_RATES ==> baud == BAUD_RATES[speed]
    ensures speed !in BAUD_RATES ==> baud == DEFAULT_BAUD
    ensures 50 <= baud <= 4000000
  {
    RatesInRange();
    if speed in BAUD_RATES then BAUD_RATES[speed] else DEFAULT_BAUD
  }

  lemma RatesInRange()
    ensures forall s :: s in BAUD_RATES ==> 50 <= BAUD_RATES[s] <= 4000000
  {
  }

  /** B19200 and the default agree. */
  lemma DefaultIs19200()
    ensures GetBaud(B19200) == DEFAULT_BAUD
  {
  }

  /** get_size: CS5..CS8 give 5..8 data bits. */
  function GetSize(cflag: bv32): (bits: nat)
    ensures 5 <= bits <= 8
    ensures cflag & CSIZE == CS5 <==> bits == 5
    ensures cflag & CSIZE == CS6 <==> bits == 6
    ensures cflag & CSIZE == CS7 <==> bits == 7
  {
    var csize := cflag & CSIZE;
    if csize == CS5 then 5
    else if csize == CS6 then 6
    else if csize == CS7 then 7
    else 8
  }

  /** Start bit, data bits, parity bit if enabled, one or two stop bits. */
  function FrameBits(cflag: bv32): (n: nat)
    ensures 7 <= n <= 12
    ensures n == 1 + GetSize(cflag) + (if cflag & PARENB != 0 then 1 else 0) + (if cflag & CSTOPB != 0 then 2 else 1)
  {
    var stopBits := if cflag & CSTOPB != 0 then 2 else 1;
    var parity := if cflag & PARENB != 0 then 1 else 0;
    1 + GetSize(cflag) + parity + stopBits
  }

  /** get_byte_time: the microseconds one frame takes, rounded down.  The
      product stays within 32 bits and no listed rate makes it zero. */
  function GetByteTime(speed: nat, cflag: bv32): (us: nat)
    ensures us == 1000000 * FrameBits(cflag) / GetBaud(speed)
    ensures 1000000 * FrameBits(cflag) <= 12000000 < 0x1_0000_0000
    ensures 1 <= us <= 240000
  {
    var baud := GetBaud(speed);
    var product := 1000000 * FrameBits(cflag);
    assert product >= baud;
    DivMonotone(product, 50, baud);
    DivMonotone(12000000, 50, 50);
    DivBelow(product, 12000000, baud);
    assert 12000000 / 50 == 240000;
    product / baud
  }

  /** Dividing by a larger rate never gives a longer time. */
  lemma DivMonotone(a: nat, b1: nat, b2: nat)
    requires 0 < b1 <= b2
    ensures a / b1 >= a / b2
  {
    var q, q1 := a / b2, a / b1;
    assert q * b2 + a % b2 == a;
    MulMono(b1, b2, q);
    assert q1 * b1 + a % b1 == a && a % b1 < b1;
    assert (q1 + 1) * b1 == q1 * b1 + b1;
    MulMono(q1 + 1, q, b1);
  }

  lemma DivBelow(a: nat, c: nat, b: nat)
    requires 0 < b && a <= c
    ensures a / b <= c / b
  {
    var qa, qc := a / b, c / b;
    assert qa * b + a % b == a && qc * b + c % b == c && c % b < b;
    assert (qc + 1) * b == qc * b + b;
    MulMono(qc + 1, qa, b);
  }

  lemma MulMono(x: nat, y: nat, c: nat)
    ensures x <= y ==> x * c <= y * c
  {
  }

  /** For one frame format the byte time does not grow with the rate. */
  lemma ByteTimeNonIncreasing(s1: nat, s2: nat, cflag: bv32)
    requires GetBaud(s1) <= GetBaud(s2)
    ensures GetByteTime(s1, cflag) >= GetByteTime(s2, cflag)
  {
    DivMonotone(1000000 * FrameBits(cflag), GetBaud(s1), GetBaud(s2));
  }

  /** The wait after writing `len` bytes read from the pty (at most 256):
      byte time times length, which fits usleep's 32-bit argument. */
  function TransmitWait(speed: nat, cflag: bv32, len: nat): (us: nat)
    requires 0 < len <= 256
    ensures us == GetByteTime(speed, cflag) * len
    ensures len <= us <= 61440000 < 0x1_0000_0000
  {
    var t := GetByteTime(speed, cflag);
    WaitBound(t, len);
    t * len
  }

  lemma WaitBound(t: nat, len: nat)
    requires 1 <= t <= 240000 && len <= 256
    ensures len <= t * len <= 61440000
  {
    MulMono(t, 240000, len);
    MulMono(1, t, len);
  }
}

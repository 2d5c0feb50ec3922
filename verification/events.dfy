/** The log of the driver's report calls to the virtual touch device: one
    record per call of input_report_key, input_report_abs and input_sync, in
    call order. The input core's filtering of repeated values is not part of
    it. */
module InputEvents {

  /** The two event types the driver reports besides synchronisation. */
  datatype EventKind = EvKey | EvAbs

  /** One report call: a key or axis report, or a sync. */
  datatype Event = Report(kind: EventKind, code: int, value: int) | Sync

  /** Event codes of the Linux input protocol used by the driver. */
  const BtnTouch: int := 0x14a
  const AbsX: int := 0x00
  const AbsY: int := 0x01

  /** input_report_key: a key event whose value is normalised to 0 or 1. */
  function Key(code: int, value: int): (e: Event)
    ensures e.Report? && e.kind == EvKey && e.code == code
    ensures e.value == 0 || e.value == 1
    ensures e.value == 1 <==> value != 0
  {
    Report(EvKey, code, if value == 0 then 0 else 1)
  }

  /** input_report_abs: an absolute-axis event carrying the value as given. */
  function Abs(code: int, value: int): (e: Event)
  {
    Report(EvAbs, code, value)
  }

  /** The value of a byte read through a plain `char` pointer. This assumes
      a signed `char`, as on x86 kernels of the driver's era (the driver also
      calls inb); kernels built with -funsigned-char, which Linux 6.2 and
      later use on every architecture, read every byte as 0..255 instead. */
  function SignedChar(b: bv8): (v: int)
    ensures -128 <= v < 128
    ensures (v - b as int) % 256 == 0
    ensures v >= 0 <==> b < 0x80
  {
    if b < 0x80 then b as int else b as int - 256
  }

  /** How many times the event e occurs in the stream ev. */
  function Count(ev: seq<Event>, e: Event): (n: nat)
    ensures n <= |ev|
  {
    if ev == [] then 0
    else Count(ev[..|ev| - 1], e) + (if ev[|ev| - 1] == e then 1 else 0)
  }

  /** Counting over a stream that starts with x. */
  lemma CountCons(x: Event, rest: seq<Event>, e: Event)
    ensures Count([x] + rest, e) == (if x == e then 1 else 0) + Count(rest, e)
  {
    assert [x][..0] == [];
    CountAppend([x], rest, e);
  }

  /** An event that does not occur is counted zero times. */
  lemma {:induction false} CountNone(ev: seq<Event>, e: Event)
    requires forall i | 0 <= i < |ev| :: ev[i] != e
    ensures Count(ev, e) == 0
  {
    if ev != [] {
      CountNone(ev[..|ev| - 1], e);
    }
  }

  lemma {:induction false} CountAppend(a: seq<Event>, b: seq<Event>, e: Event)
    ensures Count(a + b, e) == Count(a, e) + Count(b, e)
  {
    if b != [] {
      assert (a + b)[..|a + b| - 1] == a + b[..|b| - 1];
      CountAppend(a, b[..|b| - 1], e);
    } else {
      assert a + b == a;
    }
  }
}

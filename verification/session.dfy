/** The driver's session state, the globals `ptr` and `_fp` together with the
    log of report calls, and what write, release and ioctl do to it, as
    pure transition functions. Each entry point runs atomically (the mutex
    is taken to serialise them). */
module DriverSession {
  import opened InputEvents
  import opened TouchReports

  datatype Option<T> = None | Some(value: T)

  /** Error numbers and ioctl command codes. */
  const EFAULT: int := 14
  const CmdPress: nat := 0x1337
  const CmdRelease: nat := 0x7331

  /** The constants of write's size policy. */
  const MinAlloc: nat := 256
  const LargeWrite: nat := 0x40000
  const LargeCopy: nat := 416

  /** The global `ptr`: no buffer, a live buffer of `capacity` bytes whose
      first |known| bytes have defined contents (the rest is uninitialised
      kmalloc memory), or a pointer that still refers to a freed buffer. */
  datatype Ptr = Null | Live(capacity: nat, known: seq<bv8>) | Stale(capacity: nat)

  /** The two operations a dispatch-table slot can refer to. */
  datatype Op = TouchPress | TouchRelease

  /** The fields of `struct fp_struct` that ioctl uses. */
  datatype FpStruct = FpStruct(reportPs: Op, reportRl: Op)

  /** The table as ioctl fills it in when it allocates it. */
  const Installed: FpStruct := FpStruct(TouchPress, TouchRelease)

  datatype Session = Session(ptr: Ptr, fp: Option<FpStruct>, events: seq<Event>)

  /** After module load: `ptr = 0`, `_fp = 0`, nothing reported yet. */
  const Initial: Session := Session(Null, None, [])

  /** Undefined behaviour an entry point can reach. */
  datatype Hazard = NullDeref | UseAfterFree | DoubleFree | UninitRead | OutOfBounds

  /** What an entry point does: return a code, or reach undefined behaviour
      and stop there (what it did before that point stays done). */
  datatype Outcome = Returned(code: int) | Undefined(hazard: Hazard)

  datatype Step = Step(next: Session, out: Outcome)

  /** The allocation size and copy length write derives from `count`. */
  datatype Policy = Policy(capacity: nat, copyLen: nat)

  /** write's three-way size policy. */
  function SizePolicy(count: nat): (p: Policy)
    ensures p.copyLen <= p.capacity
    ensures p.copyLen <= count && p.copyLen <= LargeWrite
    ensures p.capacity >= MinAlloc && p.capacity >= count
    ensures count < MinAlloc ==> p.capacity == MinAlloc && p.copyLen == count
    ensures MinAlloc <= count <= LargeWrite ==> p.capacity == count && p.copyLen == count
    ensures count > LargeWrite ==> p.capacity == count && p.copyLen == LargeCopy
  {
    if count < 256 then Policy(256, count)
    else if count > 0x40000 then Policy(count, 416)
    else Policy(count, count)
  }

  /** strlen over the bytes with defined contents: the offset of the first
      zero byte, or None when none of them is zero. */
  function StrLen(s: seq<bv8>): (r: Option<nat>)
    ensures r.Some? ==> r.value < |s| && s[r.value] == 0
    ensures r.Some? ==> forall j | 0 <= j < r.value :: s[j] != 0
    ensures r.None? <==> forall j | 0 <= j < |s| :: s[j] != 0
  {
    if s == [] then None
    else if s[0] == 0 then Some(0)
    else match StrLen(s[1..])
      case None => None
      case Some(n) => Some(n + 1)
  }

  /** The conversion of strlen's size_t result to the `int` parameter of
      report_touch_press (two's complement wrap-around). */
  function Int32(n: nat): (r: int)
    ensures -0x8000_0000 <= r < 0x8000_0000
    ensures r <= n
    ensures n < 0x8000_0000 ==> r == n
    ensures (n - r) % 0x1_0000_0000 == 0
  {
    if n < 0x8000_0000 then n else (n + 0x8000_0000) % 0x1_0000_0000 - 0x8000_0000
  }

  /** Calling through a dispatch-table slot. */
  function Call(op: Op, start: seq<bv8>, len: int): (r: Reported)
    requires len == 0 || Iterations(len) <= |start|
  {
    match op
    case TouchPress => PressReport(start, len)
    case TouchRelease => ReleaseReport()
  }

  /** n zero bytes. */
  function Zeros(n: nat): (z: seq<bv8>)
    ensures |z| == n && forall i | 0 <= i < n :: z[i] == 0
  {
    seq(n, _ => 0)
  }

  /** What copy_from_user leaves in the first `len` bytes of the buffer when
      it manages to copy `copied` of them: the copied prefix of the data and,
      after a fault, zeros in place of the bytes it could not copy. */
  function Copied(data: seq<bv8>, len: nat, copied: nat): (known: seq<bv8>)
    requires len <= |data|
    ensures |known| == len
    ensures copied >= len ==> known == data[..len]
    ensures copied < len ==> known[..copied] == data[..copied]
    ensures forall i | copied <= i < len :: known[i] == 0
  {
    if copied >= len then data[..len] else data[..copied] + Zeros(len - copied)
  }

  /** input_test_driver_write with `count == |data|`; `allocOk` says whether
      kmalloc succeeds and `copied` how many bytes copy_from_user manages to
      copy (at least the copy length: no fault). */
  function WriteStep(s: Session, data: seq<bv8>, allocOk: bool, copied: nat): (st: Step)
    ensures st.next.fp == s.fp && st.next.events == s.events
    ensures s.ptr.Stale? ==> st == Step(s, Undefined(DoubleFree))
    ensures st.out.Returned? ==> st.out.code == 0 || st.out.code == -EFAULT
    ensures st.out == Returned(-EFAULT) <==>
              !s.ptr.Stale? && allocOk && copied < SizePolicy(|data|).copyLen
    ensures !s.ptr.Stale? && allocOk ==>
              st.out == Returned(if copied < SizePolicy(|data|).copyLen then -EFAULT else 0)
    ensures !s.ptr.Stale? && allocOk ==>
              st.next.ptr.Live? && st.next.ptr.capacity == SizePolicy(|data|).capacity &&
              st.next.ptr.known == Copied(data, SizePolicy(|data|).copyLen, copied)
    ensures !s.ptr.Stale? && !allocOk ==>
              st.next.ptr == (if s.ptr.Live? then Stale(s.ptr.capacity) else Null) &&
              st.out == (if |data| == 0 then Returned(0)
                         else Undefined(if s.ptr.Live? then UseAfterFree else NullDeref))
  {
    if s.ptr.Stale? then Step(s, Undefined(DoubleFree))
    else
      var freed := if s.ptr.Live? then Stale(s.ptr.capacity) else Null;
      var p := SizePolicy(|data|);
      var target := if allocOk then Live(p.capacity, []) else freed;
      var s1 := s.(ptr := target);
      if p.copyLen == 0 then Step(s1, Returned(0))
      else match target
        case Null => Step(s1, Undefined(NullDeref))
        case Stale(_) => Step(s1, Undefined(UseAfterFree))
        case Live(cap, _) =>
          var known := Copied(data, p.copyLen, copied);
          Step(s1.(ptr := Live(cap, known)), Returned(if copied >= p.copyLen then 0 else -EFAULT))
  }

  /** input_test_driver_release. */
  function ReleaseStep(s: Session): (st: Step)
    ensures st.next.events == s.events
    ensures st.out == Returned(0) <==> !s.ptr.Stale?
    ensures st.out.Returned? ==> st.next.ptr.Null? && st.next.fp.None?
    ensures !st.out.Returned? ==> st == Step(s, Undefined(DoubleFree))
  {
    if s.ptr.Stale? then Step(s, Undefined(DoubleFree))
    else Step(s.(ptr := Null, fp := None), Returned(0))
  }

  /** input_test_driver_ioctl; `tableAllocOk` says whether kzalloc succeeds
      when the table has to be created. The argument is unused. */
  function IoctlStep(s: Session, cmd: nat, tableAllocOk: bool): (st: Step)
    ensures st.next.ptr == s.ptr
    ensures |s.events| <= |st.next.events| && st.next.events[..|s.events|] == s.events
    ensures st.out.Returned? ==> st.out.code == 0
    ensures cmd != CmdPress && cmd != CmdRelease ==> st == Step(s, Returned(0))
    ensures (cmd == CmdPress || cmd == CmdRelease) && s.fp.None? ==>
              if tableAllocOk then st.next.fp == Some(Installed) else st == Step(s, Undefined(NullDeref))
    ensures s.fp.Some? ==> st.next.fp == s.fp
    ensures cmd == CmdRelease && (s.fp.Some? || tableAllocOk) ==> st.out == Returned(0)
    ensures cmd == CmdPress && (s.fp.Some? || tableAllocOk) && !s.ptr.Live? ==>
              st.out == Undefined(if s.ptr.Null? then NullDeref else UseAfterFree)
  {
    if cmd != CmdPress && cmd != CmdRelease then Step(s, Returned(0))
    else if s.fp.None? && !tableAllocOk then Step(s, Undefined(NullDeref))
    else
      var fp := if s.fp.Some? then s.fp.value else Installed;
      var s1 := s.(fp := Some(fp));
      if cmd == CmdRelease then
        Step(s1.(events := s1.events + Call(fp.reportRl, [], 0).events), Returned(0))
      else match s.ptr
        case Null => Step(s1, Undefined(NullDeref))
        case Stale(_) => Step(s1, Undefined(UseAfterFree))
        case Live(cap, known) =>
          match StrLen(known)
          case None => Step(s1, Undefined(if |known| < cap then UninitRead else OutOfBounds))
          case Some(n) =>
            Step(s1.(events := s1.events + Call(fp.reportPs, known, Int32(n)).events), Returned(0))
  }

  /** What every reachable session satisfies: a live buffer holds no more
      defined bytes than it has room for, and never more than the largest
      copy length; a table, once there, holds the two report operations. */
  predicate Inv(s: Session)
  {
    (s.ptr.Live? ==> |s.ptr.known| <= s.ptr.capacity && |s.ptr.known| <= LargeWrite) &&
    (s.fp.Some? ==> s.fp.value == Installed)
  }

  lemma InitialInv()
    ensures Inv(Initial)
  {
  }

  /** Write frees the previous buffer and, when allocation succeeds, points
      `ptr` at a fresh buffer of the policy's capacity holding the first
      copy-length bytes of the data; it leaves the table and events alone.
      After a fault the result is -EFAULT, the new buffer stays referenced,
      and its copy-length bytes are the copied prefix followed by zeros. */
  lemma WriteReplacesBuffer(s: Session, data: seq<bv8>, copied: nat)
    requires !s.ptr.Stale?
    ensures var st := WriteStep(s, data, true, copied);
            var p := SizePolicy(|data|);
            st.next.fp == s.fp && st.next.events == s.events &&
            st.next.ptr.Live? && st.next.ptr.capacity == p.capacity &&
            |st.next.ptr.known| == p.copyLen &&
            (copied >= p.copyLen ==>
               st.next.ptr.known == data[..p.copyLen] && st.out == Returned(0)) &&
            (copied < p.copyLen ==>
               st.next.ptr.known[..copied] == data[..copied] &&
               st.next.ptr.known[copied] == 0 && st.out == Returned(-EFAULT))
  {
  }

  /** A press after a faulted write never runs off the defined bytes: the
      zero fill supplies a terminator at or before the fault offset. */
  lemma {:induction false} FaultedWriteThenPress(s: Session, data: seq<bv8>, copied: nat)
    requires Inv(s) && !s.ptr.Stale?
    requires copied < SizePolicy(|data|).copyLen
    ensures var w := WriteStep(s, data, true, copied);
            w.out == Returned(-EFAULT) &&
            StrLen(w.next.ptr.known).Some? && StrLen(w.next.ptr.known).value <= copied &&
            IoctlStep(w.next, CmdPress, true).out == Returned(0)
  {
    var w := WriteStep(s, data, true, copied);
    assert w.next.ptr.known[copied] == 0;
  }

  /** When allocation fails after a buffer existed, `ptr` keeps referring to
      the freed buffer and a non-empty copy writes into freed memory. */
  lemma AllocFailureLeavesStale(s: Session, data: seq<bv8>, copied: nat)
    requires s.ptr.Live?
    ensures var st := WriteStep(s, data, false, copied);
            st.next.ptr == Stale(s.ptr.capacity) && st.next.fp == s.fp &&
            st.next.events == s.events &&
            (|data| > 0 ==> st.out == Undefined(UseAfterFree)) &&
            (|data| == 0 ==> st.out == Returned(0))
  {
  }

  /** When allocation fails with no earlier buffer, `ptr` stays NULL and a
      non-empty copy writes through it. */
  lemma AllocFailureWithoutBuffer(s: Session, data: seq<bv8>, copied: nat)
    requires s.ptr.Null?
    ensures var st := WriteStep(s, data, false, copied);
            st.next == s &&
            (|data| > 0 ==> st.out == Undefined(NullDeref)) &&
            (|data| == 0 ==> st.out == Returned(0))
  {
  }

  /** A write while `ptr` is stale frees that buffer a second time. */
  lemma WriteAfterStaleDoubleFrees(s: Session, data: seq<bv8>, allocOk: bool, copied: nat)
    requires s.ptr.Stale?
    ensures WriteStep(s, data, allocOk, copied) == Step(s, Undefined(DoubleFree))
  {
  }

  lemma WriteKeepsInv(s: Session, data: seq<bv8>, allocOk: bool, copied: nat)
    requires Inv(s)
    ensures Inv(WriteStep(s, data, allocOk, copied).next)
  {
  }

  /** Release clears both globals; a second release changes nothing. */
  lemma ReleaseClears(s: Session)
    requires !s.ptr.Stale?
    ensures ReleaseStep(s) == Step(Session(Null, None, s.events), Returned(0))
    ensures ReleaseStep(ReleaseStep(s).next) == ReleaseStep(s)
  {
  }

  lemma ReleaseKeepsInv(s: Session)
    requires Inv(s)
    ensures Inv(ReleaseStep(s).next)
  {
  }

  /** Unrecognised commands change nothing; every command that returns
      returns 0. */
  lemma IoctlOtherCommands(s: Session, cmd: nat, tableAllocOk: bool)
    ensures cmd != CmdPress && cmd != CmdRelease ==> IoctlStep(s, cmd, tableAllocOk) == Step(s, Returned(0))
    ensures IoctlStep(s, cmd, tableAllocOk).out.Returned? ==> IoctlStep(s, cmd, tableAllocOk).out.code == 0
  {
  }

  /** The table is created only when absent, and never recreated; ioctl
      touches neither `ptr` nor earlier events. */
  lemma IoctlTableOnce(s: Session, cmd: nat, tableAllocOk: bool)
    requires cmd == CmdPress || cmd == CmdRelease
    ensures var st := IoctlStep(s, cmd, tableAllocOk);
            st.next.ptr == s.ptr &&
            st.next.events[..|s.events|] == s.events &&
            (s.fp.Some? ==> st.next.fp == s.fp) &&
            (s.fp.None? && tableAllocOk ==> st.next.fp == Some(Installed)) &&
            (s.fp.None? && !tableAllocOk ==> st == Step(s, Undefined(NullDeref)))
  {
  }

  lemma IoctlKeepsInv(s: Session, cmd: nat, tableAllocOk: bool)
    requires Inv(s)
    ensures Inv(IoctlStep(s, cmd, tableAllocOk).next)
  {
  }

  /** The release command reports touch-up and a sync whatever the buffer. */
  lemma IoctlReleaseReports(s: Session, tableAllocOk: bool)
    requires Inv(s)
    requires s.fp.Some? || tableAllocOk
    ensures IoctlStep(s, CmdRelease, tableAllocOk) ==
            Step(s.(fp := Some(Installed), events := s.events + ReleaseEvents), Returned(0))
  {
  }

  /** The press command before any write, or after allocation failed,
      dereferences a null or freed pointer in strlen. */
  lemma IoctlPressWithoutBuffer(s: Session, tableAllocOk: bool)
    requires s.fp.Some? || tableAllocOk
    requires !s.ptr.Live?
    ensures IoctlStep(s, CmdPress, tableAllocOk).out ==
            Undefined(if s.ptr.Null? then NullDeref else UseAfterFree)
  {
  }

  /** The press command on a live buffer whose defined bytes contain a zero
      at offset n: for n == 0 nothing is reported; otherwise n + 1 touches
      are reported, one per byte up to and including the terminator, so
      the last one is at (0, 0). Without a zero among the defined bytes
      strlen reads uninitialised or out-of-bounds memory. */
  lemma IoctlPressReports(s: Session, tableAllocOk: bool)
    requires Inv(s) && s.ptr.Live?
    requires s.fp.Some? || tableAllocOk
    ensures var st := IoctlStep(s, CmdPress, tableAllocOk);
            var known := s.ptr.known;
            var added := st.next.events[|s.events|..];
            match StrLen(known)
            case None =>
              st.out == Undefined(if |known| < s.ptr.capacity then UninitRead else OutOfBounds)
            case Some(n) =>
              st.out == Returned(0) && st.next.fp == Some(Installed) &&
              n < LargeWrite &&
              (n == 0 ==> added == []) &&
              (n > 0 ==> |added| == 4 * (n + 1) &&
                         Count(added, Sync) == n + 1 &&
                         (forall i | 0 <= i < n :: added[4 * i .. 4 * i + 4] == TouchAt(known[i])) &&
                         added[4 * n .. 4 * n + 4] == TouchAt(0))
  {
  }

  /** A press issued from the initial state with table allocation
      succeeding: the table is created, then strlen dereferences NULL. */
  lemma PressBeforeWrite()
    ensures IoctlStep(Initial, CmdPress, true) ==
            Step(Initial.(fp := Some(Installed)), Undefined(NullDeref))
  {
  }

  /** Write, then a write whose allocation fails, then a press: the second
      write copies into the freed buffer and the press reads it. */
  lemma StaleScenario(a: seq<bv8>, b: seq<bv8>)
    requires |b| > 0
    ensures var s1 := WriteStep(Initial, a, true, |a|).next;
            var st2 := WriteStep(s1, b, false, |b|);
            st2.next.ptr.Stale? && st2.out == Undefined(UseAfterFree) &&
            IoctlStep(st2.next, CmdPress, true).out == Undefined(UseAfterFree) &&
            ReleaseStep(st2.next).out == Undefined(DoubleFree)
  {
  }
}

/** The driver's globals and entry points in the source's own form: fields
    updated in place by free-then-reassign sequences, and report_touch_press
    as a loop appending to the log of report calls. Each method is proved
    to do what the matching transition function of DriverSession says. */
module TestDriver {
  import opened InputEvents
  import opened TouchReports
  import opened DriverSession

  class InputTestDriver {
    /** The global `char *ptr`. */
    var ptr: Ptr
    /** The global `struct fp_struct *_fp`. */
    var fp: Option<FpStruct>
    /** The log of report calls to the virtual touch device. */
    var events: seq<Event>

    function State(): (s: Session)
      reads this
    {
      Session(ptr, fp, events)
    }

    /** Module load: both globals are zero and nothing has been reported. */
    constructor ()
      ensures State() == Initial && Inv(State())
    {
      ptr := Null;
      fp := None;
      events := [];
    }

    method Write(data: seq<bv8>, allocOk: bool, copied: nat) returns (r: Outcome)
      modifies this
      ensures Step(State(), r) == WriteStep(old(State()), data, allocOk, copied)
      ensures old(Inv(State())) ==> Inv(State())
    {
      ghost var s := State();
      if ptr.Stale? {
        return Undefined(DoubleFree);
      }
      if ptr.Live? {
        // kfree(ptr) without clearing it
        ptr := Stale(ptr.capacity);
      }
      var policy := SizePolicy(|data|);
      if allocOk {
        ptr := Live(policy.capacity, []);
      }
      if policy.copyLen == 0 {
        r := Returned(0);
      } else {
        match ptr
        case Null =>
          r := Undefined(NullDeref);
        case Stale(_) =>
          r := Undefined(UseAfterFree);
        case Live(cap, _) =>
          // copy_from_user zero-fills what it could not copy
          ptr := Live(cap, Copied(data, policy.copyLen, copied));
          if copied < policy.copyLen {
            r := Returned(-EFAULT);
          } else {
            r := Returned(0);
          }
      }
      if Inv(s) { WriteKeepsInv(s, data, allocOk, copied); }
    }

    method Release() returns (r: Outcome)
      modifies this
      ensures Step(State(), r) == ReleaseStep(old(State()))
      ensures old(Inv(State())) ==> Inv(State())
    {
      if ptr.Stale? {
        return Undefined(DoubleFree);
      }
      if ptr.Live? {
        ptr := Null;
      }
      if fp.Some? {
        fp := None;
      }
      r := Returned(0);
    }

    method ReportTouchPress(start: seq<bv8>, len: int) returns (ret: int)
      requires len == 0 || Iterations(len) <= |start|
      modifies this`events
      ensures ret == PressReport(start, len).ret
      ensures events == old(events) + PressReport(start, len).events
    {
      if len == 0 {
        return -1;
      }
      var i := 0;
      while i <= len
        invariant 0 <= i <= Iterations(len)
        invariant events == old(events) + PressGroups(start, i)
      {
        events := events + [Key(BtnTouch, 1)];
        events := events + [Abs(AbsX, SignedChar(start[i]))];
        events := events + [Abs(AbsY, SignedChar(start[i]))];
        events := events + [Sync];
        i := i + 1;
      }
      ret := 0;
    }

    method ReportTouchRelease() returns (ret: int)
      modifies this`events
      ensures ret == ReleaseReport().ret
      ensures events == old(events) + ReleaseReport().events
    {
      events := events + [Key(BtnTouch, 0)];
      events := events + [Sync];
      ret := 0;
    }

    /** A call through a table slot. */
    method Invoke(op: Op, start: seq<bv8>, len: int) returns (ret: int)
      requires len == 0 || Iterations(len) <= |start|
      modifies this`events
      ensures ret == Call(op, start, len).ret
      ensures events == old(events) + Call(op, start, len).events
    {
      match op
      case TouchPress =>
        ret := ReportTouchPress(start, len);
      case TouchRelease =>
        ret := ReportTouchRelease();
    }

    method Ioctl(cmd: nat, tableAllocOk: bool) returns (r: Outcome)
      modifies this
      ensures Step(State(), r) == IoctlStep(old(State()), cmd, tableAllocOk)
      ensures old(Inv(State())) ==> Inv(State())
    {
      ghost var s := State();
      if Inv(s) { IoctlKeepsInv(s, cmd, tableAllocOk); }
      if cmd != CmdPress && cmd != CmdRelease {
        return Returned(0);
      }
      if fp.None? {
        if !tableAllocOk {
          // kzalloc failed and the slots are written through NULL
          return Undefined(NullDeref);
        }
        fp := Some(FpStruct(TouchPress, TouchRelease));
      }
      if cmd == CmdPress {
        match ptr
        case Null =>
          return Undefined(NullDeref);
        case Stale(_) =>
          return Undefined(UseAfterFree);
        case Live(cap, known) =>
          var n := StrLen(known);
          if n.None? {
            return Undefined(if |known| < cap then UninitRead else OutOfBounds);
          }
          var ignored := Invoke(fp.value.reportPs, known, Int32(n.value));
      } else {
        var ignored := Invoke(fp.value.reportRl, [], 0);
      }
      r := Returned(0);
    }

    /** pseudo_report_xy with the values its register reads return. */
    method PseudoReportXy(status: bv8, dataY: bv8, dataX: bv8, status2: bv8)
      modifies this`events
      ensures events == old(events) + PollEvents(status, dataY, dataX, status2)
    {
      var valueX, valueY := 0, 0;
      var touchChk: bv8 := 0;
      if status & 0x07 != 0 {
        valueY := dataY as int;
        valueX := dataX as int;
        touchChk := status2 & 0x08;
      }
      if touchChk != 0 {
        events := events + [Key(BtnTouch, 1)];
        events := events + [Abs(AbsX, valueX)];
        events := events + [Abs(AbsY, valueY)];
      } else {
        events := events + [Key(BtnTouch, 0)];
      }
      events := events + [Sync];
    }
  }
}

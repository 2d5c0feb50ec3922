/** What report_touch_press, report_touch_release and pseudo_report_xy
    append to the log of report calls, as functions of their inputs. */
module TouchReports {
  import opened InputEvents

  /** What a report operation returns and the events it emits, in order. */
  datatype Reported = Reported(ret: int, events: seq<Event>)

  /** One iteration of report_touch_press's loop: touch down, the byte read
      at the current offset as both axes, then a sync. */
  function TouchAt(b: bv8): (g: seq<Event>)
  {
    [Key(BtnTouch, 1), Abs(AbsX, SignedChar(b)), Abs(AbsY, SignedChar(b)), Sync]
  }

  /** How many times `for (i = 0; i <= len; i++)` runs its body. */
  function Iterations(len: int): (k: nat)
  {
    if len < 0 then 0 else len + 1
  }

  /** The events of the first n iterations of report_touch_press's loop,
      which read start[0], ..., start[n - 1]. */
  function PressGroups(start: seq<bv8>, n: nat): (ev: seq<Event>)
    requires n <= |start|
    ensures |ev| == 4 * n
  {
    if n == 0 then [] else PressGroups(start, n - 1) + TouchAt(start[n - 1])
  }

  /** The i-th group of four events is the touch reported for start[i]. */
  lemma {:induction false} PressGroupAt(start: seq<bv8>, n: nat, i: nat)
    requires i < n <= |start|
    ensures PressGroups(start, n)[4 * i .. 4 * i + 4] == TouchAt(start[i])
  {
    if i < n - 1 {
      PressGroupAt(start, n - 1, i);
      assert PressGroups(start, n)[4 * i .. 4 * i + 4] == PressGroups(start, n - 1)[4 * i .. 4 * i + 4];
    }
  }

  lemma TouchAtCounts(b: bv8)
    ensures Count(TouchAt(b), Sync) == 1
    ensures Count(TouchAt(b), Key(BtnTouch, 1)) == 1
    ensures Count(TouchAt(b), Key(BtnTouch, 0)) == 0
  {
    var t := TouchAt(b);
    assert t == [t[0]] + ([t[1]] + ([t[2]] + ([t[3]] + [])));
    forall e ensures Count(t, e) == Count([t[0]], e) + Count([t[1]], e) + Count([t[2]], e) + Count([t[3]], e) {
      CountCons(t[3], [], e);
      CountCons(t[2], [t[3]] + [], e);
      CountCons(t[1], [t[2]] + ([t[3]] + []), e);
      CountCons(t[0], [t[1]] + ([t[2]] + ([t[3]] + [])), e);
      CountCons(t[0], [], e); CountCons(t[1], [], e); CountCons(t[2], [], e); CountCons(t[3], [], e);
    }
  }

  /** n iterations emit exactly n syncs, n touch-downs and no touch-up. */
  lemma {:induction false} PressGroupsCounts(start: seq<bv8>, n: nat)
    requires n <= |start|
    ensures Count(PressGroups(start, n), Sync) == n
    ensures Count(PressGroups(start, n), Key(BtnTouch, 1)) == n
    ensures Count(PressGroups(start, n), Key(BtnTouch, 0)) == 0
  {
    if n > 0 {
      PressGroupsCounts(start, n - 1);
      TouchAtCounts(start[n - 1]);
      CountAppend(PressGroups(start, n - 1), TouchAt(start[n - 1]), Sync);
      CountAppend(PressGroups(start, n - 1), TouchAt(start[n - 1]), Key(BtnTouch, 1));
      CountAppend(PressGroups(start, n - 1), TouchAt(start[n - 1]), Key(BtnTouch, 0));
    }
  }

  /** report_touch_press(start, len): a zero length is refused with -1 and
      no events; otherwise the loop runs for offsets 0 to len inclusive
      (len + 1 reads, no iteration for a negative len) and returns 0. */
  function PressReport(start: seq<bv8>, len: int): (r: Reported)
    requires len == 0 || Iterations(len) <= |start|
    ensures r.ret == -1 <==> len == 0
    ensures r.ret == 0 <==> len != 0
    ensures len == 0 ==> r.events == []
    ensures len > 0 ==> |r.events| == 4 * (len + 1)
    ensures len > 0 ==> Count(r.events, Sync) == len + 1 && Count(r.events, Key(BtnTouch, 1)) == len + 1
    ensures len < 0 ==> r.events == []
    ensures forall i | 0 <= i < Iterations(len) && len != 0 ::
              r.events[4 * i .. 4 * i + 4] == TouchAt(start[i])
  {
    if len == 0 then Reported(-1, [])
    else
      var n := Iterations(len);
      PressGroupsCounts(start, n);
      assert forall i | 0 <= i < n :: PressGroups(start, n)[4 * i .. 4 * i + 4] == TouchAt(start[i]) by {
        forall i | 0 <= i < n ensures PressGroups(start, n)[4 * i .. 4 * i + 4] == TouchAt(start[i]) {
          PressGroupAt(start, n, i);
        }
      }
      Reported(0, PressGroups(start, n))
  }

  /** report_touch_release: touch up, then a sync. */
  const ReleaseEvents: seq<Event> := [Key(BtnTouch, 0), Sync]

  function ReleaseReport(): (r: Reported)
    ensures r.ret == 0
    ensures |r.events| == 2
    ensures Count(r.events, Sync) == 1 && Count(r.events, Key(BtnTouch, 0)) == 1
    ensures Count(r.events, Key(BtnTouch, 1)) == 0
    ensures r.events[|r.events| - 1] == Sync
  {
    CountCons(Key(BtnTouch, 0), [Sync], Sync);
    CountCons(Key(BtnTouch, 0), [Sync], Key(BtnTouch, 0));
    CountCons(Key(BtnTouch, 0), [Sync], Key(BtnTouch, 1));
    CountCons(Sync, [], Sync);
    CountCons(Sync, [], Key(BtnTouch, 0));
    CountCons(Sync, [], Key(BtnTouch, 1));
    assert ReleaseEvents == [Key(BtnTouch, 0)] + [Sync];
    assert [Sync] == [Sync] + [];
    Reported(0, ReleaseEvents)
  }

  /** pseudo_report_xy's decision: a touch is reported when the first status
      read has a bit of 0x07 set and the second one has bit 0x08 set. */
  predicate PollTouch(status: bv8, status2: bv8)
  {
    status & 0x07 != 0 && status2 & 0x08 != 0
  }

  /** The events of pseudo_report_xy given the registers it reads, in the
      order it reads them: the status, the Y data port, the X data port and
      the status again (the last three only when the first has a bit of
      0x07 set). */
  function PollEvents(status: bv8, dataY: bv8, dataX: bv8, status2: bv8): (ev: seq<Event>)
    ensures |ev| >= 2 && ev[|ev| - 1] == Sync && Count(ev, Sync) == 1
    ensures ev[0] == Key(BtnTouch, 1) <==> status & 0x07 != 0 && status2 & 0x08 != 0
    ensures ev[0] == Key(BtnTouch, 0) <==> !(status & 0x07 != 0 && status2 & 0x08 != 0)
    ensures status & 0x07 != 0 && status2 & 0x08 != 0 ==>
              |ev| == 4 && ev[1] == Abs(AbsX, dataX as int) && ev[2] == Abs(AbsY, dataY as int)
    ensures !(status & 0x07 != 0 && status2 & 0x08 != 0) ==> |ev| == 2
    ensures forall e | e in ev && e.Report? && e.kind == EvAbs :: 0 <= e.value <= 255
  {
    var ev := if PollTouch(status, status2)
      then [Key(BtnTouch, 1), Abs(AbsX, dataX as int), Abs(AbsY, dataY as int), Sync]
      else [Key(BtnTouch, 0), Sync];
    var front := ev[..|ev| - 1];
    assert ev == front + [Sync];
    assert forall i | 0 <= i < |front| :: front[i] != Sync;
    CountNone(front, Sync);
    CountAppend(front, [Sync], Sync);
    CountCons(Sync, [], Sync);
    assert [Sync] == [Sync] + [];
    ev
  }

  /** With no pen bit in the first status read, the poll does not depend on
      the registers it would have read afterwards. */
  lemma PollIdleIgnoresLaterReads(status: bv8, y: bv8, x: bv8, s2: bv8, y': bv8, x': bv8, s2': bv8)
    requires status & 0x07 == 0
    ensures PollEvents(status, y, x, s2) == PollEvents(status, y', x', s2') == [Key(BtnTouch, 0), Sync]
  {
  }

  /** The poll always stays within the 0..255 axis range the device declares,
      whereas a press reports a byte of 0x80 or more as a negative value. */
  lemma PressLeavesAxisRange(b: bv8)
    requires b >= 0x80
    ensures TouchAt(b)[1] == Abs(AbsX, b as int - 256) && TouchAt(b)[1].value < 0
  {
  }
}

# input_test_driver in Dafny

A model of the Linux misc-device driver `input_test_driver`
(`module/input_test_driver.c`): its buffer lifecycle and command dispatch,
and the events it feeds into its virtual touchscreen.

The driver keeps two globals. `ptr` is the buffer the last `write` left behind.
`_fp` is a lazily created table of function pointers. The model keeps both as
one session value, together with a log of the driver's report calls:

- `ptr` is `Null`, `Live(capacity, known)` or `Stale(capacity)`.
  - `known` is the prefix of the buffer whose contents are defined. The rest of
    a `kmalloc` buffer is uninitialised.
  - `Stale` is a pointer that still refers to a freed buffer.
- `_fp` is absent or an `FpStruct`. Its two slots hold a closed enumeration
  (`TouchPress`, `TouchRelease`) in place of the function pointers.
- The event log is a sequence of `Report(kind, code, value)` and `Sync`
  records. It holds one record per call of `input_report_key`,
  `input_report_abs` and `input_sync`, in call order. It is a log of report
  calls, not of what the input core passes on to readers.

Each entry point runs atomically, as if the mutex fully serialised the calls.
An entry point either returns a code or reaches undefined behaviour. Undefined
behaviour is `Undefined(hazard)`: a null dereference, a use after free, a double
free, or a read of uninitialised or out-of-bounds memory. The model stops at
that point, and whatever the call did before it stays done.

External results are parameters of the model:

- whether `kmalloc` succeeds;
- whether `kzalloc` succeeds for the table;
- how many bytes `copy_from_user` manages to copy;
- the register values the poll routine reads.

Modules:

- `InputEvents` (events.dfy): the event records and the signed `char` read.
- `TouchReports` (touch_reports.dfy): what `report_touch_press`,
  `report_touch_release` and `pseudo_report_xy` emit, as functions, with their
  counting lemmas.
- `DriverSession` (session.dfy): the size policy, `strlen`, the `size_t` to
  `int` conversion, and the transition functions `WriteStep`, `ReleaseStep` and
  `IoctlStep`. It also holds the session invariant `Inv` and the lifecycle
  lemmas.
- `TestDriver` (driver.dfy): the class `InputTestDriver`. It has the globals as
  fields and the entry points as methods that update them in place.
  `ReportTouchPress` is a loop, as in the driver. Each method is proved to
  match its transition function and to keep `Inv`.

Behaviour the model states, as the code has it:

- `write` frees the old buffer before allocating the new one. If that
  allocation fails, `ptr` stays stale and the copy writes into freed memory. A
  later `write` or `release` frees the stale pointer a second time.
- The press operation loops `for (i = 0; i <= len; i++)`, so it makes `len + 1`
  reads. When it is reached through ioctl, `len` is `strlen(ptr)`, so the extra
  read is the terminating zero. The last touch is then reported at (0, 0).
- Bytes are read through a plain `char *`. The model takes `char` as signed,
  as on x86 kernels of the driver's era. A byte of 0x80 or more is then
  reported as a negative axis value, outside the 0..255 range the device
  declares. The poll routine stays within that range.
- The touch-down key event is reported in every iteration of the press loop,
  not once before the loop.
- After a failed copy, the new buffer stays referenced. Its first copy-length
  bytes are the prefix that was copied, followed by the zeros `copy_from_user`
  fills in for the rest. A later press therefore finds a terminator within
  the defined bytes.

## Model

| member | source | states |
|---|---|---|
| `InputEvents.SignedChar` | module/input_test_driver.c:129-130 | the value read through `char *` lies in -128..127, is congruent to the byte modulo 256, and is negative exactly for bytes of 0x80 or more |
| `TouchReports.PressGroups` | module/input_test_driver.c:127-132 | n loop iterations emit exactly 4·n events |
| `TouchReports.PressGroupAt` | module/input_test_driver.c:127-132 | the i-th group of four events is touch-down, X = `start[i]`, Y = `start[i]`, sync |
| `TouchReports.PressGroupsCounts` | module/input_test_driver.c:127-132 | n iterations emit exactly n syncs, n touch-down events and no touch-up |
| `TouchReports.PressReport` | module/input_test_driver.c:119-135 | len 0 returns -1 and emits nothing; a negative len emits nothing and returns 0; otherwise it returns 0 and emits len+1 groups (4·(len+1) events, len+1 syncs), group i reporting `start[i]` |
| `TouchReports.ReleaseReport` | module/input_test_driver.c:137-142 | returns 0; emits one touch-up and one sync, ending with the sync, and no touch-down |
| `TouchReports.PollEvents` | module/input_test_driver.c:211-234 | touch-down is reported iff status & 0x07 ≠ 0 and the second status & 0x08 ≠ 0, then X = data port 0x1337 and Y = data port 0x7331; otherwise touch-up only; exactly one sync, last; every axis value in 0..255 |
| `TouchReports.PollIdleIgnoresLaterReads` | module/input_test_driver.c:211-224 | with no bit of 0x07 in the first status, the poll emits touch-up and sync whatever the later reads return |
| `TouchReports.PressLeavesAxisRange` | module/input_test_driver.c:129-130 | a buffer byte of 0x80 or more is reported as a negative X value |
| `DriverSession.SizePolicy` | module/input_test_driver.c:97-104 | count < 256: capacity 256, copy count; count > 0x40000: capacity count, copy 416; else both count; in every case copy ≤ capacity, copy ≤ count, copy ≤ 0x40000, capacity ≥ 256 |
| `DriverSession.StrLen` | module/input_test_driver.c:167 | the result is the offset of the first zero byte (in range, zero, all earlier bytes non-zero), and None iff no byte is zero |
| `DriverSession.Int32` | module/input_test_driver.c:167 | the `size_t` to `int` conversion lands in the 32-bit range, agrees modulo 2^32, is exact below 2^31 and never exceeds its input |
| `DriverSession.WriteStep` | module/input_test_driver.c:87-117 | write never changes the table or the events; a stale `ptr` is a double free; with allocation succeeding, `ptr` is a buffer of the policy's capacity holding the `Copied` bytes and the result is -EFAULT exactly when the copy faults, otherwise 0; with allocation failing, `ptr` is the freed buffer or stays NULL, and a non-empty copy is a use after free or a null dereference |
| `DriverSession.ReleaseStep` | module/input_test_driver.c:67-85 | release never changes the events; it returns 0 exactly when `ptr` is not stale, and then both globals are cleared; on a stale `ptr` it is a double free and nothing changes |
| `DriverSession.IoctlStep` | module/input_test_driver.c:145-200 | ioctl never changes `ptr` and only appends to the events; every returned code is 0; other commands change nothing; for both commands a missing table is installed, or written through NULL when `kzalloc` fails, and an existing one is kept; 0x7331 then returns 0; 0x1337 without a live buffer is a null dereference or a use after free |
| `DriverSession.InitialInv` | module/input_test_driver.c:54-55 | the state after module load (no buffer, no table) satisfies the session invariant |
| `DriverSession.Copied` | module/input_test_driver.c:109 | the first copy-length bytes after `copy_from_user`: the data's prefix when the copy completes; after a fault at offset k, the data's first k bytes and zeros for the rest |
| `DriverSession.WriteReplacesBuffer` | module/input_test_driver.c:93-116 | with allocation succeeding, `ptr` becomes a new buffer of the policy's capacity with copy-length defined bytes: the first copy-length bytes of the data and result 0 when the copy completes; after a fault at offset k, result -EFAULT, the buffer stays referenced, and it holds the data's first k bytes then a zero; the table and events are unchanged |
| `DriverSession.FaultedWriteThenPress` | module/input_test_driver.c:106-112 | after a faulted write into a fresh buffer, strlen finds a zero no later than the fault offset, so a following press returns 0 without reaching undefined behaviour, whether or not the table already exists |
| `DriverSession.AllocFailureLeavesStale` | module/input_test_driver.c:93-109 | if a buffer existed and allocation fails, `ptr` is stale (the freed buffer), the table and events are unchanged, and a non-empty copy is a use after free |
| `DriverSession.AllocFailureWithoutBuffer` | module/input_test_driver.c:93-109 | if no buffer existed and allocation fails, the session is unchanged (`ptr` stays NULL), and a non-empty copy is a null dereference |
| `DriverSession.WriteAfterStaleDoubleFrees` | module/input_test_driver.c:93-95 | a write while `ptr` is stale frees it again (double free) |
| `DriverSession.WriteKeepsInv` | module/input_test_driver.c:97-109 | write keeps the invariant: defined bytes ≤ capacity and ≤ 0x40000, table well-formed |
| `DriverSession.ReleaseClears` | module/input_test_driver.c:70-84 | release from a non-stale state clears `ptr` and `_fp`, keeps the events and returns 0; a second release changes nothing and returns 0 |
| `DriverSession.ReleaseKeepsInv` | module/input_test_driver.c:70-84 | release keeps the invariant |
| `DriverSession.IoctlOtherCommands` | module/input_test_driver.c:147-199 | a command other than 0x1337 and 0x7331 changes nothing; every ioctl that returns, returns 0 |
| `DriverSession.IoctlTableOnce` | module/input_test_driver.c:159-165 | for both commands, the table is allocated only when absent and an existing one is kept; a failed allocation is a null dereference; `ptr` and earlier events are untouched |
| `DriverSession.IoctlKeepsInv` | module/input_test_driver.c:157-191 | ioctl keeps the invariant |
| `DriverSession.IoctlReleaseReports` | module/input_test_driver.c:179-191 | command 0x7331 appends exactly touch-up and sync, whatever the buffer, and returns 0 |
| `DriverSession.IoctlPressWithoutBuffer` | module/input_test_driver.c:167 | command 0x1337 with no buffer is a null dereference; with a stale one, a use after free |
| `DriverSession.IoctlPressReports` | module/input_test_driver.c:157-169 | on a live buffer with its first zero at n: n < 0x40000; n = 0 reports nothing; otherwise n+1 groups (n+1 syncs), group i reporting byte i, the last at (0, 0); with no zero among the defined bytes, strlen reads uninitialised or out-of-bounds memory |
| `DriverSession.PressBeforeWrite` | module/input_test_driver.c:157-167 | command 0x1337 right after load allocates the table, then dereferences NULL |
| `DriverSession.StaleScenario` | module/input_test_driver.c:93-109 | write, then a write with allocation failure: the copy and a later press are uses after free, and a release is a double free |
| `TestDriver.InputTestDriver.constructor` | module/input_test_driver.c:54-55 | the globals start as null and no events are reported |
| `TestDriver.InputTestDriver.Write` | module/input_test_driver.c:87-117 | the in-place free-then-reassign sequence yields exactly `WriteStep`'s state and result, and keeps the invariant |
| `TestDriver.InputTestDriver.Release` | module/input_test_driver.c:67-85 | the in-place update yields exactly `ReleaseStep`'s state and result, and keeps the invariant |
| `TestDriver.InputTestDriver.ReportTouchPress` | module/input_test_driver.c:119-135 | the loop appends exactly `PressReport`'s events and returns its code |
| `TestDriver.InputTestDriver.ReportTouchRelease` | module/input_test_driver.c:137-142 | appends touch-up then sync and returns 0 |
| `TestDriver.InputTestDriver.Invoke` | module/input_test_driver.c:161-167 | calling through the press slot runs the `report_touch_press` loop on the given bytes and length; through the release slot, `report_touch_release`; the events and return code are exactly that operation's |
| `TestDriver.InputTestDriver.Ioctl` | module/input_test_driver.c:145-200 | lazy table creation and dispatch in place yield exactly `IoctlStep`'s state and result, and keep the invariant |
| `TestDriver.InputTestDriver.PseudoReportXy` | module/input_test_driver.c:205-235 | appends exactly `PollEvents` for the register values read |

## Left out

- `input_test_driver_open` only re-initialises the mutex and logs. The mutex and all concurrency are not modelled: the races between writers, the lock re-initialised on every open, and the interrupt handler running alongside. Each entry point is atomic here.
- Module init and exit are not modelled. This covers `misc_register`, `request_irq`, `input_allocate_device`, `input_set_abs_params`, `input_register_device`, their unwind paths and `test_interrupt`. They are registration calls into the kernel. The 0..255 axis range they declare is only used as a reference in `PollEvents` and `PressLeavesAxisRange`.
- `printk` and the `gift` slot of `fp_struct` are not modelled, because logging has no effect on the state.
- The memory layout of `fp_struct` is not modelled. This covers `dummy[392]` plus three pointers, which makes the struct 416 bytes, the same size as the large-write copy. Buffers and the table are abstract values, so the model does not capture heap reuse: a freed buffer later reused as the table, or writes through a stale pointer landing in a live object.
- The poll routine's register accesses are parameters. Its read-back strobe writes to address 0x7331 are not modelled, because they have no effect on the reported events.
- The `arg` argument of ioctl is not modelled, because neither command uses it.
- `WriteStep`: the number of bytes `copy_from_user` copies before a fault is a parameter. Which user addresses fault is not modelled.
- The event log records report calls. The input core's filtering is not modelled: it drops a key event that does not change the key's state and an axis event equal to the axis's current value. So the `len + 1` touch-downs and syncs that `PressReport`, `PressGroupsCounts` and `IoctlPressReports` count are counts of calls, not of events a reader receives.
- `InputEvents.SignedChar` assumes a signed `char`. A kernel built with `-funsigned-char`, as Linux 6.2 and later are on every architecture, reads every byte as 0..255, and `PressLeavesAxisRange` does not apply to it.
- `DriverSession.StrLen`: the bytes past the defined prefix are not modelled. A `strlen` that reaches them is reported as an uninitialised or out-of-bounds read, although real memory there might happen to contain a zero.
- `TouchReports.PressReport`: `len` is an unbounded integer. Overflow of `i++` at `INT_MAX` is not modelled. Through ioctl, `len` is below 0x40000 in the model (`IoctlPressReports`), because a `strlen` that runs past the defined bytes is undefined behaviour there. In the driver, `strlen` past the 416 defined bytes of a large-write buffer can return more.
- After undefined behaviour the model stops. It does not model what a kernel oops leaves behind, such as the mutex left held.

/**
 * The firmware's main loop: power reference counting, the message queue
 * fed by the USB callbacks, the GPIO interrupt and the alarms, and the
 * loop state it keeps (usb_state, the button mask, the current page and
 * its index, the refresh flag).  Alarms and queue pushes are events that
 * put messages on the queue; what the display shows, and what the
 * littlefs mount, parse_file and do_flash_update do to storage, are left
 * to the other modules: a handler sees only whether the mount succeeded
 * and which pages would parse.
 */
module BadgeMain {
  import opened Common
  import opened Filesystems

  /** Button pins of the badge. */
  const PinDown: bv32 := 11
  const PinA: bv32 := 12
  const DownMask: bv32 := 1 << 11
  const AMask: bv32 := 1 << 12

  /** The message queue holds at most 8 messages. */
  const QueueLength := 8

  const MainPage: string := "main.txt"

  datatype UsbState = UsbNone | Waiting | Mounted | Unmounted

  datatype Msg =
    | Core1Launched
    | UsbConnecting
    | UsbTimeout
    | UsbConnected
    | UsbDisconnected
    | MscUnmounted
    | CdcConnected
    | PowerOff
    | BtnsChanged

  /**
   * What the rest of the badge answers while one message is handled: the
   * button states read back, whether lfs_ctx_mount succeeds, and the page
   * files parse_file can parse.
   */
  datatype Env = Env(buttons: bv32, mountOk: bool, pages: set<string>)

  /**
   * The loop's state: the locals of main, the power counter with its alarm
   * and the 3V3 rail, the USB connect-timeout alarm, and the queue.
   */
  datatype Loop = Loop(
    usb: UsbState,
    multicore: bool,
    buttons: bv32,
    refresh: bool,
    idx: int,
    page: string,
    ref: int,
    alarm: bool,
    rail: bool,
    usbTimer: bool,
    queue: seq<Msg>)

  // ---------------------------------------------------------------------
  // Power reference counting
  // ---------------------------------------------------------------------

  /** power_ref_get: one more reference, the rail on, the power-down alarm cancelled. */
  function PowerGet(s: Loop): Loop
  {
    s.(ref := s.ref + 1, rail := true, alarm := false)
  }

  /** power_ref_put: one reference fewer; reaching 0 arms the power-down alarm. */
  function PowerPut(s: Loop): Loop
  {
    s.(ref := s.ref - 1, alarm := s.alarm || s.ref - 1 == 0)
  }

  /**
   * A get and a put around some work leave the count as it was, with the
   * rail on, and arm the power-down alarm exactly when no other reference
   * is held.
   */
  lemma GetPutBalanced(s: Loop)
    ensures var r := PowerPut(PowerGet(s));
      r.ref == s.ref && r.rail && (r.alarm <==> s.ref == 0)
      && r.usb == s.usb && r.queue == s.queue && r.page == s.page && r.idx == s.idx
  {
  }

  // ---------------------------------------------------------------------
  // Buttons
  // ---------------------------------------------------------------------

  /** The buttons down in `new_` and not in `old_`. */
  function Pressed(old_: bv32, new_: bv32): (p: bv32)
    ensures p & old_ == 0 && p & new_ == p
  {
    new_ & !old_
  }

  /** The buttons down in `old_` and no longer in `new_`. */
  function Released(old_: bv32, new_: bv32): (q: bv32)
    ensures q & new_ == 0 && q & old_ == q
  {
    old_ & !new_
  }

  /** Pressed and released are disjoint and together are exactly the buttons that changed. */
  lemma EdgesPartition(old_: bv32, new_: bv32)
    ensures Pressed(old_, new_) & Released(old_, new_) == 0
    ensures Pressed(old_, new_) | Released(old_, new_) == old_ ^ new_
  {
  }

  // ---------------------------------------------------------------------
  // Handlers
  // ---------------------------------------------------------------------

  /** The name sprintf gives page `idx`. */
  function PageName(idx: int): string
  {
    "page" + IntToString(idx) + ".txt"
  }

  /**
   * Showing the current page: when the flash mounts and the page does not
   * parse, main.txt at index 0 takes its place.
   */
  function ShowPage(s: Loop, env: Env): (r: Loop)
    ensures r.ref == s.ref && r.usb == s.usb && r.queue == s.queue && r.rail == s.rail
    ensures env.mountOk && s.page !in env.pages ==> r.page == MainPage && r.idx == 0
    ensures !(env.mountOk && s.page !in env.pages) ==> r == s
  {
    if env.mountOk && s.page !in env.pages then s.(page := MainPage, idx := 0) else s
  }

  /**
   * MSG_TYPE_BTNS_CHANGED, bracketed by a power reference: the new button
   * mask replaces the old one; releasing DOWN turns to the next page;
   * releasing A while the USB disk is mounted disconnects USB, syncs back
   * to the flash and drops the connection's power reference.
   */
  function ButtonsChanged(s: Loop, env: Env): (r: Loop)
    ensures r.queue == s.queue
  {
    var released := Released(s.buttons, env.buttons);
    var s2 := PowerGet(s).(buttons := env.buttons);
    var s3 := if released & DownMask != 0 then NextPage(s2, env) else s2;
    var s4 := if released & AMask != 0 && s3.usb == Mounted then EjectUsb(s3) else s3;
    PowerPut(s4)
  }

  /** Releasing DOWN: the index moves on and page<idx>.txt is shown, or main.txt. */
  function NextPage(s: Loop, env: Env): Loop
  {
    ShowPage(s.(idx := s.idx + 1, page := PageName(s.idx + 1)), env)
  }

  /** Releasing A while mounted: USB is disconnected, the flash updated, and the connection's reference dropped. */
  function EjectUsb(s: Loop): Loop
  {
    PowerPut(s.(usb := Unmounted))
  }

  /**
   * One message handled.  With `guarded` false this is the loop as
   * written: every USB connect takes a power reference and every USB
   * disconnect drops one.  With `guarded` true a connect takes one only
   * when the disk was not already mounted, and a disconnect drops one only
   * when it was: the USB stack reports a disconnect both on bus suspend
   * and on unmount, so one connection can be followed by two disconnects.
   */
  function Dispatch(s: Loop, m: Msg, env: Env, guarded: bool): (r: Loop)
    ensures r.queue == s.queue
  {
    match m
    case Core1Launched => s.(multicore := true, usbTimer := true)
    case UsbTimeout => OnUsbTimeout(s)
    case UsbConnected => OnUsbConnected(s, guarded)
    case UsbDisconnected => OnUsbDisconnected(s, guarded)
    case PowerOff => OnPowerOff(s, env)
    case BtnsChanged => ButtonsChanged(s, env)
    case _ => s
  }

  /** MSG_TYPE_USB_TIMEOUT: a USB disk still awaited is given up on; the VBUS boot reference is dropped. */
  function OnUsbTimeout(s: Loop): Loop
  {
    PowerPut(if s.usb == Waiting then s.(usb := Unmounted, refresh := true) else s)
  }

  /** MSG_TYPE_USB_CONNECTED: the disk is mounted and holds a reference. */
  function OnUsbConnected(s: Loop, guarded: bool): Loop
  {
    if guarded && s.usb == Mounted then s else PowerGet(s.(usb := Mounted))
  }

  /** MSG_TYPE_USB_DISCONNECTED: the flash is updated, the main screen redrawn, the reference dropped. */
  function OnUsbDisconnected(s: Loop, guarded: bool): Loop
  {
    var s1 := s.(usb := Unmounted, refresh := true);
    if guarded && s.usb != Mounted then s1 else PowerPut(s1)
  }

  /** MSG_TYPE_POWER_OFF: only with no reference held, the page is drawn and the rail switched off. */
  function OnPowerOff(s: Loop, env: Env): Loop
  {
    if s.ref != 0 then s else ShowPage(s, env).(rail := false)
  }

  /** The handler as the source writes it. */
  function HandleAsWritten(s: Loop, m: Msg, env: Env): (r: Loop)
    ensures r.queue == s.queue
    ensures m == UsbDisconnected ==> r.ref == s.ref - 1 && r.usb == Unmounted
  {
    Dispatch(s, m, env, false)
  }

  /** The handler with USB power references taken and dropped once per connection. */
  function Handle(s: Loop, m: Msg, env: Env): (r: Loop)
    ensures r.queue == s.queue
  {
    Dispatch(s, m, env, true)
  }

  /** MSG_TYPE_USB_TIMEOUT leaves WAITING for UNMOUNTED, changes no other USB state, and drops one reference. */
  lemma TimeoutReleasesOne(s: Loop, env: Env)
    ensures var r := Handle(s, UsbTimeout, env);
      && r.ref == s.ref - 1
      && r.usb == (if s.usb == Waiting then Unmounted else s.usb)
      && (r.refresh <==> s.refresh || s.usb == Waiting)
  {
  }

  /** MSG_TYPE_POWER_OFF does nothing while a reference is held, and otherwise switches the rail off. */
  lemma PowerOffWaitsForRef(s: Loop, env: Env)
    ensures s.ref != 0 ==> Handle(s, PowerOff, env) == s
    ensures s.ref == 0 ==> !Handle(s, PowerOff, env).rail && Handle(s, PowerOff, env).usb == s.usb
  {
  }

  /** A button change takes and gives back its own reference: the count drops only by the USB reference the A button releases. */
  lemma ButtonsBalanced(s: Loop, env: Env)
    ensures var r := Handle(s, BtnsChanged, env);
      && r.buttons == env.buttons
      && r.rail
      && r.ref == s.ref - (if Released(s.buttons, env.buttons) & AMask != 0 && s.usb == Mounted then 1 else 0)
  {
  }

  /** Releasing DOWN moves to the next page, or back to main.txt at index 0 when that page does not parse. */
  lemma DownTurnsPage(s: Loop, env: Env)
    requires Released(s.buttons, env.buttons) & DownMask != 0
    ensures var r := Handle(s, BtnsChanged, env);
      if env.mountOk && PageName(s.idx + 1) !in env.pages then r.idx == 0 && r.page == MainPage
      else r.idx == s.idx + 1 && r.page == PageName(s.idx + 1)
  {
  }

  /**
   * How the corrected handler moves the USB state: a connect enters MOUNTED,
   * taking a reference unless already mounted; a disconnect enters
   * UNMOUNTED with a redraw requested, dropping a reference only when it
   * leaves MOUNTED; releasing A while MOUNTED ejects.  The messages without
   * a handler in the loop leave its state alone.
   */
  lemma UsbTransitions(s: Loop, m: Msg, env: Env)
    ensures var r := Handle(s, m, env);
      && (m == UsbConnected ==> r.usb == Mounted && r.ref == s.ref + (if s.usb == Mounted then 0 else 1))
      && (m == UsbDisconnected ==> r.usb == Unmounted && r.refresh && r.ref == s.ref - (if s.usb == Mounted then 1 else 0))
      && (m == BtnsChanged ==>
            r.usb == (if Released(s.buttons, env.buttons) & AMask != 0 && s.usb == Mounted then Unmounted else s.usb))
      && (m == UsbConnecting || m == MscUnmounted || m == CdcConnected ==> r == s)
  {
  }

  // ---------------------------------------------------------------------
  // The loop and its environment
  // ---------------------------------------------------------------------

  /** queue_try_remove and the handler of the message removed. */
  function Deliver(s: Loop, env: Env, guarded: bool): (r: Loop)
    requires |s.queue| > 0
    ensures r.queue == s.queue[1..]
  {
    Dispatch(s.(queue := s.queue[1..]), s.queue[0], env, guarded)
  }

  /**
   * The end of each loop pass: while the USB disk is unmounted, a pending
   * refresh redraws main.txt under a power reference and clears the flag.
   */
  function Idle(s: Loop): (r: Loop)
    ensures r.queue == s.queue && r.usb == s.usb
    ensures r.refresh <==> s.refresh && s.usb != Unmounted
  {
    if s.usb == Unmounted && s.refresh then PowerPut(PowerGet(s).(refresh := false)) else s
  }

  /**
   * queue_add_blocking: a message joins the queue; while the queue is full
   * the poster waits, and the event has not happened yet.
   */
  function Post(s: Loop, m: Msg): (r: Loop)
    ensures |s.queue| < QueueLength ==> r == s.(queue := s.queue + [m])
    ensures |s.queue| >= QueueLength ==> r == s
  {
    if |s.queue| < QueueLength then s.(queue := s.queue + [m]) else s
  }

  /** The USB connect-timeout alarm firing: it posts MSG_TYPE_USB_TIMEOUT once. */
  function FireUsbTimer(s: Loop): Loop
  {
    if s.usbTimer && |s.queue| < QueueLength then s.(usbTimer := false, queue := s.queue + [UsbTimeout]) else s
  }

  /** The power-down alarm firing: it posts MSG_TYPE_POWER_OFF once. */
  function FirePowerAlarm(s: Loop): Loop
  {
    if s.alarm && |s.queue| < QueueLength then s.(alarm := false, queue := s.queue + [PowerOff]) else s
  }

  /**
   * The state main enters its loop with.  Boot holds a power reference;
   * with VBUS present a second one is held until USB has had a chance to
   * connect, and core 1 is launched, which posts MSG_TYPE_CORE1_LAUNCHED.
   * A DOWN press that woke the badge is already in the button mask.
   */
  function Boot(vbus: bool, downToWake: bool): (r: Loop)
    ensures r.ref == (if vbus then 1 else 0) && r.refresh && r.page == MainPage && r.idx == 0
    ensures r.usb == (if vbus then Waiting else Unmounted)
  {
    var s0 := Loop(UsbNone, false, if downToWake then DownMask else 0, false, 0, MainPage, 0, false, false, false, []);
    var s1 := PowerGet(s0);
    var s2 := if vbus then PowerGet(s1).(usb := Waiting, queue := [Core1Launched]) else s1.(usb := Unmounted);
    PowerPut(s2).(refresh := true)
  }

  /** One step of the world: the loop handles a message or finishes a pass, or an interrupt or alarm posts one. */
  datatype Event = Take(env: Env) | EndPass | Send(msg: Msg) | UsbTimerFires | PowerAlarmFires

  function Step(s: Loop, e: Event, guarded: bool): Loop
  {
    match e
    case Take(env) => if |s.queue| > 0 then Deliver(s, env, guarded) else s
    case EndPass => Idle(s)
    case Send(m) => Post(s, m)
    case UsbTimerFires => FireUsbTimer(s)
    case PowerAlarmFires => FirePowerAlarm(s)
  }

  /** The state after the first `n` events of `es`. */
  function Run(s: Loop, es: seq<Event>, n: nat, guarded: bool): Loop
    requires n <= |es|
  {
    if n == 0 then s else Step(Run(s, es, n - 1, guarded), es[n - 1], guarded)
  }

  /**
   * Messages posted from outside the loop: everything except the ones
   * core 1's launch and the USB connect-timeout alarm post.
   */
  predicate External(es: seq<Event>)
  {
    forall i :: 0 <= i < |es| && es[i].Send? ==> es[i].msg != Core1Launched && es[i].msg != UsbTimeout
  }

  // ---------------------------------------------------------------------
  // The power count stays balanced
  // ---------------------------------------------------------------------

  function Count(q: seq<Msg>, m: Msg): nat
    decreases |q|
  {
    if q == [] then 0 else (if q[0] == m then 1 else 0) + Count(q[1..], m)
  }

  lemma {:induction false} CountAppend(q: seq<Msg>, m: Msg, x: Msg)
    ensures Count(q + [x], m) == Count(q, m) + (if x == m then 1 else 0)
    decreases |q|
  {
    if q == [] {
      assert [] + [x] == [x];
    } else {
      assert (q + [x])[1..] == q[1..] + [x];
      CountAppend(q[1..], m, x);
    }
  }

  /** The VBUS boot reference not yet released: core 1 still to report, the timeout alarm armed, or its message queued. */
  function Owed(s: Loop): nat
  {
    Count(s.queue, Core1Launched) + Count(s.queue, UsbTimeout) + (if s.usbTimer then 1 else 0)
  }

  /** Every reference held is accounted for: the connected USB disk's, and the VBUS boot reference. */
  predicate Balanced(s: Loop)
  {
    Owed(s) <= 1 && s.ref == (if s.usb == Mounted then 1 else 0) + Owed(s)
  }

  lemma BootBalanced(vbus: bool, downToWake: bool)
    ensures Balanced(Boot(vbus, downToWake))
  {
    var s := Boot(vbus, downToWake);
    if vbus {
      assert s.queue == [Core1Launched];
      assert Count(s.queue[1..], Core1Launched) == 0 && Count(s.queue[1..], UsbTimeout) == 0;
    }
  }

  /** The part of the VBUS boot reference a message carries. */
  function Due(m: Msg): nat
  {
    if m == Core1Launched || m == UsbTimeout then 1 else 0
  }

  /** Handling a message that was taken off a balanced queue leaves the state balanced. */
  lemma HandleBalanced(t: Loop, m: Msg, env: Env)
    requires Owed(t) + Due(m) <= 1
    requires t.ref == (if t.usb == Mounted then 1 else 0) + Owed(t) + Due(m)
    ensures Balanced(Handle(t, m, env))
  {
    match m
    case BtnsChanged =>
      var r := ButtonsChanged(t, env);
      assert Owed(r) == Owed(t);
    case _ =>
  }

  lemma TakeBalanced(s: Loop, env: Env)
    requires Balanced(s) && |s.queue| > 0
    ensures Balanced(Deliver(s, env, true))
  {
    var m := s.queue[0];
    var t := s.(queue := s.queue[1..]);
    assert Count(s.queue, Core1Launched) == (if m == Core1Launched then 1 else 0) + Count(t.queue, Core1Launched);
    assert Count(s.queue, UsbTimeout) == (if m == UsbTimeout then 1 else 0) + Count(t.queue, UsbTimeout);
    HandleBalanced(t, m, env);
  }

  lemma PostBalanced(s: Loop, m: Msg)
    requires Balanced(s) && m != Core1Launched && m != UsbTimeout
    ensures Balanced(Post(s, m))
  {
    CountAppend(s.queue, Core1Launched, m);
    CountAppend(s.queue, UsbTimeout, m);
  }

  lemma UsbTimerBalanced(s: Loop)
    requires Balanced(s)
    ensures Balanced(FireUsbTimer(s))
  {
    CountAppend(s.queue, Core1Launched, UsbTimeout);
    CountAppend(s.queue, UsbTimeout, UsbTimeout);
  }

  lemma PowerAlarmBalanced(s: Loop)
    requires Balanced(s)
    ensures Balanced(FirePowerAlarm(s))
  {
    CountAppend(s.queue, Core1Launched, PowerOff);
    CountAppend(s.queue, UsbTimeout, PowerOff);
  }

  lemma StepBalanced(s: Loop, e: Event)
    requires Balanced(s)
    requires e.Send? ==> e.msg != Core1Launched && e.msg != UsbTimeout
    ensures Balanced(Step(s, e, true))
  {
    match e
    case Take(env) =>
      if |s.queue| > 0 {
        TakeBalanced(s, env);
      }
    case EndPass =>
    case Send(m) => PostBalanced(s, m);
    case UsbTimerFires => UsbTimerBalanced(s);
    case PowerAlarmFires => PowerAlarmBalanced(s);
  }

  lemma {:induction false} RunBalanced(s: Loop, es: seq<Event>, n: nat)
    requires Balanced(s) && External(es) && n <= |es|
    ensures Balanced(Run(s, es, n, true))
  {
    if n > 0 {
      RunBalanced(s, es, n - 1);
      StepBalanced(Run(s, es, n - 1, true), es[n - 1]);
    }
  }

  /**
   * From boot, whatever messages the USB stack, the buttons and the alarms
   * deliver, the power count never goes negative, and while the USB disk
   * is mounted a reference is held, so MSG_TYPE_POWER_OFF cannot switch
   * the rail off under the host.
   */
  lemma PowerRefNeverNegative(vbus: bool, downToWake: bool, es: seq<Event>)
    requires External(es)
    ensures var s := Run(Boot(vbus, downToWake), es, |es|, true);
      s.ref >= 0 && (s.usb == Mounted ==> s.ref >= 1)
  {
    BootBalanced(vbus, downToWake);
    RunBalanced(Boot(vbus, downToWake), es, |es|);
  }

  /** A power-off delivered while the USB disk is mounted leaves the rail as it was. */
  lemma MountedKeepsRail(s: Loop, env: Env)
    requires Balanced(s) && |s.queue| > 0 && s.queue[0] == PowerOff && s.usb == Mounted
    ensures Deliver(s, env, true).rail == s.rail
  {
  }

  /**
   * A connection whose host suspends the bus and then unmounts: core 1
   * reports, the host connects, the connect timeout fires, and two
   * disconnects follow.
   */
  function SuspendTrace(env: Env): seq<Event>
  {
    [Take(env), Send(UsbConnected), Take(env), UsbTimerFires, Take(env),
     Send(UsbDisconnected), Take(env), Send(UsbDisconnected), Take(env)]
  }

  /**
   * As written, the second disconnect drops a reference that was never
   * taken and the count goes below zero; with the guard it comes back to 0.
   */
  lemma SuspendThenUnmountGoesNegative(env: Env)
    ensures External(SuspendTrace(env))
    ensures Run(Boot(true, false), SuspendTrace(env), 9, false).ref == -1
    ensures Run(Boot(true, false), SuspendTrace(env), 9, true).ref == 0
  {
    RunSuspendTrace(env, false);
    RunSuspendTrace(env, true);
  }

  /** Core 1 reports and the host connects: the USB disk is mounted, with two references held. */
  lemma TraceConnects(env: Env, guarded: bool)
    ensures var r := Run(Boot(true, false), SuspendTrace(env), 3, guarded);
      r.ref == 2 && r.usb == Mounted && r.queue == [] && r.usbTimer
  {
    var es, s0 := SuspendTrace(env), Boot(true, false);
    assert s0.queue == [Core1Launched] && s0.ref == 1 && s0.usb == Waiting;
    var s1 := Run(s0, es, 1, guarded);
    assert es[0] == Take(env) && Run(s0, es, 0, guarded) == s0;
    assert s1 == Step(s0, Take(env), guarded);
    assert s1.ref == 1 && s1.usbTimer && s1.queue == [] && s1.usb == Waiting;
    var s2 := Run(s0, es, 2, guarded);
    assert s2 == Step(s1, Send(UsbConnected), guarded);
  }

  /** The connect timeout fires and drops the VBUS boot reference. */
  lemma TraceTimesOut(env: Env, guarded: bool)
    ensures var r := Run(Boot(true, false), SuspendTrace(env), 5, guarded);
      r.ref == 1 && r.usb == Mounted && r.queue == []
  {
    TraceConnects(env, guarded);
    var es, s0 := SuspendTrace(env), Boot(true, false);
    var s3 := Run(s0, es, 3, guarded);
    var s4 := Run(s0, es, 4, guarded);
    assert s4 == Step(s3, UsbTimerFires, guarded);
    assert s4.queue == [UsbTimeout] && s4.ref == 2 && s4.usb == Mounted;
  }

  /** The bus is suspended: the first disconnect drops the connection's reference. */
  lemma TraceSuspends(env: Env, guarded: bool)
    ensures var r := Run(Boot(true, false), SuspendTrace(env), 7, guarded);
      r.ref == 0 && r.usb == Unmounted && r.queue == []
  {
    TraceTimesOut(env, guarded);
    var es, s0 := SuspendTrace(env), Boot(true, false);
    var s5 := Run(s0, es, 5, guarded);
    var s6 := Run(s0, es, 6, guarded);
    assert s6 == Step(s5, Send(UsbDisconnected), guarded);
    assert s6.queue == [UsbDisconnected] && s6.usb == Mounted;
  }

  /** The host unmounts: the second disconnect drops a reference as written, and none with the guard. */
  lemma RunSuspendTrace(env: Env, guarded: bool)
    ensures Run(Boot(true, false), SuspendTrace(env), 9, guarded).ref == if guarded then 0 else -1
  {
    TraceSuspends(env, guarded);
    var es, s0 := SuspendTrace(env), Boot(true, false);
    var s7 := Run(s0, es, 7, guarded);
    var s8 := Run(s0, es, 8, guarded);
    assert s8 == Step(s7, Send(UsbDisconnected), guarded);
    assert s8.queue == [UsbDisconnected] && s8.usb == Unmounted && s8.ref == 0;
  }

  // ---------------------------------------------------------------------
  // The loop as it runs
  // ---------------------------------------------------------------------

  /** The handler input for the `k`-th message of a pass; a quiet world once `envs` runs out. */
  function EnvAt(envs: seq<Env>, k: nat): Env
  {
    if k < |envs| then envs[k] else Env(0, false, {})
  }

  /** The inner `while (queue_try_remove(...))` of a loop pass: every queued message handled in order. */
  function Drain(s: Loop, envs: seq<Env>, k: nat): (r: Loop)
    ensures r.queue == []
    decreases |s.queue|
  {
    if |s.queue| == 0 then s else Drain(Deliver(s, EnvAt(envs, k), true), envs, k + 1)
  }

  lemma {:induction false} DrainBalanced(s: Loop, envs: seq<Env>, k: nat)
    requires Balanced(s)
    ensures Balanced(Drain(s, envs, k))
    decreases |s.queue|
  {
    if |s.queue| != 0 {
      TakeBalanced(s, EnvAt(envs, k));
      DrainBalanced(Deliver(s, EnvAt(envs, k), true), envs, k + 1);
    }
  }

  /** The state main keeps, updated in place by the handlers. */
  class Badge {
    var usbState: UsbState
    var multicore: bool
    var buttons: bv32
    var refresh: bool
    var currentIdx: int
    var currentPage: string
    var powerRef: int
    var powerAlarm: bool
    var rail: bool
    var usbTimer: bool
    var queue: seq<Msg>

    function State(): Loop
      reads this
    {
      Loop(usbState, multicore, buttons, refresh, currentIdx, currentPage, powerRef, powerAlarm, rail, usbTimer, queue)
    }

    /** Boot, up to the loop. */
    constructor (vbus: bool, downToWake: bool)
      ensures State() == Boot(vbus, downToWake)
    {
      var wake: bv32 := 0;
      if downToWake {
        wake := wake | DownMask;
      }
      usbState, multicore, buttons, refresh := UsbNone, false, wake, false;
      currentIdx, currentPage := 0, MainPage;
      powerRef, powerAlarm, rail, usbTimer, queue := 0, false, false, false, [];
      new;
      ghost var s0 := State();
      PowerRefGet();
      ghost var s1 := State();
      assert s1 == PowerGet(s0);
      if vbus {
        PowerRefGet();
        usbState := Waiting;
        queue := queue + [Core1Launched];
        assert State() == PowerGet(s1).(usb := Waiting, queue := [Core1Launched]);
      } else {
        usbState := Unmounted;
        assert State() == s1.(usb := Unmounted);
      }
      PowerRefPut();
      refresh := true;
    }

    method PowerRefGet()
      modifies this
      ensures State() == PowerGet(old(State()))
    {
      powerRef := powerRef + 1;
      rail := true;
      powerAlarm := false;
    }

    method PowerRefPut()
      modifies this
      ensures State() == PowerPut(old(State()))
    {
      powerRef := powerRef - 1;
      if powerRef == 0 {
        powerAlarm := true;
      }
    }

    /** parse_file on the current page, falling back to main.txt. */
    method ShowCurrentPage(env: Env)
      modifies this
      ensures State() == ShowPage(old(State()), env)
    {
      if env.mountOk && currentPage !in env.pages {
        currentPage := MainPage;
        currentIdx := 0;
      }
    }

    method ButtonsChangedHandler(env: Env)
      modifies this
      ensures State() == ButtonsChanged(old(State()), env)
    {
      var released := Released(buttons, env.buttons);
      PowerRefGet();
      buttons := env.buttons;
      if released & DownMask != 0 {
        TurnPage(env);
      }
      if released & AMask != 0 && usbState == Mounted {
        Eject();
      }
      PowerRefPut();
    }

    method TurnPage(env: Env)
      modifies this
      ensures State() == NextPage(old(State()), env)
    {
      currentIdx := currentIdx + 1;
      currentPage := PageName(currentIdx);
      ShowCurrentPage(env);
    }

    method Eject()
      modifies this
      ensures State() == EjectUsb(old(State()))
    {
      usbState := Unmounted;
      PowerRefPut();
    }

    /** One message's handler; USB references are taken and dropped once per connection. */
    method HandleMessage(m: Msg, env: Env)
      modifies this
      ensures State() == Handle(old(State()), m, env)
    {
      match m {
        case Core1Launched =>
          multicore := true;
          usbTimer := true;
        case UsbTimeout => UsbTimeoutHandler();
        case UsbConnected => UsbConnectedHandler();
        case UsbDisconnected => UsbDisconnectedHandler();
        case PowerOff => PowerOffHandler(env);
        case BtnsChanged => ButtonsChangedHandler(env);
        case _ =>
      }
    }

    method UsbTimeoutHandler()
      modifies this
      ensures State() == OnUsbTimeout(old(State()))
    {
      if usbState == Waiting {
        usbState := Unmounted;
        refresh := true;
      }
      PowerRefPut();
    }

    method UsbConnectedHandler()
      modifies this
      ensures State() == OnUsbConnected(old(State()), true)
    {
      if usbState != Mounted {
        usbState := Mounted;
        PowerRefGet();
      }
    }

    method UsbDisconnectedHandler()
      modifies this
      ensures State() == OnUsbDisconnected(old(State()), true)
    {
      var wasMounted := usbState == Mounted;
      usbState := Unmounted;
      refresh := true;
      if wasMounted {
        PowerRefPut();
      }
    }

    method PowerOffHandler(env: Env)
      modifies this
      ensures State() == OnPowerOff(old(State()), env)
    {
      if powerRef == 0 {
        ShowCurrentPage(env);
        rail := false;
      }
    }

    /**
     * One pass of main's `for (;;)`: handle every queued message, then
     * redraw if a refresh is pending while the USB disk is unmounted.
     */
    method LoopPass(envs: seq<Env>)
      modifies this
      ensures State() == Idle(Drain(old(State()), envs, 0))
      ensures queue == []
      ensures Balanced(old(State())) ==> Balanced(State())
    {
      ghost var s0 := State();
      if Balanced(s0) {
        DrainBalanced(s0, envs, 0);
        StepBalanced(Drain(s0, envs, 0), EndPass);
      }
      var k: nat := 0;
      while |queue| > 0
        invariant Drain(old(State()), envs, 0) == Drain(State(), envs, k)
        decreases |queue|
      {
        var m := queue[0];
        queue := queue[1..];
        HandleMessage(m, EnvAt(envs, k));
        k := k + 1;
      }
      if usbState == Unmounted && refresh {
        PowerRefGet();
        refresh := false;
        PowerRefPut();
      }
    }
  }

  // ---------------------------------------------------------------------
  // read_file
  // ---------------------------------------------------------------------

  /**
   * read_file: lfs_stat, lfs_file_open, one lfs_file_read of the whole
   * size, lfs_file_close.  Any failure, and a read that returns other than
   * the file's size, gives no buffer.
   */
  function ReadWholeFile(flash: Volume<LfsErr>, path: string): (r: (Option<seq<byte>>, Volume<LfsErr>))
    ensures r.1.files == flash.files && r.1.listing == flash.listing
    ensures r.0.Some? ==> path in flash.files && r.0.value == flash.files[path]
    ensures Clean(flash) ==> (r.0.Some? <==> path in flash.files)
  {
    if OpenRead(flash, path, LfsErrNoEnt).Some? then (None, Consume(flash))
    else
      var v1 := Consume(flash);
      if OpenRead(v1, path, LfsErrNoEnt).Some? then (None, Consume(v1))
      else
        var v2 := Consume(v1);
        var size := |flash.files[path]|;
        match ReadFile(v2, path, 0, size)
        case ReadErr(_) => (None, Consume(Consume(v2)))
        case ReadOk(bytes) =>
          if |bytes| != size then (None, Consume(Consume(v2)))
          else
            assert bytes == flash.files[path];
            (Some(bytes), Consume(Consume(v2)))
  }

  /** A read that comes up short is refused, even though the bytes it did read are the file's. */
  lemma ShortReadRefused(flash: Volume<LfsErr>, path: string, c: nat)
    requires path in flash.files && c < |flash.files[path]|
    requires |flash.replies| >= 3 && flash.replies[0].Full? && flash.replies[1].Full? && flash.replies[2] == Short(c)
    ensures ReadWholeFile(flash, path).0 == None
  {
    assert Next(Consume(Consume(flash))) == Short(c);
  }
}

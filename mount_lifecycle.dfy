/**
 * The littlefs mount lifecycle of main.c: `lfs_format_init`,
 * `lfs_ctx_mount` and `lfs_ctx_unmount` over the context state
 * {ERROR, NONE, MOUNTED, UNMOUNTED} and its multicore flag.
 *
 * The littlefs primitives succeed or fail nondeterministically: their
 * results are drawn, in call order, from an outcome stream (0 is success).
 * Every primitive call is logged with the result it gave, so that the log
 * can be replayed against littlefs' own rule that a filesystem is mounted
 * at most once and used only while mounted.
 */
module MountLifecycle {
  import opened Common

  const ReadmeName: string := "readme.txt"
  /** README_CONTENTS. */
  const ReadmeContents: string := "This is the default file"

  /** enum lfs_state. */
  datatype LfsState =
    | Errored     // LFS_STATE_ERROR: terminal
    | Initial     // LFS_STATE_NONE: never mounted yet
    | Mounted     // LFS_STATE_MOUNTED
    | Unmounted   // LFS_STATE_UNMOUNTED

  /** The part of struct lfs_ctx the lifecycle changes. */
  datatype Ctx = Ctx(state: LfsState, multicore: bool)

  /** What the lifecycle asks of littlefs (and of the SDK, for the lock). */
  datatype LfsOp =
    | LockInit                // critical_section_init on the driver's lock
    | LfsFormat
    | LfsMount
    | LfsUnmount
    | LfsFileOpen(path: string)
    | LfsFileWrite(data: string)
    | LfsFileClose

  /** One logged call with the result it returned. */
  datatype Call = Call(op: LfsOp, res: int)

  /** Results littlefs will return to the next calls, in order. */
  type Outcomes = seq<int>

  /** The next result; an exhausted stream answers success. */
  function Head(o: Outcomes): int {
    if o == [] then 0 else o[0]
  }

  function Tail(o: Outcomes): Outcomes {
    if o == [] then [] else o[1..]
  }

  /** What one lifecycle operation did. */
  datatype Effect = Effect(ctx: Ctx, res: int, calls: seq<Call>, rest: Outcomes)

  /**
   * Replays a call log against littlefs' mount status `mounted`: `None` if a
   * call is made in the wrong status (mount or format while mounted, file
   * access or unmount while not mounted), otherwise the status afterwards.
   * lfs_unmount releases the filesystem whatever it returns.
   */
  function Replay(calls: seq<Call>, mounted: bool): Option<bool>
    decreases |calls|
  {
    if calls == [] then Some(mounted)
    else
      var next := StepStatus(calls[0], mounted);
      if next.None? then None else Replay(calls[1..], next.value)
  }

  /** littlefs' mount status after one call made in status `mounted`, or `None` if the call is not allowed then. */
  function StepStatus(c: Call, mounted: bool): Option<bool> {
    match c.op
    case LockInit => Some(mounted)
    case LfsFormat => if mounted then None else Some(false)
    case LfsMount => if mounted then None else Some(c.res == 0)
    case LfsUnmount => if mounted then Some(false) else None
    case LfsFileOpen(_) => if mounted then Some(true) else None
    case LfsFileWrite(_) => if mounted then Some(true) else None
    case LfsFileClose => if mounted then Some(true) else None
  }

  lemma {:induction false} ReplayAppend(a: seq<Call>, b: seq<Call>, mounted: bool)
    ensures Replay(a + b, mounted) == (match Replay(a, mounted) case None => None case Some(m) => Replay(b, m))
    decreases |a|
  {
    if a == [] {
      assert a + b == b;
    } else {
      assert (a + b)[0] == a[0];
      assert (a + b)[1..] == a[1..] + b;
      var next := StepStatus(a[0], mounted);
      if next.Some? {
        ReplayAppend(a[1..], b, next.value);
      }
    }
  }

  /** Whether littlefs is mounted after a failure-free replay of `calls` from `mounted`. */
  ghost predicate LeavesMounted(calls: seq<Call>, mounted: bool, after: bool) {
    Replay(calls, mounted) == Some(after)
  }

  /**
   * lfs_format_init: format, mount, create readme.txt and write the default
   * contents into it.  The result of the write is ignored.  A failure after
   * the mount unmounts again.  Returns the calls made, the status code and
   * the unused outcomes.
   */
  function FormatInitEffect(o: Outcomes): (r: (int, seq<Call>, Outcomes))
  {
    var f := Head(o);
    var o1 := Tail(o);
    if f != 0 then (f, [Call(LfsFormat, f)], o1)
    else
      var m := Head(o1);
      var o2 := Tail(o1);
      if m != 0 then (m, [Call(LfsFormat, 0), Call(LfsMount, m)], o2)
      else
        var op := Head(o2);
        var o3 := Tail(o2);
        if op != 0 then
          (op, [Call(LfsFormat, 0), Call(LfsMount, 0), Call(LfsFileOpen(ReadmeName), op), Call(LfsUnmount, Head(o3))], Tail(o3))
        else
          var w := Head(o3);
          var o4 := Tail(o3);
          var cl := Head(o4);
          var o5 := Tail(o4);
          var made := [Call(LfsFormat, 0), Call(LfsMount, 0), Call(LfsFileOpen(ReadmeName), 0),
                       Call(LfsFileWrite(ReadmeContents), w), Call(LfsFileClose, cl)];
          if cl != 0 then (cl, made + [Call(LfsUnmount, Head(o5))], Tail(o5))
          else (0, made, o5)
  }

  /**
   * lfs_format_init leaves littlefs mounted exactly when it returns 0, it
   * only formats an unmounted filesystem, and on success the readme file
   * was opened, written with the default contents and closed.
   */
  lemma FormatInitLeavesMountedIffOk(o: Outcomes)
    ensures var (res, calls, _) := FormatInitEffect(o);
      && LeavesMounted(calls, false, res == 0)
      && calls[0].op == LfsFormat
      && (res == 0 ==> Call(LfsFileWrite(ReadmeContents), Head(Tail(Tail(Tail(o))))) in calls
                       && calls[|calls| - 1] == Call(LfsFileClose, 0))
  {
    var (res, calls, _) := FormatInitEffect(o);
    var f, m, op := Call(LfsFormat, 0), Call(LfsMount, 0), Call(LfsFileOpen(ReadmeName), 0);
    if Head(o) != 0 {
      ReplayOne(Call(LfsFormat, Head(o)), false);
    } else if Head(Tail(o)) != 0 {
      var mf := Call(LfsMount, Head(Tail(o)));
      ReplayCons(f, [mf], false);
      ReplayOne(mf, false);
      assert calls == [f] + [mf];
    } else if Head(Tail(Tail(o))) != 0 {
      var o3 := Tail(Tail(Tail(o)));
      var u := Call(LfsUnmount, Head(o3));
      var opf := Call(LfsFileOpen(ReadmeName), Head(Tail(Tail(o))));
      ReplayOne(u, true);
      ReplayCons(opf, [u], true);
      ReplayCons(m, [opf] + [u], false);
      ReplayCons(f, [m] + ([opf] + [u]), false);
      assert calls == [f] + ([m] + ([opf] + [u]));
    } else {
      var o3 := Tail(Tail(Tail(o)));
      var w := Call(LfsFileWrite(ReadmeContents), Head(o3));
      var cl := Call(LfsFileClose, Head(Tail(o3)));
      var tail := if Head(Tail(o3)) != 0 then [Call(LfsUnmount, Head(Tail(Tail(o3))))] else [];
      assert Replay(tail, true) == Some(res == 0) by {
        if Head(Tail(o3)) != 0 { ReplayOne(tail[0], true); }
      }
      ReplayCons(cl, tail, true);
      ReplayCons(w, [cl] + tail, true);
      ReplayCons(op, [w] + ([cl] + tail), true);
      ReplayCons(m, [op] + ([w] + ([cl] + tail)), false);
      ReplayCons(f, [m] + ([op] + ([w] + ([cl] + tail))), false);
      assert calls == [f] + ([m] + ([op] + ([w] + ([cl] + tail))));
    }
  }

  /** Replaying a log that starts with `c`. */
  lemma ReplayCons(c: Call, rest: seq<Call>, mounted: bool)
    ensures Replay([c] + rest, mounted) ==
      (match StepStatus(c, mounted) case None => None case Some(n) => Replay(rest, n))
  {
    assert ([c] + rest)[1..] == rest;
  }

  lemma ReplayOne(c: Call, mounted: bool)
    ensures Replay([c], mounted) == StepStatus(c, mounted)
  {
    ReplayCons(c, [], mounted);
    assert [c] + [] == [c];
  }

  /**
   * lfs_ctx_mount.  ERROR fails at once; MOUNTED in the same mode is a no-op;
   * MOUNTED in the other mode unmounts first (a failed unmount is fatal).  A
   * failed lfs_mount is answered by lfs_format_init only when the context was
   * never mounted (NONE); any other failure is fatal.
   */
  function CtxMount(c: Ctx, multicore: bool, o: Outcomes): Effect
  {
    if c.state == Errored then Effect(c, -1, [], o)
    else
      var init := if c.state == Initial then [Call(LockInit, 0)] else [];
      if c.state == Mounted && multicore == c.multicore then Effect(c, 0, init, o)
      else if c.state == Mounted && Head(o) != 0 then
        Effect(c.(state := Errored), -1, init + [Call(LfsUnmount, Head(o))], Tail(o))
      else
        var pre := if c.state == Mounted then init + [Call(LfsUnmount, 0)] else init;
        var o1 := if c.state == Mounted then Tail(o) else o;
        var e := MountFreshEffect(multicore, c.state == Initial, o1);
        e.(calls := pre + e.calls)
  }

  /**
   * The tail of lfs_ctx_mount: lfs_mount under the new flag; when it fails
   * on the very first mount, lfs_format_init decides the outcome.
   */
  function MountFreshEffect(multicore: bool, first: bool, o: Outcomes): Effect
  {
    var m := Head(o);
    var mounted := [Call(LfsMount, m)];
    if m == 0 then Effect(Ctx(Mounted, multicore), 0, mounted, Tail(o))
    else if first then
      var (f, fcalls, o3) := FormatInitEffect(Tail(o));
      if f == 0 then Effect(Ctx(Mounted, multicore), 0, mounted + fcalls, o3)
      else Effect(Ctx(Errored, multicore), f, mounted + fcalls, o3)
    else Effect(Ctx(Errored, multicore), m, mounted, Tail(o))
  }

  /**
   * lfs_ctx_unmount.  ERROR fails, UNMOUNTED is a no-op success, NONE fails
   * without change; from MOUNTED a failed lfs_unmount is fatal.
   */
  function CtxUnmount(c: Ctx, o: Outcomes): Effect
  {
    if c.state == Errored then Effect(c, -1, [], o)
    else if c.state == Unmounted then Effect(c, 0, [], o)
    else if c.state != Mounted then Effect(c, -1, [], o)
    else if Head(o) != 0 then Effect(c.(state := Errored), Head(o), [Call(LfsUnmount, Head(o))], Tail(o))
    else Effect(c.(state := Unmounted), 0, [Call(LfsUnmount, 0)], Tail(o))
  }

  /** In the ERROR state both operations fail with -1 and touch nothing. */
  lemma ErroredIsInert(c: Ctx, multicore: bool, o: Outcomes)
    requires c.state == Errored
    ensures CtxMount(c, multicore, o) == Effect(c, -1, [], o)
    ensures CtxUnmount(c, o) == Effect(c, -1, [], o)
  {
  }

  /**
   * Mounting in the mode already mounted does nothing and succeeds; a mode
   * change starts with lfs_unmount, and a failed unmount ends in ERROR with
   * -1 before anything is mounted or the mode changes.
   */
  lemma ModeSwitchUnmountsFirst(c: Ctx, multicore: bool, o: Outcomes)
    requires c.state == Mounted
    ensures multicore == c.multicore ==> CtxMount(c, multicore, o) == Effect(c, 0, [], o)
    ensures multicore != c.multicore ==>
      var e := CtxMount(c, multicore, o);
      && e.calls[0].op == LfsUnmount
      && (e.calls[0].res != 0 ==> e.ctx == c.(state := Errored) && e.res == -1 && |e.calls| == 1)
  {
  }

  /**
   * After lfs_ctx_mount the context is MOUNTED or ERROR, and it returns 0
   * exactly when it is MOUNTED (in the requested mode).  Formatting happens
   * only from NONE and only after lfs_mount failed.
   */
  lemma MountOutcome(c: Ctx, multicore: bool, o: Outcomes)
    ensures var e := CtxMount(c, multicore, o);
      && (e.ctx.state == Mounted || e.ctx.state == Errored)
      && (e.res == 0 <==> e.ctx.state == Mounted)
      && (e.ctx.state == Mounted ==> e.ctx.multicore == multicore)
      && (Call(LfsFormat, 0) in e.calls || Call(LfsFormat, Head(Tail(o))) in e.calls ==>
            c.state == Initial && Call(LfsMount, Head(o)) in e.calls && Head(o) != 0)
  {
    var e := CtxMount(c, multicore, o);
    if c.state == Initial && Head(o) != 0 {
      var (f, fcalls, o3) := FormatInitEffect(Tail(o));
      FormatInitLeavesMountedIffOk(Tail(o));
    }
  }

  /**
   * After lfs_ctx_unmount it returns 0 exactly when the context is
   * UNMOUNTED; MOUNTED never survives it, and NONE, UNMOUNTED and ERROR are
   * left as they were.
   */
  lemma UnmountOutcome(c: Ctx, o: Outcomes)
    ensures var e := CtxUnmount(c, o);
      && (e.res == 0 <==> e.ctx.state == Unmounted)
      && e.ctx.state != Mounted
      && e.ctx.multicore == c.multicore
      && (c.state != Mounted ==> e.ctx == c && e.calls == [])
      && (c.state == Initial ==> e.res == -1)
  {
  }

  /**
   * The context's state tracks littlefs: replaying the calls of one
   * operation from "mounted iff the state says MOUNTED" never mounts twice,
   * never uses an unmounted filesystem, and ends mounted iff the new state
   * is MOUNTED.
   */
  lemma MountTracksLittlefs(c: Ctx, multicore: bool, o: Outcomes)
    ensures var e := CtxMount(c, multicore, o);
      LeavesMounted(e.calls, c.state == Mounted, e.ctx.state == Mounted)
  {
    var e := CtxMount(c, multicore, o);
    if c.state == Errored || (c.state == Mounted && multicore == c.multicore) {
      return;
    }
    var init: seq<Call> := if c.state == Initial then [Call(LockInit, 0)] else [];
    assert Replay(init, c.state == Mounted) == Some(c.state == Mounted) by {
      if c.state == Initial {
        assert Replay([Call(LockInit, 0)], false) == Replay([], false);
      }
    }
    if c.state == Mounted && Head(o) != 0 {
      ReplayAppend(init, [Call(LfsUnmount, Head(o))], true);
      assert Replay([Call(LfsUnmount, Head(o))], true) == Replay([], false);
      return;
    }
    var pre: seq<Call> := if c.state == Mounted then init + [Call(LfsUnmount, 0)] else init;
    assert Replay(pre, c.state == Mounted) == Some(false) by {
      if c.state == Mounted {
        ReplayAppend(init, [Call(LfsUnmount, 0)], true);
        assert Replay([Call(LfsUnmount, 0)], true) == Replay([], false);
      }
    }
    var o1 := if c.state == Mounted then Tail(o) else o;
    var m := Head(o1);
    var mounted := pre + [Call(LfsMount, m)];
    ReplayAppend(pre, [Call(LfsMount, m)], false);
    assert Replay([Call(LfsMount, m)], false) == Replay([], m == 0);
    if m != 0 && c.state == Initial {
      var (f, fcalls, o3) := FormatInitEffect(Tail(o1));
      FormatInitLeavesMountedIffOk(Tail(o1));
      ReplayAppend(mounted, fcalls, false);
    }
  }

  lemma UnmountTracksLittlefs(c: Ctx, o: Outcomes)
    ensures var e := CtxUnmount(c, o);
      LeavesMounted(e.calls, c.state == Mounted, e.ctx.state == Mounted)
  {
    var e := CtxUnmount(c, o);
    if c.state == Mounted {
      assert Replay(e.calls, true) == Replay([], false);
    }
  }

  /** A request made to the lifecycle by the main loop. */
  datatype Request = MountReq(multicore: bool) | UnmountReq

  /** The effect of a whole sequence of requests, outcomes threaded through. */
  function Run(c: Ctx, reqs: seq<Request>, o: Outcomes): Effect
    decreases |reqs|
  {
    if reqs == [] then Effect(c, 0, [], o)
    else
      var e := match reqs[0]
        case MountReq(m) => CtxMount(c, m, o)
        case UnmountReq => CtxUnmount(c, o);
      var r := Run(e.ctx, reqs[1..], e.rest);
      Effect(r.ctx, r.res, e.calls + r.calls, r.rest)
  }

  /** ERROR is absorbing: no request leaves it, and none reaches littlefs. */
  lemma {:induction false} ErroredIsAbsorbing(c: Ctx, reqs: seq<Request>, o: Outcomes)
    requires c.state == Errored
    ensures Run(c, reqs, o).ctx == c && Run(c, reqs, o).calls == []
    decreases |reqs|
  {
    if reqs != [] {
      ErroredIsInert(c, if reqs[0].MountReq? then reqs[0].multicore else false, o);
      ErroredIsAbsorbing(c, reqs[1..], o);
    }
  }

  /** The number of format calls in a log. */
  function FormatCount(calls: seq<Call>): nat
    decreases |calls|
  {
    if calls == [] then 0
    else (if calls[0].op == LfsFormat then 1 else 0) + FormatCount(calls[1..])
  }

  lemma {:induction false} FormatCountAppend(a: seq<Call>, b: seq<Call>)
    ensures FormatCount(a + b) == FormatCount(a) + FormatCount(b)
    decreases |a|
  {
    if a == [] {
      assert a + b == b;
    } else {
      assert (a + b)[1..] == a[1..] + b;
      FormatCountAppend(a[1..], b);
    }
  }

  /** One operation formats at most once, and only out of NONE; no mount leaves NONE behind. */
  lemma FormatOnlyFromInitial(c: Ctx, r: Request, o: Outcomes)
    ensures var e := match r case MountReq(m) => CtxMount(c, m, o) case UnmountReq => CtxUnmount(c, o);
      && FormatCount(e.calls) <= (if c.state == Initial then 1 else 0)
      && (e.ctx.state == Initial ==> c.state == Initial && e.calls == [])
  {
    match r
    case UnmountReq =>
      var e := CtxUnmount(c, o);
      if c.state == Mounted {
        assert e.calls[1..] == [];
      }
    case MountReq(m) =>
      var e := CtxMount(c, m, o);
      if c.state != Errored {
        var init: seq<Call> := if c.state == Initial then [Call(LockInit, 0)] else [];
        assert FormatCount(init) == 0 by {
          if c.state == Initial { assert init[1..] == []; }
        }
        if c.state == Mounted && m == c.multicore {
        } else if c.state == Mounted && Head(o) != 0 {
          FormatCountAppend(init, [Call(LfsUnmount, Head(o))]);
          assert [Call(LfsUnmount, Head(o))][1..] == [];
        } else {
          var pre: seq<Call> := if c.state == Mounted then init + [Call(LfsUnmount, 0)] else init;
          assert FormatCount(pre) == 0 by {
            if c.state == Mounted {
              FormatCountAppend(init, [Call(LfsUnmount, 0)]);
              assert [Call(LfsUnmount, 0)][1..] == [];
            }
          }
          var o1 := if c.state == Mounted then Tail(o) else o;
          var mc := [Call(LfsMount, Head(o1))];
          assert mc[1..] == [];
          FormatCountAppend(pre, mc);
          if Head(o1) != 0 && c.state == Initial {
            var (f, fcalls, o3) := FormatInitEffect(Tail(o1));
            FormatInitFormatsOnce(Tail(o1));
            FormatCountAppend(pre + mc, fcalls);
          }
        }
      }
  }

  lemma FormatInitFormatsOnce(o: Outcomes)
    ensures FormatCount(FormatInitEffect(o).1) == 1
  {
    var calls := FormatInitEffect(o).1;
    var i := |calls|;
    while i > 1
      invariant 1 <= i <= |calls|
      invariant FormatCount(calls[i..]) == 0
      decreases i
    {
      i := i - 1;
      assert calls[i..][1..] == calls[i + 1..];
    }
    assert calls[1..] == calls[i..];
  }

  /** Over any run, littlefs is formatted at most once, and never once the context has left NONE. */
  lemma {:induction false} FormatAtMostOnce(c: Ctx, reqs: seq<Request>, o: Outcomes)
    ensures FormatCount(Run(c, reqs, o).calls) <= (if c.state == Initial then 1 else 0)
    decreases |reqs|
  {
    if reqs != [] {
      var e := match reqs[0]
        case MountReq(m) => CtxMount(c, m, o)
        case UnmountReq => CtxUnmount(c, o);
      FormatOnlyFromInitial(c, reqs[0], o);
      FormatAtMostOnce(e.ctx, reqs[1..], e.rest);
      var r := Run(e.ctx, reqs[1..], e.rest);
      FormatCountAppend(e.calls, r.calls);
    }
  }

  /**
   * Over any run, the context's state tracks littlefs: the calls never mount
   * twice nor use an unmounted filesystem, and littlefs ends mounted iff the
   * final state is MOUNTED.
   */
  lemma {:induction false} RunTracksLittlefs(c: Ctx, reqs: seq<Request>, o: Outcomes)
    ensures LeavesMounted(Run(c, reqs, o).calls, c.state == Mounted, Run(c, reqs, o).ctx.state == Mounted)
    decreases |reqs|
  {
    if reqs != [] {
      var e := match reqs[0]
        case MountReq(m) => CtxMount(c, m, o)
        case UnmountReq => CtxUnmount(c, o);
      match reqs[0] {
        case MountReq(m) => MountTracksLittlefs(c, m, o);
        case UnmountReq => UnmountTracksLittlefs(c, o);
      }
      RunTracksLittlefs(e.ctx, reqs[1..], e.rest);
      ReplayAppend(e.calls, Run(e.ctx, reqs[1..], e.rest).calls, c.state == Mounted);
    }
  }

  /** From NONE, lfs_ctx_mount initialises the critical section and then mounts (formatting if need be). */
  lemma FirstMountEffect(c: Ctx, multicore: bool, o: Outcomes)
    requires c.state == Initial
    ensures var fe := MountFreshEffect(multicore, true, o);
      CtxMount(c, multicore, o) == fe.(calls := [Call(LockInit, 0)] + fe.calls)
  {
  }

  lemma AppendAssoc<T>(a: seq<T>, b: seq<T>, c: seq<T>)
    ensures a + b + c == a + (b + c)
  {
  }

  /**
   * The context of main.c (struct lfs_ctx): the state and the multicore
   * flag change in place; `outcomes` stands for the results littlefs will
   * give, and the ghost `log` records every call made, with its result.
   * The calls each operation makes are those of the matching effect
   * function, which the methods' contracts name.
   */
  class LfsContext {
    var state: LfsState
    var multicore: bool
    var outcomes: Outcomes
    ghost var log: seq<Call>

    function Abs(): Ctx
      reads this
    {
      Ctx(state, multicore)
    }

    /** `.state = LFS_STATE_NONE` in main.c; the flag starts false. */
    constructor (outcomes: Outcomes)
      ensures state == Initial && !multicore && this.outcomes == outcomes && log == []
    {
      state := Initial;
      multicore := false;
      this.outcomes := outcomes;
      log := [];
    }

    /** One littlefs primitive: takes the next outcome and logs the call. */
    method Lfs(op: LfsOp) returns (res: int)
      modifies this
      ensures res == Head(old(outcomes)) && outcomes == Tail(old(outcomes))
      ensures log == old(log) + [Call(op, res)]
      ensures state == old(state) && multicore == old(multicore)
    {
      res := if outcomes == [] then 0 else outcomes[0];
      outcomes := if outcomes == [] then [] else outcomes[1..];
      log := log + [Call(op, res)];
    }

    /** lfs_format_init: leaves the filesystem mounted on success. */
    method FormatInit() returns (res: int)
      modifies this
      ensures var e := FormatInitEffect(old(outcomes));
        && res == e.0 && log == old(log) + e.1 && outcomes == e.2
      ensures state == old(state) && multicore == old(multicore)
    {
      ghost var o0 := outcomes;
      res := Lfs(LfsFormat);
      if res != 0 {
        return;
      }
      res := Lfs(LfsMount);
      if res != 0 {
        return;
      }
      res := Lfs(LfsFileOpen(ReadmeName));
      if res != 0 {
        var u := Lfs(LfsUnmount);
        return;
      }
      var w := Lfs(LfsFileWrite(ReadmeContents));
      res := Lfs(LfsFileClose);
      if res != 0 {
        var u := Lfs(LfsUnmount);
        return;
      }
    }

    /** lfs_ctx_mount. */
    method Mount(multicore: bool) returns (res: int)
      modifies this
      ensures var e := CtxMount(old(Abs()), multicore, old(outcomes));
        && Abs() == e.ctx && res == e.res && log == old(log) + e.calls && outcomes == e.rest
    {
      if state == Errored {
        return -1;
      }
      if state == Mounted {
        res := Remount(multicore);
        return;
      }
      if state == Initial {
        res := MountFirst(multicore);
        return;
      }
      ghost var o0 := outcomes;
      ghost var a0 := Abs();
      res := MountFresh(multicore, false);
      ghost var fe := MountFreshEffect(multicore, false, o0);
      assert [] + fe.calls == fe.calls;
      assert CtxMount(a0, multicore, o0) == fe;
    }

    /** lfs_ctx_mount from NONE: the critical section is initialised before the first mount. */
    method MountFirst(multicore: bool) returns (res: int)
      requires state == Initial
      modifies this
      ensures var e := CtxMount(old(Abs()), multicore, old(outcomes));
        && Abs() == e.ctx && res == e.res && log == old(log) + e.calls && outcomes == e.rest
    {
      ghost var o0 := outcomes;
      ghost var a0 := Abs();
      ghost var l0 := log;
      ghost var fe := MountFreshEffect(multicore, true, o0);
      FirstMountEffect(a0, multicore, o0);
      log := log + [Call(LockInit, 0)];
      res := MountFresh(multicore, true);
      AppendAssoc(l0, [Call(LockInit, 0)], fe.calls);
    }

    /** lfs_ctx_mount from MOUNTED: nothing in the same mode, else unmount and mount again. */
    method Remount(multicore: bool) returns (res: int)
      requires state == Mounted
      modifies this
      ensures var e := CtxMount(old(Abs()), multicore, old(outcomes));
        && Abs() == e.ctx && res == e.res && log == old(log) + e.calls && outcomes == e.rest
    {
      if multicore == this.multicore {
        return 0;
      }
      ghost var o0 := outcomes;
      ghost var a0 := Abs();
      res := Lfs(LfsUnmount);
      if res != 0 {
        state := Errored;
        return -1;
      }
      res := MountFresh(multicore, false);
      ghost var fe := MountFreshEffect(multicore, false, Tail(o0));
      assert CtxMount(a0, multicore, o0) == fe.(calls := [Call(LfsUnmount, 0)] + fe.calls);
    }

    /**
     * The part of lfs_ctx_mount after any mode-switch unmount: set the flag,
     * lfs_mount, and format when this is the first mount of an empty flash.
     */
    method MountFresh(multicore: bool, first: bool) returns (res: int)
      modifies this
      ensures var e := MountFreshEffect(multicore, first, old(outcomes));
        && Abs() == e.ctx && res == e.res && log == old(log) + e.calls && outcomes == e.rest
    {
      ghost var o0 := outcomes;
      ghost var l0 := log;
      this.multicore := multicore;
      var m := Lfs(LfsMount);
      if m == 0 {
        state := Mounted;
        return 0;
      }
      if !first {
        state := Errored;
        return m;
      }
      res := FormatAfterMount();
      AppendAssoc(l0, [Call(LfsMount, m)], FormatInitEffect(Tail(o0)).1);
    }

    /** After a failed first mount, lfs_format_init decides the state the context ends in. */
    method FormatAfterMount() returns (res: int)
      modifies this
      ensures var fe := FormatInitEffect(old(outcomes));
        && Abs() == Ctx(if fe.0 == 0 then Mounted else Errored, old(multicore))
        && res == fe.0 && log == old(log) + fe.1 && outcomes == fe.2
    {
      res := FormatInit();
      state := if res == 0 then Mounted else Errored;
    }

    /** lfs_ctx_unmount. */
    method Unmount() returns (res: int)
      modifies this
      ensures var e := CtxUnmount(old(Abs()), old(outcomes));
        && Abs() == e.ctx && res == e.res && log == old(log) + e.calls && outcomes == e.rest
    {
      if state == Errored {
        return -1;
      }
      if state == Unmounted {
        return 0;
      }
      if state != Mounted {
        return -1;
      }
      res := Lfs(LfsUnmount);
      if res != 0 {
        state := Errored;
        return res;
      }
      state := Unmounted;
      return 0;
    }
  }
}

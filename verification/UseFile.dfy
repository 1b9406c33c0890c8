/** use_file.rs: opening the random device once, by double-checked locking, in any interleaving. */
module UseFile {
  import opened Options

  const UNINIT: nat := 0xFFFF_FFFF_FFFF_FFFF

  /** Descriptors are non-negative C ints. */
  const FD_LIMIT: nat := 0x8000_0000

  datatype Outcome = Ok(fd: nat) | Err(code: int)

  /** Where a thread is in `get_rng_fd`. */
  datatype Pc =
    | Idle
    | FastLoad
    | WaitLock
    | SlowLoad
    | OpenRandom
    | Poll(rfd: nat)
    | CloseRandom(rfd: nat, failure: Option<int>)
    | OpenFile
    | StoreFd(fd: nat)
    | Unlock(r: Outcome)
    | Done(r: Outcome)

  /** `open` holds the descriptors this module has open; `opens` counts successes of the main open. */
  datatype State = State(fd: nat, holder: Option<nat>, open: set<nat>, opens: nat, pcs: seq<Pc>)

  /** One atomic step of thread `t`; the operating system chooses descriptors and failures. */
  datatype Action =
    | Call
    | LoadFast
    | Acquire
    | LoadSlow
    | RandomOpened(rfd: nat)
    | RandomFailed(code: int)
    | PollReady
    | PollRetry
    | PollFailed(code: int)
    | RandomClosed
    | FileOpened(fd: nat)
    | FileFailed(code: int)
    | Stored
    | Released

  function Move(s: State, t: nat, pc: Pc): State
    requires t < |s.pcs|
  {
    s.(pcs := s.pcs[t := pc])
  }

  /** The state after thread `t` takes step `a`; None where it cannot. */
  function Next(s: State, t: nat, a: Action): Option<State> {
    if t >= |s.pcs| then None
    else
      match (s.pcs[t], a)
      case (Idle, Call) => Some(Move(s, t, FastLoad))
      case (Done(_), Call) => Some(Move(s, t, FastLoad))
      case (FastLoad, LoadFast) => Some(Move(s, t, if s.fd == UNINIT then WaitLock else Done(Ok(s.fd))))
      case (WaitLock, Acquire) => if s.holder.Some? then None else Some(Move(s, t, SlowLoad).(holder := Some(t)))
      case (SlowLoad, LoadSlow) => Some(Move(s, t, if s.fd == UNINIT then OpenRandom else Unlock(Ok(s.fd))))
      case (OpenRandom, RandomOpened(rfd)) =>
        if rfd in s.open || rfd >= FD_LIMIT then None else Some(Move(s, t, Poll(rfd)).(open := s.open + {rfd}))
      case (OpenRandom, RandomFailed(e)) => Some(Move(s, t, Unlock(Err(e))))
      case (Poll(rfd), PollReady) => Some(Move(s, t, CloseRandom(rfd, None)))
      case (Poll(rfd), PollRetry) => Some(s)
      case (Poll(rfd), PollFailed(e)) => Some(Move(s, t, CloseRandom(rfd, Some(e))))
      case (CloseRandom(rfd, failure), RandomClosed) =>
        Some(Move(s, t, if failure.Some? then Unlock(Err(failure.value)) else OpenFile).(open := s.open - {rfd}))
      case (OpenFile, FileOpened(fd)) =>
        if fd in s.open || fd >= FD_LIMIT then None
        else Some(Move(s, t, StoreFd(fd)).(open := s.open + {fd}, opens := s.opens + 1))
      case (OpenFile, FileFailed(e)) => Some(Move(s, t, Unlock(Err(e))))
      case (StoreFd(fd), Stored) => Some(Move(s, t, Unlock(Ok(fd))).(fd := fd))
      case (Unlock(r), Released) => Some(Move(s, t, Done(r)).(holder := None))
      case _ => None
  }

  predicate Init(s: State) {
    s.fd == UNINIT && s.holder == None && s.open == {} && s.opens == 0 && forall t :: 0 <= t < |s.pcs| ==> s.pcs[t] == Idle
  }

  // ---- the invariant ---------------------------------------------------------------------------

  /** Between lock and unlock. */
  predicate Critical(pc: Pc) {
    pc.SlowLoad? || Opening(pc) || pc.Unlock?
  }

  /** Past the second check: this thread is the one that may open the file. */
  predicate Opening(pc: Pc) {
    pc.OpenRandom? || pc.Poll? || pc.CloseRandom? || pc.OpenFile? || pc.StoreFd?
  }

  /** The descriptor a thread is holding on to for the moment. */
  function Held(pc: Pc): set<nat> {
    match pc
    case Poll(rfd) => {rfd}
    case CloseRandom(rfd, _) => {rfd}
    case StoreFd(fd) => {fd}
    case _ => {}
  }

  function HolderPc(s: State): Pc {
    if s.holder.Some? && s.holder.value < |s.pcs| then s.pcs[s.holder.value] else Idle
  }

  function Published(s: State): set<nat> {
    if s.fd == UNINIT then {} else {s.fd}
  }

  ghost predicate ThreadInv(s: State, t: nat)
    requires t < |s.pcs|
  {
    var pc := s.pcs[t];
    && (Critical(pc) <==> s.holder == Some(t))
    && (Opening(pc) ==> s.fd == UNINIT)
    && ((pc.Unlock? || pc.Done?) && pc.r.Ok? ==> s.fd == pc.r.fd && s.fd != UNINIT)
  }

  ghost predicate Inv(s: State) {
    && (s.holder.Some? ==> s.holder.value < |s.pcs|)
    && (forall t :: 0 <= t < |s.pcs| ==> ThreadInv(s, t))
    && (s.fd == UNINIT || s.fd < FD_LIMIT)
    && s.opens == (if s.fd != UNINIT || HolderPc(s).StoreFd? then 1 else 0)
    && s.open == Published(s) + Held(HolderPc(s))
    && Published(s) !! Held(HolderPc(s))
    && (forall d :: d in Held(HolderPc(s)) ==> d < FD_LIMIT)
  }

  lemma InitInv(s: State)
    requires Init(s)
    ensures Inv(s)
  {
  }

  lemma StepInv(s: State, t: nat, a: Action)
    requires Inv(s) && Next(s, t, a).Some?
    ensures Inv(Next(s, t, a).value)
  {
    var s' := Next(s, t, a).value;
    assert ThreadInv(s, t);
    forall u | 0 <= u < |s'.pcs|
      ensures ThreadInv(s', u)
    {
      assert ThreadInv(s, u);
    }
  }

  // ---- runs ------------------------------------------------------------------------------------

  datatype Turn = Turn(t: nat, a: Action)

  /** A finite execution: states and the steps between them. */
  ghost predicate IsRun(states: seq<State>, steps: seq<Turn>) {
    && |states| == |steps| + 1 && Init(states[0])
    && forall i :: 0 <= i < |steps| ==> Next(states[i], steps[i].t, steps[i].a) == Some(states[i + 1])
  }

  lemma RunStep(states: seq<State>, steps: seq<Turn>, i: nat)
    requires IsRun(states, steps) && i < |steps|
    ensures Next(states[i], steps[i].t, steps[i].a) == Some(states[i + 1])
  {
  }

  lemma {:induction false} RunInv(states: seq<State>, steps: seq<Turn>, i: nat)
    requires IsRun(states, steps) && i < |states|
    ensures Inv(states[i])
  {
    if i == 0 {
      InitInv(states[0]);
    } else {
      RunInv(states, steps, i - 1);
      RunStep(states, steps, i - 1);
      StepInv(states[i - 1], steps[i - 1].t, steps[i - 1].a);
    }
  }

  /** Once the descriptor is published it stays; before that only a completed open publishes it. */
  lemma FdStep(s: State, t: nat, a: Action)
    requires Inv(s) && Next(s, t, a).Some?
    ensures var s' := Next(s, t, a).value;
            && (s.fd != UNINIT ==> s'.fd == s.fd)
            && (s'.fd != s.fd ==> a == Stored && s'.fd in s.open)
  {
    assert ThreadInv(s, t);
  }

  lemma {:induction false} FdStays(states: seq<State>, steps: seq<Turn>, i: nat, j: nat)
    requires IsRun(states, steps) && i <= j < |states| && states[i].fd != UNINIT
    ensures states[j].fd == states[i].fd
  {
    if i < j {
      FdStays(states, steps, i, j - 1);
      RunInv(states, steps, j - 1);
      RunStep(states, steps, j - 1);
      FdStep(states[j - 1], steps[j - 1].t, steps[j - 1].a);
    }
  }

  /**
   * In every execution: the file is opened successfully at most once, and any two calls that
   * succeed, at any time, by any threads, return the same descriptor, which is still open.
   */
  lemma OpenedOnce(states: seq<State>, steps: seq<Turn>, i: nat, t: nat, j: nat, u: nat)
    requires IsRun(states, steps) && i <= j < |states|
    requires t < |states[i].pcs| && u < |states[j].pcs|
    ensures states[j].opens <= 1
    ensures states[i].pcs[t].Done? && states[i].pcs[t].r.Ok? && states[j].pcs[u].Done? && states[j].pcs[u].r.Ok? ==>
              && states[i].pcs[t].r == states[j].pcs[u].r
              && states[j].pcs[u].r.fd in states[j].open
              && states[j].opens == 1
  {
    RunInv(states, steps, i);
    RunInv(states, steps, j);
    assert ThreadInv(states[i], t) && ThreadInv(states[j], u);
    if states[i].pcs[t].Done? && states[i].pcs[t].r.Ok? {
      FdStays(states, steps, i, j);
    }
  }

  /** At most one thread is between lock and unlock, and a finished call holds nothing. */
  lemma MutualExclusion(states: seq<State>, steps: seq<Turn>, i: nat, t: nat, u: nat)
    requires IsRun(states, steps) && i < |states| && t < |states[i].pcs| && u < |states[i].pcs|
    ensures Critical(states[i].pcs[t]) && Critical(states[i].pcs[u]) ==> t == u
    ensures states[i].pcs[t].Done? ==> states[i].holder != Some(t)
  {
    RunInv(states, steps, i);
    assert ThreadInv(states[i], t) && ThreadInv(states[i], u);
  }

  lemma HolderIsCritical(s: State)
    requires Inv(s) && s.holder.Some?
    ensures Critical(HolderPc(s))
  {
    assert ThreadInv(s, s.holder.value);
  }

  /** When no call is under way the mutex is free, and only the published descriptor is open. */
  lemma NothingLeaks(states: seq<State>, steps: seq<Turn>, i: nat)
    requires IsRun(states, steps) && i < |states|
    requires forall t :: 0 <= t < |states[i].pcs| ==> states[i].pcs[t].Idle? || states[i].pcs[t].Done?
    ensures states[i].holder == None
    ensures states[i].open == Published(states[i])
  {
    RunInv(states, steps, i);
    if states[i].holder.Some? {
      HolderIsCritical(states[i]);
      assert false;
    }
  }

  // ---- what a call has done before it opens, and after a failure --------------------------------

  /** Step `c` is the last call of thread `t` before step `i`. */
  ghost predicate LastCall(steps: seq<Turn>, c: nat, i: nat, t: nat) {
    c < i <= |steps| && steps[c] == Turn(t, Call) && forall k :: c < k < i ==> steps[k] != Turn(t, Call)
  }

  ghost predicate OpensRandom(steps: seq<Turn>, r: nat, t: nat) {
    r < |steps| && steps[r].t == t && steps[r].a.RandomOpened?
  }

  /** In its present call, thread `t` has opened /dev/random. */
  ghost predicate HasOpened(steps: seq<Turn>, i: nat, t: nat) {
    exists c: nat, r: nat :: LastCall(steps, c, i, t) && c < r < i && OpensRandom(steps, r, t)
  }

  /** In its present call, thread `t` has opened /dev/random and then seen it ready. */
  ghost predicate HasWaited(steps: seq<Turn>, i: nat, t: nat) {
    exists c: nat, r: nat, p: nat :: LastCall(steps, c, i, t) && c < r < p < i && OpensRandom(steps, r, t) && steps[p] == Turn(t, PollReady)
  }

  ghost predicate HasCalled(steps: seq<Turn>, i: nat, t: nat) {
    exists c: nat :: LastCall(steps, c, i, t)
  }

  lemma {:induction false} LaterStep(steps: seq<Turn>, i: nat, t: nat)
    requires i < |steps| && steps[i] != Turn(t, Call)
    ensures HasCalled(steps, i, t) ==> HasCalled(steps, i + 1, t)
    ensures HasOpened(steps, i, t) ==> HasOpened(steps, i + 1, t)
    ensures HasWaited(steps, i, t) ==> HasWaited(steps, i + 1, t)
    ensures HasCalled(steps, i, t) && OpensRandom(steps, i, t) ==> HasOpened(steps, i + 1, t)
    ensures HasOpened(steps, i, t) && steps[i] == Turn(t, PollReady) ==> HasWaited(steps, i + 1, t)
  {
    forall c: nat | LastCall(steps, c, i, t)
      ensures LastCall(steps, c, i + 1, t)
    {
    }
    if c: nat, r: nat :| LastCall(steps, c, i, t) && c < r < i && OpensRandom(steps, r, t) {
      assert LastCall(steps, c, i + 1, t);
    }
    if c: nat, r: nat, p: nat :| LastCall(steps, c, i, t) && c < r < p < i && OpensRandom(steps, r, t) && steps[p] == Turn(t, PollReady) {
      assert LastCall(steps, c, i + 1, t);
    }
  }

  /** What the steps so far tell of a thread that is on its way to opening the file. */
  ghost predicate TraceInv(steps: seq<Turn>, i: nat, t: nat, pc: Pc) {
    match pc
    case Poll(_) => HasOpened(steps, i, t)
    case CloseRandom(_, failure) => failure.None? ==> HasWaited(steps, i, t)
    case OpenFile => HasWaited(steps, i, t)
    case StoreFd(_) => HasWaited(steps, i, t)
    case Idle => true
    case Unlock(_) => true
    case Done(_) => true
    case _ => HasCalled(steps, i, t)
  }

  /** Another thread's step leaves a thread where it is. */
  lemma OthersStay(s: State, t: nat, a: Action, u: nat)
    requires Next(s, t, a).Some? && u != t && u < |s.pcs|
    ensures |Next(s, t, a).value.pcs| == |s.pcs| && Next(s, t, a).value.pcs[u] == s.pcs[u]
  {
  }

  lemma {:induction false} TraceStep(steps: seq<Turn>, i: nat, s: State, t: nat)
    requires i < |steps| && steps[i].t == t && t < |s.pcs| && Next(s, t, steps[i].a).Some?
    requires TraceInv(steps, i, t, s.pcs[t])
    ensures |Next(s, t, steps[i].a).value.pcs| == |s.pcs| && TraceInv(steps, i + 1, t, Next(s, t, steps[i].a).value.pcs[t])
  {
    hide HasCalled, HasOpened, HasWaited;
    if steps[i] == Turn(t, Call) {
      JustCalled(steps, i, t);
    } else {
      LaterStep(steps, i, t);
    }
  }

  lemma {:induction false} TraceStays(steps: seq<Turn>, i: nat, t: nat, pc: Pc)
    requires i < |steps| && steps[i].t != t && TraceInv(steps, i, t, pc)
    ensures TraceInv(steps, i + 1, t, pc)
  {
    hide HasCalled, HasOpened, HasWaited;
    LaterStep(steps, i, t);
  }

  lemma {:induction false} SameThreads(states: seq<State>, steps: seq<Turn>, i: nat)
    requires IsRun(states, steps) && i < |steps|
    ensures |states[i + 1].pcs| == |states[i].pcs|
  {
    RunStep(states, steps, i);
  }

  lemma {:induction false} RunTrace(states: seq<State>, steps: seq<Turn>, i: nat, t: nat)
    requires IsRun(states, steps) && i < |states| && t < |states[i].pcs|
    ensures TraceInv(steps, i, t, states[i].pcs[t])
  {
    hide Next, TraceInv;
    if i == 0 {
      StartTrace(states[0], steps, t);
    } else {
      RunStep(states, steps, i - 1);
      SameThreads(states, steps, i - 1);
      RunTrace(states, steps, i - 1, t);
      if steps[i - 1].t == t {
        TraceStep(steps, i - 1, states[i - 1], t);
      } else {
        OthersStay(states[i - 1], steps[i - 1].t, steps[i - 1].a, t);
        TraceStays(steps, i - 1, t, states[i].pcs[t]);
      }
    }
  }

  lemma StartTrace(s: State, steps: seq<Turn>, t: nat)
    requires Init(s) && t < |s.pcs|
    ensures TraceInv(steps, 0, t, s.pcs[t])
  {
  }

  lemma {:induction false} JustCalled(steps: seq<Turn>, i: nat, t: nat)
    requires i < |steps| && steps[i] == Turn(t, Call)
    ensures HasCalled(steps, i + 1, t)
  {
    assert LastCall(steps, i, i + 1, t);
  }

  /** The file is only opened by a thread that, in the same call, opened /dev/random and saw it ready. */
  lemma {:induction false} OpenAfterWait(states: seq<State>, steps: seq<Turn>, i: nat)
    requires IsRun(states, steps) && i < |steps| && steps[i].a.FileOpened?
    ensures exists c: nat, r: nat, p: nat :: LastCall(steps, c, i, steps[i].t) && c < r < p < i
              && OpensRandom(steps, r, steps[i].t) && steps[p] == Turn(steps[i].t, PollReady)
  {
    RunStep(states, steps, i);
    RunTrace(states, steps, i, steps[i].t);
  }

  /** A published descriptor means that some thread has seen /dev/random ready. */
  lemma {:induction false} PublishedAfterWait(states: seq<State>, steps: seq<Turn>, i: nat)
    requires IsRun(states, steps) && i < |states| && states[i].fd != UNINIT
    ensures exists p: nat :: p < i && steps[p].a == PollReady
  {
    if i > 0 {
      RunStep(states, steps, i - 1);
      if states[i - 1].fd != UNINIT {
        PublishedAfterWait(states, steps, i - 1);
      } else {
        RunTrace(states, steps, i - 1, steps[i - 1].t);
      }
    }
  }

  ghost predicate FailsWith(a: Action, e: int) {
    a == RandomFailed(e) || a == PollFailed(e) || a == FileFailed(e)
  }

  /** On its way out with error `e`. */
  ghost predicate Failing(pc: Pc, e: int) {
    pc == Done(Err(e)) || pc == Unlock(Err(e)) || (pc.CloseRandom? && pc.failure == Some(e))
  }

  lemma FailureStarts(s: State, t: nat, a: Action, e: int)
    requires Next(s, t, a).Some? && FailsWith(a, e)
    ensures t < |Next(s, t, a).value.pcs| && Failing(Next(s, t, a).value.pcs[t], e) && Next(s, t, a).value.pcs[t] != Done(Err(e))
  {
  }

  lemma FailureGoesOn(s: State, t: nat, a: Action, e: int)
    requires t < |s.pcs| && Next(s, t, a).Some? && Failing(s.pcs[t], e) && a != Call
    ensures a == RandomClosed || a == Released
    ensures t < |Next(s, t, a).value.pcs| && Failing(Next(s, t, a).value.pcs[t], e)
    ensures a == Released <==> Next(s, t, a).value.pcs[t] == Done(Err(e))
    ensures s.pcs[t] != Done(Err(e))
  {
  }

  /**
   * After a failure the same call closes, unlocks and ends with that error: it takes no other step,
   * and having released the lock it is done.
   */
  lemma {:induction false} FailureEndsCall(states: seq<State>, steps: seq<Turn>, i: nat, j: nat, e: int)
    requires IsRun(states, steps) && i < j < |states| && FailsWith(steps[i].a, e)
    requires forall k :: i < k < j ==> steps[k] != Turn(steps[i].t, Call)
    ensures steps[i].t < |states[j].pcs|
    ensures forall k :: i < k < j && steps[k].t == steps[i].t ==> steps[k].a == RandomClosed || steps[k].a == Released
    ensures (exists k :: i < k < j && steps[k] == Turn(steps[i].t, Released)) <==> states[j].pcs[steps[i].t] == Done(Err(e))
    ensures Failing(states[j].pcs[steps[i].t], e)
  {
    hide Next, Failing, FailsWith;
    RunStep(states, steps, j - 1);
    var t := steps[i].t;
    if i == j - 1 {
      FailureStarts(states[i], t, steps[i].a, e);
    } else {
      FailureEndsCall(states, steps, i, j - 1, e);
      if steps[j - 1].t == t {
        FailureGoesOn(states[j - 1], t, steps[j - 1].a, e);
      } else {
        OthersStay(states[j - 1], steps[j - 1].t, steps[j - 1].a, t);
      }
    }
  }

  /** Every answer of the system is provided for, and a published descriptor is returned without the lock. */
  lemma {:induction false} AnswersAccepted(states: seq<State>, steps: seq<Turn>, i: nat, e: int, d: nat)
    requires IsRun(states, steps) && i < |steps|
    ensures var s, t := states[i + 1], steps[i].t;
            && (steps[i].a.RandomOpened? || steps[i].a == PollRetry ==>
                  Next(s, t, PollReady).Some? && Next(s, t, PollRetry).Some? && Next(s, t, PollFailed(e)).Some?)
            && (steps[i].a == LoadSlow && s.fd == UNINIT ==>
                  Next(s, t, RandomFailed(e)).Some? && (d !in s.open && d < FD_LIMIT ==> Next(s, t, RandomOpened(d)).Some?))
            && (i > 0 && steps[i - 1] == Turn(t, PollReady) && steps[i].a == RandomClosed ==>
                  Next(s, t, FileFailed(e)).Some? && (d !in s.open && d < FD_LIMIT ==> Next(s, t, FileOpened(d)).Some?))
            && (steps[i].a == LoadFast && s.fd != UNINIT ==> t < |s.pcs| && s.pcs[t] == Done(Ok(s.fd)))
  {
    RunStep(states, steps, i);
    if i > 0 {
      RunStep(states, steps, i - 1);
    }
  }

  // ---- progress --------------------------------------------------------------------------------

  /** As long as some call is under way, some thread can move on: there is no deadlock. */
  lemma NoDeadlock(s: State, t: nat)
    requires Inv(s) && t < |s.pcs| && !s.pcs[t].Idle? && !s.pcs[t].Done?
    ensures exists u, a :: a != Call && a != PollRetry && Next(s, u, a).Some?
  {
    assert ThreadInv(s, t);
    var u := if s.pcs[t].WaitLock? && s.holder.Some? then s.holder.value else t;
    assert ThreadInv(s, u);
    if s.pcs[u].WaitLock? {
      assert Next(s, u, Acquire).Some?;
    } else {
      CanMove(s, u);
    }
  }

  lemma CanMove(s: State, u: nat)
    requires Inv(s) && u < |s.pcs| && (s.pcs[u].FastLoad? || Critical(s.pcs[u]))
    ensures exists a :: a != Call && a != PollRetry && Next(s, u, a).Some?
  {
    var a := match s.pcs[u]
      case FastLoad => LoadFast
      case SlowLoad => LoadSlow
      case OpenRandom => RandomFailed(0)
      case Poll(_) => PollReady
      case CloseRandom(_, _) => RandomClosed
      case OpenFile => FileFailed(0)
      case StoreFd(_) => Stored
      case _ => Released;
    assert Next(s, u, a).Some?;
  }

  /** How many steps a thread has left at most, not counting retries of the poll. */
  function StepsLeft(pc: Pc): nat {
    match pc
    case FastLoad => 9
    case WaitLock => 8
    case SlowLoad => 7
    case OpenRandom => 6
    case Poll(_) => 5
    case CloseRandom(_, _) => 4
    case OpenFile => 3
    case StoreFd(_) => 2
    case Unlock(_) => 1
    case _ => 0
  }

  function AllStepsLeft(pcs: seq<Pc>): nat {
    if pcs == [] then 0 else AllStepsLeft(pcs[..|pcs| - 1]) + StepsLeft(pcs[|pcs| - 1])
  }

  lemma {:induction false} AllStepsUpdate(pcs: seq<Pc>, t: nat, pc: Pc)
    requires t < |pcs|
    ensures AllStepsLeft(pcs[t := pc]) + StepsLeft(pcs[t]) == AllStepsLeft(pcs) + StepsLeft(pc)
  {
    var n := |pcs| - 1;
    if t == n {
      assert pcs[t := pc][..n] == pcs[..n];
    } else {
      assert pcs[t := pc][..n] == pcs[..n][t := pc];
      AllStepsUpdate(pcs[..n], t, pc);
    }
  }

  /** Every step but a new call or a poll retry uses up one of the steps left: calls terminate. */
  lemma StepsRunOut(s: State, t: nat, a: Action)
    requires Next(s, t, a).Some? && a != Call && a != PollRetry
    ensures AllStepsLeft(Next(s, t, a).value.pcs) < AllStepsLeft(s.pcs)
  {
    var s' := Next(s, t, a).value;
    AllStepsUpdate(s.pcs, t, s'.pcs[t]);
  }
}

/** util.rs: a lazily initialised cell without a lock, in any interleaving of its callers. */
module LazyInit {
  import opened Options

  const UNINIT: nat := 0xFFFF_FFFF_FFFF_FFFF

  /** Where a caller is in `unsync_init`; `ran`: it ran `init` itself. */
  datatype Pc = Idle | Load | RunInit | StoreCell(val: nat) | Done(val: nat, ran: bool)

  /** `results` holds what the completed runs of `init` returned. */
  datatype State = State(cell: nat, results: set<nat>, pcs: seq<Pc>)

  datatype Action = Call | Loaded | InitReturned(val: nat) | Stored

  datatype Turn = Turn(t: nat, a: Action)

  function Next(s: State, t: nat, a: Action): Option<State> {
    if t >= |s.pcs| then None
    else
      match (s.pcs[t], a)
      case (Idle, Call) => Some(s.(pcs := s.pcs[t := Load]))
      case (Done(_, _), Call) => Some(s.(pcs := s.pcs[t := Load]))
      case (Load, Loaded) => Some(s.(pcs := s.pcs[t := if s.cell == UNINIT then RunInit else Done(s.cell, false)]))
      case (RunInit, InitReturned(v)) =>
        if v > UNINIT then None else Some(s.(pcs := s.pcs[t := StoreCell(v)], results := s.results + {v}))
      case (StoreCell(v), Stored) => Some(s.(pcs := s.pcs[t := Done(v, true)], cell := v))
      case _ => None
  }

  predicate Init(s: State) {
    s.cell == UNINIT && s.results == {} && forall t :: 0 <= t < |s.pcs| ==> s.pcs[t] == Idle
  }

  ghost predicate IsRun(states: seq<State>, steps: seq<Turn>) {
    && |states| == |steps| + 1 && Init(states[0])
    && forall i :: 0 <= i < |steps| ==> Next(states[i], steps[i].t, steps[i].a) == Some(states[i + 1])
  }

  ghost predicate CallerInv(s: State, t: nat)
    requires t < |s.pcs|
  {
    match s.pcs[t]
    case StoreCell(v) => v in s.results
    case Done(v, ran) => v in s.results && (!ran ==> v != UNINIT)
    case _ => true
  }

  ghost predicate Inv(s: State) {
    && (s.cell == UNINIT || s.cell in s.results)
    && forall t :: 0 <= t < |s.pcs| ==> CallerInv(s, t)
  }

  lemma StepInv(s: State, t: nat, a: Action)
    requires Inv(s) && Next(s, t, a).Some?
    ensures Inv(Next(s, t, a).value)
    ensures s.results <= Next(s, t, a).value.results
  {
    var s' := Next(s, t, a).value;
    forall u | 0 <= u < |s'.pcs|
      ensures CallerInv(s', u)
    {
      assert CallerInv(s, u);
    }
    assert CallerInv(s, t);
  }

  lemma RunStep(states: seq<State>, steps: seq<Turn>, i: nat)
    requires IsRun(states, steps) && i < |steps|
    ensures Next(states[i], steps[i].t, steps[i].a) == Some(states[i + 1])
  {
  }

  lemma {:induction false} RunInv(states: seq<State>, steps: seq<Turn>, i: nat)
    requires IsRun(states, steps) && i < |states|
    ensures Inv(states[i])
  {
    if i > 0 {
      RunInv(states, steps, i - 1);
      RunStep(states, steps, i - 1);
      StepInv(states[i - 1], steps[i - 1].t, steps[i - 1].a);
    }
  }

  lemma {:induction false} ResultsGrow(states: seq<State>, steps: seq<Turn>, i: nat, j: nat)
    requires IsRun(states, steps) && i <= j < |states|
    ensures states[i].results <= states[j].results
  {
    if i < j {
      ResultsGrow(states, steps, i, j - 1);
      RunInv(states, steps, j - 1);
      RunStep(states, steps, j - 1);
      StepInv(states[j - 1], steps[j - 1].t, steps[j - 1].a);
    }
  }

  /**
   * Every returned value is what some completed run of `init` returned. If all successful runs
   * agree on `v`, the cell holds nothing or `v`, and a caller gets `v` unless its own run failed.
   */
  lemma CallersGetResults(states: seq<State>, steps: seq<Turn>, i: nat, t: nat, v: nat)
    requires IsRun(states, steps) && i < |states| && t < |states[i].pcs| && states[i].pcs[t].Done?
    ensures states[i].pcs[t].val in states[i].results
    ensures states[i].results <= {v, UNINIT} ==>
              && (states[i].cell == UNINIT || states[i].cell == v)
              && (states[i].pcs[t].val == v || (states[i].pcs[t].val == UNINIT && states[i].pcs[t].ran))
  {
    RunInv(states, steps, i);
    assert CallerInv(states[i], t);
  }

  /** If `init` never fails, a filled cell stays filled. */
  lemma {:induction false} NeverEmptied(states: seq<State>, steps: seq<Turn>, i: nat, j: nat)
    requires IsRun(states, steps) && i <= j < |states|
    requires states[i].cell != UNINIT && UNINIT !in states[j].results
    ensures states[j].cell != UNINIT
  {
    if i < j {
      ResultsGrow(states, steps, j - 1, j);
      NeverEmptied(states, steps, i, j - 1);
      RunInv(states, steps, j);
      RunStep(states, steps, j - 1);
      RunInv(states, steps, j - 1);
      assert CallerInv(states[j - 1], steps[j - 1].t);
    }
  }

  // ---- when a cached value lasts ----------------------------------------------------------------

  /** An execution with `n` callers in which every run of `init` returns one of `outcomes`. */
  ghost predicate RunOf(states: seq<State>, steps: seq<Turn>, n: nat, outcomes: set<nat>) {
    && IsRun(states, steps)
    && |states[0].pcs| == n
    && forall k :: 0 <= k < |steps| && steps[k].a.InitReturned? ==> steps[k].a.val in outcomes
  }

  /** Once the cell holds a value it holds that value forever. */
  ghost predicate KeepsValue(states: seq<State>) {
    forall i, j :: 0 <= i <= j < |states| && states[i].cell != UNINIT ==> states[j].cell == states[i].cell
  }

  /** Once the cell holds a value it is never empty again. */
  ghost predicate StaysFilled(states: seq<State>) {
    forall i, j :: 0 <= i <= j < |states| && states[i].cell != UNINIT ==> states[j].cell != UNINIT
  }

  lemma {:induction false} ResultsAreOutcomes(states: seq<State>, steps: seq<Turn>, n: nat, outcomes: set<nat>, i: nat)
    requires RunOf(states, steps, n, outcomes) && i < |states|
    ensures states[i].results <= outcomes && |states[i].pcs| == n
  {
    if i > 0 {
      ResultsAreOutcomes(states, steps, n, outcomes, i - 1);
      RunStep(states, steps, i - 1);
    }
  }

  /** A single caller only ever runs `init` and stores while the cell is empty. */
  lemma {:induction false} AloneOnlyFillsEmpty(states: seq<State>, steps: seq<Turn>, i: nat)
    requires IsRun(states, steps) && i < |states| && |states[0].pcs| == 1
    ensures |states[i].pcs| == 1
    ensures states[i].pcs[0].RunInit? || states[i].pcs[0].StoreCell? ==> states[i].cell == UNINIT
  {
    if i > 0 {
      AloneOnlyFillsEmpty(states, steps, i - 1);
      RunStep(states, steps, i - 1);
    }
  }

  /** Alone, or with one possible outcome, no step replaces a value in the cell. */
  lemma StepKeeps(states: seq<State>, steps: seq<Turn>, n: nat, outcomes: set<nat>, i: nat)
    requires RunOf(states, steps, n, outcomes) && i < |steps| && states[i].cell != UNINIT
    ensures n <= 1 || |outcomes| <= 1 ==> states[i + 1].cell == states[i].cell
    ensures UNINIT !in outcomes ==> states[i + 1].cell != UNINIT
  {
    RunStep(states, steps, i);
    RunInv(states, steps, i);
    ResultsAreOutcomes(states, steps, n, outcomes, i);
    assert CallerInv(states[i], steps[i].t);
    if n == 1 {
      AloneOnlyFillsEmpty(states, steps, i);
    } else if |outcomes| <= 1 {
      AtMostOne(outcomes);
    }
  }

  lemma AtMostOne(s: set<nat>)
    requires |s| <= 1
    ensures forall a, b :: a in s && b in s ==> a == b
  {
    forall a, b | a in s && b in s
      ensures a == b
    {
      if a != b {
        assert {a, b} <= s;
        SubsetSize({a, b}, s);
      }
    }
  }

  lemma {:induction false} SubsetSize(a: set<nat>, b: set<nat>)
    requires a <= b
    ensures |a| <= |b|
  {
    assert b == a + (b - a);
  }

  lemma {:induction false} LastsFrom(states: seq<State>, steps: seq<Turn>, n: nat, outcomes: set<nat>, i: nat, j: nat)
    requires RunOf(states, steps, n, outcomes) && i <= j < |states| && states[i].cell != UNINIT
    ensures n <= 1 || |outcomes| <= 1 ==> states[j].cell == states[i].cell
    ensures UNINIT !in outcomes ==> states[j].cell != UNINIT
  {
    if i < j && (n <= 1 || |outcomes| <= 1 || UNINIT !in outcomes) {
      LastsFrom(states, steps, n, outcomes, i, j - 1);
      StepKeeps(states, steps, n, outcomes, j - 1);
    }
  }

  /** Two callers that both found the cell empty: the second to finish overwrites the first's value. */
  lemma Overwrites(n: nat, v: nat, w: nat) returns (states: seq<State>, steps: seq<Turn>)
    requires n >= 2 && v < UNINIT && w <= UNINIT
    ensures RunOf(states, steps, n, {v, w})
    ensures |states| == 9 && states[6].cell == v && states[8].cell == w
  {
    steps := [Turn(0, Call), Turn(1, Call), Turn(0, Loaded), Turn(1, Loaded), Turn(0, InitReturned(v)), Turn(0, Stored),
              Turn(1, InitReturned(w)), Turn(1, Stored)];
    var idle := seq(n - 2, _ => Idle);
    var s0 := State(UNINIT, {}, [Idle, Idle] + idle);
    var s1 := s0.(pcs := [Load, Idle] + idle);
    var s2 := s0.(pcs := [Load, Load] + idle);
    var s3 := s0.(pcs := [RunInit, Load] + idle);
    var s4 := s0.(pcs := [RunInit, RunInit] + idle);
    var s5 := State(UNINIT, {v}, [StoreCell(v), RunInit] + idle);
    var s6 := State(v, {v}, [Done(v, true), RunInit] + idle);
    var s7 := State(v, {v, w}, [Done(v, true), StoreCell(w)] + idle);
    var s8 := State(w, {v, w}, [Done(v, true), Done(w, true)] + idle);
    states := [s0, s1, s2, s3, s4, s5, s6, s7, s8];
    assert Next(s0, 0, Call).value == s1;
    assert Next(s1, 1, Call).value == s2;
    assert Next(s2, 0, Loaded).value == s3;
    assert Next(s3, 1, Loaded).value == s4;
    assert Next(s4, 0, InitReturned(v)).value == s5;
    assert Next(s5, 0, Stored).value == s6;
    assert Next(s6, 1, InitReturned(w)).value == s7;
    assert Next(s7, 1, Stored).value == s8;
  }

  lemma FewerOutcomes(states: seq<State>, steps: seq<Turn>, n: nat, some: set<nat>, outcomes: set<nat>)
    requires RunOf(states, steps, n, some) && some <= outcomes
    ensures RunOf(states, steps, n, outcomes)
  {
  }

  /**
   * The stated promise, that after a success every later call finds the cached value, is kept in all
   * executions exactly if there is at most one caller or `init` has at most one possible outcome.
   */
  lemma CachedValueLasts(n: nat, outcomes: set<nat>)
    requires forall v :: v in outcomes ==> v <= UNINIT
    ensures (forall states: seq<State>, steps: seq<Turn> :: RunOf(states, steps, n, outcomes) ==> KeepsValue(states)) <==> n <= 1 || |outcomes| <= 1
  {
    if n <= 1 || |outcomes| <= 1 {
      forall states: seq<State>, steps: seq<Turn> | RunOf(states, steps, n, outcomes)
        ensures KeepsValue(states)
      {
        forall i, j | 0 <= i <= j < |states| && states[i].cell != UNINIT
          ensures states[j].cell == states[i].cell
        {
          LastsFrom(states, steps, n, outcomes, i, j);
        }
      }
    } else {
      var a :| a in outcomes;
      var b := OtherThan(outcomes, a);
      var v, w := if a == UNINIT then b else a, if a == UNINIT then a else b;
      var states, steps := Overwrites(n, v, w);
      FewerOutcomes(states, steps, n, {v, w}, outcomes);
      assert !KeepsValue(states) by {
        assert states[6].cell != UNINIT && states[8].cell != states[6].cell;
      }
    }
  }

  lemma OtherThan(s: set<nat>, a: nat) returns (b: nat)
    requires a in s && |s| >= 2
    ensures b in s && b != a
  {
    if s <= {a} {
      SubsetSize(s, {a});
      assert false;
    }
    b :| b in s && b != a;
  }

  /**
   * In all executions a filled cell stays filled exactly if there is at most one caller, or `init`
   * never fails, or it always fails.
   */
  lemma EmptiedByFailure(n: nat, outcomes: set<nat>)
    requires forall v :: v in outcomes ==> v <= UNINIT
    ensures (forall states: seq<State>, steps: seq<Turn> :: RunOf(states, steps, n, outcomes) ==> StaysFilled(states)) <==>
              n <= 1 || UNINIT !in outcomes || outcomes == {UNINIT}
  {
    if n <= 1 || UNINIT !in outcomes || outcomes == {UNINIT} {
      forall states: seq<State>, steps: seq<Turn> | RunOf(states, steps, n, outcomes)
        ensures StaysFilled(states)
      {
        forall i, j | 0 <= i <= j < |states| && states[i].cell != UNINIT
          ensures states[j].cell != UNINIT
        {
          LastsFrom(states, steps, n, outcomes, i, j);
        }
      }
    } else {
      var v :| v in outcomes && v != UNINIT;
      var states, steps := Overwrites(n, v, UNINIT);
      FewerOutcomes(states, steps, n, {v, UNINIT}, outcomes);
      assert !StaysFilled(states) by {
        assert states[6].cell != UNINIT && states[8].cell == UNINIT;
      }
    }
  }

  /** `LazyBool`: its `init` returns 0 or 1, so it cannot fail. */
  function BoolOf(val: nat): bool {
    val != 0
  }

  lemma LazyBoolCallers(states: seq<State>, steps: seq<Turn>, i: nat, j: nat, t: nat)
    requires IsRun(states, steps) && i <= j < |states| && t < |states[j].pcs| && states[j].pcs[t].Done?
    requires states[j].results <= {0, 1}
    ensures (if BoolOf(states[j].pcs[t].val) then 1 else 0) in states[j].results
    ensures states[i].cell != UNINIT ==> states[j].cell != UNINIT
  {
    CallersGetResults(states, steps, j, t, 0);
    if states[i].cell != UNINIT {
      NeverEmptied(states, steps, i, j);
    }
  }
}

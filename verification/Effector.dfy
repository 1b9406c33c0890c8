/** effector.rs: combining the effects of the policies one by one, stopping as soon as possible. */
module Effector {
  import opened Options

  datatype EffectKind = Allow | Indeterminate | Deny

  /** The four supported effect expressions, in the order of `new_stream`. */
  datatype EffectExpr =
    | SomeAllow
    | AllowAndNoDeny
    | PriorityOrDeny
    | NoDeny
    | Unsupported(text: string)

  // ---- what an expression means ----------------------------------------------------------------

  /** The meaning of an expression over the effects of all policies. */
  predicate Meaning(expr: EffectExpr, effects: seq<EffectKind>) {
    match expr
    case SomeAllow => Allow in effects
    case AllowAndNoDeny => Allow in effects && Deny !in effects
    case NoDeny => Deny !in effects
    case PriorityOrDeny => exists i :: 0 <= i < |effects| && effects[i] == Allow && FirstDeterminate(effects, i)
    case Unsupported(_) => false
  }

  predicate FirstDeterminate(effects: seq<EffectKind>, i: nat) {
    forall j :: 0 <= j < i && j < |effects| ==> effects[j] == Indeterminate
  }

  /** After this effect no later one can change the meaning. */
  predicate Decides(expr: EffectExpr, eft: EffectKind) {
    match expr
    case SomeAllow => eft == Allow
    case AllowAndNoDeny => eft == Deny
    case NoDeny => eft == Deny
    case PriorityOrDeny => eft != Indeterminate
    case Unsupported(_) => false
  }

  ghost predicate Undecided(expr: EffectExpr, effects: seq<EffectKind>, k: int) {
    forall j :: 0 <= j < k && j < |effects| ==> !Decides(expr, effects[j])
  }

  lemma FirstIsUnique(effects: seq<EffectKind>, i: nat, k: nat)
    requires i < |effects| && k < |effects| && effects[i] != Indeterminate && effects[k] != Indeterminate
    requires FirstDeterminate(effects, i) && Undecided(PriorityOrDeny, effects, k)
    ensures i == k
  {
    if i < k {
      UndecidedAt(PriorityOrDeny, effects, k, i);
      assert false;
    }
  }

  lemma UndecidedAt(expr: EffectExpr, effects: seq<EffectKind>, k: nat, i: nat)
    requires Undecided(expr, effects, k) && i < k && i < |effects|
    ensures !Decides(expr, effects[i])
  {
  }

  /** The effects behind a deciding one do not matter. */
  lemma DecidedEarly(expr: EffectExpr, effects: seq<EffectKind>, k: nat)
    requires k < |effects| && Decides(expr, effects[k]) && Undecided(expr, effects, k)
    ensures Meaning(expr, effects) == Meaning(expr, effects[..k + 1])
  {
    var front := effects[..k + 1];
    assert front[k] == effects[k];
    assert forall j :: 0 <= j <= k ==> front[j] == effects[j];
    if expr.PriorityOrDeny? {
      forall i | 0 <= i < |effects| && effects[i] == Allow && FirstDeterminate(effects, i)
        ensures i == k
      {
        FirstIsUnique(effects, i, k);
      }
      assert FirstDeterminate(effects, k) && FirstDeterminate(front, k);
    }
  }

  // ---- the stream ------------------------------------------------------------------------------

  datatype StreamState = StreamState(done: bool, res: bool, idx: nat, expl: seq<nat>)

  /** The policies named in an explanation: those whose effect moved the result. */
  predicate Explains(expr: EffectExpr, eft: EffectKind) {
    match expr
    case SomeAllow => eft == Allow
    case AllowAndNoDeny => eft != Indeterminate
    case NoDeny => eft == Deny
    case _ => false
  }

  function Explained(expr: EffectExpr, effects: seq<EffectKind>): seq<nat> {
    if effects == [] then []
    else
      var n := |effects| - 1;
      Explained(expr, effects[..n]) + if Explains(expr, effects[n]) then [n] else []
  }

  /** The explanation lists, in order, exactly the policies whose effect moved the result. */
  lemma {:induction false} ExplainedAre(expr: EffectExpr, effects: seq<EffectKind>)
    ensures var e := Explained(expr, effects);
            && (forall a, b :: 0 <= a < b < |e| ==> e[a] < e[b])
            && (forall k :: k in e ==> k < |effects|)
            && forall k: nat :: k in e <==>
                 k < |effects| && ((expr.SomeAllow? && effects[k] == Allow) || (expr.NoDeny? && effects[k] == Deny)
                                   || (expr.AllowAndNoDeny? && effects[k] != Indeterminate))
  {
    if effects != [] {
      var n := |effects| - 1;
      ExplainedAre(expr, effects[..n]);
      var e, front := Explained(expr, effects), Explained(expr, effects[..n]);
      assert forall k: nat :: k in e <==> k in front || (k == n && Explains(expr, effects[n]));
      forall a, b | 0 <= a < b < |e|
        ensures e[a] < e[b]
      {
        assert e[a] in front && (b < |front| ==> e[b] == front[b]);
      }
    }
  }

  function InitialState(expr: EffectExpr): StreamState {
    StreamState(false, expr.NoDeny?, 0, [])
  }

  /** What one `push_effect` makes of the state. */
  function Pushed(st: StreamState, expr: EffectExpr, cap: nat, eft: EffectKind): StreamState {
    var decided := Decides(expr, eft);
    var res := if expr.AllowAndNoDeny? && eft == Allow then true
               else if decided then eft == Allow
               else st.res;
    var expl := if Explains(expr, eft) && cap > 1 then st.expl + [st.idx] else st.expl;
    if st.idx + 1 == cap then StreamState(true, res, cap, expl)
    else StreamState(st.done || decided, res, st.idx + 1, expl)
  }

  function Fold(expr: EffectExpr, cap: nat, effects: seq<EffectKind>): StreamState {
    if effects == [] then InitialState(expr)
    else Pushed(Fold(expr, cap, effects[..|effects| - 1]), expr, cap, effects[|effects| - 1])
  }

  /**
   * As long as nothing has decided before the last effect, the stream holds the meaning of what it
   * has seen, and it is done exactly when the last effect decides or was the last one expected.
   */
  lemma {:induction false} FoldIs(expr: EffectExpr, cap: nat, effects: seq<EffectKind>)
    requires !expr.Unsupported? && |effects| <= cap && cap > 0
    requires Undecided(expr, effects, |effects| - 1)
    ensures var st := Fold(expr, cap, effects);
            && st.res == Meaning(expr, effects)
            && (effects != [] ==> (st.done <==> Decides(expr, effects[|effects| - 1]) || |effects| == cap))
            && (effects == [] ==> !st.done)
            && st.idx == |effects|
            && st.expl == if cap > 1 then Explained(expr, effects) else []
  {
    if effects != [] {
      var n := |effects| - 1;
      var front, last := effects[..n], effects[n];
      assert effects == front + [last];
      FoldIs(expr, cap, front);
      if n > 0 {
        assert !Decides(expr, effects[n - 1]);
      }
      MeaningSnoc(expr, front, last);
    }
  }

  lemma MeaningSnoc(expr: EffectExpr, front: seq<EffectKind>, last: EffectKind)
    requires !expr.Unsupported? && Undecided(expr, front, |front|)
    ensures Meaning(expr, front + [last]) ==
              if expr.AllowAndNoDeny? && last == Allow then true
              else if Decides(expr, last) then last == Allow
              else Meaning(expr, front)
  {
    var all := front + [last];
    assert forall j :: 0 <= j < |front| ==> all[j] == front[j] && !Decides(expr, front[j]);
    assert all[|front|] == last;
    if expr.PriorityOrDeny? {
      assert forall j :: 0 <= j < |front| ==> front[j] == Indeterminate;
      assert FirstDeterminate(all, |front|);
    } else if Deny in front {
      var j :| 0 <= j < |front| && front[j] == Deny;
      assert !Decides(expr, front[j]);
    }
  }

  class DefaultEffectStream {
    var done: bool
    var res: bool
    var idx: nat
    var expl: seq<nat>
    const expr: EffectExpr
    const cap: nat

    ghost function State(): StreamState
      reads this
    {
      StreamState(done, res, idx, expl)
    }

    constructor (expr: EffectExpr, cap: nat)
      ensures this.expr == expr && this.cap == cap && State() == InitialState(expr)
    {
      this.expr, this.cap := expr, cap;
      done, res, idx, expl := false, expr.NoDeny?, 0, [];
    }

    method PushIndex()
      modifies this`expl
      ensures expl == if cap > 1 then old(expl) + [idx] else old(expl)
    {
      if cap > 1 {
        expl := expl + [idx];
      }
    }

    /** Takes in one effect; true once the result is final. */
    method PushEffect(eft: EffectKind) returns (r: bool)
      modifies this
      ensures State() == Pushed(old(State()), expr, cap, eft)
      ensures r == done
    {
      if expr.SomeAllow? {
        if eft == Allow {
          done := true;
          res := true;
          PushIndex();
        }
      } else if expr.AllowAndNoDeny? {
        if eft == Allow {
          res := true;
          PushIndex();
        } else if eft == Deny {
          done := true;
          res := false;
          PushIndex();
        }
      } else if expr.NoDeny? {
        if eft == Deny {
          done := true;
          res := false;
          PushIndex();
        }
      } else if expr.PriorityOrDeny? && eft != Indeterminate {
        if eft == Allow {
          res := true;
        } else {
          res := false;
        }
        done := true;
      }
      if idx + 1 == cap {
        done := true;
        idx := cap;
      } else {
        idx := idx + 1;
      }
      r := done;
    }

    /** The result; the original asserts that it is final. */
    method Next() returns (r: bool)
      requires done
      ensures r == res
    {
      r := res;
    }

    method Explain() returns (r: Option<seq<nat>>)
      requires done
      ensures r == if expl == [] then None else Some(expl)
    {
      r := if expl == [] then None else Some(expl);
    }
  }

  /** None where the original panics: the expression is not one of the four. */
  method NewStream(expr: EffectExpr, cap: nat) returns (r: Option<DefaultEffectStream>)
    requires cap > 0
    ensures r.None? <==> expr.Unsupported?
    ensures r.Some? ==> fresh(r.value) && r.value.expr == expr && r.value.cap == cap && r.value.State() == Fold(expr, cap, [])
  {
    if expr.Unsupported? {
      return None;
    }
    var s := new DefaultEffectStream(expr, cap);
    r := Some(s);
  }
}

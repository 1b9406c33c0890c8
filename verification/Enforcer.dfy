/** enforcer.rs: the loop that evaluates the policies and drives the effect stream. */
module Enforcer {
  import opened Options
  import opened Effector

  datatype EnforceError =
    | MissingSection(key: char)
    | UnmatchRequestDefinition
    | UnmatchPolicyDefinition
    | CompileError
    | EvalError

  datatype EnforceResult =
    | Decision(allowed: bool, explanation: Option<seq<nat>>)
    | Error(error: EnforceError)
    | Panic

  /** The matcher of the model, evaluated on the values of one policy; None where evaluation fails. */
  type Matcher = seq<string> -> Option<bool>

  /** What the enforcer looks up before the loop. */
  datatype Setting = Setting(
    enabled: bool,
    missing: Option<char>,
    requestTokens: nat,
    policyTokens: seq<string>,
    policies: seq<seq<string>>,
    expr: EffectExpr,
    compiles: bool,
    matcher: Matcher)

  datatype StepResult = Effect(eft: EffectKind) | Fails(error: EnforceError)

  /** The first position of `x`. */
  function Position(tokens: seq<string>, x: string): (r: Option<nat>)
    ensures r.Some? ==> r.value < |tokens| && tokens[r.value] == x
    ensures r.None? <==> x !in tokens
  {
    if tokens == [] then None
    else if tokens[0] == x then Some(0)
    else
      match Position(tokens[1..], x)
      case None => None
      case Some(j) => Some(j + 1)
  }

  /** The effect of one policy, or the error its evaluation raises. */
  function StepOf(s: Setting, pvals: seq<string>): StepResult {
    if |s.policyTokens| != |pvals| then Fails(UnmatchPolicyDefinition)
    else
      match s.matcher(pvals)
      case None => Fails(EvalError)
      case Some(false) => Effect(Indeterminate)
      case Some(true) =>
        match Position(s.policyTokens, "p_eft")
        case None => Effect(Allow)
        case Some(j) =>
          Effect(if pvals[j] == "deny" then Deny else if pvals[j] == "allow" then Allow else Indeterminate)
  }

  /** Policy values that match, under a matcher that says so, and carry the effect `word`. */
  ghost predicate MatchesWith(s: Setting, pvals: seq<string>, word: string) {
    && |pvals| == |s.policyTokens| && s.matcher(pvals) == Some(true)
    && exists j :: 0 <= j < |pvals| && s.policyTokens[j] == "p_eft" && pvals[j] == word
         && forall k :: 0 <= k < j ==> s.policyTokens[k] != "p_eft"
  }

  lemma {:induction false} FirstPosition(tokens: seq<string>, x: string, j: nat)
    requires j < |tokens| && tokens[j] == x && forall k :: 0 <= k < j ==> tokens[k] != x
    ensures Position(tokens, x) == Some(j)
  {
    if j > 0 {
      FirstPosition(tokens[1..], x, j - 1);
    }
  }

  /**
   * The effect of a policy, from its fields: what its first `p_eft` value says if it matches, or allow
   * if there is no such field; nothing if it does not match.
   */
  lemma {:induction false} StepOfPolicy(s: Setting, pvals: seq<string>)
    ensures |pvals| != |s.policyTokens| <==> StepOf(s, pvals) == Fails(UnmatchPolicyDefinition)
    ensures StepOf(s, pvals) == Fails(EvalError) <==> |pvals| == |s.policyTokens| && s.matcher(pvals) == None
    ensures StepOf(s, pvals) == Effect(Deny) <==> MatchesWith(s, pvals, "deny")
    ensures StepOf(s, pvals) == Effect(Allow) <==>
              || MatchesWith(s, pvals, "allow")
              || (|pvals| == |s.policyTokens| && s.matcher(pvals) == Some(true) && "p_eft" !in s.policyTokens)
  {
    if |pvals| == |s.policyTokens| {
      if "p_eft" in s.policyTokens {
        var j := FirstOf(s.policyTokens, "p_eft");
        FirstPosition(s.policyTokens, "p_eft", j);
      }
      forall j: nat | j < |pvals| && s.policyTokens[j] == "p_eft" && forall k :: 0 <= k < j ==> s.policyTokens[k] != "p_eft"
        ensures Position(s.policyTokens, "p_eft") == Some(j)
      {
        FirstPosition(s.policyTokens, "p_eft", j);
      }
    }
  }

  lemma {:induction false} FirstOf(tokens: seq<string>, x: string) returns (j: nat)
    requires x in tokens
    ensures j < |tokens| && tokens[j] == x && forall k :: 0 <= k < j ==> tokens[k] != x
  {
    if tokens[0] == x {
      j := 0;
    } else {
      var i := FirstOf(tokens[1..], x);
      j := i + 1;
      assert forall k :: 0 < k < j ==> tokens[k] == tokens[1..][k - 1];
    }
  }

  /** One matching policy that denies is enough to be refused, wherever a deny counts. */
  lemma {:induction false} OneDenyRefuses(s: Setting, effects: seq<EffectKind>, i: nat)
    requires Completes(s, effects) && i < |s.policies| && MatchesWith(s, s.policies[i], "deny")
    requires s.expr.NoDeny? || s.expr.AllowAndNoDeny?
    ensures !Meaning(s.expr, effects)
  {
    StepOfPolicy(s, s.policies[i]);
    assert effects[i] == Deny;
  }

  /** The loop stops with the error of policy `i`: nothing before it fails or decides. */
  ghost predicate FailsAt(s: Setting, i: nat, e: EnforceError) {
    && i < |s.policies|
    && StepOf(s, s.policies[i]) == Fails(e)
    && forall j :: 0 <= j < i ==> StepOf(s, s.policies[j]).Effect? && !Decides(s.expr, StepOf(s, s.policies[j]).eft)
  }

  ghost predicate FailsWith(s: Setting, e: EnforceError) {
    exists i: nat :: FailsAt(s, i, e)
  }

  /** `effects` are the effects of the policies, whatever one puts for those that fail. */
  ghost predicate Completes(s: Setting, effects: seq<EffectKind>) {
    && |effects| == |s.policies|
    && forall i :: 0 <= i < |effects| && StepOf(s, s.policies[i]).Effect? ==> effects[i] == StepOf(s, s.policies[i]).eft
  }

  /** The checks made before any policy is looked at. */
  function Prechecked(s: Setting, rvals: nat): Option<EnforceResult> {
    if !s.enabled then Some(Decision(true, None))
    else if s.missing.Some? then Some(Error(MissingSection(s.missing.value)))
    else if s.requestTokens != rvals then Some(Error(UnmatchRequestDefinition))
    else if s.expr.Unsupported? then Some(Panic)
    else if !s.compiles then Some(Error(CompileError))
    else None
  }

  function EmptyValues(n: nat): seq<string> {
    seq(n, _ => "")
  }

  /**
   * Past the checks: the call fails exactly with the first error before a deciding policy; and a
   * decision is the meaning of the effect expression over all policies, including the ones behind
   * the early exit, whatever effect a policy that would have failed is given.
   */
  method PrivateEnforce(s: Setting, rvals: nat) returns (r: EnforceResult)
    ensures Prechecked(s, rvals).Some? ==> r == Prechecked(s, rvals).value
    ensures Prechecked(s, rvals).None? && s.policies != [] ==>
              && (forall e :: r == Error(e) <==> FailsWith(s, e))
              && !r.Panic?
              && (r.Decision? ==> forall effects :: Completes(s, effects) ==> r.allowed == Meaning(s.expr, effects))
              && (r.Decision? ==> exists seen :: ExplainedBy(s, seen, r.explanation))
    ensures !s.enabled ==> r == Decision(true, None)
    ensures s.enabled && s.missing.Some? ==> r == Error(MissingSection(s.missing.value))
    ensures s.enabled && s.missing.None? && s.requestTokens != rvals ==> r == Error(UnmatchRequestDefinition)
    ensures s.enabled && s.missing.None? && s.requestTokens == rvals && s.expr.Unsupported? ==> r == Panic
    ensures s.enabled && s.missing.None? && s.requestTokens == rvals && !s.expr.Unsupported? ==>
              (Prechecked(s, rvals).None? <==> s.compiles) && (!s.compiles ==> r == Error(CompileError))
    ensures Prechecked(s, rvals).None? && s.policies == [] ==>
              r == match s.matcher(seq(|s.policyTokens|, _ => ""))
                   case None => Error(EvalError)
                   case Some(b) => Decision(Meaning(s.expr, [if b then Allow else Indeterminate]), None)
  {
    if !s.enabled {
      return Decision(true, None);
    }
    if s.missing.Some? {
      return Error(MissingSection(s.missing.value));
    }
    if s.requestTokens != rvals {
      return Error(UnmatchRequestDefinition);
    }
    var cap := if |s.policies| >= 1 then |s.policies| else 1;
    var created := NewStream(s.expr, cap);
    if created.None? {
      return Panic;
    }
    var stream := created.value;
    if !s.compiles {
      return Error(CompileError);
    }
    if |s.policies| == 0 {
      var result := s.matcher(EmptyValues(|s.policyTokens|));
      if result.None? {
        return Error(EvalError);
      }
      var eft := if result.value then Allow else Indeterminate;
      var _ := stream.PushEffect(eft);
      FoldIs(s.expr, cap, [eft]);
      assert [eft][..0] == [];
      var allowed := stream.Next();
      return Decision(allowed, None);
    }
    r := EnforceLoop(s, stream);
  }

  /** The loop over the policies. */
  method EnforceLoop(s: Setting, stream: DefaultEffectStream) returns (r: EnforceResult)
    requires s.policies != [] && !s.expr.Unsupported?
    requires stream.expr == s.expr && stream.cap == |s.policies| && stream.State() == Fold(s.expr, |s.policies|, [])
    modifies stream
    ensures forall e :: r == Error(e) <==> FailsWith(s, e)
    ensures !r.Panic?
    ensures r.Decision? ==> forall effects :: Completes(s, effects) ==> r.allowed == Meaning(s.expr, effects)
    ensures r.Decision? ==> exists seen :: ExplainedBy(s, seen, r.explanation)
  {
    hide Meaning, Explained, Pushed, Decides, FailsAt, Completes;
    ghost var n := |s.policies|;
    ghost var seen := [];
    NoneSeen(s);
    for i := 0 to |s.policies|
      invariant |seen| == i && SeenIs(s, seen)
      invariant Undecided(s.expr, seen, i)
      invariant stream.State() == Fold(s.expr, n, seen)
      invariant !stream.done
    {
      var pvals := s.policies[i];
      var step := StepOf(s, pvals);
      if step.Fails? {
        FirstFailure(s, seen, step.error);
        OneFailure(s, i, step.error);
        return Error(step.error);
      }
      SeenSnoc(s, seen, step.eft);
      ghost var front := seen;
      seen := seen + [step.eft];
      assert seen[..i] == front;
      FoldIs(s.expr, n, seen);
      var done := stream.PushEffect(step.eft);
      if done {
        break;
      }
    }
    if !stream.done {
      FoldIs(s.expr, n, seen);
      assert false;
    }
    Settled(s, seen);
    var allowed := stream.Next();
    var explanation := stream.Explain();
    assert ExplainedBy(s, seen, explanation);
    r := Decision(allowed, explanation);
  }

  /** `seen` are the effects of the first policies, none of which failed. */
  ghost predicate SeenIs(s: Setting, seen: seq<EffectKind>) {
    |seen| <= |s.policies| && forall j :: 0 <= j < |seen| ==> StepOf(s, s.policies[j]) == Effect(seen[j])
  }

  /** The loop ended after `seen`: its last effect decided, or belonged to the last policy. */
  ghost predicate EndsWith(s: Setting, seen: seq<EffectKind>) {
    && seen != [] && SeenIs(s, seen) && Undecided(s.expr, seen, |seen| - 1)
    && (Decides(s.expr, seen[|seen| - 1]) || |seen| == |s.policies|)
  }

  /** The explanation names the policies, among those looked at, whose effect moved the result. */
  ghost predicate ExplainedBy(s: Setting, seen: seq<EffectKind>, explanation: Option<seq<nat>>) {
    && EndsWith(s, seen)
    && var e := if |s.policies| > 1 then Explained(s.expr, seen) else [];
       explanation == if e == [] then None else Some(e)
  }

  lemma NoneSeen(s: Setting)
    ensures Undecided(s.expr, [], 0) && SeenIs(s, [])
  {
  }

  /** The next policy neither fails nor comes after a deciding one: one more effect is seen. */
  lemma SeenSnoc(s: Setting, seen: seq<EffectKind>, eft: EffectKind)
    requires SeenIs(s, seen) && Undecided(s.expr, seen, |seen|) && |seen| < |s.policies|
    requires StepOf(s, s.policies[|seen|]) == Effect(eft)
    ensures SeenIs(s, seen + [eft]) && Undecided(s.expr, seen + [eft], |seen|)
    ensures !Decides(s.expr, eft) ==> Undecided(s.expr, seen + [eft], |seen| + 1)
  {
  }

  lemma FirstFailure(s: Setting, seen: seq<EffectKind>, e: EnforceError)
    requires SeenIs(s, seen) && Undecided(s.expr, seen, |seen|) && |seen| < |s.policies|
    requires StepOf(s, s.policies[|seen|]) == Fails(e)
    ensures FailsAt(s, |seen|, e)
  {
  }

  lemma NoEarlierFailure(s: Setting, i: nat, e: EnforceError, k: nat)
    requires FailsAt(s, i, e) && k < i
    ensures StepOf(s, s.policies[k]).Effect?
  {
  }

  lemma OneFailure(s: Setting, i: nat, e: EnforceError)
    requires FailsAt(s, i, e)
    ensures forall f :: FailsWith(s, f) <==> f == e
  {
    forall k: nat, f | FailsAt(s, k, f)
      ensures f == e
    {
      if k < i {
        NoEarlierFailure(s, i, e, k);
        assert false;
      } else if i < k {
        NoEarlierFailure(s, k, f, i);
        assert false;
      }
    }
  }

  /** When the stream is done, its result is final and no error lies before it. */
  lemma Settled(s: Setting, seen: seq<EffectKind>)
    requires EndsWith(s, seen) && !s.expr.Unsupported?
    ensures forall e :: !FailsWith(s, e)
    ensures forall effects :: Completes(s, effects) ==> Meaning(s.expr, effects) == Meaning(s.expr, seen)
  {
    var n := |seen| - 1;
    assert StepOf(s, s.policies[n]) == Effect(seen[n]);
    forall k: nat, e
      ensures !FailsAt(s, k, e)
    {
      if k < |seen| {
        assert StepOf(s, s.policies[k]) == Effect(seen[k]);
      }
    }
    forall effects | Completes(s, effects)
      ensures Meaning(s.expr, effects) == Meaning(s.expr, seen)
    {
      forall j | 0 <= j < |seen|
        ensures effects[j] == seen[j]
      {
        assert StepOf(s, s.policies[j]) == Effect(seen[j]);
      }
      assert effects[..n + 1] == seen;
      if Decides(s.expr, seen[n]) {
        assert Undecided(s.expr, effects, n) by {
          assert forall j :: 0 <= j < n ==> effects[j] == seen[j] && !Decides(s.expr, seen[j]);
        }
        DecidedEarly(s.expr, effects, n);
      } else {
        assert effects == seen;
      }
    }
  }
}

/** src/domain/access.py and src/application/policy_evaluator.py. */
module Access {
  import opened Basics

  datatype Action = OPEN_PRIVILEGED_SESSION

  datatype Effect = ALLOW | DENY | REQUIRES_APPROVAL

  datatype AccessRequest = AccessRequest(id: string, userId: string, targetId: string, action: Action)

  datatype AccessPolicy = AccessPolicy(id: string, userId: string, targetId: string, action: Action, effect: Effect)

  datatype AccessDecision = AccessDecision(effect: Effect, reason: string)

  function FirstWith(policies: seq<AccessPolicy>, effect: Effect): (r: Option<AccessPolicy>)
    ensures r.None? <==> forall i :: 0 <= i < |policies| ==> policies[i].effect != effect
    ensures r.Some? ==>
              exists i :: && 0 <= i < |policies| && policies[i] == r.value && r.value.effect == effect
                          && forall j :: 0 <= j < i ==> policies[j].effect != effect
  {
    if policies == [] then None
    else if policies[0].effect == effect then
      assert policies[0] == policies[0];
      Some(policies[0])
    else
      var r := FirstWith(policies[1..], effect);
      assert forall i :: 0 < i < |policies| ==> policies[i] == policies[1..][i - 1];
      assert r.Some? ==>
          exists i :: && 0 <= i < |policies| && policies[i] == r.value && r.value.effect == effect
                      && forall j :: 0 <= j < i ==> policies[j].effect != effect by {
        if r.Some? {
          var k :| && 0 <= k < |policies| - 1 && policies[1..][k] == r.value
                   && forall j :: 0 <= j < k ==> policies[1..][j].effect != effect;
          assert policies[k + 1] == r.value;
        }
      }
      r
  }

  /** `PolicyEvaluator.evaluate` on the policies that the repository returned, in its order. */
  function Evaluate(policies: seq<AccessPolicy>): AccessDecision {
    match FirstWith(policies, DENY)
    case Some(p) => AccessDecision(DENY, p.id)
    case None =>
      if FirstWith(policies, REQUIRES_APPROVAL).Some? then AccessDecision(DENY, "approval_not_supported")
      else
        match FirstWith(policies, ALLOW)
        case Some(p) => AccessDecision(ALLOW, p.id)
        case None => AccessDecision(DENY, "no_matching_policy")
  }
}

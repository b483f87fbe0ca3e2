/**
  * src/application/access_service.py, the checks of `handle` before a session exists: identity,
  * policy, target, account and credential, in this order.
  */
module Authorization {
  import opened Basics
  import opened Access
  import opened Effects
  import opened SqlValues
  import Config
  import PolicyStore

  /** The tables as the run's queries see them. */
  datatype Tables = Tables(
    policies: seq<PolicyStore.PolicyRow>,
    targets: seq<Config.TargetRow>,
    accounts: seq<Config.AccountRow>)

  // ---------------------------------------------------------------- what the stored rows allow

  /** What the tables say of a request: a refusal, rows that make a lookup raise, or an account to use. */
  datatype Checked =
    | Refuse(decision: AccessDecision)
    | Reject
    | Ask(decision: AccessDecision, target: Config.Target, account: Config.Account)

  function Denied(reason: string): Checked {
    Refuse(AccessDecision(DENY, reason))
  }

  /** The first check, in the order of `handle`, that the request fails. */
  function Checks(tables: Tables, principal: string, q: AccessRequest): Checked {
    if principal != q.userId then Denied("authenticated_identity_mismatch")
    else
      match PolicyStore.Decide(tables.policies, q)
      case None => Reject
      case Some(decision) =>
        if decision.effect != ALLOW then Refuse(decision) else CheckTarget(tables, q, decision)
  }

  function CheckTarget(tables: Tables, q: AccessRequest, decision: AccessDecision): Checked {
    match Config.GetTarget(tables.targets, q.targetId)
    case Absent => Denied("target_not_found")
    case Rejected => Reject
    case Found(target) =>
      if !target.enabled then Denied("target_disabled") else CheckAccount(tables, decision, target)
  }

  function CheckAccount(tables: Tables, decision: AccessDecision, target: Config.Target): Checked {
    match Config.FindForTarget(tables.accounts, target.id)
    case Absent => Denied("account_not_found")
    case Rejected => Reject
    case Found(account) =>
      if !account.enabled then Denied("privileged_account_disabled")
      else if account.targetId != target.id then Denied("account_target_mismatch")
      else Ask(decision, target, account)
  }

  /**
    * Fail closed, in terms of the stored rows: the request is its principal's own; some policy row
    * is for it, and every such row says `allow`; the first row with the target's id spells this target
    * and holds 1 as its flag; and one row, and one only, is for that target, and it spells this account
    * and holds 1 as its flag.
    */
  ghost predicate AuthorizedFor(tables: Tables, principal: string, q: AccessRequest,
                                target: Config.Target, account: Config.Account)
  {
    && principal == q.userId
    && PolicyStore.AllowedByRows(tables.policies, q)
    && (exists i: nat :: Config.FirstRow(tables.targets, q.targetId, i)
                         && Config.RowOfTarget(tables.targets[i], target)
                         && tables.targets[i].enabled == Integer(1))
    && (exists i: nat :: Config.SoleRow(tables.accounts, q.targetId, i)
                         && Config.RowOfAccount(tables.accounts[i], account)
                         && tables.accounts[i].enabled == Integer(1))
  }

  /** The checks let a request through, to this target by this account, exactly when the rows authorize it. */
  lemma AskIffAuthorized(tables: Tables, principal: string, q: AccessRequest,
                         target: Config.Target, account: Config.Account)
    ensures var c := Checks(tables, principal, q);
            c.Ask? && c.target == target && c.account == account <==>
            AuthorizedFor(tables, principal, q, target, account)
  {
    hide PolicyStore.Decide, PolicyStore.AllowedByRows, Config.GetTarget, Config.FindForTarget;
    hide Config.RowOfTarget, Config.RowOfAccount;
    PolicyStore.AllowIffEveryMatchAllows(tables.policies, q);
    Config.FoundIffFirstRow(tables.targets, q.targetId, target);
    Config.FoundIffSoleRow(tables.accounts, q.targetId, account);
    if Config.GetTarget(tables.targets, q.targetId).Found? {
      Config.FoundTargetIsStored(tables.targets, q.targetId);
    }
    forall i: nat | i < |tables.targets| && Config.RowOfTarget(tables.targets[i], target)
      ensures tables.targets[i].enabled == Integer(1) <==> target.enabled
    {
      TargetFlag(tables.targets[i], target);
    }
    forall i: nat | i < |tables.accounts| && Config.RowOfAccount(tables.accounts[i], account)
      ensures tables.accounts[i].enabled == Integer(1) <==> account.enabled
    {
      AccountFlag(tables.accounts[i], account);
    }
  }

  lemma TargetFlag(row: Config.TargetRow, target: Config.Target)
    requires Config.RowOfTarget(row, target)
    ensures row.enabled == Integer(1) <==> target.enabled
  {
  }

  lemma AccountFlag(row: Config.AccountRow, account: Config.Account)
    requires Config.RowOfAccount(row, account)
    ensures row.enabled == Integer(1) <==> account.enabled
  {
  }

  /** Over the SQLite account repository the last of these checks before the vault never fails. */
  lemma TargetMismatchNeverHappens(tables: Tables, decision: AccessDecision, target: Config.Target)
    ensures CheckAccount(tables, decision, target) != Denied("account_target_mismatch")
  {
    hide Config.FindForTarget;
    match Config.FindForTarget(tables.accounts, target.id)
    case Found(account) => Config.FoundIffSoleRow(tables.accounts, target.id, account);
    case _ =>
  }

  /** Whatever the tables hold, a refusal is a DENY and a request that is let through was allowed. */
  lemma ChecksDecide(tables: Tables, principal: string, q: AccessRequest)
    ensures var c := Checks(tables, principal, q);
            && (c.Refuse? ==> c.decision.effect == DENY)
            && (c.Ask? ==>
                  && c.decision.effect == ALLOW && principal == q.userId
                  && PolicyStore.Decide(tables.policies, q) == Some(c.decision)
                  && c.target.id == q.targetId)
  {
    hide PolicyStore.FindMatching, Config.GetTarget, Config.FindForTarget, Config.DeserializeTarget;
    if Config.GetTarget(tables.targets, q.targetId).Found? {
      Config.FoundTargetIsStored(tables.targets, q.targetId);
    }
  }

  // ---------------------------------------------------------------- every outcome in terms of cells

  /** What the account rows of an enabled target make of an allowed request. */
  ghost predicate AccountCase(tables: Tables, q: AccessRequest, target: Config.Target, c: Checked) {
    if forall j :: 0 <= j < |tables.accounts| ==> tables.accounts[j].targetId != Text(q.targetId) then
      c == Refuse(AccessDecision(DENY, "account_not_found"))
    else if !exists k: nat :: Config.SoleRow(tables.accounts, q.targetId, k) then c == Reject
    else
      forall k: nat :: Config.SoleRow(tables.accounts, q.targetId, k) ==>
        var row := tables.accounts[k];
        if !Config.ReadableAccount(row) then c == Reject
        else if row.enabled == Integer(0) then c == Refuse(AccessDecision(DENY, "privileged_account_disabled"))
        else
          && c.Ask? && c.target == target && Config.RowOfAccount(row, c.account)
          && c.decision.effect == ALLOW
          && PolicyStore.LeastIdSaying(tables.policies, q, "allow", c.decision.reason)
  }

  /** What the target rows make of an allowed request. */
  ghost predicate TargetCase(tables: Tables, q: AccessRequest, c: Checked) {
    if forall j :: 0 <= j < |tables.targets| ==> tables.targets[j].id != Text(q.targetId) then
      c == Refuse(AccessDecision(DENY, "target_not_found"))
    else
      forall i: nat :: Config.FirstRow(tables.targets, q.targetId, i) ==>
        var row := tables.targets[i];
        if !Config.ReadableTarget(row) then c == Reject
        else if row.enabled == Integer(0) then c == Refuse(AccessDecision(DENY, "target_disabled"))
        else exists target :: Config.RowOfTarget(row, target) && AccountCase(tables, q, target, c)
  }

  /** What the tables make of a request, column by column. */
  ghost predicate RequestCase(tables: Tables, principal: string, q: AccessRequest, c: Checked) {
    if principal != q.userId then c == Refuse(AccessDecision(DENY, "authenticated_identity_mismatch"))
    else if exists row ::
              row in tables.policies && PolicyStore.RowFor(row, q) && !PolicyStore.WellFormedRow(row)
    then c == Reject
    else if PolicyStore.SomeRowSays(tables.policies, q, "deny") then
      && c.Refuse? && c.decision.effect == DENY
      && PolicyStore.LeastIdSaying(tables.policies, q, "deny", c.decision.reason)
    else if PolicyStore.SomeRowSays(tables.policies, q, "requires_approval") then
      c == Refuse(AccessDecision(DENY, "approval_not_supported"))
    else if !PolicyStore.SomeRowSays(tables.policies, q, "allow") then
      c == Refuse(AccessDecision(DENY, "no_matching_policy"))
    else TargetCase(tables, q, c)
  }

  lemma AccountsDecide(tables: Tables, q: AccessRequest, decision: AccessDecision, target: Config.Target)
    requires target.id == q.targetId && decision.effect == ALLOW
    requires PolicyStore.LeastIdSaying(tables.policies, q, "allow", decision.reason)
    ensures AccountCase(tables, q, target, CheckAccount(tables, decision, target))
  {
    hide Config.FindForTarget, Config.ReadableAccount, PolicyStore.LeastIdSaying, Config.RowOfAccount;
    var found := Config.FindForTarget(tables.accounts, target.id);
    Config.LookupBySoleRow(tables.accounts, q.targetId);
    Config.FoundIffSoleRow(tables.accounts, q.targetId, Config.Account("", "", "", "", false));
    forall k: nat | Config.SoleRow(tables.accounts, q.targetId, k) && found.Found?
      ensures tables.accounts[k].enabled == Integer(if found.value.enabled then 1 else 0)
    {
      AccountFlagCell(tables.accounts[k], found.value);
    }
  }

  lemma AccountFlagCell(row: Config.AccountRow, account: Config.Account)
    requires Config.RowOfAccount(row, account)
    ensures row.enabled == Integer(if account.enabled then 1 else 0)
  {
  }

  lemma TargetFlagCell(row: Config.TargetRow, target: Config.Target)
    requires Config.RowOfTarget(row, target)
    ensures row.enabled == Integer(if target.enabled then 1 else 0)
  {
  }

  lemma TargetsDecide(tables: Tables, q: AccessRequest, decision: AccessDecision)
    requires decision.effect == ALLOW
    requires PolicyStore.LeastIdSaying(tables.policies, q, "allow", decision.reason)
    ensures TargetCase(tables, q, CheckTarget(tables, q, decision))
  {
    hide Config.GetTarget, Config.FindForTarget, Config.ReadableTarget, PolicyStore.LeastIdSaying;
    hide Config.RowOfTarget, AccountCase, CheckAccount;
    var found := Config.GetTarget(tables.targets, q.targetId);
    Config.TargetIsFirstRow(tables.targets, q.targetId);
    forall i: nat | Config.FirstRow(tables.targets, q.targetId, i)
      ensures if Config.ReadableTarget(tables.targets[i])
              then found.Found? && Config.RowOfTarget(tables.targets[i], found.value) && found.value.id == q.targetId
                   && tables.targets[i].enabled == Integer(if found.value.enabled then 1 else 0)
              else found.Rejected?
    {
      Config.LookupByFirstRow(tables.targets, q.targetId, i);
      if found.Found? {
        TargetFlagCell(tables.targets[i], found.value);
      }
    }
    if found.Found? && found.value.id == q.targetId {
      AccountsDecide(tables, q, decision, found.value);
    }
  }

  /**
    * Every outcome of the checks, told by the request and the cells of the three tables: which
    * refusal, when a lookup raises, and which target and account a granted request gets.
    */
  lemma ChecksInCells(tables: Tables, principal: string, q: AccessRequest)
    ensures RequestCase(tables, principal, q, Checks(tables, principal, q))
  {
    hide PolicyStore.Decide, PolicyStore.RowFor, PolicyStore.WellFormedRow, PolicyStore.SomeRowSays;
    hide PolicyStore.LeastIdSaying, CheckTarget, TargetCase;
    PolicyStore.DecisionInCells(tables.policies, q);
    var decision := PolicyStore.Decide(tables.policies, q);
    if decision.Some? && decision.value.effect == ALLOW {
      if PolicyStore.LeastIdSaying(tables.policies, q, "allow", decision.value.reason) {
        TargetsDecide(tables, q, decision.value);
      }
    }
  }

  /** The vault may be asked for this reference. */
  ghost predicate MayAskVault(tables: Tables, principal: string, q: AccessRequest, reference: string) {
    exists target, account ::
      AuthorizedFor(tables, principal, q, target, account) && account.credentialRef == reference
  }

  /** This target may be dialled. */
  ghost predicate MayDial(tables: Tables, principal: string, q: AccessRequest, target: Config.Target) {
    exists account :: AuthorizedFor(tables, principal, q, target, account)
  }

  /** This user name may be sent. */
  ghost predicate MayLogin(tables: Tables, principal: string, q: AccessRequest, username: string) {
    exists target, account :: AuthorizedFor(tables, principal, q, target, account) && account.username == username
  }

  /** The first row with the target's id can be read and holds 1 as its flag. */
  ghost predicate EnabledTargetStored(tables: Tables, q: AccessRequest) {
    exists i: nat :: && Config.FirstRow(tables.targets, q.targetId, i) && Config.ReadableTarget(tables.targets[i])
                     && tables.targets[i].enabled == Integer(1)
  }

  lemma FoundEnabledIsStored(tables: Tables, q: AccessRequest, target: Config.Target)
    requires Config.GetTarget(tables.targets, q.targetId) == Config.Found(target) && target.enabled
    ensures EnabledTargetStored(tables, q)
  {
    hide Config.RowOfTarget, Config.GetTarget;
    Config.FoundIffFirstRow(tables.targets, q.targetId, target);
    var i: nat :| Config.FirstRow(tables.targets, q.targetId, i) && Config.RowOfTarget(tables.targets[i], target);
    TargetFlag(tables.targets[i], target);
  }

  /** Policies are read for the principal's own request, targets for an allowed one, accounts for an enabled target. */
  ghost predicate MayLookUp(op: Operation, tables: Tables, principal: string, q: AccessRequest) {
    && principal == q.userId
    && (op.ReadTarget? || op.ReadAccounts? ==> PolicyStore.AllowedByRows(tables.policies, q))
    && (op.ReadAccounts? ==> EnabledTargetStored(tables, q))
  }

  /** This request, on these tables, allows this call. */
  ghost predicate CallAuthorized(op: Operation, tables: Tables, principal: string, q: AccessRequest) {
    match op
    case ResolveCredential(reference) => MayAskVault(tables, principal, q, reference)
    case ConnectSocket(target) => MayDial(tables, principal, q, target)
    case AuthPassword(_, username, _) => MayLogin(tables, principal, q, username)
    case _ => op.ReadPolicies? || op.ReadTarget? || op.ReadAccounts? ==> MayLookUp(op, tables, principal, q)
  }

  ghost predicate LookupsAuthorized(p: PortsLedger, tables: Tables, principal: string, q: AccessRequest) {
    && (p.policiesRead ==> MayLookUp(ReadPolicies, tables, principal, q))
    && (p.targetRead ==> MayLookUp(ReadTarget, tables, principal, q))
    && (p.accountsRead ==> MayLookUp(ReadAccounts, tables, principal, q))
  }

  /** What was asked for, dialled and sent so far was authorized. */
  ghost predicate PortsAuthorized(l: Ledger, tables: Tables, principal: string, q: AccessRequest) {
    && LookupsAuthorized(l.ports, tables, principal, q)
    && (l.ports.vaultAsked.Some? ==> MayAskVault(tables, principal, q, l.ports.vaultAsked.value))
    && (l.link.dialled.Some? ==> MayDial(tables, principal, q, l.link.dialled.value))
    && (l.link.login.Some? ==> MayLogin(tables, principal, q, l.link.login.value.0))
  }

  lemma PassedChecksAuthorize(l: Ledger, tables: Tables, principal: string, q: AccessRequest)
    requires LookupsAuthorized(l.ports, tables, principal, q)
    requires var c := Checks(tables, principal, q);
             && (l.ports.vaultAsked.Some? ==> c.Ask? && l.ports.vaultAsked == Some(c.account.credentialRef))
             && (l.link.dialled.Some? ==> c.Ask? && l.link.dialled == Some(c.target))
             && (l.link.login.Some? ==> c.Ask? && l.link.login.value.0 == c.account.username)
    ensures PortsAuthorized(l, tables, principal, q)
  {
    hide Checks, AuthorizedFor, LookupsAuthorized;
    var c := Checks(tables, principal, q);
    if c.Ask? {
      AskIffAuthorized(tables, principal, q, c.target, c.account);
    }
  }

  // ---------------------------------------------------------------- the checks as `handle` makes them

  /** How far the run comes before the session exists. */
  datatype Authorization =
    | Refused(decision: AccessDecision)
    | LookupRaised
    | Granted(decision: AccessDecision, target: Config.Target, account: Config.Account, credential: Bytes)

  function Denial(reason: string): Authorization {
    Refused(AccessDecision(DENY, reason))
  }

  /** What the tables and the answers of the ports amount to. */
  ghost function Expected(c: Checked, p: PortsLedger): Authorization {
    if p.raised || c.Reject? then LookupRaised
    else
      match c
      case Refuse(decision) => Refused(decision)
      case Ask(decision, target, account) =>
        if p.credential.Some? then Granted(decision, target, account, p.credential.value)
        else Denial("credential_not_found")
  }

  /** One repository query; true when SQLite raises. */
  method Query(env: Environment, op: Operation) returns (raised: bool)
    requires op == Operation.ReadPolicies || op == Operation.ReadTarget || op == Operation.ReadAccounts
    requires !env.L().ports.raised
    modifies env
    ensures env.L() == old(env.L()).(ports := env.L().ports)
    ensures env.L().ports == old(env.L().ports).(
              policiesRead := old(env.L().ports.policiesRead) || op == Operation.ReadPolicies,
              targetRead := old(env.L().ports.targetRead) || op == Operation.ReadTarget,
              accountsRead := old(env.L().ports.accountsRead) || op == Operation.ReadAccounts,
              raised := raised)
  {
    hide Advance, Fold;
    var reply := env.PerformOther(op);
    return reply.raised;
  }

  /** `vault.resolve`: raises, finds nothing, or finds the credential. */
  method Resolve(env: Environment, reference: string) returns (raised: bool, credential: Option<Bytes>)
    requires env.L().safe && !env.L().ports.raised
    requires env.L().ports == PortsLedger(true, true, true, false, None, None)
    modifies env
    ensures env.L() == old(env.L()).(ports := env.L().ports)
    ensures env.L().ports == PortsLedger(true, true, true, raised, Some(reference), credential)
    ensures raised ==> credential.None?
  {
    hide Advance, Fold;
    var reply := env.PerformOther(Operation.ResolveCredential(reference));
    return reply.raised, if !reply.raised && reply.flag then Some(reply.data) else None;
  }

  /** The checks of `handle` in their order, up to the credential. */
  method Authorize(env: Environment, principal: string, q: AccessRequest, tables: Tables)
    returns (auth: Authorization)
    requires env.L() == EMPTY_LEDGER
    modifies env
    ensures env.L() == EMPTY_LEDGER.(ports := env.L().ports)
    ensures auth == Expected(Checks(tables, principal, q), env.L().ports)
    ensures LookupsAuthorized(env.L().ports, tables, principal, q)
    ensures var c := Checks(tables, principal, q);
            && (c.Ask? && !env.L().ports.raised ==> env.L().ports.vaultAsked.Some?)
            && (env.L().ports.vaultAsked.Some? ==>
                  c.Ask? && env.L().ports.vaultAsked == Some(c.account.credentialRef))
            && (env.L().ports.credential.Some? ==> env.L().ports.vaultAsked.Some? && !env.L().ports.raised)
  {
    hide Advance, Permitted, Fold, PolicyStore.Decide, Config.GetTarget, Config.FindForTarget;
    hide PolicyStore.AllowedByRows, EnabledTargetStored;
    if principal != q.userId {
      return Denial("authenticated_identity_mismatch");
    }
    var raised := Query(env, Operation.ReadPolicies);
    var decision := PolicyStore.Decide(tables.policies, q);
    if raised || decision.None? {
      return LookupRaised;
    }
    if decision.value.effect != ALLOW {
      return Refused(decision.value);
    }
    PolicyStore.AllowIffEveryMatchAllows(tables.policies, q);
    raised := Query(env, Operation.ReadTarget);
    var target := Config.GetTarget(tables.targets, q.targetId);
    if raised || target.Rejected? {
      return LookupRaised;
    }
    if target.Absent? {
      return Denial("target_not_found");
    }
    if !target.value.enabled {
      return Denial("target_disabled");
    }
    FoundEnabledIsStored(tables, q, target.value);
    raised := Query(env, Operation.ReadAccounts);
    var account := Config.FindForTarget(tables.accounts, target.value.id);
    if raised || account.Rejected? {
      return LookupRaised;
    }
    if account.Absent? {
      return Denial("account_not_found");
    }
    if !account.value.enabled {
      return Denial("privileged_account_disabled");
    }
    if account.value.targetId != target.value.id {
      return Denial("account_target_mismatch");
    }
    var credential;
    raised, credential := Resolve(env, account.value.credentialRef);
    if raised {
      return LookupRaised;
    }
    if credential.None? {
      return Denial("credential_not_found");
    }
    return Granted(decision.value, target.value, account.value, credential.value);
  }
}

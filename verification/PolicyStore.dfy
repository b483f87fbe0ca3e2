/** src/infrastructure/policy/sqlite_policy_repository.py, over tables with arbitrary contents. */
module PolicyStore {
  import opened Basics
  import opened SqlValues
  import opened Access
  import Sessions

  datatype PolicyRow = PolicyRow(id: Cell, userId: Cell, targetId: Cell, action: Cell, effect: Cell)

  function ActionText(a: Action): string {
    "open_privileged_session"
  }

  function EffectText(e: Effect): string {
    match e
    case ALLOW => "allow"
    case DENY => "deny"
    case REQUIRES_APPROVAL => "requires_approval"
  }

  function Serialize(p: AccessPolicy): Option<PolicyRow> {
    if Sessions.IsBlank(p.id) || Sessions.IsBlank(p.userId) || Sessions.IsBlank(p.targetId) then None
    else Some(PolicyRow(Text(p.id), Text(p.userId), Text(p.targetId),
                        Text(ActionText(p.action)), Text(EffectText(p.effect))))
  }

  function EffectOf(s: string): Option<Effect> {
    if s == "allow" then Some(ALLOW)
    else if s == "deny" then Some(DENY)
    else if s == "requires_approval" then Some(REQUIRES_APPROVAL)
    else None
  }

  /** `_deserialize`: `None` is `MalformedPolicyError`. */
  function Deserialize(row: PolicyRow): Option<AccessPolicy> {
    if !(row.id.Text? && row.userId.Text? && row.targetId.Text? && row.action.Text? && row.effect.Text?) then None
    else if row.action.s != ActionText(OPEN_PRIVILEGED_SESSION) then None
    else if Sessions.IsBlank(row.id.s) || Sessions.IsBlank(row.userId.s) || Sessions.IsBlank(row.targetId.s) then None
    else
      var effect :- EffectOf(row.effect.s);
      Some(AccessPolicy(row.id.s, row.userId.s, row.targetId.s, OPEN_PRIVILEGED_SESSION, effect))
  }

  lemma SerializeRoundTrip(p: AccessPolicy)
    requires Serialize(p).Some?
    ensures Deserialize(Serialize(p).value) == Some(p)
  {
    assert p.action == OPEN_PRIVILEGED_SESSION;
    assert EffectOf(EffectText(p.effect)) == Some(p.effect) by {
      match p.effect
      case ALLOW =>
      case DENY => assert |"deny"| != |"allow"|;
      case REQUIRES_APPROVAL => assert |"requires_approval"| != |"allow"| && |"requires_approval"| != |"deny"|;
    }
  }

  predicate Matches(row: PolicyRow, q: AccessRequest) {
    row.userId == Text(q.userId) && row.targetId == Text(q.targetId) && row.action == Text(ActionText(q.action))
  }

  function Where(rows: seq<PolicyRow>, q: AccessRequest): (r: seq<PolicyRow>)
    ensures forall x :: x in r <==> x in rows && Matches(x, q)
  {
    if rows == [] then []
    else
      var rest := Where(rows[1..], q);
      assert forall x :: x in rows <==> x == rows[0] || x in rows[1..];
      if Matches(rows[0], q) then [rows[0]] + rest else rest
  }

  // ---------------------------------------------------------------- ORDER BY id

  ghost predicate OrderedById(rows: seq<PolicyRow>) {
    forall i, j :: 0 <= i < j < |rows| ==> !Before(rows[j].id, rows[i].id)
  }

  function InsertById(row: PolicyRow, rows: seq<PolicyRow>): (r: seq<PolicyRow>)
    ensures multiset(r) == multiset(rows) + multiset{row}
  {
    if rows == [] then [row]
    else if Before(row.id, rows[0].id) then [row] + rows
    else
      assert rows == [rows[0]] + rows[1..];
      [rows[0]] + InsertById(row, rows[1..])
  }

  function OrderById(rows: seq<PolicyRow>): (r: seq<PolicyRow>)
    ensures multiset(r) == multiset(rows)
  {
    if rows == [] then []
    else
      assert rows == [rows[0]] + rows[1..];
      InsertById(rows[0], OrderById(rows[1..]))
  }

  lemma {:induction false} InsertKeepsOrder(row: PolicyRow, rows: seq<PolicyRow>)
    requires OrderedById(rows)
    ensures OrderedById(InsertById(row, rows))
  {
    if rows != [] {
      if Before(row.id, rows[0].id) {
        forall j | 0 <= j < |rows|
          ensures !Before(rows[j].id, row.id)
        {
          if Before(rows[j].id, row.id) {
            BeforeTransitive(rows[j].id, row.id, rows[0].id);
            BeforeIrreflexive(rows[0].id);
          }
        }
      } else {
        var tail := InsertById(row, rows[1..]);
        InsertKeepsOrder(row, rows[1..]);
        forall j | 0 <= j < |tail|
          ensures !Before(tail[j].id, rows[0].id)
        {
          assert tail[j] in multiset(tail);
          assert tail[j] == row || tail[j] in rows[1..];
        }
      }
    }
  }

  lemma BeforeIrreflexive(c: Cell)
    ensures !Before(c, c)
  {
    if c.Text? {
      TextLessTotal(c.s, c.s);
    } else if c.Blob? {
      BytesLessIrreflexive(c.b);
    }
  }

  lemma {:induction false} BytesLessIrreflexive(b: Bytes)
    ensures !BytesLess(b, b)
  {
    if b != [] {
      BytesLessIrreflexive(b[1..]);
    }
  }

  lemma {:induction false} OrderByIdOrders(rows: seq<PolicyRow>)
    ensures OrderedById(OrderById(rows))
  {
    if rows != [] {
      OrderByIdOrders(rows[1..]);
      InsertKeepsOrder(rows[0], OrderById(rows[1..]));
    }
  }

  // ---------------------------------------------------------------- find_matching and evaluate

  /** `None` when some row is malformed. */
  function DecodeAll(rows: seq<PolicyRow>): (r: Option<seq<AccessPolicy>>)
    ensures r.Some? <==> forall i :: 0 <= i < |rows| ==> Deserialize(rows[i]).Some?
    ensures r.Some? ==> |r.value| == |rows|
    ensures r.Some? ==> forall i :: 0 <= i < |rows| ==> Deserialize(rows[i]) == Some(r.value[i])
  {
    if rows == [] then Some([])
    else
      assert forall i :: 0 < i < |rows| ==> rows[i] == rows[1..][i - 1];
      var rest := DecodeAll(rows[1..]);
      assert rest.None? ==> exists i :: 0 < i < |rows| && Deserialize(rows[i]).None? by {
        if rest.None? {
          var k :| 0 <= k < |rows| - 1 && Deserialize(rows[1..][k]).None?;
          assert Deserialize(rows[k + 1]).None?;
        }
      }
      var first :- Deserialize(rows[0]);
      if rest.None? then None else Some([first] + rest.value)
  }

  function FindMatching(rows: seq<PolicyRow>, q: AccessRequest): Option<seq<AccessPolicy>> {
    DecodeAll(OrderById(Where(rows, q)))
  }

  /** What the evaluator answers over this table; `None` when it raises. */
  function Decide(rows: seq<PolicyRow>, q: AccessRequest): Option<AccessDecision> {
    var policies :- FindMatching(rows, q);
    Some(Evaluate(policies))
  }

  ghost predicate Allows(rows: seq<PolicyRow>, q: AccessRequest) {
    Decide(rows, q).Some? && Decide(rows, q).value.effect == ALLOW
  }

  // ---------------------------------------------------------------- what the cells of a row mean

  /** The cells that the query compares name this user, this target and the one action there is. */
  ghost predicate RowFor(row: PolicyRow, q: AccessRequest) {
    && row.userId == Text(q.userId) && row.targetId == Text(q.targetId)
    && row.action == Text("open_privileged_session")
  }

  ghost predicate NonblankTexts(row: PolicyRow) {
    && row.id.Text? && !Sessions.IsBlank(row.id.s)
    && row.userId.Text? && !Sessions.IsBlank(row.userId.s)
    && row.targetId.Text? && !Sessions.IsBlank(row.targetId.s)
  }

  /** The row can be read back: its texts are not blank and its effect is one of the three words. */
  ghost predicate WellFormedRow(row: PolicyRow) {
    && NonblankTexts(row)
    && row.action == Text("open_privileged_session")
    && (row.effect == Text("allow") || row.effect == Text("deny") || row.effect == Text("requires_approval"))
  }

  /** Some row is for the request, and each of those is well formed and says `allow`. */
  ghost predicate AllowedByRows(rows: seq<PolicyRow>, q: AccessRequest) {
    && (exists row :: row in rows && RowFor(row, q))
    && (forall row :: row in rows && RowFor(row, q) ==> NonblankTexts(row) && row.effect == Text("allow"))
  }

  /** The row spells this policy, column by column. */
  ghost predicate RowOfPolicy(row: PolicyRow, p: AccessPolicy) {
    && NonblankTexts(row)
    && row.id == Text(p.id) && row.userId == Text(p.userId) && row.targetId == Text(p.targetId)
    && row.action == Text("open_privileged_session")
    && match p.effect
       case ALLOW => row.effect == Text("allow")
       case DENY => row.effect == Text("deny")
       case REQUIRES_APPROVAL => row.effect == Text("requires_approval")
  }

  lemma WordsDiffer()
    ensures "allow" != "deny" && "allow" != "requires_approval" && "deny" != "requires_approval"
  {
    assert |"deny"| != |"allow"| && |"requires_approval"| != |"allow"| && |"requires_approval"| != |"deny"|;
  }

  /** A row is read as a policy exactly when it spells it, and a policy is stored as just that row. */
  lemma RowsSpellPolicies(row: PolicyRow, p: AccessPolicy)
    ensures Deserialize(row) == Some(p) <==> RowOfPolicy(row, p)
    ensures Serialize(p) == Some(row) <==> RowOfPolicy(row, p)
  {
    WordsDiffer();
    assert p.action == OPEN_PRIVILEGED_SESSION;
    if RowOfPolicy(row, p) {
      EffectsTrichotomy(p.effect);
      assert Deserialize(row) == Some(p);
    }
  }

  lemma MatchesIsRowFor(row: PolicyRow, q: AccessRequest)
    ensures Matches(row, q) <==> RowFor(row, q)
  {
  }

  lemma AllowRowCells(row: PolicyRow, q: AccessRequest)
    requires RowFor(row, q)
    ensures IsAllowRow(row) <==> NonblankTexts(row) && row.effect == Text("allow")
  {
    WordsDiffer();
  }

  ghost predicate IsAllowRow(row: PolicyRow) {
    Deserialize(row).Some? && Deserialize(row).value.effect == ALLOW
  }

  lemma SelectedRows(rows: seq<PolicyRow>, q: AccessRequest)
    ensures forall x :: x in OrderById(Where(rows, q)) <==> x in rows && Matches(x, q)
  {
    forall x
      ensures x in OrderById(Where(rows, q)) <==> x in rows && Matches(x, q)
    {
      assert x in OrderById(Where(rows, q)) <==> x in multiset(OrderById(Where(rows, q)));
      assert x in Where(rows, q) <==> x in multiset(Where(rows, q));
    }
  }

  lemma AllowIffEveryMatchDecodes(rows: seq<PolicyRow>, q: AccessRequest)
    ensures Allows(rows, q) <==>
            && (exists x :: x in rows && Matches(x, q))
            && (forall x :: x in rows && Matches(x, q) ==> IsAllowRow(x))
  {
    hide Deserialize, Matches, Where, OrderById;
    SelectedRows(rows, q);
    var selected := OrderById(Where(rows, q));
    if Allows(rows, q) {
      var ps := FindMatching(rows, q).value;
      forall x | x in rows && Matches(x, q)
        ensures IsAllowRow(x)
      {
        var i :| 0 <= i < |selected| && selected[i] == x;
        EffectsTrichotomy(ps[i].effect);
      }
      assert selected[0] in selected;
    } else if selected != [] && DecodeAll(selected).Some? {
      var ps := DecodeAll(selected).value;
      if forall i :: 0 <= i < |ps| ==> ps[i].effect == ALLOW {
        AllAllowEvaluatesToAllow(ps);
      }
      var i :| 0 <= i < |ps| && ps[i].effect != ALLOW;
      assert selected[i] in selected && !IsAllowRow(selected[i]);
    } else if selected != [] {
      var i :| 0 <= i < |selected| && Deserialize(selected[i]).None?;
      assert selected[i] in selected && !IsAllowRow(selected[i]);
    } else {
      assert forall x :: x in rows && Matches(x, q) ==> x in selected;
    }
  }

  /**
    * Fail closed, exactly: over any table, malformed rows included, access is allowed if and only if
    * some row has this user, this target and this action, and every such row has nonblank texts and
    * the effect `allow`.
    */
  lemma AllowIffEveryMatchAllows(rows: seq<PolicyRow>, q: AccessRequest)
    ensures Allows(rows, q) <==> AllowedByRows(rows, q)
  {
    hide Matches, IsAllowRow, RowFor, NonblankTexts, Allows;
    AllowIffEveryMatchDecodes(rows, q);
    forall row
      ensures Matches(row, q) <==> RowFor(row, q)
      ensures RowFor(row, q) ==> (IsAllowRow(row) <==> NonblankTexts(row) && row.effect == Text("allow"))
    {
      MatchesIsRowFor(row, q);
      if RowFor(row, q) {
        AllowRowCells(row, q);
      }
    }
  }

  lemma EffectsTrichotomy(e: Effect)
    ensures e == ALLOW || e == DENY || e == REQUIRES_APPROVAL
  {
  }

  lemma AllAllowEvaluatesToAllow(ps: seq<AccessPolicy>)
    requires ps != [] && forall i :: 0 <= i < |ps| ==> ps[i].effect == ALLOW
    ensures Evaluate(ps).effect == ALLOW
  {
    assert ps[0].effect == ALLOW;
  }

  /** Adding a row for the request that is malformed or does not say `allow` never leaves access allowed. */
  lemma NonAllowRowVetoes(rows: seq<PolicyRow>, row: PolicyRow, q: AccessRequest)
    requires RowFor(row, q) && !(NonblankTexts(row) && row.effect == Text("allow"))
    ensures !Allows(rows + [row], q)
  {
    AllowIffEveryMatchAllows(rows + [row], q);
    assert row in rows + [row];
  }

  // ---------------------------------------------------------------- the decision in terms of cells

  ghost predicate SomeRowSays(rows: seq<PolicyRow>, q: AccessRequest, word: string) {
    exists row :: row in rows && RowFor(row, q) && row.effect == Text(word)
  }

  /** The least id of the rows for the request that say this word. */
  ghost predicate LeastIdSaying(rows: seq<PolicyRow>, q: AccessRequest, word: string, id: string) {
    && (exists row :: row in rows && RowFor(row, q) && row.effect == Text(word) && row.id == Text(id))
    && (forall row :: row in rows && RowFor(row, q) && row.effect == Text(word) && row.id.Text? ==>
          row.id.s == id || TextLess(id, row.id.s))
  }

  function Word(e: Effect): string {
    match e
    case ALLOW => "allow"
    case DENY => "deny"
    case REQUIRES_APPROVAL => "requires_approval"
  }

  lemma RowSaysItsEffect(row: PolicyRow, p: AccessPolicy, e: Effect)
    requires Deserialize(row) == Some(p)
    ensures row.id == Text(p.id) && (p.effect == e <==> row.effect == Text(Word(e)))
  {
    WordsDiffer();
  }

  lemma OrderedTexts(selected: seq<PolicyRow>, i: nat, k: nat, a: string, b: string)
    requires OrderedById(selected) && i <= k < |selected|
    requires selected[i].id == Text(a) && selected[k].id == Text(b)
    ensures a == b || TextLess(a, b)
  {
    hide TextLess;
    TextLessTotal(a, b);
    assert i < k ==> !Before(selected[k].id, selected[i].id);
  }

  /** Rows and policies in step, as the query selects and reads them. */
  ghost predicate ReadAs(rows: seq<PolicyRow>, q: AccessRequest, selected: seq<PolicyRow>, ps: seq<AccessPolicy>,
                         e: Effect)
  {
    && |ps| == |selected|
    && (forall x :: x in selected <==> x in rows && RowFor(x, q))
    && (forall i :: 0 <= i < |ps| ==>
          selected[i].id == Text(ps[i].id) && (ps[i].effect == e <==> selected[i].effect == Text(Word(e))))
  }

  lemma FirstIsLeastRow(rows: seq<PolicyRow>, q: AccessRequest, selected: seq<PolicyRow>,
                        ps: seq<AccessPolicy>, e: Effect)
    requires ReadAs(rows, q, selected, ps, e) && OrderedById(selected)
    ensures FirstWith(ps, e).Some? <==> SomeRowSays(rows, q, Word(e))
    ensures FirstWith(ps, e).Some? ==>
              FirstWith(ps, e).value.effect == e && LeastIdSaying(rows, q, Word(e), FirstWith(ps, e).value.id)
  {
    hide RowFor, TextLess, Word, FirstWith, OrderedById;
    match FirstWith(ps, e)
    case None =>
      forall row | row in rows && RowFor(row, q)
        ensures row.effect != Text(Word(e))
      {
        var k :| 0 <= k < |selected| && selected[k] == row;
      }
    case Some(p) =>
      var i :| 0 <= i < |ps| && ps[i] == p && p.effect == e && forall j :: 0 <= j < i ==> ps[j].effect != e;
      assert selected[i] in selected;
      forall row | row in rows && RowFor(row, q) && row.effect == Text(Word(e)) && row.id.Text?
        ensures row.id.s == p.id || TextLess(p.id, row.id.s)
      {
        var k :| 0 <= k < |selected| && selected[k] == row;
        OrderedTexts(selected, i, k, p.id, row.id.s);
      }
  }

  lemma SelectedReadAs(rows: seq<PolicyRow>, q: AccessRequest, selected: seq<PolicyRow>, ps: seq<AccessPolicy>,
                       e: Effect)
    requires |ps| == |selected| && forall x :: x in selected <==> x in rows && RowFor(x, q)
    requires forall i :: 0 <= i < |ps| ==> Deserialize(selected[i]) == Some(ps[i])
    ensures ReadAs(rows, q, selected, ps, e)
  {
    hide Deserialize, RowFor, Word;
    forall i | 0 <= i < |ps|
      ensures selected[i].id == Text(ps[i].id) && (ps[i].effect == e <==> selected[i].effect == Text(Word(e)))
    {
      RowSaysItsEffect(selected[i], ps[i], e);
    }
  }

  /**
    * The decision over any table, told by its cells. It raises exactly when some row for the request
    * is malformed. Otherwise: any `deny` denies with the least denying id; failing that, any
    * `requires_approval` denies; failing that, any `allow` allows with the least id; and no row denies.
    */
  lemma DecisionInCells(rows: seq<PolicyRow>, q: AccessRequest)
    ensures Decide(rows, q).None? <==> exists row :: row in rows && RowFor(row, q) && !WellFormedRow(row)
    ensures Decide(rows, q).Some? ==>
              var d := Decide(rows, q).value;
              if SomeRowSays(rows, q, "deny") then d.effect == DENY && LeastIdSaying(rows, q, "deny", d.reason)
              else if SomeRowSays(rows, q, "requires_approval") then
                d == AccessDecision(DENY, "approval_not_supported")
              else if SomeRowSays(rows, q, "allow") then
                d.effect == ALLOW && LeastIdSaying(rows, q, "allow", d.reason)
              else d == AccessDecision(DENY, "no_matching_policy")
  {
    hide Deserialize, RowFor, Where, OrderById, SomeRowSays, LeastIdSaying, FirstWith, WellFormedRow, ReadAs;
    hide OrderedById;
    SelectedRows(rows, q);
    var selected := OrderById(Where(rows, q));
    forall row
      ensures Matches(row, q) <==> RowFor(row, q)
      ensures Deserialize(row).Some? <==> WellFormedRow(row)
    {
      MatchesIsRowFor(row, q);
      WellFormedIsReadable(row);
    }
    if Decide(rows, q).Some? {
      var ps := FindMatching(rows, q).value;
      OrderByIdOrders(Where(rows, q));
      forall row | row in rows && RowFor(row, q)
        ensures WellFormedRow(row)
      {
        var k :| 0 <= k < |selected| && selected[k] == row;
      }
      SelectedReadAs(rows, q, selected, ps, DENY);
      SelectedReadAs(rows, q, selected, ps, REQUIRES_APPROVAL);
      SelectedReadAs(rows, q, selected, ps, ALLOW);
      FirstIsLeastRow(rows, q, selected, ps, DENY);
      FirstIsLeastRow(rows, q, selected, ps, REQUIRES_APPROVAL);
      FirstIsLeastRow(rows, q, selected, ps, ALLOW);
    } else {
      var i :| 0 <= i < |selected| && Deserialize(selected[i]).None?;
      assert selected[i] in selected;
    }
  }

  lemma WellFormedIsReadable(row: PolicyRow)
    ensures Deserialize(row).Some? <==> WellFormedRow(row)
  {
    WordsDiffer();
  }

  // ---------------------------------------------------------------- store

  predicate IdTaken(rows: seq<PolicyRow>, id: string) {
    exists i :: 0 <= i < |rows| && rows[i].id == Text(id)
  }

  datatype StoreOutcome = Stored | DuplicatePolicyError | PolicyStorageError

  class SQLitePolicyRepository {
    var rows: seq<PolicyRow>

    constructor ()
      ensures rows == []
    {
      rows := [];
    }

    /** `store`; `databaseFails` is any other SQLite error. */
    method Store(p: AccessPolicy, databaseFails: bool) returns (outcome: StoreOutcome)
      modifies this
      ensures outcome == Stored <==> !databaseFails && Serialize(p).Some? && !IdTaken(old(rows), p.id)
      ensures outcome == Stored ==>
                rows == AfterStore(old(rows), p) && rows == old(rows) + [Serialize(p).value]
                && RowOfPolicy(Serialize(p).value, p)
      ensures outcome != Stored ==> rows == old(rows)
    {
      var serialized := Serialize(p);
      if serialized.None? || databaseFails {
        return PolicyStorageError;
      }
      if IdTaken(rows, p.id) {
        return DuplicatePolicyError;
      }
      RowsSpellPolicies(serialized.value, p);
      rows := rows + [serialized.value];
      return Stored;
    }
  }

  /** The table after one `store` call that meets no database error. */
  function AfterStore(rows: seq<PolicyRow>, p: AccessPolicy): seq<PolicyRow> {
    match Serialize(p)
    case None => rows
    case Some(row) => if IdTaken(rows, p.id) then rows else rows + [row]
  }

  function StoreAll(ps: seq<AccessPolicy>): seq<PolicyRow> {
    if ps == [] then [] else AfterStore(StoreAll(ps[..|ps| - 1]), ps[|ps| - 1])
  }

  /** The policies that a sequence of `store` calls accepts: well-formed, and first with their id. */
  ghost function Accepted(ps: seq<AccessPolicy>): set<AccessPolicy> {
    if ps == [] then {}
    else
      var earlier, p := Accepted(ps[..|ps| - 1]), ps[|ps| - 1];
      if Serialize(p).Some? && forall x :: x in earlier ==> x.id != p.id then earlier + {p} else earlier
  }

  /** The rows are the serialized accepted policies, each once. */
  ghost predicate Represents(rows: seq<PolicyRow>, policies: set<AccessPolicy>) {
    && (forall row :: row in rows ==> Deserialize(row).Some? && Deserialize(row).value in policies)
    && (forall p :: p in policies ==> Serialize(p).Some? && Serialize(p).value in rows)
    && (forall p, r :: p in policies && r in policies && p.id == r.id ==> p == r)
  }

  lemma {:induction false} StoreAllRepresents(ps: seq<AccessPolicy>)
    ensures Represents(StoreAll(ps), Accepted(ps))
    decreases |ps|
  {
    hide Deserialize, Serialize;
    if ps != [] {
      var p := ps[|ps| - 1];
      var rows, earlier := StoreAll(ps[..|ps| - 1]), Accepted(ps[..|ps| - 1]);
      StoreAllRepresents(ps[..|ps| - 1]);
      if Serialize(p).Some? {
        TakenIffAccepted(rows, earlier, p.id);
        if !IdTaken(rows, p.id) {
          AddedRowRepresents(rows, earlier, p);
        }
      }
    }
  }

  lemma AddedRowRepresents(rows: seq<PolicyRow>, policies: set<AccessPolicy>, p: AccessPolicy)
    requires Represents(rows, policies) && Serialize(p).Some?
    requires forall x :: x in policies ==> x.id != p.id
    ensures Represents(rows + [Serialize(p).value], policies + {p})
  {
    hide Deserialize, Serialize;
    SerializeRoundTrip(p);
  }

  lemma TakenIffAccepted(rows: seq<PolicyRow>, policies: set<AccessPolicy>, id: string)
    requires Represents(rows, policies)
    ensures IdTaken(rows, id) <==> exists x :: x in policies && x.id == id
  {
    hide Deserialize, Serialize;
    if IdTaken(rows, id) {
      var i :| 0 <= i < |rows| && rows[i].id == Text(id);
      assert rows[i] in rows;
      IdOfRow(rows[i]);
    }
    if x :| x in policies && x.id == id {
      var row := Serialize(x).value;
      SerializeRoundTrip(x);
      IdOfRow(row);
      var i :| 0 <= i < |rows| && rows[i] == row;
    }
  }

  // ---------------------------------------------------------------- the set-level rule

  ghost predicate Least(p: AccessPolicy, among: set<AccessPolicy>) {
    p in among && forall x :: x in among && x != p ==> TextLess(p.id, x.id)
  }

  ghost function WithEffect(policies: set<AccessPolicy>, e: Effect): set<AccessPolicy> {
    set p | p in policies && p.effect == e
  }

  predicate Applies(p: AccessPolicy, q: AccessRequest) {
    p.userId == q.userId && p.targetId == q.targetId && p.action == q.action
  }

  ghost function MatchingPolicies(policies: set<AccessPolicy>, q: AccessRequest): set<AccessPolicy> {
    set p | p in policies && Applies(p, q)
  }

  /** Deny overrides: the rule over the set of matching policies, with no order in it. */
  ghost predicate SetRule(matching: set<AccessPolicy>, d: AccessDecision) {
    if WithEffect(matching, DENY) != {} then
      d.effect == DENY && exists p :: Least(p, WithEffect(matching, DENY)) && d.reason == p.id
    else if WithEffect(matching, REQUIRES_APPROVAL) != {} then
      d == AccessDecision(DENY, "approval_not_supported")
    else if matching != {} then
      d.effect == ALLOW && exists p :: Least(p, matching) && d.reason == p.id
    else
      d == AccessDecision(DENY, "no_matching_policy")
  }

  ghost predicate StrictlyOrdered(ps: seq<AccessPolicy>) {
    forall i, j :: 0 <= i < j < |ps| ==> TextLess(ps[i].id, ps[j].id)
  }

  lemma FirstIsLeast(ps: seq<AccessPolicy>, policies: set<AccessPolicy>, e: Effect)
    requires StrictlyOrdered(ps)
    requires forall p :: p in policies <==> p in ps
    ensures FirstWith(ps, e).Some? <==> WithEffect(policies, e) != {}
    ensures FirstWith(ps, e).Some? ==> Least(FirstWith(ps, e).value, WithEffect(policies, e))
  {
    hide FirstWith, TextLess;
    match FirstWith(ps, e)
    case None =>
      forall p | p in policies
        ensures p.effect != e
      {
        var i :| 0 <= i < |ps| && ps[i] == p;
      }
    case Some(p) =>
      assert p in WithEffect(policies, e);
      var i :| 0 <= i < |ps| && ps[i] == p && forall j :: 0 <= j < i ==> ps[j].effect != e;
      forall x | x in WithEffect(policies, e) && x != p
        ensures TextLess(p.id, x.id)
      {
        var k :| 0 <= k < |ps| && ps[k] == x;
      }
  }

  lemma EvaluateMeetsSetRule(ps: seq<AccessPolicy>, policies: set<AccessPolicy>)
    requires StrictlyOrdered(ps)
    requires forall p :: p in policies <==> p in ps
    ensures SetRule(policies, Evaluate(ps))
  {
    FirstIsLeast(ps, policies, DENY);
    FirstIsLeast(ps, policies, REQUIRES_APPROVAL);
    FirstIsLeast(ps, policies, ALLOW);
    if WithEffect(policies, DENY) == {} && WithEffect(policies, REQUIRES_APPROVAL) == {} {
      forall p | p in policies
        ensures p.effect == ALLOW
      {
        assert p !in WithEffect(policies, DENY) && p !in WithEffect(policies, REQUIRES_APPROVAL);
        EffectsTrichotomy(p.effect);
      }
      assert WithEffect(policies, ALLOW) == policies;
    }
  }

  lemma SetRuleIsFunctional(policies: set<AccessPolicy>, d: AccessDecision, e: AccessDecision)
    requires SetRule(policies, d) && SetRule(policies, e)
    ensures d == e
  {
    var among := if WithEffect(policies, DENY) != {} then WithEffect(policies, DENY) else policies;
    forall p, r | Least(p, among) && Least(r, among)
      ensures p == r
    {
      TextLessTotal(p.id, r.id);
    }
  }

  // ---------------------------------------------------------------- stored policies refine the set rule

  ghost predicate Once(rows: seq<PolicyRow>) {
    forall row :: multiset(rows)[row] <= 1
  }

  lemma {:induction false} StoredOnce(ps: seq<AccessPolicy>)
    ensures Once(StoreAll(ps))
    decreases |ps|
  {
    if ps != [] {
      var rows, p := StoreAll(ps[..|ps| - 1]), ps[|ps| - 1];
      StoredOnce(ps[..|ps| - 1]);
      if Serialize(p).Some? && !IdTaken(rows, p.id) {
        var row := Serialize(p).value;
        assert row !in rows;
        assert row !in multiset(rows);
      }
    }
  }

  lemma {:induction false} WhereSelects(rows: seq<PolicyRow>, q: AccessRequest)
    ensures multiset(Where(rows, q)) <= multiset(rows)
  {
    if rows != [] {
      WhereSelects(rows[1..], q);
      assert rows == [rows[0]] + rows[1..];
    }
  }

  lemma TwiceInSequence(rows: seq<PolicyRow>, i: nat, j: nat)
    requires i < j < |rows| && rows[i] == rows[j]
    ensures multiset(rows)[rows[i]] >= 2
  {
    assert rows == rows[..j] + rows[j..];
    assert rows[..j][i] in multiset(rows[..j]);
    assert rows[j..][0] in multiset(rows[j..]);
  }

  lemma DeserializeRoundTrip(row: PolicyRow)
    requires Deserialize(row).Some?
    ensures Serialize(Deserialize(row).value) == Some(row)
  {
  }

  /** Two rows of an ordered selection without repetitions have strictly increasing ids. */
  lemma DistinctSelected(selected: seq<PolicyRow>, policies: set<AccessPolicy>, i: nat, j: nat)
    requires i < j < |selected| && OrderedById(selected) && Once(selected)
    requires Deserialize(selected[i]).Some? && Deserialize(selected[i]).value in policies
    requires Deserialize(selected[j]).Some? && Deserialize(selected[j]).value in policies
    requires forall p, r :: p in policies && r in policies && p.id == r.id ==> p == r
    ensures TextLess(Deserialize(selected[i]).value.id, Deserialize(selected[j]).value.id)
  {
    hide Deserialize, Serialize;
    IdOfRow(selected[i]);
    IdOfRow(selected[j]);
    TextLessTotal(Deserialize(selected[i]).value.id, Deserialize(selected[j]).value.id);
    DeserializeRoundTrip(selected[i]);
    DeserializeRoundTrip(selected[j]);
    if selected[i] == selected[j] {
      TwiceInSequence(selected, i, j);
    }
  }

  lemma SelectedStrictlyOrdered(rows: seq<PolicyRow>, policies: set<AccessPolicy>, q: AccessRequest)
    requires Represents(rows, policies) && Once(rows)
    ensures FindMatching(rows, q).Some? && StrictlyOrdered(FindMatching(rows, q).value)
  {
    hide Deserialize, Serialize, Matches, Where, OrderById;
    var selected := OrderById(Where(rows, q));
    SelectedRows(rows, q);
    forall i | 0 <= i < |selected|
      ensures Deserialize(selected[i]).Some?
    {
      assert selected[i] in selected;
    }
    var ps := DecodeAll(selected).value;
    OrderByIdOrders(Where(rows, q));
    WhereSelects(rows, q);
    assert Once(selected) by {
      assert multiset(selected) == multiset(Where(rows, q));
    }
    forall i, j | 0 <= i < j < |ps|
      ensures TextLess(ps[i].id, ps[j].id)
    {
      assert selected[i] in selected && selected[j] in selected;
      DistinctSelected(selected, policies, i, j);
    }
  }

  lemma IdOfRow(row: PolicyRow)
    requires Deserialize(row).Some?
    ensures row.id == Text(Deserialize(row).value.id)
  {
  }

  lemma RowMatchesAsItsPolicy(row: PolicyRow, q: AccessRequest)
    requires Deserialize(row).Some?
    ensures Matches(row, q) <==> Applies(Deserialize(row).value, q)
  {
  }

  lemma SelectedPolicies(rows: seq<PolicyRow>, policies: set<AccessPolicy>, q: AccessRequest)
    requires Represents(rows, policies) && FindMatching(rows, q).Some?
    ensures forall p :: p in MatchingPolicies(policies, q) <==> p in FindMatching(rows, q).value
  {
    hide Deserialize, Serialize, Matches;
    var selected := OrderById(Where(rows, q));
    var ps := FindMatching(rows, q).value;
    SelectedRows(rows, q);
    forall p | p in ps
      ensures p in MatchingPolicies(policies, q)
    {
      var i :| 0 <= i < |ps| && ps[i] == p;
      assert selected[i] in selected;
      RowMatchesAsItsPolicy(selected[i], q);
    }
    forall p | p in MatchingPolicies(policies, q)
      ensures p in ps
    {
      var row := Serialize(p).value;
      SerializeRoundTrip(p);
      RowMatchesAsItsPolicy(row, q);
      var i :| 0 <= i < |selected| && selected[i] == row;
      assert ps[i] == p;
    }
  }

  /**
    * After any sequence of `store` calls the evaluator answers by the set-level rule applied to the
    * accepted policies that match: ALLOW if and only if they are all ALLOW and there is one, with
    * the least matching id as the reason; DENY with the least denying id when one denies.
    */
  lemma StoredDecisionsRefineSetRule(ps: seq<AccessPolicy>, q: AccessRequest)
    ensures Decide(StoreAll(ps), q).Some?
    ensures SetRule(MatchingPolicies(Accepted(ps), q), Decide(StoreAll(ps), q).value)
  {
    var rows := StoreAll(ps);
    StoreAllRepresents(ps);
    StoredOnce(ps);
    SelectedStrictlyOrdered(rows, Accepted(ps), q);
    SelectedPolicies(rows, Accepted(ps), q);
    EvaluateMeetsSetRule(FindMatching(rows, q).value, MatchingPolicies(Accepted(ps), q));
  }

  /** Insertion order is immaterial: the same accepted policies give the same decision and reason. */
  lemma InsertionOrderIsImmaterial(ps: seq<AccessPolicy>, qs: seq<AccessPolicy>, q: AccessRequest)
    requires MatchingPolicies(Accepted(ps), q) == MatchingPolicies(Accepted(qs), q)
    ensures Decide(StoreAll(ps), q) == Decide(StoreAll(qs), q)
  {
    StoredDecisionsRefineSetRule(ps, q);
    StoredDecisionsRefineSetRule(qs, q);
    SetRuleIsFunctional(MatchingPolicies(Accepted(ps), q),
                        Decide(StoreAll(ps), q).value, Decide(StoreAll(qs), q).value);
  }
}

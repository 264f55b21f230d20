/** The permission table, and what follows for the keys that act under it. */
module Roles {

  datatype Role = ComplianceAnalyst | ComplianceOfficer | RiskManager | Engineer | Auditor

  datatype Action =
    | CreateDraft | EditDraft | Backtest | Shadow | RequestApproval | Approve
    | Activate | Archive | Revert | EmergencyOverride | ReviewDecision | ManageKeys

  datatype Actor = Actor(id: string, role: Role)

  const DRAFTING := {Backtest, CreateDraft, EditDraft, Shadow, RequestApproval}
  const DECIDING := DRAFTING + {Approve, Activate, Archive, Revert, ReviewDecision, ManageKeys}

  function Permissions(role: Role): set<Action> {
    match role
    case ComplianceAnalyst => DRAFTING
    case ComplianceOfficer => DECIDING
    case RiskManager => DECIDING + {EmergencyOverride}
    case Engineer => {Backtest, ManageKeys}
    case Auditor => {Backtest}
  }

  predicate May(role: Role, action: Action) {
    action in Permissions(role)
  }

  /** A key may carry only permissions its issuer already holds. */
  predicate MayIssue(issuer: Role, target: Role) {
    Permissions(target) <= Permissions(issuer)
  }

  /** Each role was issued by the one before it. */
  ghost predicate IssuedInTurn(chain: seq<Role>) {
    forall i | 0 <= i < |chain| - 1 :: May(chain[i], ManageKeys) && MayIssue(chain[i], chain[i + 1])
  }

  /** No chain of keys, however long, ends with a permission its first issuer lacked;
      so the keys an engineer can bring about never touch a control. */
  lemma {:induction false} IssuingNeverEscalates(chain: seq<Role>)
    requires chain != [] && IssuedInTurn(chain)
    ensures Permissions(chain[|chain| - 1]) <= Permissions(chain[0])
    ensures chain[0] == Engineer ==> chain[|chain| - 1] in {Engineer, Auditor}
  {
    if |chain| > 1 {
      IssuingNeverEscalates(chain[..|chain| - 1]);
    }
    var last := Permissions(chain[|chain| - 1]);
    assert last <= Permissions(chain[0]);
    if chain[0] == Engineer {
      assert CreateDraft !in last;
    }
  }
}

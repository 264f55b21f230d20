/** Which calls the rule lifecycle accepts, from whom, and what each one changes. */
module Transitions {
  import opened Values
  import opened Evaluation
  import Roles
  import opened Lifecycle
  import opened FourEyes
  import opened Explanation

  // -------------------------------------------------------------- who may do what

  predicate Drafts(role: Roles.Role) {
    role == Roles.ComplianceAnalyst || role == Roles.ComplianceOfficer || role == Roles.RiskManager
  }

  predicate Decides(role: Roles.Role) {
    role == Roles.ComplianceOfficer || role == Roles.RiskManager
  }

  /** Analysts, officers and risk managers draft; officers and risk managers also decide;
      only a risk manager overrides; engineers issue keys; everybody may backtest. */
  lemma {:induction false} PermissionsByRole(role: Roles.Role)
    ensures Roles.May(role, Roles.CreateDraft) <==> Drafts(role)
    ensures Roles.May(role, Roles.EditDraft) <==> Drafts(role)
    ensures Roles.May(role, Roles.Shadow) <==> Drafts(role)
    ensures Roles.May(role, Roles.RequestApproval) <==> Drafts(role)
    ensures Roles.May(role, Roles.Approve) <==> Decides(role)
    ensures Roles.May(role, Roles.Activate) <==> Decides(role)
    ensures Roles.May(role, Roles.Archive) <==> Decides(role)
    ensures Roles.May(role, Roles.Revert) <==> Decides(role)
    ensures Roles.May(role, Roles.ReviewDecision) <==> Decides(role)
    ensures Roles.May(role, Roles.ManageKeys) <==> Decides(role) || role == Roles.Engineer
    ensures Roles.May(role, Roles.EmergencyOverride) <==> role == Roles.RiskManager
    ensures Roles.May(role, Roles.Backtest)
  {
  }

  /** The permission each command takes. Saving a list takes none. */
  function PermissionFor(command: Command): Option<Roles.Action> {
    match command
    case Creating(_, _) => Some(Roles.CreateDraft)
    case Editing(_, _) => Some(Roles.EditDraft)
    case Requesting(_) => Some(Roles.RequestApproval)
    case Approving(_, _) => Some(Roles.Approve)
    case Shadowing(_) => Some(Roles.Shadow)
    case Activating(_, _) => Some(Roles.Activate)
    case Archiving(_, _) => Some(Roles.Archive)
    case Reverting(_) => Some(Roles.Revert)
    case SavingList(_, _) => None
  }

  // ------------------------------------------------------------ what is accepted

  lemma {:induction false} CreatingAccepted(t: Tenant, valid: Validates, actor: Actor, id: string, fields: Content)
    ensures CreateDraft(t, valid, actor, id, fields).Done?
       <==> && Drafts(actor.role) && id !in t.rules
            && valid(if Expression in fields then fields[Expression] else Text(""))
  {
    PermissionsByRole(actor.role);
  }

  lemma {:induction false} EditingAccepted(t: Tenant, valid: Validates, actor: Actor, id: string, fields: Content)
    ensures EditDraft(t, valid, actor, id, fields).Done?
       <==> && Drafts(actor.role) && id in t.rules
            && (t.rules[id].state == Draft || t.rules[id].state == Shadow)
            && (Expression in fields ==> valid(fields[Expression]))
  {
    PermissionsByRole(actor.role);
  }

  lemma {:induction false} RequestingAccepted(t: Tenant, actor: Actor, id: string)
    ensures RequestApproval(t, actor, id).Done?
       <==> Drafts(actor.role) && id in t.rules && (t.rules[id].state == Draft || t.rules[id].state == Shadow)
  {
    PermissionsByRole(actor.role);
  }

  lemma {:induction false} ApprovingAccepted(t: Tenant, actor: Actor, id: string, reason: string)
    ensures Approve(t, actor, id, reason).Done?
       <==> Decides(actor.role) && id in t.rules && actor.id != t.rules[id].createdBy
  {
    PermissionsByRole(actor.role);
  }

  lemma {:induction false} ShadowingAccepted(t: Tenant, actor: Actor, id: string)
    ensures MoveToShadow(t, actor, id).Done? <==> Drafts(actor.role) && id in t.rules
  {
    PermissionsByRole(actor.role);
  }

  /** Activation takes an approval, or a written reason from a risk manager. */
  lemma {:induction false} ActivatingAccepted(t: Tenant, actor: Actor, id: string, reason: string)
    ensures Activate(t, actor, id, reason).Done?
       <==> && Decides(actor.role) && id in t.rules
            && (t.rules[id].approvedBy != "" || (reason != "" && actor.role == Roles.RiskManager))
  {
    PermissionsByRole(actor.role);
  }

  lemma {:induction false} ArchivingAccepted(t: Tenant, actor: Actor, id: string, reason: string)
    ensures Archive(t, actor, id, reason).Done? <==> Decides(actor.role) && id in t.rules
  {
    PermissionsByRole(actor.role);
  }

  lemma {:induction false} RevertingAccepted(t: Tenant, actor: Actor, to: int)
    ensures Revert(t, actor, to).Done? <==> Decides(actor.role) && exists v | v in t.versions :: v.number == to
  {
    PermissionsByRole(actor.role);
    FindsListed(t.versions, to);
  }

  /** No call is accepted from a role that lacks the permission it takes. */
  lemma {:induction false} AcceptedIsPermitted(t: Tenant, valid: Validates, call: Call)
    requires Attempt(t, valid, call).Done? && PermissionFor(call.command).Some?
    ensures Roles.May(call.actor.role, PermissionFor(call.command).value)
  {
    PermissionsByRole(call.actor.role);
    match call.command
    case Creating(id, fields) => CreatingAccepted(t, valid, call.actor, id, fields);
    case Editing(id, fields) => EditingAccepted(t, valid, call.actor, id, fields);
    case Requesting(id) => RequestingAccepted(t, call.actor, id);
    case Approving(id, reason) => ApprovingAccepted(t, call.actor, id, reason);
    case Shadowing(id) => ShadowingAccepted(t, call.actor, id);
    case Activating(id, reason) => ActivatingAccepted(t, call.actor, id, reason);
    case Archiving(id, reason) => ArchivingAccepted(t, call.actor, id, reason);
    case Reverting(to) => RevertingAccepted(t, call.actor, to);
  }

  // ------------------------------------------------------------- what is refused how

  /** The refusals, in the order in which they are looked for. */
  lemma {:induction false} RefusalsAre(t: Tenant, valid: Validates, actor: Actor, id: string, fields: Content,
                                       reason: string)
    ensures !Drafts(actor.role) ==> CreateDraft(t, valid, actor, id, fields) == Refused(Denied)
    ensures Drafts(actor.role) && !valid(Look(fields, Expression)) ==>
              CreateDraft(t, valid, actor, id, fields) == Refused(BadExpression)
    ensures id in t.rules && !Drafts(actor.role) ==> EditDraft(t, valid, actor, id, fields) == Refused(Denied)
    ensures id in t.rules && Drafts(actor.role) && t.rules[id].state in {Active, Archived} ==>
              && EditDraft(t, valid, actor, id, fields) == Refused(WrongState)
              && RequestApproval(t, actor, id) == Refused(WrongState)
    ensures id in t.rules && !Decides(actor.role) ==>
              Approve(t, actor, id, reason) == Refused(Denied) && Activate(t, actor, id, reason) == Refused(Denied)
    ensures id in t.rules && Decides(actor.role) && actor.id == t.rules[id].createdBy ==>
              Approve(t, actor, id, reason) == Refused(OwnChange)
    ensures id in t.rules && Decides(actor.role) && t.rules[id].approvedBy == "" && reason == "" ==>
              Activate(t, actor, id, reason) == Refused(NotApproved)
    ensures id in t.rules && actor.role == Roles.ComplianceOfficer && t.rules[id].approvedBy == "" && reason != "" ==>
              Activate(t, actor, id, reason) == Refused(Denied)
    ensures id !in t.rules ==>
              && EditDraft(t, valid, actor, id, fields) == Refused(NotFound)
              && Approve(t, actor, id, reason) == Refused(NotFound)
  {
    PermissionsByRole(actor.role);
  }

  // ------------------------------------------------------------- what a call changes

  /** The command is about this rule. */
  predicate Concerns(command: Command, id: string) {
    match command
    case Reverting(_) => false
    case SavingList(_, _) => false
    case Creating(rule, _) => rule == id
    case Editing(rule, _) => rule == id
    case Requesting(rule) => rule == id
    case Approving(rule, _) => rule == id
    case Shadowing(rule) => rule == id
    case Activating(rule, _) => rule == id
    case Archiving(rule, _) => rule == id
  }

  /** Rules a call is not about stay as they are, and so do lists it does not save. */
  ghost predicate LeavesRest(t: Tenant, result: Result, command: Command) {
    result.Done? ==>
      && (forall id | !Concerns(command, id) ::
            (id in result.t.rules <==> id in t.rules) && (id in t.rules ==> result.t.rules[id] == t.rules[id]))
      && (!command.SavingList? ==> result.t.lists == t.lists)
      && (command.SavingList? ==> result.t.lists == t.lists[command.list := command.values])
  }

  lemma {:induction false} DraftingLeavesRest(t: Tenant, valid: Validates, actor: Actor, id: string, fields: Content)
    ensures LeavesRest(t, CreateDraft(t, valid, actor, id, fields), Creating(id, fields))
    ensures LeavesRest(t, EditDraft(t, valid, actor, id, fields), Editing(id, fields))
  {
    if EditDraft(t, valid, actor, id, fields).Done? {
      EditIs(t, valid, actor, id, fields);
    }
  }

  lemma {:induction false} DecidingLeavesRest(t: Tenant, actor: Actor, id: string, reason: string)
    ensures LeavesRest(t, RequestApproval(t, actor, id), Requesting(id))
    ensures LeavesRest(t, Approve(t, actor, id, reason), Approving(id, reason))
    ensures LeavesRest(t, MoveToShadow(t, actor, id), Shadowing(id))
    ensures LeavesRest(t, Activate(t, actor, id, reason), Activating(id, reason))
    ensures LeavesRest(t, Archive(t, actor, id, reason), Archiving(id, reason))
  {
  }

  lemma {:induction false} PublishingLeavesRest(t: Tenant, actor: Actor, to: int, list: string, values: seq<Value>)
    ensures LeavesRest(t, Revert(t, actor, to), Reverting(to))
    ensures LeavesRest(t, SaveList(t, actor, list, values), SavingList(list, values))
  {
  }

  lemma {:induction false} CallLeavesRest(t: Tenant, valid: Validates, call: Call)
    ensures LeavesRest(t, Attempt(t, valid, call), call.command)
  {
    match call.command
    case Creating(id, fields) => DraftingLeavesRest(t, valid, call.actor, id, fields);
    case Editing(id, fields) => DraftingLeavesRest(t, valid, call.actor, id, fields);
    case Requesting(id) => DecidingLeavesRest(t, call.actor, id, "");
    case Approving(id, reason) => DecidingLeavesRest(t, call.actor, id, reason);
    case Shadowing(id) => DecidingLeavesRest(t, call.actor, id, "");
    case Activating(id, reason) => DecidingLeavesRest(t, call.actor, id, reason);
    case Archiving(id, reason) => DecidingLeavesRest(t, call.actor, id, reason);
    case Reverting(to) => PublishingLeavesRest(t, call.actor, to, "", []);
    case SavingList(list, values) => PublishingLeavesRest(t, call.actor, 0, list, values);
  }

  /** A new rule is a draft of its creator's, unapproved, with the fields given. */
  lemma {:induction false} CreatingMakes(t: Tenant, valid: Validates, actor: Actor, id: string, fields: Content)
    requires CreateDraft(t, valid, actor, id, fields).Done?
    ensures var t' := CreateDraft(t, valid, actor, id, fields).t;
            && id in t'.rules && t'.versions == t.versions && t'.ids == t.ids + [id]
            && var r := t'.rules[id];
               && r.state == Draft && r.version == 1 && r.createdBy == actor.id && r.approvedBy == ""
               && forall f :: Look(r.content, f) == Look(fields, f)
  {
  }

  /** An edit that changes anything gives the fields it names the values it gives, keeps
      the others, takes away the approval and counts up; one that changes nothing is
      not an edit. */
  lemma {:induction false} EditingMakes(t: Tenant, valid: Validates, actor: Actor, id: string, fields: Content)
    requires EditDraft(t, valid, actor, id, fields).Done?
    ensures var t' := EditDraft(t, valid, actor, id, fields).t;
            && id in t'.rules && id in t.rules && t'.versions == t.versions
            && var r, r' := t.rules[id], t'.rules[id];
               && (forall f :: Look(r'.content, f) == if f in fields then fields[f] else Look(r.content, f))
               && r'.state == r.state && r'.createdBy == r.createdBy
               && (if forall f | f in fields :: Look(r.content, f) == fields[f] then t' == t
                   else r'.approvedBy == "" && r'.version == r.version + 1)
  {
    EditIs(t, valid, actor, id, fields);
    ChangesNone(t.rules[id].content, fields, FIELDS);
    EveryField();
    EditWrites(t, valid, actor, id, fields);
  }

  lemma {:induction false} EveryField()
    ensures forall f: Field :: f in FIELDS
  {
    assert FIELDS[0] == RuleName && FIELDS[1] == Description && FIELDS[2] == Category && FIELDS[3] == Reference;
    assert FIELDS[4] == Expression && FIELDS[5] == SeverityName && FIELDS[6] == Priority && FIELDS[7] == Message;
    forall f: Field ensures f in FIELDS {
      match f {
        case RuleName => assert FIELDS[0] in FIELDS;
        case Description => assert FIELDS[1] in FIELDS;
        case Category => assert FIELDS[2] in FIELDS;
        case Reference => assert FIELDS[3] in FIELDS;
        case Expression => assert FIELDS[4] in FIELDS;
        case SeverityName => assert FIELDS[5] in FIELDS;
        case Priority => assert FIELDS[6] in FIELDS;
        case Message => assert FIELDS[7] in FIELDS;
      }
    }
  }

  lemma {:induction false} EditWrites(t: Tenant, valid: Validates, actor: Actor, id: string, fields: Content)
    requires EditDraft(t, valid, actor, id, fields).Done? && id in t.rules
    ensures var changes := Changes(t.rules[id].content, fields, FIELDS);
            EditDraft(t, valid, actor, id, fields)
            == if changes == [] then Done(t) else Done(Revise(t, actor, id, fields, changes))
  {
  }

  lemma {:induction false} ChangesNone(c: Content, fields: Content, order: seq<Field>)
    ensures Changes(c, fields, order) == [] <==> forall f | f in order && f in fields :: Look(c, f) == fields[f]
  {
    if order != [] {
      ChangesNone(c, fields, order[1..]);
    }
  }

  /** An approval sets the approver and nothing else; it is not tied to a state. */
  lemma {:induction false} ApprovingMakes(t: Tenant, actor: Actor, id: string, reason: string)
    requires Approve(t, actor, id, reason).Done?
    ensures var t' := Approve(t, actor, id, reason).t;
            && id in t.rules && id in t'.rules && t'.versions == t.versions
            && t'.rules[id].approvedBy == actor.id && t'.rules[id].state == t.rules[id].state
            && SameContent(t.rules[id], t'.rules[id]) && t'.rules[id].version == t.rules[id].version
  {
  }

  /** Only the state moves; activating and archiving publish a version, shadowing does not. */
  lemma {:induction false} MovingMakes(t: Tenant, actor: Actor, id: string, reason: string)
    ensures MoveToShadow(t, actor, id).Done? ==>
              var t' := MoveToShadow(t, actor, id).t;
              id in t.rules && t'.rules == t.rules[id := t.rules[id].(state := Shadow)] && t'.versions == t.versions
    ensures Activate(t, actor, id, reason).Done? ==>
              var t' := Activate(t, actor, id, reason).t;
              && id in t.rules && t'.rules == t.rules[id := t.rules[id].(state := Active)]
              && |t'.versions| == |t.versions| + 1
    ensures Archive(t, actor, id, reason).Done? ==>
              var t' := Archive(t, actor, id, reason).t;
              && id in t.rules && t'.rules == t.rules[id := t.rules[id].(state := Archived)]
              && |t'.versions| == |t.versions| + 1
  {
  }
}

/** Nothing is in force that was not approved by somebody else or activated in an
    emergency: an invariant of every run of the lifecycle. */
module FourEyes {
  import opened Values
  import opened Evaluation
  import opened Sorting
  import Roles
  import opened Lifecycle

  // ----------------------------------------------------------------- snapshots

  lemma {:induction false} EntriesExactly(ids: seq<string>, rules: map<string, Rule>, e: Entry)
    ensures e in Entries(ids, rules)
       <==> e.id in ids && e.id in rules && InSnapshot(rules[e.id]) && e == EntryOf(e.id, rules[e.id])
  {
    if ids != [] {
      EntriesExactly(ids[1..], rules, e);
    }
  }

  /** A snapshot holds exactly the active and shadow rules, as they stand. */
  lemma {:induction false} SnapshotExactly(t: Tenant, e: Entry)
    ensures e in Snapshot(t)
       <==> e.id in t.ids && e.id in t.rules && InSnapshot(t.rules[e.id]) && e == EntryOf(e.id, t.rules[e.id])
  {
    SortKeeps(EntryBefore, Entries(t.ids, t.rules));
    MembersOf(Snapshot(t), Entries(t.ids, t.rules));
    EntriesExactly(t.ids, t.rules, e);
  }

  // ------------------------------------------------------------------ sanctions

  /** An approval of rule `id` by a permitted actor who did not create it. */
  predicate ApprovalBySomeoneElse(r: Rule, call: Call, id: string) {
    && call.command.Approving? && call.command.id == id
    && Roles.May(call.actor.role, Roles.Approve) && call.actor.id != r.createdBy
  }

  /** An emergency activation of rule `id`, with a written reason, under the override. */
  predicate EmergencyActivation(call: Call, id: string) {
    && call.command.Activating? && call.command.id == id
    && call.command.reason != "" && Roles.May(call.actor.role, Roles.EmergencyOverride)
  }

  predicate Sanctions(t: Tenant, valid: Validates, call: Call, id: string) {
    && id in t.rules && Attempt(t, valid, call).Done?
    && (ApprovalBySomeoneElse(t.rules[id], call, id) || EmergencyActivation(call, id))
  }

  predicate SameContent(r: Rule, r': Rule) {
    r.content == r'.content && r.createdBy == r'.createdBy
  }

  /** From the `i`-th call to the last, the rule's content stayed what it is now. */
  ghost predicate Unchanged(valid: Validates, calls: seq<Call>, i: nat, id: string) {
    && id in After(valid, calls).rules
    && forall j | i <= j <= |calls| ::
         && id in After(valid, calls[..j]).rules
         && SameContent(After(valid, calls[..j]).rules[id], After(valid, calls).rules[id])
  }

  /** The rule as it stands was sanctioned by some call and has not changed since. */
  ghost predicate Sanctioned(valid: Validates, calls: seq<Call>, id: string) {
    exists i | 0 <= i < |calls| ::
      Sanctions(After(valid, calls[..i]), valid, calls[i], id) && Unchanged(valid, calls, i, id)
  }

  // ------------------------------------------------------------------ one call

  /** A rule that could be served, or activated without the override. */
  predicate NeedsSanction(r: Rule) {
    r.approvedBy != "" || r.state == Active
  }

  /** A rule needs a sanction after a call only if it needed one before, or if that
      call is its sanction; and its content is then untouched. */
  predicate Accountable(t: Tenant, result: Result, call: Call, id: string) {
    result.Done? && id in result.t.rules && NeedsSanction(result.t.rules[id]) ==>
      && id in t.rules && SameContent(t.rules[id], result.t.rules[id])
      && (NeedsSanction(t.rules[id]) || ApprovalBySomeoneElse(t.rules[id], call, id) || EmergencyActivation(call, id))
  }

  lemma {:induction false} EditAccountable(t: Tenant, valid: Validates, call: Call, id: string)
    requires call.command.Editing?
    ensures Accountable(t, EditDraft(t, valid, call.actor, call.command.id, call.command.fields), call, id)
  {
  }

  lemma {:induction false} ActivateAccountable(t: Tenant, call: Call, id: string)
    requires call.command.Activating?
    ensures Accountable(t, Activate(t, call.actor, call.command.id, call.command.reason), call, id)
  {
  }

  lemma {:induction false} ApproveAccountable(t: Tenant, call: Call, id: string)
    requires call.command.Approving?
    ensures Accountable(t, Approve(t, call.actor, call.command.id, call.command.reason), call, id)
  {
  }

  lemma {:induction false} OthersAccountable(t: Tenant, valid: Validates, call: Call, rule: string, reason: string,
                                             fields: Content, id: string)
    ensures Accountable(t, CreateDraft(t, valid, call.actor, rule, fields), call, id)
    ensures Accountable(t, RequestApproval(t, call.actor, rule), call, id)
    ensures Accountable(t, MoveToShadow(t, call.actor, rule), call, id)
    ensures Accountable(t, Archive(t, call.actor, rule, reason), call, id)
  {
  }

  lemma {:induction false} PublishingAccountable(t: Tenant, call: Call, to: int, list: string, values: seq<Value>,
                                                 id: string)
    ensures Accountable(t, Revert(t, call.actor, to), call, id)
    ensures Accountable(t, SaveList(t, call.actor, list, values), call, id)
  {
  }

  lemma {:induction false} CallAccountable(t: Tenant, valid: Validates, call: Call, id: string)
    ensures Accountable(t, Attempt(t, valid, call), call, id)
  {
    match call.command
    case Creating(rule, fields) => OthersAccountable(t, valid, call, rule, "", fields, id);
    case Editing(_, _) => EditAccountable(t, valid, call, id);
    case Requesting(rule) => OthersAccountable(t, valid, call, rule, "", map[], id);
    case Approving(_, _) => ApproveAccountable(t, call, id);
    case Shadowing(rule) => OthersAccountable(t, valid, call, rule, "", map[], id);
    case Activating(_, _) => ActivateAccountable(t, call, id);
    case Archiving(rule, reason) => OthersAccountable(t, valid, call, rule, reason, map[], id);
    case Reverting(to) => PublishingAccountable(t, call, to, "", [], id);
    case SavingList(list, values) => PublishingAccountable(t, call, 0, list, values, id);
  }

  lemma {:induction false} CallSanctions(t: Tenant, valid: Validates, call: Call, id: string)
    requires id in Step(t, valid, call).rules && NeedsSanction(Step(t, valid, call).rules[id])
    ensures id in t.rules && SameContent(t.rules[id], Step(t, valid, call).rules[id])
    ensures NeedsSanction(t.rules[id]) || Sanctions(t, valid, call, id)
  {
    CallAccountable(t, valid, call, id);
  }

  lemma {:induction false} AfterStep(valid: Validates, calls: seq<Call>, call: Call)
    ensures After(valid, calls + [call]) == Step(After(valid, calls), valid, call)
  {
    assert (calls + [call])[..|calls|] == calls;
  }

  lemma {:induction false} UnchangedExtends(valid: Validates, calls: seq<Call>, call: Call, i: nat, id: string)
    requires Unchanged(valid, calls, i, id) && i <= |calls| && id in After(valid, calls + [call]).rules
    requires SameContent(After(valid, calls).rules[id], After(valid, calls + [call]).rules[id])
    ensures Unchanged(valid, calls + [call], i, id)
  {
    var more := calls + [call];
    forall j | i <= j <= |more|
      ensures id in After(valid, more[..j]).rules
      ensures SameContent(After(valid, more[..j]).rules[id], After(valid, more).rules[id])
    {
      if j <= |calls| {
        assert more[..j] == calls[..j];
      } else {
        assert more[..j] == more;
      }
    }
  }

  lemma {:induction false} SanctionExtends(valid: Validates, calls: seq<Call>, call: Call, id: string)
    requires Sanctioned(valid, calls, id) && id in After(valid, calls + [call]).rules
    requires id in After(valid, calls).rules
    requires SameContent(After(valid, calls).rules[id], After(valid, calls + [call]).rules[id])
    ensures Sanctioned(valid, calls + [call], id)
  {
    var i :| 0 <= i < |calls|
          && Sanctions(After(valid, calls[..i]), valid, calls[i], id) && Unchanged(valid, calls, i, id);
    UnchangedExtends(valid, calls, call, i, id);
    assert (calls + [call])[..i] == calls[..i] && (calls + [call])[i] == calls[i];
  }

  lemma {:induction false} SanctionBegins(valid: Validates, calls: seq<Call>, call: Call, id: string)
    requires Sanctions(After(valid, calls), valid, call, id) && id in After(valid, calls + [call]).rules
    requires SameContent(After(valid, calls).rules[id], After(valid, calls + [call]).rules[id])
    ensures Sanctioned(valid, calls + [call], id)
  {
    var more := calls + [call];
    assert more[..|calls|] == calls && more[|calls|] == call;
    assert calls[..|calls|] == calls;
    assert Unchanged(valid, calls, |calls|, id);
    UnchangedExtends(valid, calls, call, |calls|, id);
  }

  // ------------------------------------------------------------------ every run

  /** After any calls, every active or approved rule is sanctioned as it stands. */
  lemma {:induction false} RulesSanctioned(valid: Validates, calls: seq<Call>, id: string)
    requires id in After(valid, calls).rules && NeedsSanction(After(valid, calls).rules[id])
    ensures Sanctioned(valid, calls, id)
  {
    if calls != [] {
      var earlier, call := calls[..|calls| - 1], calls[|calls| - 1];
      assert calls == earlier + [call];
      AfterStep(valid, earlier, call);
      CallSanctions(After(valid, earlier), valid, call, id);
      if NeedsSanction(After(valid, earlier).rules[id]) {
        RulesSanctioned(valid, earlier, id);
        SanctionExtends(valid, earlier, call, id);
      } else {
        SanctionBegins(valid, earlier, call, id);
      }
    }
  }

  /** These entries are what the newest version froze: the rules as they stand. */
  ghost predicate JustFrozen(t: Tenant, entries: seq<Entry>) {
    t.versions != [] && t.versions[|t.versions| - 1].rules == entries && entries == Snapshot(t)
  }

  /** At the moment these calls had been made the entries were published, every one
      the rule as it stood, and every active one sanctioned. */
  ghost predicate Answerable(valid: Validates, calls: seq<Call>, entries: seq<Entry>) {
    && JustFrozen(After(valid, calls), entries)
    && forall e | e in entries ::
         && e.id in After(valid, calls).rules && e == EntryOf(e.id, After(valid, calls).rules[e.id])
         && (e.state == Active ==> Sanctioned(valid, calls, e.id))
  }

  ghost predicate OnceAnswerable(valid: Validates, calls: seq<Call>, entries: seq<Entry>) {
    exists p | 0 <= p <= |calls| :: Answerable(valid, calls[..p], entries)
  }

  lemma {:induction false} OnceExtends(valid: Validates, calls: seq<Call>, call: Call, entries: seq<Entry>)
    requires OnceAnswerable(valid, calls, entries)
    ensures OnceAnswerable(valid, calls + [call], entries)
  {
    var p :| 0 <= p <= |calls| && Answerable(valid, calls[..p], entries);
    assert (calls + [call])[..p] == calls[..p];
  }

  lemma {:induction false} SnapshotAnswerable(valid: Validates, calls: seq<Call>, t: Tenant)
    requires t == After(valid, calls) && JustFrozen(t, Snapshot(t))
    ensures OnceAnswerable(valid, calls, Snapshot(t))
  {
    forall e | e in Snapshot(t)
      ensures e.id in t.rules && e == EntryOf(e.id, t.rules[e.id])
      ensures e.state == Active ==> Sanctioned(valid, calls, e.id)
    {
      SnapshotExactly(t, e);
      if e.state == Active {
        RulesSanctioned(valid, calls, e.id);
      }
    }
    assert calls[..|calls|] == calls;
  }

  /** What a call can do to the versions: nothing, or add one that is the snapshot of
      the rules as the call leaves them, or a copy of an earlier one. */
  predicate AddsVersion(t: Tenant, t': Tenant, v: Version) {
    && t'.versions == t.versions + [v] && v.number == Latest(t.versions) + 1
    && (v.rules == Snapshot(t') || exists s | s in t.versions :: v.rules == s.rules && v.lists == s.lists)
  }

  lemma {:induction false} FindsListed(versions: seq<Version>, number: int)
    ensures FindVersion(versions, number).Some? ==>
              FindVersion(versions, number).value in versions && FindVersion(versions, number).value.number == number
    ensures FindVersion(versions, number).None? ==> forall v | v in versions :: v.number != number
  {
    if versions != [] {
      FindsListed(versions[1..], number);
    }
  }

  /** The versions after a call, and the one it added, if any. */
  ghost predicate Issues(t: Tenant, result: Result) {
    result.Done? && result.t.versions != t.versions ==> exists v :: AddsVersion(t, result.t, v)
  }

  lemma {:induction false} PublishIssues(t: Tenant, t': Tenant, actor: Actor, e: Event)
    requires t'.versions == t.versions
    ensures Issues(t, Done(Append(Publish(t', actor), actor, e)))
  {
    var after := Append(Publish(t', actor), actor, e);
    assert AddsVersion(t, after, after.versions[|t.versions|]);
  }

  lemma {:induction false} RevertIssues(t: Tenant, actor: Actor, to: int)
    ensures Issues(t, Revert(t, actor, to))
  {
    FindsListed(t.versions, to);
    if Revert(t, actor, to).Done? {
      assert AddsVersion(t, Revert(t, actor, to).t, Revert(t, actor, to).t.versions[|t.versions|]);
    }
  }

  lemma {:induction false} ActivateIssues(t: Tenant, actor: Actor, id: string, reason: string)
    ensures Issues(t, Activate(t, actor, id, reason))
  {
    if id in t.rules {
      var r := t.rules[id];
      var active := t.(rules := t.rules[id := r.(state := Active)]);
      var number := Latest(Publish(active, actor).versions);
      PublishIssues(t, active, actor, Activated(id, r.version, number, r.approvedBy, reason));
    }
  }

  lemma {:induction false} ArchiveIssues(t: Tenant, actor: Actor, id: string, reason: string)
    ensures Issues(t, Archive(t, actor, id, reason))
  {
    if id in t.rules {
      var retired := t.(rules := t.rules[id := t.rules[id].(state := Archived)]);
      PublishIssues(t, retired, actor, ArchivedRule(id, reason, Latest(Publish(retired, actor).versions)));
    }
  }

  lemma {:induction false} SaveListIssues(t: Tenant, actor: Actor, list: string, values: seq<Value>)
    ensures Issues(t, SaveList(t, actor, list, values))
  {
    var saved := t.(lists := t.lists[list := values]);
    PublishIssues(t, saved, actor, ListSaved(list !in t.lists, list, values, Latest(Publish(saved, actor).versions)));
  }

  lemma {:induction false} CallIssues(t: Tenant, valid: Validates, call: Call)
    ensures Issues(t, Attempt(t, valid, call))
  {
    match call.command
    case Activating(id, reason) => ActivateIssues(t, call.actor, id, reason);
    case Archiving(id, reason) => ArchiveIssues(t, call.actor, id, reason);
    case Reverting(to) => RevertIssues(t, call.actor, to);
    case SavingList(list, values) => SaveListIssues(t, call.actor, list, values);
    case _ =>
  }

  /** In every run, every published version was, when its rules were frozen, made of
      the rules as they stood, each active one sanctioned and unchanged since. */
  lemma {:induction false} EveryVersionAnswerable(valid: Validates, calls: seq<Call>, v: Version)
    requires v in After(valid, calls).versions
    ensures OnceAnswerable(valid, calls, v.rules)
  {
    var earlier, call := calls[..|calls| - 1], calls[|calls| - 1];
    var t, t' := After(valid, earlier), After(valid, calls);
    assert calls == earlier + [call];
    CallIssues(t, valid, call);
    if v in t.versions {
      EveryVersionAnswerable(valid, earlier, v);
      OnceExtends(valid, earlier, call, v.rules);
    } else if v.rules == Snapshot(t') {
      SnapshotAnswerable(valid, calls, t');
    } else {
      var source :| source in t.versions && v.rules == source.rules;
      EveryVersionAnswerable(valid, earlier, source);
      OnceExtends(valid, earlier, call, v.rules);
    }
  }

  // ------------------------------------------------------ how far it reaches

  /** Separation is from the rule's creator, not from whoever wrote its content:
      after a change of one's own to somebody else's draft, approving it is refused
      exactly to the creator and to roles without that permission. */
  lemma {:induction false} OwnEditApprovableIff(t: Tenant, valid: Validates, actor: Actor, id: string, fields: Content,
                                                reason: string)
    requires id in t.rules && EditDraft(t, valid, actor, id, fields).Done?
    ensures Approve(EditDraft(t, valid, actor, id, fields).t, actor, id, reason).Done?
       <==> Roles.May(actor.role, Roles.Approve) && actor.id != t.rules[id].createdBy
  {
  }

  /** So one officer can rewrite a colleague's draft, approve it and put it in force. */
  lemma {:induction false} LastEditorMayApprove(t: Tenant, valid: Validates, actor: Actor, id: string, fields: Content)
    requires id in t.rules && t.rules[id].state == Draft && t.rules[id].createdBy != actor.id
    requires actor.role == Roles.ComplianceOfficer && actor.id != ""
    requires EditDraft(t, valid, actor, id, fields).Done? && EditDraft(t, valid, actor, id, fields).t != t
    ensures var edited := EditDraft(t, valid, actor, id, fields).t;
            var approved := Approve(edited, actor, id, "");
            && approved.Done?
            && var active := Activate(approved.t, actor, id, "");
               && active.Done? && id in active.t.rules
               && active.t.rules[id].state == Active
               && active.t.rules[id].content == t.rules[id].content + fields
               && active.t.rules[id].approvedBy == actor.id
  {
    var edited := EditDraft(t, valid, actor, id, fields).t;
    EditResult(t, valid, actor, id, fields);
    assert Approve(edited, actor, id, "").Done?;
  }

  lemma {:induction false} EditResult(t: Tenant, valid: Validates, actor: Actor, id: string, fields: Content)
    requires id in t.rules
    requires EditDraft(t, valid, actor, id, fields).Done? && EditDraft(t, valid, actor, id, fields).t != t
    ensures var r := t.rules[id];
            EditDraft(t, valid, actor, id, fields).t.rules[id]
            == Rule(r.content + fields, r.state, r.version + 1, r.createdBy, "")
  {
  }

  /** An activation recorded as an emergency proves the override was held only when
      the rule had no approval: with one, a reason alone earns the label. */
  lemma {:induction false} EmergencyLabel(t: Tenant, actor: Actor, id: string, reason: string)
    requires id in t.rules && reason != "" && Roles.May(actor.role, Roles.Activate)
    ensures Activate(t, actor, id, reason).Done?
       <==> (t.rules[id].approvedBy == "" ==> Roles.May(actor.role, Roles.EmergencyOverride))
  {
  }

  lemma {:induction false} OfficersPermissions()
    ensures Roles.May(Roles.ComplianceOfficer, Roles.Activate)
    ensures !Roles.May(Roles.ComplianceOfficer, Roles.EmergencyOverride)
  {
  }

  lemma {:induction false} EmergencyWithoutOverride(t: Tenant, actor: Actor, id: string, reason: string)
    requires id in t.rules && reason != "" && t.rules[id].approvedBy != "" && actor.role == Roles.ComplianceOfficer
    ensures Activate(t, actor, id, reason).Done? && !Roles.May(actor.role, Roles.EmergencyOverride)
  {
    OfficersPermissions();
    EmergencyLabel(t, actor, id, reason);
  }
}

/** A rule from its draft to its retirement, and the versions published on the way.

    Each transition is a function from a tenant's tables to its tables, or a
    refusal that leaves them alone. `RuleBook` performs the transitions by updating
    the tables in place and is proved against those functions. */
module Lifecycle {
  import opened Values
  import opened Evaluation
  import opened Sorting
  import Roles

  // ------------------------------------------------------------------- tables

  datatype Field = RuleName | Description | Category | Reference | Expression | SeverityName | Priority | Message

  /** The writable fields, in the order a request's fields are read. */
  const FIELDS := [RuleName, Description, Category, Reference, Expression, SeverityName, Priority, Message]
  const SNAPSHOT_FIELDS := {RuleName, Expression, SeverityName, Priority, Reference, Message}

  type Content = map<Field, Value>

  datatype Rule = Rule(content: Content, state: RuleState, version: nat, createdBy: string, approvedBy: string)

  /** One rule inside a published snapshot. */
  datatype Entry = Entry(id: string, content: Content, state: RuleState)

  type Actor = Roles.Actor

  type ListTable = map<string, seq<Value>>

  datatype Version = Version(number: nat, rules: seq<Entry>, lists: ListTable, publishedBy: string)

  datatype Change = Change(field: Field, before: Value, after: Value)

  datatype Event =
    | Created(rule: string, name: Value, expression: Value, severity: Value)
    | Edited(rule: string, version: nat, changes: seq<Change>, approvalReset: bool)
    | ApprovalRequested(rule: string, version: nat, expression: Value)
    | Approved(rule: string, version: nat, author: string, reason: string)
    | Shadowed(rule: string, version: nat)
    | Activated(rule: string, version: nat, rulesetVersion: nat, approvedBy: string, emergencyReason: string)
    | ArchivedRule(rule: string, reason: string, rulesetVersion: nat)
    | Reverted(to: int, newVersion: nat)
    | ListSaved(created: bool, list: string, values: seq<Value>, rulesetVersion: nat)

  datatype Record = Record(actor: Actor, event: Event)

  /** One tenant: its rules (with their ids in order of creation), lists, published
      versions and audit trail. */
  datatype Tenant = Tenant(ids: seq<string>, rules: map<string, Rule>, lists: ListTable,
                           versions: seq<Version>, trail: seq<Record>)

  const NEW_TENANT := Tenant([], map[], map[], [], [])

  datatype Refusal = NotFound | Denied | OwnChange | WrongState | BadExpression | NotApproved | IdTaken

  datatype Result = Done(t: Tenant) | Refused(why: Refusal)

  /** Does `validate_source` accept this expression? */
  type Validates = Value -> bool

  function Look(c: Content, f: Field): Value {
    if f in c then c[f] else if f == Priority then Int(0) else Text("")
  }

  // ---------------------------------------------------------------- publishing

  predicate InSnapshot(r: Rule) {
    r.state == Active || r.state == Shadow
  }

  function EntryOf(id: string, r: Rule): Entry {
    Entry(id, map f | f in SNAPSHOT_FIELDS :: Look(r.content, f), r.state)
  }

  function PriorityOf(e: Entry): int {
    if Look(e.content, Priority).Int? then Look(e.content, Priority).n else 0
  }

  predicate EntryBefore(a: Entry, b: Entry) {
    PriorityOf(a) < PriorityOf(b) || (PriorityOf(a) == PriorityOf(b) && TextLess(a.id, b.id))
  }

  function Entries(ids: seq<string>, rules: map<string, Rule>): seq<Entry> {
    if ids == [] then []
    else
      (if ids[0] in rules && InSnapshot(rules[ids[0]]) then [EntryOf(ids[0], rules[ids[0]])] else [])
      + Entries(ids[1..], rules)
  }

  function Snapshot(t: Tenant): seq<Entry> {
    Sort(EntryBefore, Entries(t.ids, t.rules))
  }

  /** The highest version number, 0 if there is none. */
  function Latest(versions: seq<Version>): nat {
    if versions == [] then 0
    else
      var rest, last := Latest(versions[..|versions| - 1]), versions[|versions| - 1].number;
      if last > rest then last else rest
  }

  function FindVersion(versions: seq<Version>, number: int): Option<Version> {
    if versions == [] then None
    else if versions[0].number == number then Some(versions[0])
    else FindVersion(versions[1..], number)
  }

  function Publish(t: Tenant, actor: Actor): Tenant {
    t.(versions := t.versions + [Version(Latest(t.versions) + 1, Snapshot(t), t.lists, actor.id)])
  }

  function Append(t: Tenant, actor: Actor, e: Event): Tenant {
    t.(trail := t.trail + [Record(actor, e)])
  }

  // --------------------------------------------------------------- transitions

  function CreateDraft(t: Tenant, valid: Validates, actor: Actor, id: string, fields: Content): Result {
    if !Roles.May(actor.role, Roles.CreateDraft) then Refused(Denied)
    else if !valid(Look(fields, Expression)) then Refused(BadExpression)
    else if id in t.rules then Refused(IdTaken)
    else
      var saved := t.(ids := t.ids + [id], rules := t.rules[id := Rule(fields, Draft, 1, actor.id, "")]);
      Done(Append(saved, actor,
                  Created(id, Look(fields, RuleName), Look(fields, Expression), Look(fields, SeverityName))))
  }

  function Changes(c: Content, fields: Content, order: seq<Field>): seq<Change> {
    if order == [] then []
    else
      var f, rest := order[0], Changes(c, fields, order[1..]);
      if f in fields && Look(c, f) != fields[f] then [Change(f, Look(c, f), fields[f])] + rest else rest
  }

  function EditDraft(t: Tenant, valid: Validates, actor: Actor, id: string, fields: Content): Result {
    if id !in t.rules then Refused(NotFound)
    else
      var r := t.rules[id];
      if !Roles.May(actor.role, Roles.EditDraft) then Refused(Denied)
      else if r.state != Draft && r.state != Shadow then Refused(WrongState)
      else if Expression in fields && !valid(fields[Expression]) then Refused(BadExpression)
      else
        var changes := Changes(r.content, fields, FIELDS);
        if changes == [] then Done(t) else Done(Revise(t, actor, id, fields, changes))
  }

  /** An approval that survived an edit would not be an approval of anything. */
  function Revise(t: Tenant, actor: Actor, id: string, fields: Content, changes: seq<Change>): Tenant
    requires id in t.rules
  {
    var r := t.rules[id];
    var r' := r.(content := r.content + fields, version := r.version + 1, approvedBy := "");
    Append(t.(rules := t.rules[id := r']), actor, Edited(id, r'.version, changes, r.approvedBy != ""))
  }

  function RequestApproval(t: Tenant, actor: Actor, id: string): Result {
    if id !in t.rules then Refused(NotFound)
    else
      var r := t.rules[id];
      if !Roles.May(actor.role, Roles.RequestApproval) then Refused(Denied)
      else if r.state != Draft && r.state != Shadow then Refused(WrongState)
      else Done(Append(t, actor, ApprovalRequested(id, r.version, Look(r.content, Expression))))
  }

  /** Refused to whoever created the rule. */
  function Approve(t: Tenant, actor: Actor, id: string, reason: string): Result {
    if id !in t.rules then Refused(NotFound)
    else
      var r := t.rules[id];
      if !Roles.May(actor.role, Roles.Approve) then Refused(Denied)
      else if actor.id == r.createdBy then Refused(OwnChange)
      else
        Done(Append(t.(rules := t.rules[id := r.(approvedBy := actor.id)]), actor,
                    Approved(id, r.version, r.createdBy, reason)))
  }

  function MoveToShadow(t: Tenant, actor: Actor, id: string): Result {
    if id !in t.rules then Refused(NotFound)
    else if !Roles.May(actor.role, Roles.Shadow) then Refused(Denied)
    else
      var r := t.rules[id];
      Done(Append(t.(rules := t.rules[id := r.(state := Shadow)]), actor, Shadowed(id, r.version)))
  }

  /** The tables with rule `id` moved to another state and a version published. */
  function Moved(t: Tenant, actor: Actor, id: string, state: RuleState): Tenant
    requires id in t.rules
  {
    Publish(t.(rules := t.rules[id := t.rules[id].(state := state)]), actor)
  }

  /** Without an approval, activation takes a written reason and the override. */
  function ActivationRefusal(r: Rule, actor: Actor, emergencyReason: string): Option<Refusal> {
    if !Roles.May(actor.role, Roles.Activate) then Some(Denied)
    else if r.approvedBy != "" then None
    else if emergencyReason == "" then Some(NotApproved)
    else if !Roles.May(actor.role, Roles.EmergencyOverride) then Some(Denied)
    else None
  }

  function Activate(t: Tenant, actor: Actor, id: string, emergencyReason: string): Result {
    if id !in t.rules then Refused(NotFound)
    else
      var r, refusal := t.rules[id], ActivationRefusal(t.rules[id], actor, emergencyReason);
      if refusal.Some? then Refused(refusal.value)
      else
        var number := Latest(Moved(t, actor, id, Active).versions);
        Done(Append(Moved(t, actor, id, Active), actor,
                    Activated(id, r.version, number, r.approvedBy, emergencyReason)))
  }

  function Archive(t: Tenant, actor: Actor, id: string, reason: string): Result {
    if id !in t.rules then Refused(NotFound)
    else if !Roles.May(actor.role, Roles.Archive) then Refused(Denied)
    else
      var published := Moved(t, actor, id, Archived);
      Done(Append(published, actor, ArchivedRule(id, reason, Latest(published.versions))))
  }

  /** An undo that only adds: one more version, with the content of an older one. */
  function Revert(t: Tenant, actor: Actor, to: int): Result {
    if !Roles.May(actor.role, Roles.Revert) then Refused(Denied)
    else
      var source := FindVersion(t.versions, to);
      if source.None? then Refused(NotFound)
      else
        var number := Latest(t.versions) + 1;
        var version := Version(number, source.value.rules, source.value.lists, actor.id);
        Done(Append(t.(versions := t.versions + [version]), actor, Reverted(to, number)))
  }

  /** Creating or editing a named list publishes a version too. */
  function SaveList(t: Tenant, actor: Actor, list: string, values: seq<Value>): Result {
    var published := Publish(t.(lists := t.lists[list := values]), actor);
    Done(Append(published, actor, ListSaved(list !in t.lists, list, values, Latest(published.versions))))
  }

  datatype Command =
    | Creating(id: string, fields: Content)
    | Editing(id: string, fields: Content)
    | Requesting(id: string)
    | Approving(id: string, reason: string)
    | Shadowing(id: string)
    | Activating(id: string, reason: string)
    | Archiving(id: string, reason: string)
    | Reverting(to: int)
    | SavingList(list: string, values: seq<Value>)

  datatype Call = Call(actor: Actor, command: Command)

  function Attempt(t: Tenant, valid: Validates, call: Call): Result {
    var actor := call.actor;
    match call.command
    case Creating(id, fields) => CreateDraft(t, valid, actor, id, fields)
    case Editing(id, fields) => EditDraft(t, valid, actor, id, fields)
    case Requesting(id) => RequestApproval(t, actor, id)
    case Approving(id, reason) => Approve(t, actor, id, reason)
    case Shadowing(id) => MoveToShadow(t, actor, id)
    case Activating(id, reason) => Activate(t, actor, id, reason)
    case Archiving(id, reason) => Archive(t, actor, id, reason)
    case Reverting(to) => Revert(t, actor, to)
    case SavingList(list, values) => SaveList(t, actor, list, values)
  }

  /** A refused call leaves everything as it was. */
  function Step(t: Tenant, valid: Validates, call: Call): Tenant {
    var result := Attempt(t, valid, call);
    if result.Done? then result.t else t
  }

  /** A tenant's tables after these calls, from nothing. */
  function After(valid: Validates, calls: seq<Call>): Tenant {
    if calls == [] then NEW_TENANT else Step(After(valid, calls[..|calls| - 1]), valid, calls[|calls| - 1])
  }

  // ------------------------------------------------------ the tables in place

  /** What a call did to the tables, and what it told its caller. */
  predicate Yields(result: Result, before: Tenant, after: Tenant, refusal: Option<Refusal>) {
    match result
    case Done(t) => after == t && refusal == None
    case Refused(why) => after == before && refusal == Some(why)
  }

  class RuleBook {
    const valid: Validates
    var ids: seq<string>
    var rules: map<string, Rule>
    var lists: ListTable
    var versions: seq<Version>
    var trail: seq<Record>

    constructor (valid: Validates)
      ensures this.valid == valid && Tables() == NEW_TENANT
    {
      this.valid := valid;
      ids, rules, lists, versions, trail := [], map[], map[], [], [];
    }

    function Tables(): Tenant
      reads this
    {
      Tenant(ids, rules, lists, versions, trail)
    }

    method Create(actor: Actor, id: string, fields: Content) returns (refusal: Option<Refusal>)
      modifies this
      ensures Yields(CreateDraft(old(Tables()), valid, actor, id, fields), old(Tables()), Tables(), refusal)
    {
      if !Roles.May(actor.role, Roles.CreateDraft) {
        return Some(Denied);
      }
      if !valid(Look(fields, Expression)) {
        return Some(BadExpression);
      }
      if id in rules {
        return Some(IdTaken);
      }
      ids := ids + [id];
      rules := rules[id := Rule(fields, Draft, 1, actor.id, "")];
      Log(actor, Created(id, Look(fields, RuleName), Look(fields, Expression), Look(fields, SeverityName)));
      refusal := None;
    }

    method Edit(actor: Actor, id: string, fields: Content) returns (refusal: Option<Refusal>)
      modifies this
      ensures Yields(EditDraft(old(Tables()), valid, actor, id, fields), old(Tables()), Tables(), refusal)
    {
      if id !in rules {
        return Some(NotFound);
      }
      var rule := rules[id];
      if !Roles.May(actor.role, Roles.EditDraft) {
        return Some(Denied);
      }
      if rule.state != Draft && rule.state != Shadow {
        return Some(WrongState);
      }
      if Expression in fields && !valid(fields[Expression]) {
        return Some(BadExpression);
      }
      var changes := Compare(rule.content, fields, FIELDS);
      if changes == [] {
        return None;
      }
      Amend(actor, id, fields, changes);
      refusal := None;
    }

    method Amend(actor: Actor, id: string, fields: Content, changes: seq<Change>)
      requires id in rules
      modifies this
      ensures Tables() == Revise(old(Tables()), actor, id, fields, changes)
    {
      var rule := rules[id];
      var approvalReset := rule.approvedBy != "";
      rule := rule.(content := rule.content + fields);
      if approvalReset {
        rule := rule.(approvedBy := "");
      }
      rule := rule.(version := rule.version + 1);
      rules := rules[id := rule];
      Log(actor, Edited(id, rule.version, changes, approvalReset));
    }

    method Compare(c: Content, fields: Content, order: seq<Field>) returns (changes: seq<Change>)
      ensures changes == Changes(c, fields, order)
    {
      changes := [];
      var rest := order;
      while rest != []
        invariant changes + Changes(c, fields, rest) == Changes(c, fields, order)
        decreases |rest|
      {
        var f := rest[0];
        rest := rest[1..];
        if f in fields && Look(c, f) != fields[f] {
          ghost var later := Changes(c, fields, rest);
          var change := Change(f, Look(c, f), fields[f]);
          assert changes + ([change] + later) == (changes + [change]) + later;
          changes := changes + [change];
        }
      }
    }

    method Request(actor: Actor, id: string) returns (refusal: Option<Refusal>)
      modifies this
      ensures Yields(RequestApproval(old(Tables()), actor, id), old(Tables()), Tables(), refusal)
    {
      if id !in rules {
        return Some(NotFound);
      }
      if !Roles.May(actor.role, Roles.RequestApproval) {
        return Some(Denied);
      }
      if rules[id].state != Draft && rules[id].state != Shadow {
        return Some(WrongState);
      }
      Log(actor, ApprovalRequested(id, rules[id].version, Look(rules[id].content, Expression)));
      refusal := None;
    }

    method GiveApproval(actor: Actor, id: string, reason: string) returns (refusal: Option<Refusal>)
      modifies this
      ensures Yields(Approve(old(Tables()), actor, id, reason), old(Tables()), Tables(), refusal)
    {
      if id !in rules {
        return Some(NotFound);
      }
      if !Roles.May(actor.role, Roles.Approve) {
        return Some(Denied);
      }
      if actor.id == rules[id].createdBy {
        return Some(OwnChange);
      }
      rules := rules[id := rules[id].(approvedBy := actor.id)];
      Log(actor, Approved(id, rules[id].version, rules[id].createdBy, reason));
      refusal := None;
    }

    method PutInShadow(actor: Actor, id: string) returns (refusal: Option<Refusal>)
      modifies this
      ensures Yields(MoveToShadow(old(Tables()), actor, id), old(Tables()), Tables(), refusal)
    {
      if id !in rules {
        return Some(NotFound);
      }
      if !Roles.May(actor.role, Roles.Shadow) {
        return Some(Denied);
      }
      rules := rules[id := rules[id].(state := Shadow)];
      Log(actor, Shadowed(id, rules[id].version));
      refusal := None;
    }

    method PutInForce(actor: Actor, id: string, emergencyReason: string) returns (refusal: Option<Refusal>)
      modifies this
      ensures Yields(Activate(old(Tables()), actor, id, emergencyReason), old(Tables()), Tables(), refusal)
    {
      if id !in rules {
        return Some(NotFound);
      }
      if !Roles.May(actor.role, Roles.Activate) {
        return Some(Denied);
      }
      if rules[id].approvedBy == "" {
        if emergencyReason == "" {
          return Some(NotApproved);
        }
        if !Roles.May(actor.role, Roles.EmergencyOverride) {
          return Some(Denied);
        }
      }
      rules := rules[id := rules[id].(state := Active)];
      var number := PublishVersion(actor);
      Log(actor, Activated(id, rules[id].version, number, rules[id].approvedBy, emergencyReason));
      refusal := None;
    }

    method Retire(actor: Actor, id: string, reason: string) returns (refusal: Option<Refusal>)
      modifies this
      ensures Yields(Archive(old(Tables()), actor, id, reason), old(Tables()), Tables(), refusal)
    {
      if id !in rules {
        return Some(NotFound);
      }
      if !Roles.May(actor.role, Roles.Archive) {
        return Some(Denied);
      }
      rules := rules[id := rules[id].(state := Archived)];
      var number := PublishVersion(actor);
      Log(actor, ArchivedRule(id, reason, number));
      refusal := None;
    }

    method PublishVersion(actor: Actor) returns (number: nat)
      modifies this`versions
      ensures Tables() == Publish(old(Tables()), actor) && number == Latest(versions)
    {
      number := Latest(versions) + 1;
      versions := versions + [Version(number, Snapshot(Tables()), lists, actor.id)];
      assert versions[..|versions| - 1] == old(versions);
    }

    method RevertTo(actor: Actor, to: int) returns (refusal: Option<Refusal>)
      modifies this
      ensures Yields(Revert(old(Tables()), actor, to), old(Tables()), Tables(), refusal)
    {
      if !Roles.May(actor.role, Roles.Revert) {
        return Some(Denied);
      }
      var source := FindVersion(versions, to);
      if source.None? {
        return Some(NotFound);
      }
      var number := Latest(versions) + 1;
      versions := versions + [Version(number, source.value.rules, source.value.lists, actor.id)];
      Log(actor, Reverted(to, number));
      refusal := None;
    }

    method SaveNamedList(actor: Actor, list: string, values: seq<Value>)
      modifies this
      ensures Yields(SaveList(old(Tables()), actor, list, values), old(Tables()), Tables(), None)
    {
      var created := list !in lists;
      lists := lists[list := values];
      var number := PublishVersion(actor);
      Log(actor, ListSaved(created, list, values, number));
    }

    method Log(actor: Actor, e: Event)
      modifies this`trail
      ensures Tables() == Append(old(Tables()), actor, e)
    {
      trail := trail + [Record(actor, e)];
    }
  }
}

/** The audit trail explains the tables: folding it from nothing gives back every
    rule's name, expression, severity, state and approver, every named list and every
    version. */
module Explanation {
  import opened Values
  import opened Evaluation
  import opened Sorting
  import opened Lifecycle
  import opened FourEyes

  // ------------------------------------------------------------------ the fold

  const TRACKED := {RuleName, Expression, SeverityName}

  /** What the trail shows of a rule. */
  datatype Seen = Seen(content: Content, state: RuleState, approver: string)

  /** What the trail shows of an entry of a published version. */
  datatype View = View(content: Content, state: RuleState)

  /** What it shows of a published version: its rules and its lists. */
  datatype Shown = Shown(rules: map<string, View>, lists: ListTable)

  datatype Story = Story(rules: map<string, Seen>, lists: ListTable, versions: seq<Shown>)

  const NOTHING := Story(map[], map[], [])

  function Redo(c: Content, changes: seq<Change>): Content
    decreases changes
  {
    if changes == [] then c
    else
      var first := changes[0];
      Redo(if first.field in TRACKED then c[first.field := first.after] else c, changes[1..])
  }

  function InForce(rules: map<string, Seen>): map<string, View> {
    map id | id in rules && (rules[id].state == Active || rules[id].state == Shadow)
      :: View(rules[id].content, rules[id].state)
  }

  function Republish(s: Story): Story {
    s.(versions := s.versions + [Shown(InForce(s.rules), s.lists)])
  }

  function SeenIn(s: Story, id: string): Seen {
    if id in s.rules then s.rules[id] else Seen(map[], Draft, "")
  }

  function Note(s: Story, id: string, x: Seen): Story {
    s.(rules := s.rules[id := x])
  }

  /** What one record tells. A revert is resolved through the version it names. */
  function Tell(s: Story, r: Record): Story {
    match r.event
    case Created(id, name, expression, severity) =>
      Note(s, id, Seen(map[RuleName := name, Expression := expression, SeverityName := severity], Draft, ""))
    case Edited(id, _, changes, reset) =>
      var x := SeenIn(s, id);
      Note(s, id, Seen(Redo(x.content, changes), x.state, if reset then "" else x.approver))
    case Approved(id, _, _, _) => Note(s, id, SeenIn(s, id).(approver := r.actor.id))
    case Shadowed(id, _) => Note(s, id, SeenIn(s, id).(state := Shadow))
    case Activated(id, _, _, _, _) => Republish(Note(s, id, SeenIn(s, id).(state := Active)))
    case ArchivedRule(id, _, _) => Republish(Note(s, id, SeenIn(s, id).(state := Archived)))
    case Reverted(to, _) => if 1 <= to <= |s.versions| then s.(versions := s.versions + [s.versions[to - 1]]) else s
    case ListSaved(_, list, values, _) => Republish(s.(lists := s.lists[list := values]))
    case ApprovalRequested(_, _, _) => s
  }

  function Told(trail: seq<Record>): Story {
    if trail == [] then NOTHING else Tell(Told(trail[..|trail| - 1]), trail[|trail| - 1])
  }

  // --------------------------------------------------------- what it must match

  function Tracked(c: Content): Content {
    map f | f in TRACKED :: Look(c, f)
  }

  function SeenOf(r: Rule): Seen {
    Seen(Tracked(r.content), r.state, r.approvedBy)
  }

  function SeenAll(rules: map<string, Rule>): map<string, Seen> {
    map id | id in rules :: SeenOf(rules[id])
  }

  /** A snapshot, projected to name, expression, severity and state. */
  function ViewOf(entries: seq<Entry>): map<string, View> {
    if entries == [] then map[]
    else
      var last := entries[|entries| - 1];
      ViewOf(entries[..|entries| - 1])[last.id := View(Tracked(last.content), last.state)]
  }

  function ShownOf(v: Version): Shown {
    Shown(ViewOf(v.rules), v.lists)
  }

  function Views(versions: seq<Version>): seq<Shown> {
    if versions == [] then [] else Views(versions[..|versions| - 1]) + [ShownOf(versions[|versions| - 1])]
  }

  /** The story of the tables themselves. */
  function StoryOf(t: Tenant): Story {
    Story(SeenAll(t.rules), t.lists, Views(t.versions))
  }

  ghost predicate Numbered(versions: seq<Version>) {
    forall i | 0 <= i < |versions| :: versions[i].number == i + 1
  }

  /** Every rule is listed, once. */
  ghost predicate IdsTidy(t: Tenant) {
    && (forall id :: id in t.ids <==> id in t.rules)
    && forall i, j | 0 <= i < j < |t.ids| :: t.ids[i] != t.ids[j]
  }

  /** No version lists a rule twice. */
  ghost predicate ListedOnce(versions: seq<Version>) {
    forall i | 0 <= i < |versions| :: |versions[i].rules| == |ViewOf(versions[i].rules)|
  }

  /** Versions are numbered 1, 2, 3, ... and list each rule once, as the table does. */
  ghost predicate Tidy(t: Tenant) {
    Numbered(t.versions) && IdsTidy(t) && ListedOnce(t.versions)
  }

  // --------------------------------------------------------------------- edits

  lemma {:induction false} RedoKeys(c: Content, changes: seq<Change>)
    requires c.Keys == TRACKED
    ensures Redo(c, changes).Keys == TRACKED
    decreases changes
  {
    if changes != [] {
      RedoKeys(if changes[0].field in TRACKED then c[changes[0].field := changes[0].after] else c, changes[1..]);
    }
  }

  lemma {:induction false} RedoAt(c: Content, shown: Content, fields: Content, order: seq<Field>, f: Field)
    requires shown.Keys == TRACKED && f in TRACKED
    requires f in order ==> shown[f] == Look(c, f) || (f in fields && shown[f] == fields[f])
    ensures Redo(shown, Changes(c, fields, order)).Keys == TRACKED
    ensures Redo(shown, Changes(c, fields, order))[f] == if f in order && f in fields then fields[f] else shown[f]
    decreases order
  {
    RedoKeys(shown, Changes(c, fields, order));
    if order != [] {
      var g, rest := order[0], Changes(c, fields, order[1..]);
      if g in fields && Look(c, g) != fields[g] {
        var change := Change(g, Look(c, g), fields[g]);
        assert ([change] + rest)[0] == change && ([change] + rest)[1..] == rest;
        RedoAt(c, if g in TRACKED then shown[g := fields[g]] else shown, fields, order[1..], f);
      } else {
        RedoAt(c, shown, fields, order[1..], f);
      }
    }
  }

  /** Redoing the changes an edit records gives the tracked content after it. */
  lemma {:induction false} RedoEdit(c: Content, fields: Content, order: seq<Field>)
    requires forall f | f in TRACKED :: f in order
    ensures Redo(Tracked(c), Changes(c, fields, order)) == Tracked(c + fields)
  {
    forall f | f in TRACKED
      ensures Redo(Tracked(c), Changes(c, fields, order)).Keys == TRACKED
      ensures Redo(Tracked(c), Changes(c, fields, order))[f] == Tracked(c + fields)[f]
    {
      RedoAt(c, Tracked(c), fields, order, f);
    }
    assert RuleName in TRACKED;
  }

  // ------------------------------------------------------------------ versions

  lemma {:induction false} LatestIsLast(versions: seq<Version>)
    requires Numbered(versions)
    ensures Latest(versions) == |versions|
  {
    if versions != [] {
      LatestIsLast(versions[..|versions| - 1]);
    }
  }

  lemma {:induction false} FindsNth(versions: seq<Version>, number: int)
    requires Numbered(versions)
    ensures FindVersion(versions, number).Some? <==> 1 <= number <= |versions|
    ensures 1 <= number <= |versions| ==> FindVersion(versions, number) == Some(versions[number - 1])
  {
    FindsListed(versions, number);
    if 1 <= number <= |versions| {
      assert versions[number - 1] in versions;
    }
  }

  function Published(ids: seq<string>, rules: map<string, Rule>): set<string> {
    set id | id in ids && id in rules && InSnapshot(rules[id])
  }

  lemma {:induction false} EntriesCount(ids: seq<string>, rules: map<string, Rule>)
    requires forall i, j | 0 <= i < j < |ids| :: ids[i] != ids[j]
    ensures |Entries(ids, rules)| == |Published(ids, rules)|
  {
    if ids != [] {
      EntriesCount(ids[1..], rules);
      var rest := Published(ids[1..], rules);
      if ids[0] in rules && InSnapshot(rules[ids[0]]) {
        assert Published(ids, rules) == rest + {ids[0]};
        assert ids[0] !in rest;
      } else {
        assert Published(ids, rules) == rest;
      }
    }
  }

  lemma {:induction false} SnapshotSize(t: Tenant)
    requires IdsTidy(t)
    ensures |Snapshot(t)| == |Published(t.ids, t.rules)|
  {
    EntriesCount(t.ids, t.rules);
    SortKeeps(EntryBefore, Entries(t.ids, t.rules));
    MembersOf(Snapshot(t), Entries(t.ids, t.rules));
  }

  lemma {:induction false} EntryTracked(id: string, r: Rule)
    ensures Tracked(EntryOf(id, r).content) == Tracked(r.content)
  {
    forall f | f in TRACKED ensures Look(EntryOf(id, r).content, f) == Look(r.content, f) {
      assert f in SNAPSHOT_FIELDS;
    }
  }

  lemma {:induction false} ViewOfExactly(entries: seq<Entry>, rules: map<string, Rule>, id: string)
    requires forall e | e in entries :: e.id in rules && e == EntryOf(e.id, rules[e.id])
    ensures id in ViewOf(entries) <==> exists e | e in entries :: e.id == id
    ensures id in ViewOf(entries) ==>
              id in rules && ViewOf(entries)[id] == View(Tracked(rules[id].content), rules[id].state)
  {
    if entries != [] {
      var earlier, last := entries[..|entries| - 1], entries[|entries| - 1];
      assert entries == earlier + [last];
      ViewOfExactly(earlier, rules, id);
      EntryTracked(last.id, rules[last.id]);
    }
  }

  /** What the trail says is in force is what a snapshot freezes. */
  lemma {:induction false} SnapshotShown(t: Tenant)
    requires IdsTidy(t)
    ensures InForce(SeenAll(t.rules)) == ViewOf(Snapshot(t))
  {
    var view := InForce(SeenAll(t.rules));
    forall e | e in Snapshot(t) ensures e.id in t.rules && e == EntryOf(e.id, t.rules[e.id]) && e.id in view {
      SnapshotExactly(t, e);
    }
    forall id ensures id in view <==> id in ViewOf(Snapshot(t))
              ensures id in view ==> view[id] == ViewOf(Snapshot(t))[id] {
      ViewOfExactly(Snapshot(t), t.rules, id);
      if id in view {
        SnapshotExactly(t, EntryOf(id, t.rules[id]));
      }
    }
  }

  /** A snapshot lists each rule in force once. */
  lemma {:induction false} SnapshotCount(t: Tenant)
    requires IdsTidy(t)
    ensures |Snapshot(t)| == |ViewOf(Snapshot(t))|
  {
    SnapshotShown(t);
    SnapshotSize(t);
    assert InForce(SeenAll(t.rules)).Keys == Published(t.ids, t.rules);
  }

  lemma {:induction false} ViewsNth(versions: seq<Version>, i: nat)
    requires i < |versions|
    ensures |Views(versions)| == |versions| && Views(versions)[i] == ShownOf(versions[i])
  {
    if i < |versions| - 1 {
      ViewsNth(versions[..|versions| - 1], i);
    } else if |versions| > 1 {
      ViewsNth(versions[..|versions| - 1], 0);
    }
  }

  // --------------------------------------------------------------- one record

  lemma {:induction false} NoteAgrees(t: Tenant, t': Tenant, id: string, r: Rule)
    requires t'.rules == t.rules[id := r] && t'.versions == t.versions && t'.lists == t.lists
    ensures Note(StoryOf(t), id, SeenOf(r)) == StoryOf(t')
  {
    assert SeenAll(t.rules)[id := SeenOf(r)] == SeenAll(t'.rules);
  }

  lemma {:induction false} RuleKeepsTidy(t: Tenant, id: string, r: Rule)
    requires IdsTidy(t) && id in t.rules
    ensures IdsTidy(t.(rules := t.rules[id := r]))
  {
  }

  lemma {:induction false} AddedVersion(t: Tenant, v: Version)
    ensures StoryOf(t.(versions := t.versions + [v])) == StoryOf(t).(versions := Views(t.versions) + [ShownOf(v)])
  {
    assert (t.versions + [v])[..|t.versions|] == t.versions;
  }

  lemma {:induction false} PublishAgrees(t: Tenant, actor: Actor)
    requires IdsTidy(t)
    ensures Republish(StoryOf(t)) == StoryOf(Publish(t, actor))
  {
    SnapshotShown(t);
    AddedVersion(t, Version(Latest(t.versions) + 1, Snapshot(t), t.lists, actor.id));
  }

  lemma {:induction false} RepublishAgrees(t: Tenant, id: string, r: Rule, actor: Actor)
    requires IdsTidy(t) && id in t.rules
    ensures Republish(Note(StoryOf(t), id, SeenOf(r))) == StoryOf(Publish(t.(rules := t.rules[id := r]), actor))
  {
    var t' := t.(rules := t.rules[id := r]);
    NoteAgrees(t, t', id, r);
    RuleKeepsTidy(t, id, r);
    PublishAgrees(t', actor);
  }

  lemma {:induction false} SeenInTables(t: Tenant, id: string)
    requires id in t.rules
    ensures SeenIn(StoryOf(t), id) == SeenOf(t.rules[id])
  {
  }

  lemma {:induction false} TrackedShown(c: Content)
    ensures map[RuleName := Look(c, RuleName), Expression := Look(c, Expression), SeverityName := Look(c, SeverityName)]
         == Tracked(c)
  {
  }

  /** The trail, told from nothing, is the story of the tables. */
  ghost predicate Explained(t: Tenant) {
    Told(t.trail) == StoryOf(t)
  }

  ghost predicate KeepsAgreement(t: Tenant, result: Result) {
    result.Done? ==> Explained(result.t)
  }

  lemma {:induction false} AppendTells(t: Tenant, t': Tenant, actor: Actor, e: Event)
    requires Explained(t) && t'.trail == t.trail && Tell(StoryOf(t), Record(actor, e)) == StoryOf(t')
    ensures Explained(Append(t', actor, e))
  {
    var trail := Append(t', actor, e).trail;
    assert trail[..|trail| - 1] == t.trail;
  }

  lemma {:induction false} CreateAgrees(t: Tenant, valid: Validates, actor: Actor, id: string, fields: Content)
    requires Explained(t)
    ensures KeepsAgreement(t, CreateDraft(t, valid, actor, id, fields))
  {
    var r := Rule(fields, Draft, 1, actor.id, "");
    var t' := t.(ids := t.ids + [id], rules := t.rules[id := r]);
    TrackedShown(fields);
    NoteAgrees(t, t', id, r);
    AppendTells(t, t', actor,
                Created(id, Look(fields, RuleName), Look(fields, Expression), Look(fields, SeverityName)));
  }

  lemma {:induction false} TellEdited(s: Story, actor: Actor, e: Event)
    requires e.Edited?
    ensures var x := SeenIn(s, e.rule);
            Tell(s, Record(actor, e))
            == Note(s, e.rule, Seen(Redo(x.content, e.changes), x.state, if e.approvalReset then "" else x.approver))
  {
  }

  lemma {:induction false} EditedTells(t: Tenant, actor: Actor, r: Rule, e: Event)
    requires Explained(t) && e.Edited? && e.rule in t.rules && e.approvalReset == (t.rules[e.rule].approvedBy != "")
    requires r.state == t.rules[e.rule].state && r.approvedBy == ""
    requires Redo(Tracked(t.rules[e.rule].content), e.changes) == Tracked(r.content)
    ensures Explained(Append(t.(rules := t.rules[e.rule := r]), actor, e))
  {
    var t' := t.(rules := t.rules[e.rule := r]);
    SeenInTables(t, e.rule);
    NoteAgrees(t, t', e.rule, r);
    TellEdited(StoryOf(t), actor, e);
    AppendTells(t, t', actor, e);
  }

  lemma {:induction false} ReviseAgrees(t: Tenant, actor: Actor, id: string, fields: Content, order: seq<Field>)
    requires Explained(t) && id in t.rules && forall f | f in TRACKED :: f in order
    ensures Explained(Revise(t, actor, id, fields, Changes(t.rules[id].content, fields, order)))
  {
    var r := t.rules[id];
    var changes := Changes(r.content, fields, order);
    var r' := r.(content := r.content + fields, version := r.version + 1, approvedBy := "");
    var e := Edited(id, r'.version, changes, r.approvedBy != "");
    assert Revise(t, actor, id, fields, changes) == Append(t.(rules := t.rules[id := r']), actor, e);
    RedoEdit(r.content, fields, order);
    EditedTells(t, actor, r', e);
  }

  lemma {:induction false} EditIs(t: Tenant, valid: Validates, actor: Actor, id: string, fields: Content)
    requires EditDraft(t, valid, actor, id, fields).Done?
    ensures id in t.rules
    ensures var t' := EditDraft(t, valid, actor, id, fields).t;
            t' == t || t' == Revise(t, actor, id, fields, Changes(t.rules[id].content, fields, FIELDS))
  {
  }

  lemma {:induction false} TrackedAreFields()
    ensures forall f | f in TRACKED :: f in FIELDS
  {
    assert FIELDS[0] == RuleName && FIELDS[4] == Expression && FIELDS[5] == SeverityName;
  }

  lemma {:induction false} EditAgrees(t: Tenant, valid: Validates, actor: Actor, id: string, fields: Content)
    requires Explained(t)
    ensures KeepsAgreement(t, EditDraft(t, valid, actor, id, fields))
  {
    if EditDraft(t, valid, actor, id, fields).Done? {
      EditIs(t, valid, actor, id, fields);
      TrackedAreFields();
      ReviseAgrees(t, actor, id, fields, FIELDS);
    }
  }

  lemma {:induction false} ApproveAgrees(t: Tenant, actor: Actor, id: string, reason: string)
    requires Explained(t)
    ensures KeepsAgreement(t, Approve(t, actor, id, reason))
  {
    if id in t.rules {
      var r := t.rules[id];
      var r' := r.(approvedBy := actor.id);
      var t' := t.(rules := t.rules[id := r']);
      SeenInTables(t, id);
      NoteAgrees(t, t', id, r');
      AppendTells(t, t', actor, Approved(id, r.version, r.createdBy, reason));
    }
  }

  lemma {:induction false} ShadowAgrees(t: Tenant, actor: Actor, id: string)
    requires Explained(t)
    ensures KeepsAgreement(t, MoveToShadow(t, actor, id))
  {
    if id in t.rules {
      var r := t.rules[id];
      var r' := r.(state := Shadow);
      var t' := t.(rules := t.rules[id := r']);
      SeenInTables(t, id);
      NoteAgrees(t, t', id, r');
      AppendTells(t, t', actor, Shadowed(id, r.version));
    }
  }

  /** A record that moves rule `id` to another state and publishes. */
  lemma {:induction false} MovedAndPublished(t: Tenant, actor: Actor, id: string, state: RuleState, e: Event)
    requires Explained(t) && IdsTidy(t) && id in t.rules
    requires Tell(StoryOf(t), Record(actor, e))
          == Republish(Note(StoryOf(t), id, SeenIn(StoryOf(t), id).(state := state)))
    ensures Explained(Append(Moved(t, actor, id, state), actor, e))
  {
    SeenInTables(t, id);
    RepublishAgrees(t, id, t.rules[id].(state := state), actor);
    AppendTells(t, Moved(t, actor, id, state), actor, e);
  }

  lemma {:induction false} TellMoved(s: Story, actor: Actor, e: Event)
    requires e.Activated? || e.ArchivedRule?
    ensures Tell(s, Record(actor, e))
         == Republish(Note(s, e.rule, SeenIn(s, e.rule).(state := if e.Activated? then Active else Archived)))
  {
  }

  lemma {:induction false} ActivateIs(t: Tenant, actor: Actor, id: string, reason: string) returns (e: Event)
    requires Activate(t, actor, id, reason).Done?
    ensures e.Activated? && e.rule == id && id in t.rules
    ensures Activate(t, actor, id, reason).t == Append(Moved(t, actor, id, Active), actor, e)
  {
    var r := t.rules[id];
    e := Activated(id, r.version, Latest(Moved(t, actor, id, Active).versions), r.approvedBy, reason);
  }

  lemma {:induction false} ArchiveIs(t: Tenant, actor: Actor, id: string, reason: string) returns (e: Event)
    requires Archive(t, actor, id, reason).Done?
    ensures e.ArchivedRule? && e.rule == id && id in t.rules
    ensures Archive(t, actor, id, reason).t == Append(Moved(t, actor, id, Archived), actor, e)
  {
    e := ArchivedRule(id, reason, Latest(Moved(t, actor, id, Archived).versions));
  }

  lemma {:induction false} ActivateAgrees(t: Tenant, actor: Actor, id: string, reason: string)
    requires Explained(t) && IdsTidy(t)
    ensures KeepsAgreement(t, Activate(t, actor, id, reason))
  {
    if Activate(t, actor, id, reason).Done? {
      var e := ActivateIs(t, actor, id, reason);
      TellMoved(StoryOf(t), actor, e);
      MovedAndPublished(t, actor, id, Active, e);
    }
  }

  lemma {:induction false} ArchiveAgrees(t: Tenant, actor: Actor, id: string, reason: string)
    requires Explained(t) && IdsTidy(t)
    ensures KeepsAgreement(t, Archive(t, actor, id, reason))
  {
    if Archive(t, actor, id, reason).Done? {
      var e := ArchiveIs(t, actor, id, reason);
      TellMoved(StoryOf(t), actor, e);
      MovedAndPublished(t, actor, id, Archived, e);
    }
  }

  lemma {:induction false} TellReverted(s: Story, actor: Actor, to: int, n: nat)
    requires 1 <= to <= |s.versions|
    ensures Tell(s, Record(actor, Reverted(to, n))) == s.(versions := s.versions + [s.versions[to - 1]])
  {
  }

  lemma {:induction false} RevertTells(t: Tenant, actor: Actor, to: int, v: Version)
    requires Explained(t) && 1 <= to <= |t.versions|
    requires v.rules == t.versions[to - 1].rules && v.lists == t.versions[to - 1].lists
    ensures Explained(Append(t.(versions := t.versions + [v]), actor, Reverted(to, v.number)))
  {
    AddedVersion(t, v);
    ViewsNth(t.versions, to - 1);
    TellReverted(StoryOf(t), actor, to, v.number);
    AppendTells(t, t.(versions := t.versions + [v]), actor, Reverted(to, v.number));
  }

  lemma {:induction false} RevertAgrees(t: Tenant, actor: Actor, to: int)
    requires Explained(t) && Numbered(t.versions)
    ensures KeepsAgreement(t, Revert(t, actor, to))
  {
    FindsNth(t.versions, to);
    if 1 <= to <= |t.versions| {
      var source := t.versions[to - 1];
      var v := Version(Latest(t.versions) + 1, source.rules, source.lists, actor.id);
      RevertTells(t, actor, to, v);
      assert Revert(t, actor, to).Done? ==>
               Revert(t, actor, to).t == Append(t.(versions := t.versions + [v]), actor, Reverted(to, v.number));
    }
  }

  lemma {:induction false} SavedTells(t: Tenant, saved: Tenant, actor: Actor, e: Event)
    requires Explained(t) && IdsTidy(t) && e.ListSaved? && saved == t.(lists := t.lists[e.list := e.values])
    ensures Explained(Append(Publish(saved, actor), actor, e))
  {
    assert StoryOf(saved) == StoryOf(t).(lists := t.lists[e.list := e.values]);
    PublishAgrees(saved, actor);
    AppendTells(t, Publish(saved, actor), actor, e);
  }

  lemma {:induction false} SaveListAgrees(t: Tenant, actor: Actor, list: string, values: seq<Value>)
    requires Explained(t) && IdsTidy(t)
    ensures KeepsAgreement(t, SaveList(t, actor, list, values))
  {
    var saved := t.(lists := t.lists[list := values]);
    SavedTells(t, saved, actor, ListSaved(list !in t.lists, list, values, Latest(Publish(saved, actor).versions)));
  }

  lemma {:induction false} RequestAgrees(t: Tenant, actor: Actor, id: string)
    requires Explained(t)
    ensures KeepsAgreement(t, RequestApproval(t, actor, id))
  {
    if id in t.rules {
      AppendTells(t, t, actor, ApprovalRequested(id, t.rules[id].version, Look(t.rules[id].content, Expression)));
    }
  }

  lemma {:induction false} RuleCallAgrees(t: Tenant, valid: Validates, call: Call)
    requires Explained(t) && (call.command.Creating? || call.command.Editing? || call.command.Requesting?
                              || call.command.Approving? || call.command.Shadowing?)
    ensures KeepsAgreement(t, Attempt(t, valid, call))
  {
    var actor := call.actor;
    match call.command
    case Creating(id, fields) => CreateAgrees(t, valid, actor, id, fields);
    case Editing(id, fields) => EditAgrees(t, valid, actor, id, fields);
    case Requesting(id) => RequestAgrees(t, actor, id);
    case Approving(id, reason) => ApproveAgrees(t, actor, id, reason);
    case Shadowing(id) => ShadowAgrees(t, actor, id);
  }

  /** Every accepted call keeps the trail telling the tables. */
  lemma {:induction false} CallAgrees(t: Tenant, valid: Validates, call: Call)
    requires Explained(t) && IdsTidy(t) && Numbered(t.versions)
    ensures KeepsAgreement(t, Attempt(t, valid, call))
  {
    AttemptIs(t, valid, call);
    match call.command
    case Activating(id, reason) => ActivateAgrees(t, call.actor, id, reason);
    case Archiving(id, reason) => ArchiveAgrees(t, call.actor, id, reason);
    case Reverting(to) => RevertAgrees(t, call.actor, to);
    case SavingList(list, values) => SaveListAgrees(t, call.actor, list, values);
    case _ => RuleCallAgrees(t, valid, call);
  }

  lemma {:induction false} AttemptIs(t: Tenant, valid: Validates, call: Call)
    ensures match call.command
            case Activating(id, reason) => Attempt(t, valid, call) == Activate(t, call.actor, id, reason)
            case Archiving(id, reason) => Attempt(t, valid, call) == Archive(t, call.actor, id, reason)
            case Reverting(to) => Attempt(t, valid, call) == Revert(t, call.actor, to)
            case SavingList(list, values) => Attempt(t, valid, call) == SaveList(t, call.actor, list, values)
            case _ => true
  {
  }

  lemma {:induction false} CallKeepsIds(t: Tenant, valid: Validates, call: Call)
    ensures var t' := Step(t, valid, call);
            || (t'.ids == t.ids && t'.rules.Keys == t.rules.Keys)
            || exists id :: id !in t.rules && t'.ids == t.ids + [id] && t'.rules.Keys == t.rules.Keys + {id}
  {
    match call.command
    case Creating(_, _) =>
    case Editing(_, _) =>
    case _ =>
  }

  lemma {:induction false} CallKeepsIdsTidy(t: Tenant, valid: Validates, call: Call)
    requires IdsTidy(t)
    ensures IdsTidy(Step(t, valid, call))
  {
    CallKeepsIds(t, valid, call);
  }

  lemma {:induction false} AddedKeepsVersions(t: Tenant, t': Tenant, v: Version)
    requires Tidy(t) && IdsTidy(t') && AddsVersion(t, t', v)
    ensures Numbered(t'.versions) && ListedOnce(t'.versions)
  {
    LatestIsLast(t.versions);
    SnapshotCount(t');
  }

  lemma {:induction false} CallKeepsTidy(t: Tenant, valid: Validates, call: Call)
    requires Tidy(t)
    ensures Tidy(Step(t, valid, call))
  {
    CallKeepsIdsTidy(t, valid, call);
    CallIssues(t, valid, call);
    var t' := Step(t, valid, call);
    if t'.versions != t.versions {
      var v :| AddsVersion(t, t', v);
      AddedKeepsVersions(t, t', v);
    }
  }

  // ----------------------------------------------------------------- every run

  /** In every run the trail alone reconstructs each rule's name, expression,
      severity, state and approver and each published version, and the versions are
      numbered without a gap. */
  lemma {:induction false} TrailExplains(valid: Validates, calls: seq<Call>)
    ensures Explained(After(valid, calls)) && Tidy(After(valid, calls))
  {
    if calls != [] {
      var t := After(valid, calls[..|calls| - 1]);
      TrailExplains(valid, calls[..|calls| - 1]);
      CallAgrees(t, valid, calls[|calls| - 1]);
      CallKeepsTidy(t, valid, calls[|calls| - 1]);
    } else {
      assert Told([]) == NOTHING;
    }
  }

  lemma {:induction false} CallAppends(t: Tenant, valid: Validates, call: Call)
    ensures t.trail <= Step(t, valid, call).trail
  {
    match call.command
    case Creating(_, _) =>
    case Editing(_, _) =>
    case _ =>
  }

  /** Nothing published or recorded is ever altered by what comes later. */
  lemma {:induction false} HistoryIsKept(valid: Validates, calls: seq<Call>, more: seq<Call>)
    ensures After(valid, calls).versions <= After(valid, calls + more).versions
    ensures After(valid, calls).trail <= After(valid, calls + more).trail
  {
    if more == [] {
      assert calls + more == calls;
    } else {
      var earlier, call := more[..|more| - 1], more[|more| - 1];
      assert calls + more == (calls + earlier) + [call];
      HistoryIsKept(valid, calls, earlier);
      AfterStep(valid, calls + earlier, call);
      CallIssues(After(valid, calls + earlier), valid, call);
      CallAppends(After(valid, calls + earlier), valid, call);
    }
  }
}

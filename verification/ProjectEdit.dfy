// Editing a project: the draft, its diff and patch, and the ordered save that may stop at a refused step
// (studio/src/lib/projects.ts:315-373, studio/src/components/settings/projects/EditProjectDrawer.tsx:72-108).
module ProjectEdit {
  import opened Wrappers
  import opened Strings

  datatype Step = Name | Key | Org | Path | Integrations

  /** The steps in the order the server applies them. */
  const PROJECT_STEPS := [Name, Key, Org, Path, Integrations]

  /** The editable fields of a project, each declared setting as text, "" when unset. */
  datatype Draft = Draft(name: string, key: string, org: string, path: string, integrations: map<string, string>)

  datatype Diff = Diff(assign: map<string, string>, unset: set<string>)

  datatype Patch = Patch(name: Option<string>, key: Option<string>, org: Option<string>, path: Option<string>, integrations: Option<Diff>)

  const NO_CHANGE := Patch(None, None, None, None, None)

  /** A project of the server, `settings` the text of each value stored at a setting key. */
  datatype Project = Project(name: string, key: Option<string>, org: Option<string>, path: Option<string>, settings: map<string, string>)

  function SettingAt(settings: map<string, string>, key: string): string {
    if key in settings then settings[key] else ""
  }

  /** The editable draft of a project, with a text for each declared key. */
  function DraftOf(project: Project, declared: set<string>): Draft {
    Draft(project.name, project.key.GetOr(""), project.org.GetOr(""), project.path.GetOr(""),
          map key | key in declared :: SettingAt(project.settings, key))
  }

  // ---- what a draft changes ----

  predicate SettingChanged(initial: Draft, draft: Draft, key: string) {
    SettingAt(draft.integrations, key) != SettingAt(initial.integrations, key)
  }

  function DiffOf(initial: Draft, draft: Draft): Diff {
    Diff(map key | key in draft.integrations && SettingChanged(initial, draft, key) && draft.integrations[key] != "" :: draft.integrations[key],
         set key | key in draft.integrations && SettingChanged(initial, draft, key) && draft.integrations[key] == "")
  }

  /** Collects the listed settings one by one: changed to a text, or changed to nothing. */
  method IntegrationsDiff(initial: Draft, draft: Draft) returns (diff: Diff)
    ensures diff == DiffOf(initial, draft)
  {
    var assign: map<string, string>, unset: set<string> := map[], {};
    var left := draft.integrations.Keys;
    while left != {}
      invariant left <= draft.integrations.Keys
      invariant assign == map key | key in draft.integrations && key !in left && SettingChanged(initial, draft, key)
                                    && draft.integrations[key] != "" :: draft.integrations[key]
      invariant unset == set key | key in draft.integrations && key !in left && SettingChanged(initial, draft, key)
                                   && draft.integrations[key] == ""
    {
      var key :| key in left;
      left := left - {key};
      var value := draft.integrations[key];
      if value != SettingAt(initial.integrations, key) {
        if value == "" {
          unset := unset + {key};
        } else {
          assign := assign[key := value];
        }
      }
    }
    diff := Diff(assign, unset);
  }

  predicate IsEmpty(diff: Diff) {
    diff.assign == map[] && diff.unset == {}
  }

  /** Whether a draft changes a step; every text but the org's is compared trimmed. */
  predicate Changes(initial: Draft, draft: Draft, step: Step) {
    match step
    case Name => Trim(draft.name) != initial.name
    case Key => Trim(draft.key) != initial.key
    case Org => draft.org != initial.org
    case Path => Trim(draft.path) != initial.path
    case Integrations => !IsEmpty(DiffOf(initial, draft))
  }

  /** The given steps a draft changes, in order. */
  function ChangedAmong(initial: Draft, draft: Draft, steps: seq<Step>): seq<Step> {
    if steps == [] then []
    else if Changes(initial, draft, steps[0]) then [steps[0]] + ChangedAmong(initial, draft, steps[1..])
    else ChangedAmong(initial, draft, steps[1..])
  }

  /** The changed ones among all steps, name first and settings last. */
  function ChangedSteps(initial: Draft, draft: Draft): seq<Step> {
    ChangedAmong(initial, draft, PROJECT_STEPS)
  }

  /** A patch with one step of a draft added to it. */
  function WithStep(patch: Patch, initial: Draft, draft: Draft, step: Step): Patch {
    match step
    case Name => patch.(name := Some(Trim(draft.name)))
    case Key => patch.(key := Some(Trim(draft.key)))
    case Org => patch.(org := Some(Trim(draft.org)))
    case Path => patch.(path := Some(Trim(draft.path)))
    case Integrations => patch.(integrations := Some(DiffOf(initial, draft)))
  }

  function PatchOf(initial: Draft, draft: Draft, steps: seq<Step>): Patch {
    if steps == [] then NO_CHANGE
    else WithStep(PatchOf(initial, draft, steps[..|steps| - 1]), initial, draft, steps[|steps| - 1])
  }

  /** The body a save sends: only the changed fields. */
  method BuildPatch(initial: Draft, draft: Draft) returns (patch: Patch)
    ensures patch == PatchOf(initial, draft, ChangedSteps(initial, draft))
  {
    var steps := ChangedSteps(initial, draft);
    patch := NO_CHANGE;
    for k := 0 to |steps|
      invariant patch == PatchOf(initial, draft, steps[..k])
    {
      assert steps[..k + 1][..k] == steps[..k];
      match steps[k]
      case Name => patch := patch.(name := Some(Trim(draft.name)));
      case Key => patch := patch.(key := Some(Trim(draft.key)));
      case Org => patch := patch.(org := Some(Trim(draft.org)));
      case Path => patch := patch.(path := Some(Trim(draft.path)));
      case Integrations =>
        var diff := IntegrationsDiff(initial, draft);
        patch := patch.(integrations := Some(diff));
    }
    assert steps[..|steps|] == steps;
  }

  // ---- what the server does with a patch ----

  /** What the server makes of a patch: the key, org and path as its row reads once they are stored, the text read back of
      each setting it stores in another form, and the settings that moving to the org unsets. */
  datatype Server = Server(key: string, org: string, path: string, texts: map<string, string>, lost: set<string>)

  function StoredText(server: Server, key: string, text: string): string {
    if key in server.texts then server.texts[key] else text
  }

  function Stored(server: Server, assign: map<string, string>): map<string, string> {
    map key | key in assign :: StoredText(server, key, assign[key])
  }

  /** The settings after a patch: a move drops those its org does not allow, then the diff sets some and unsets others. */
  function SettingsAfter(settings: map<string, string>, moved: bool, diff: Option<Diff>, server: Server): map<string, string> {
    var kept := if moved then settings - server.lost else settings;
    if diff.None? then kept else (kept + Stored(server, diff.value.assign)) - diff.value.unset
  }

  /** The project's fields once the server applied a patch, the org step before the settings. */
  function Applied(baseline: Draft, patch: Patch, server: Server): Draft {
    Draft(patch.name.GetOr(baseline.name),
          if patch.key.Some? then server.key else baseline.key,
          if patch.org.Some? then server.org else baseline.org,
          if patch.path.Some? then server.path else baseline.path,
          SettingsAfter(baseline.integrations, patch.org.Some?, patch.integrations, server))
  }

  ghost predicate SameSettings(a: map<string, string>, b: map<string, string>) {
    forall key {:trigger SettingAt(a, key)} {:trigger SettingAt(b, key)} :: SettingAt(a, key) == SettingAt(b, key)
  }

  /** Two drafts that read the same, an empty setting meaning an unset one. */
  ghost predicate ReadsTheSame(a: Draft, b: Draft) {
    a.name == b.name && a.key == b.key && a.org == b.org && a.path == b.path && SameSettings(a.integrations, b.integrations)
  }

  /** The draft as a save means it: the texts typed are trimmed, the org is one of those offered. */
  function Trimmed(draft: Draft): Draft {
    draft.(name := Trim(draft.name), key := Trim(draft.key), path := Trim(draft.path))
  }

  /** What a patch carries for a step: the draft's value when the step is sent, nothing otherwise. */
  predicate Carries(patch: Patch, initial: Draft, draft: Draft, step: Step, sent: bool) {
    match step
    case Name => patch.name == if sent then Some(Trim(draft.name)) else None
    case Key => patch.key == if sent then Some(Trim(draft.key)) else None
    case Org => patch.org == if sent then Some(Trim(draft.org)) else None
    case Path => patch.path == if sent then Some(Trim(draft.path)) else None
    case Integrations => patch.integrations == if sent then Some(DiffOf(initial, draft)) else None
  }

  lemma {:induction false} PatchCarries(initial: Draft, draft: Draft, steps: seq<Step>, step: Step)
    ensures Carries(PatchOf(initial, draft, steps), initial, draft, step, step in steps)
  {
    if steps != [] {
      var rest := steps[..|steps| - 1];
      PatchCarries(initial, draft, rest, step);
      assert steps == rest + [steps[|steps| - 1]];
    }
  }

  lemma {:induction false} PatchCarriesEach(initial: Draft, draft: Draft, steps: seq<Step>)
    ensures var patch := PatchOf(initial, draft, steps);
            && Carries(patch, initial, draft, Name, Name in steps) && Carries(patch, initial, draft, Key, Key in steps)
            && Carries(patch, initial, draft, Org, Org in steps) && Carries(patch, initial, draft, Path, Path in steps)
            && Carries(patch, initial, draft, Integrations, Integrations in steps)
  {
    PatchCarries(initial, draft, steps, Name);
    PatchCarries(initial, draft, steps, Key);
    PatchCarries(initial, draft, steps, Org);
    PatchCarries(initial, draft, steps, Path);
    PatchCarries(initial, draft, steps, Integrations);
  }

  lemma {:induction false} ChangedAmongThem(initial: Draft, draft: Draft, steps: seq<Step>, step: Step)
    ensures step in ChangedAmong(initial, draft, steps) <==> step in steps && Changes(initial, draft, step)
  {
    if steps != [] {
      ChangedAmongThem(initial, draft, steps[1..], step);
    }
  }

  lemma {:induction false} StepChanged(initial: Draft, draft: Draft, step: Step)
    ensures step in ChangedSteps(initial, draft) <==> Changes(initial, draft, step)
  {
    ChangedAmongThem(initial, draft, PROJECT_STEPS, step);
    assert step == PROJECT_STEPS[0] || step == PROJECT_STEPS[1] || step == PROJECT_STEPS[2] || step == PROJECT_STEPS[3] || step == PROJECT_STEPS[4];
  }

  // ---- what a save leaves ----

  /** The key, org and path that were sent read back as the draft has them. */
  predicate StoresAsSent(draft: Draft, server: Server, sent: seq<Step>) {
    && (Key in sent ==> server.key == Trim(draft.key))
    && (Org in sent ==> server.org == draft.org)
    && (Path in sent ==> server.path == Trim(draft.path))
  }

  /** A setting the draft changed is stored in another form than it was typed in. */
  ghost predicate RewritesSetting(initial: Draft, draft: Draft, server: Server) {
    exists key :: key in draft.integrations && SettingChanged(initial, draft, key) && draft.integrations[key] != ""
                  && StoredText(server, key, draft.integrations[key]) != draft.integrations[key]
  }

  /** A setting the draft lists, set and unchanged, is one that moving to the org unsets. */
  ghost predicate LosesSetting(initial: Draft, draft: Draft, server: Server) {
    exists key :: key in draft.integrations && key in server.lost && !SettingChanged(initial, draft, key) && draft.integrations[key] != ""
  }

  /** A setting the draft lists differs from what it is once the move unset what it unsets. */
  ghost predicate DiffersOnceMoved(initial: Draft, draft: Draft, server: Server) {
    exists key :: key in draft.integrations
                  && draft.integrations[key] != if key in server.lost then "" else SettingAt(initial.integrations, key)
  }

  /** A setting the draft does not list stays set. */
  ghost predicate KeepsUnlisted(initial: Draft, draft: Draft, server: Server, moved: bool) {
    exists key :: key in initial.integrations && key !in draft.integrations && initial.integrations[key] != "" && !(moved && key in server.lost)
  }

  /** The text of a setting once some steps were applied. */
  function TextAfter(initial: Draft, draft: Draft, server: Server, moved: bool, sent: bool, key: string): string {
    if sent && key in draft.integrations && SettingChanged(initial, draft, key) then
      if draft.integrations[key] == "" then "" else StoredText(server, key, draft.integrations[key])
    else if moved && key in server.lost then "" else SettingAt(initial.integrations, key)
  }

  lemma {:induction false} SettingAfter(initial: Draft, draft: Draft, server: Server, moved: bool, sent: bool, key: string)
    ensures SettingAt(SettingsAfter(initial.integrations, moved, if sent then Some(DiffOf(initial, draft)) else None, server), key)
         == TextAfter(initial, draft, server, moved, sent, key)
  {
  }

  lemma {:induction false} DiffIsEmpty(initial: Draft, draft: Draft)
    ensures IsEmpty(DiffOf(initial, draft)) <==> forall key :: key in draft.integrations ==> !SettingChanged(initial, draft, key)
  {
    if key :| key in draft.integrations && SettingChanged(initial, draft, key) {
      assert key in DiffOf(initial, draft).assign || key in DiffOf(initial, draft).unset;
    }
  }

  /** The settings left are the draft's exactly when none it changed is rewritten, none it lists is lost by the move and
      none it does not list stays set. */
  lemma {:induction false} SettingsLeft(initial: Draft, draft: Draft, server: Server, moved: bool, sent: bool)
    requires !sent ==> IsEmpty(DiffOf(initial, draft))
    ensures SameSettings(SettingsAfter(initial.integrations, moved, if sent then Some(DiffOf(initial, draft)) else None, server), draft.integrations)
       <==> !RewritesSetting(initial, draft, server) && !(moved && LosesSetting(initial, draft, server))
            && !KeepsUnlisted(initial, draft, server, moved)
  {
    var after := SettingsAfter(initial.integrations, moved, if sent then Some(DiffOf(initial, draft)) else None, server);
    DiffIsEmpty(initial, draft);
    forall key
      ensures SettingAt(after, key) == TextAfter(initial, draft, server, moved, sent, key)
    {
      SettingAfter(initial, draft, server, moved, sent, key);
    }
    SettingsLeftByKey(initial, draft, server, moved, sent, after);
  }

  lemma {:induction false} SettingsLeftByKey(initial: Draft, draft: Draft, server: Server, moved: bool, sent: bool, after: map<string, string>)
    requires !sent ==> forall key :: key in draft.integrations ==> !SettingChanged(initial, draft, key)
    requires forall key {:trigger SettingAt(after, key)} :: SettingAt(after, key) == TextAfter(initial, draft, server, moved, sent, key)
    ensures SameSettings(after, draft.integrations)
       <==> !RewritesSetting(initial, draft, server) && !(moved && LosesSetting(initial, draft, server))
            && !KeepsUnlisted(initial, draft, server, moved)
  {
    if RewritesSetting(initial, draft, server) {
      var key :| key in draft.integrations && SettingChanged(initial, draft, key) && draft.integrations[key] != ""
                 && StoredText(server, key, draft.integrations[key]) != draft.integrations[key];
      assert SettingAt(after, key) != SettingAt(draft.integrations, key);
    } else if moved && LosesSetting(initial, draft, server) {
      var key :| key in draft.integrations && key in server.lost && !SettingChanged(initial, draft, key) && draft.integrations[key] != "";
      assert SettingAt(after, key) != SettingAt(draft.integrations, key);
    } else if KeepsUnlisted(initial, draft, server, moved) {
      var key :| key in initial.integrations && key !in draft.integrations && initial.integrations[key] != "" && !(moved && key in server.lost);
      assert SettingAt(after, key) != SettingAt(draft.integrations, key);
    } else {
      forall key
        ensures SettingAt(after, key) == SettingAt(draft.integrations, key)
      {
        assert SettingAt(after, key) == TextAfter(initial, draft, server, moved, sent, key);
      }
    }
  }

  /** A save that is not refused leaves the trimmed draft exactly when the server stores what is sent as it was sent, the
      org's move unsets no setting the draft lists unchanged, and no setting the draft does not list stays set. */
  lemma {:induction false} PatchGivesTrimmedDraft(initial: Draft, draft: Draft, server: Server)
    ensures var steps := ChangedSteps(initial, draft);
            var moved := Org in steps;
            ReadsTheSame(Applied(initial, PatchOf(initial, draft, steps), server), Trimmed(draft)) <==>
            && StoresAsSent(draft, server, steps) && !RewritesSetting(initial, draft, server)
            && !(moved && LosesSetting(initial, draft, server)) && !KeepsUnlisted(initial, draft, server, moved)
  {
    var steps := ChangedSteps(initial, draft);
    PatchCarriesEach(initial, draft, steps);
    StepChanged(initial, draft, Name);
    StepChanged(initial, draft, Key);
    StepChanged(initial, draft, Org);
    StepChanged(initial, draft, Path);
    StepChanged(initial, draft, Integrations);
    SettingsLeft(initial, draft, server, Org in steps, Integrations in steps);
  }

  // ---- an ordered save that stops at a refused step ----

  /** The server's refusal: the step it names (none when it is no known one), the steps applied before it, and why. */
  datatype Refusal = Refusal(step: Option<Step>, applied: seq<Step>, reason: string)

  datatype Refused = Refused(step: Step, reason: string)

  datatype Outcome = Outcome(applied: seq<Step>, refused: Option<Refused>, unapplied: seq<Step>)

  function IndexOf(steps: seq<Step>, step: Step): (at: nat)
    ensures at <= |steps| && (at < |steps| ==> steps[at] == step) && (at == |steps| ==> step !in steps)
  {
    if steps == [] || steps[0] == step then 0 else 1 + IndexOf(steps[1..], step)
  }

  /** The steps that are listed, or those that are not, in order. */
  function Listed(steps: seq<Step>, list: seq<Step>, kept: bool): seq<Step> {
    if steps == [] then []
    else if (steps[0] in list) == kept then [steps[0]] + Listed(steps[1..], list, kept) else Listed(steps[1..], list, kept)
  }

  /** How a save is reported: all steps applied without a refusal; with one, what the server lists, the step it stopped at and those after. */
  function SaveOutcome(steps: seq<Step>, refusal: Option<Refusal>): Outcome {
    match refusal
    case None => Outcome(steps, None, [])
    case Some(refused) =>
      var at := if refused.step.Some? then IndexOf(steps, refused.step.value) else |steps|;
      var applied := Listed(steps, refused.applied, true);
      if at == |steps| then Outcome(applied, None, Listed(steps, applied, false))
      else Outcome(applied, Some(Refused(steps[at], refused.reason)), steps[at + 1..])
  }

  predicate Distinct(steps: seq<Step>) {
    steps == [] || (steps[0] !in steps[1..] && Distinct(steps[1..]))
  }

  lemma {:induction false} ChangedAreDistinct(initial: Draft, draft: Draft, steps: seq<Step>)
    requires Distinct(steps)
    ensures Distinct(ChangedAmong(initial, draft, steps))
  {
    if steps != [] {
      ChangedAreDistinct(initial, draft, steps[1..]);
      ChangedAmongThem(initial, draft, steps[1..], steps[0]);
      var rest := ChangedAmong(initial, draft, steps[1..]);
      assert ([steps[0]] + rest)[1..] == rest;
    }
  }

  /** Whether the list names exactly the first `at` of the steps. */
  predicate NamesFirst(steps: seq<Step>, at: nat, list: seq<Step>) {
    steps == [] || ((steps[0] in list) == (at > 0) && NamesFirst(steps[1..], if at > 0 then at - 1 else 0, list))
  }

  lemma {:induction false} ListedNone(steps: seq<Step>, list: seq<Step>)
    ensures Listed(steps, list, true) == [] <==> NamesFirst(steps, 0, list)
  {
    if steps != [] {
      ListedNone(steps[1..], list);
    }
  }

  lemma {:induction false} ListedIsPrefix(steps: seq<Step>, at: nat, list: seq<Step>)
    requires at <= |steps| && Distinct(steps)
    ensures Listed(steps, list, true) == steps[..at] <==> NamesFirst(steps, at, list)
  {
    if at == 0 {
      ListedNone(steps, list);
    } else {
      var rest, found := steps[1..], Listed(steps[1..], list, true);
      ListedIsPrefix(rest, at - 1, list);
      assert steps[..at] == [steps[0]] + rest[..at - 1];
      if steps[0] in list {
        assert ([steps[0]] + found)[1..] == found && steps[..at][1..] == rest[..at - 1];
      } else {
        ListedAreSteps(rest, list);
        assert steps[0] !in found && steps[0] in steps[..at];
      }
    }
  }

  lemma {:induction false} ListedAreSteps(steps: seq<Step>, list: seq<Step>)
    ensures forall step :: step in Listed(steps, list, true) ==> step in steps
  {
    if steps != [] {
      ListedAreSteps(steps[1..], list);
    }
  }

  /** What a refused save reports makes up the whole list of steps, in order, exactly when the server lists as applied
      the steps before the refused one and no later step. */
  lemma {:induction false} RefusedSaveCoversSteps(steps: seq<Step>, refusal: Refusal)
    requires Distinct(steps) && refusal.step.Some? && refusal.step.value in steps
    ensures var out := SaveOutcome(steps, Some(refusal));
            && out.refused == Some(Refused(refusal.step.value, refusal.reason))
            && (out.applied + [refusal.step.value] + out.unapplied == steps <==>
                NamesFirst(steps, IndexOf(steps, refusal.step.value), refusal.applied))
  {
    var at := IndexOf(steps, refusal.step.value);
    var out := SaveOutcome(steps, Some(refusal));
    ListedIsPrefix(steps, at, refusal.applied);
    assert steps == steps[..at] + [steps[at]] + steps[at + 1..];
    if out.applied + [refusal.step.value] + out.unapplied == steps {
      assert |out.applied| == at;
      assert (out.applied + [refusal.step.value] + out.unapplied)[..at] == out.applied;
    }
  }

  // ---- resuming ----

  /** The baseline once the first `at` changed steps of a draft were applied. */
  function Resumed(initial: Draft, draft: Draft, server: Server, at: nat): Draft
    requires at <= |ChangedSteps(initial, draft)|
  {
    Applied(initial, PatchOf(initial, draft, ChangedSteps(initial, draft)[..at]), server)
  }

  /** Whether a step still changes once some of the changed steps were applied. */
  ghost predicate ChangesAgain(initial: Draft, draft: Draft, server: Server, done: seq<Step>, step: Step) {
    match step
    case Name => Name !in done && Changes(initial, draft, Name)
    case Key => if Key in done then server.key != Trim(draft.key) else Changes(initial, draft, Key)
    case Org => if Org in done then server.org != draft.org else Changes(initial, draft, Org)
    case Path => if Path in done then server.path != Trim(draft.path) else Changes(initial, draft, Path)
    case Integrations =>
      if Integrations in done then RewritesSetting(initial, draft, server) || (Org in done && LosesSetting(initial, draft, server))
      else if Org in done then DiffersOnceMoved(initial, draft, server)
      else Changes(initial, draft, Integrations)
  }

  lemma {:induction false} SettingsChangeAgain(initial: Draft, draft: Draft, server: Server, later: Draft, done: seq<Step>)
    requires later.integrations == SettingsAfter(initial.integrations, Org in done,
                                     if Integrations in done then Some(DiffOf(initial, draft)) else None, server)
    ensures Changes(later, draft, Integrations) <==> ChangesAgain(initial, draft, server, done, Integrations)
  {
    var moved, sent := Org in done, Integrations in done;
    DiffIsEmpty(later, draft);
    DiffIsEmpty(initial, draft);
    forall key
      ensures SettingAt(later.integrations, key) == TextAfter(initial, draft, server, moved, sent, key)
    {
      SettingAfter(initial, draft, server, moved, sent, key);
    }
    SettingsChangeByKey(initial, draft, server, later, moved, sent);
  }

  lemma {:induction false} SettingsChangeByKey(initial: Draft, draft: Draft, server: Server, later: Draft, moved: bool, sent: bool)
    requires forall key {:trigger SettingAt(later.integrations, key)} ::
               SettingAt(later.integrations, key) == TextAfter(initial, draft, server, moved, sent, key)
    ensures (exists key :: key in draft.integrations && SettingChanged(later, draft, key)) <==>
            if sent then RewritesSetting(initial, draft, server) || (moved && LosesSetting(initial, draft, server))
            else if moved then DiffersOnceMoved(initial, draft, server)
            else exists key :: key in draft.integrations && SettingChanged(initial, draft, key)
  {
    forall key
      ensures SettingChanged(later, draft, key) <==> SettingAt(draft.integrations, key) != TextAfter(initial, draft, server, moved, sent, key)
    {
    }
  }

  lemma {:induction false} ChangesAfter(initial: Draft, draft: Draft, server: Server, done: seq<Step>, step: Step)
    requires Changes(initial, draft, step) || step !in done
    ensures Changes(Applied(initial, PatchOf(initial, draft, done), server), draft, step) <==> ChangesAgain(initial, draft, server, done, step)
  {
    PatchCarries(initial, draft, done, step);
    PatchCarries(initial, draft, done, Org);
    if step == Integrations {
      SettingsChangeAgain(initial, draft, server, Applied(initial, PatchOf(initial, draft, done), server), done);
    }
  }

  /** The steps that change now are the last ones that changed before, when they are the same steps. */
  lemma {:induction false} SuffixChanges(initial: Draft, draft: Draft, later: Draft, steps: seq<Step>, at: nat)
    requires Distinct(steps) && at <= |ChangedAmong(initial, draft, steps)|
    requires forall step {:trigger Changes(later, draft, step)} :: step in steps ==>
               (Changes(later, draft, step) <==> step in ChangedAmong(initial, draft, steps)[at..])
    ensures ChangedAmong(later, draft, steps) == ChangedAmong(initial, draft, steps)[at..]
  {
    if steps != [] {
      var first, rest := steps[0], ChangedAmong(initial, draft, steps[1..]);
      var left := ChangedAmong(initial, draft, steps);
      var next := if Changes(initial, draft, first) && at > 0 then at - 1 else at;
      ChangedAmongThem(initial, draft, steps[1..], first);
      assert left[at..] == if Changes(initial, draft, first) && at == 0 then [first] + rest[next..] else rest[next..];
      forall step | step in steps[1..]
        ensures Changes(later, draft, step) <==> step in rest[next..]
      {
        assert step in steps && step != first;
      }
      assert first in steps && first !in rest[next..];
      SuffixChanges(initial, draft, later, steps[1..], next);
    }
  }

  /** After a save stopped at a step, saving again would send exactly that step and those after it when, and only when, the
      server stored what it applied as it was sent, and the settings still differ, or still do not, once the org moved. */
  lemma {:induction false} ResumedSaveSendsTheRest(initial: Draft, draft: Draft, server: Server, at: nat)
    requires at <= |ChangedSteps(initial, draft)|
    ensures var steps := ChangedSteps(initial, draft);
            var done := steps[..at];
            ChangedSteps(Resumed(initial, draft, server, at), draft) == steps[at..] <==>
            && StoresAsSent(draft, server, done)
            && (if Integrations in done then !RewritesSetting(initial, draft, server) && !(Org in done && LosesSetting(initial, draft, server))
                else Org in done ==> (Integrations in steps <==> DiffersOnceMoved(initial, draft, server)))
  {
    var left, done := ChangedSteps(initial, draft)[at..], ChangedSteps(initial, draft)[..at];
    var later := Resumed(initial, draft, server, at);
    forall step: Step
      ensures step in left <==> Changes(initial, draft, step) && step !in done
      ensures Changes(later, draft, step) <==> ChangesAgain(initial, draft, server, done, step)
    {
      StepAfterResume(initial, draft, server, at, step);
    }
    LeftoverIsTheRest(initial, draft, server, done, left);
    LeftAreChanged(initial, draft, later, at);
    StepChanged(initial, draft, Integrations);
  }

  lemma {:induction false} StepAfterResume(initial: Draft, draft: Draft, server: Server, at: nat, step: Step)
    requires at <= |ChangedSteps(initial, draft)|
    ensures var steps := ChangedSteps(initial, draft);
            && (step in steps[at..] <==> Changes(initial, draft, step) && step !in steps[..at])
            && (Changes(Resumed(initial, draft, server, at), draft, step) <==> ChangesAgain(initial, draft, server, steps[..at], step))
  {
    var steps := ChangedSteps(initial, draft);
    assert steps == steps[..at] + steps[at..];
    assert Distinct(PROJECT_STEPS);
    ChangedAreDistinct(initial, draft, PROJECT_STEPS);
    StepChanged(initial, draft, step);
    if step in steps[..at] {
      DistinctHalves(steps, at, step);
    }
    ChangesAfter(initial, draft, server, steps[..at], step);
  }

  /** The steps changed against a later baseline are the last ones changed before exactly when they are the same steps. */
  lemma {:induction false} LeftAreChanged(initial: Draft, draft: Draft, later: Draft, at: nat)
    requires at <= |ChangedSteps(initial, draft)|
    ensures var left := ChangedSteps(initial, draft)[at..];
            ChangedSteps(later, draft) == left <==> forall step :: Changes(later, draft, step) <==> step in left
  {
    var left := ChangedSteps(initial, draft)[at..];
    forall step
      ensures step in ChangedSteps(later, draft) <==> Changes(later, draft, step)
    {
      StepChanged(later, draft, step);
    }
    assert Distinct(PROJECT_STEPS);
    if forall step :: Changes(later, draft, step) <==> step in left {
      SuffixChanges(initial, draft, later, PROJECT_STEPS, at);
    }
  }

  /** The steps that change again are the ones left exactly when nothing applied changes again and the settings do as before. */
  lemma {:induction false} LeftoverIsTheRest(initial: Draft, draft: Draft, server: Server, done: seq<Step>, left: seq<Step>)
    requires forall step: Step {:trigger step in left} :: step in left <==> Changes(initial, draft, step) && step !in done
    ensures (forall step :: ChangesAgain(initial, draft, server, done, step) <==> step in left) <==>
            && StoresAsSent(draft, server, done)
            && (if Integrations in done then !RewritesSetting(initial, draft, server) && !(Org in done && LosesSetting(initial, draft, server))
                else Org in done ==> (Changes(initial, draft, Integrations) <==> DiffersOnceMoved(initial, draft, server)))
  {
    assert Key in left <==> Changes(initial, draft, Key) && Key !in done;
    assert Org in left <==> Changes(initial, draft, Org) && Org !in done;
    assert Path in left <==> Changes(initial, draft, Path) && Path !in done;
    assert Integrations in left <==> Changes(initial, draft, Integrations) && Integrations !in done;
  }

  /** What a patch still carries once some steps of it were applied. */
  function RestOf(patch: Patch, done: seq<Step>): Patch {
    Patch(if Name in done then None else patch.name,
          if Key in done then None else patch.key,
          if Org in done then None else patch.org,
          if Path in done then None else patch.path,
          if Integrations in done then None else patch.integrations)
  }

  /** A set setting the draft lists, emptied or left alone, is one that moving to the org unsets. */
  ghost predicate LeavesLost(initial: Draft, draft: Draft, server: Server) {
    exists key :: key in draft.integrations && key in server.lost && SettingAt(initial.integrations, key) != ""
                  && (draft.integrations[key] == "" || draft.integrations[key] == SettingAt(initial.integrations, key))
  }

  lemma {:induction false} SameDiff(initial: Draft, later: Draft, draft: Draft)
    ensures DiffOf(later, draft) == DiffOf(initial, draft) <==>
            forall key :: key in draft.integrations ==> (SettingChanged(later, draft, key) <==> SettingChanged(initial, draft, key))
  {
    var a, b := DiffOf(later, draft), DiffOf(initial, draft);
    if a == b {
      forall key | key in draft.integrations
        ensures SettingChanged(later, draft, key) <==> SettingChanged(initial, draft, key)
      {
        assert SettingChanged(later, draft, key) <==> key in a.assign || key in a.unset;
        assert SettingChanged(initial, draft, key) <==> key in b.assign || key in b.unset;
      }
    }
  }

  /** The settings still to save are those to save before exactly when the move unset none that was emptied or left alone. */
  lemma {:induction false} SameDiffOnceMoved(initial: Draft, draft: Draft, server: Server, later: Draft, moved: bool)
    requires later.integrations == SettingsAfter(initial.integrations, moved, None, server)
    ensures DiffOf(later, draft) == DiffOf(initial, draft) <==> !(moved && LeavesLost(initial, draft, server))
  {
    SameDiff(initial, later, draft);
    forall key
      ensures SettingAt(later.integrations, key) == if moved && key in server.lost then "" else SettingAt(initial.integrations, key)
    {
      SettingAfter(initial, draft, server, moved, false, key);
    }
    if moved && LeavesLost(initial, draft, server) {
      var key :| key in draft.integrations && key in server.lost && SettingAt(initial.integrations, key) != ""
                 && (draft.integrations[key] == "" || draft.integrations[key] == SettingAt(initial.integrations, key));
      assert SettingChanged(later, draft, key) != SettingChanged(initial, draft, key);
    }
  }

  /** A patch against a later baseline is a part of the first one exactly when it has the same steps and the same settings. */
  lemma {:induction false} SamePatch(initial: Draft, later: Draft, draft: Draft, done: seq<Step>)
    ensures var steps := ChangedSteps(initial, draft);
            PatchOf(later, draft, ChangedSteps(later, draft)) == RestOf(PatchOf(initial, draft, steps), done) <==>
            && (forall step :: Changes(later, draft, step) <==> Changes(initial, draft, step) && step !in done)
            && (Changes(initial, draft, Integrations) && Integrations !in done ==> DiffOf(later, draft) == DiffOf(initial, draft))
  {
    PatchCarriesEach(initial, draft, ChangedSteps(initial, draft));
    PatchCarriesEach(later, draft, ChangedSteps(later, draft));
    forall step
      ensures step in ChangedSteps(initial, draft) <==> Changes(initial, draft, step)
      ensures step in ChangedSteps(later, draft) <==> Changes(later, draft, step)
    {
      StepChanged(initial, draft, step);
      StepChanged(later, draft, step);
    }
    var resumed, rest := PatchOf(later, draft, ChangedSteps(later, draft)), RestOf(PatchOf(initial, draft, ChangedSteps(initial, draft)), done);
    if resumed == rest {
      forall step
        ensures Changes(later, draft, step) <==> Changes(initial, draft, step) && step !in done
      {
        match step
        case Name => assert resumed.name == rest.name;
        case Key => assert resumed.key == rest.key;
        case Org => assert resumed.org == rest.org;
        case Path => assert resumed.path == rest.path;
        case Integrations => assert resumed.integrations == rest.integrations;
      }
    }
  }

  /** After a save stopped at a step, saving again would send exactly what the first patch had left to apply when, and only
      when, the server stored what it applied as it was sent, and the move unset no setting still to save as it stands. */
  lemma {:induction false} ResumedPatchIsTheRest(initial: Draft, draft: Draft, server: Server, at: nat)
    requires at <= |ChangedSteps(initial, draft)|
    ensures var steps, later := ChangedSteps(initial, draft), Resumed(initial, draft, server, at);
            var done := steps[..at];
            PatchOf(later, draft, ChangedSteps(later, draft)) == RestOf(PatchOf(initial, draft, steps), done) <==>
            && StoresAsSent(draft, server, done)
            && (if Integrations in done then !RewritesSetting(initial, draft, server) && !(Org in done && LosesSetting(initial, draft, server))
                else !(Org in done && LeavesLost(initial, draft, server)))
  {
    var steps := ChangedSteps(initial, draft);
    var left, done := steps[at..], steps[..at];
    var later := Resumed(initial, draft, server, at);
    forall step: Step
      ensures step in left <==> Changes(initial, draft, step) && step !in done
      ensures Changes(later, draft, step) <==> ChangesAgain(initial, draft, server, done, step)
    {
      StepAfterResume(initial, draft, server, at, step);
    }
    LeftoverIsTheRest(initial, draft, server, done, left);
    SamePatch(initial, later, draft, done);
    if Integrations !in done {
      LaterSettings(initial, draft, server, done);
      SameDiffOnceMoved(initial, draft, server, later, Org in done);
    }
  }

  lemma {:induction false} LaterSettings(initial: Draft, draft: Draft, server: Server, done: seq<Step>)
    requires Integrations !in done
    ensures Applied(initial, PatchOf(initial, draft, done), server).integrations
         == SettingsAfter(initial.integrations, Org in done, None, server)
  {
    PatchCarries(initial, draft, done, Org);
    PatchCarries(initial, draft, done, Integrations);
  }

  /** The condition fails on an ordinary move: an org that does not allow the project's connection, and a new folder that is
      refused. The server unset the connection with the move, the draft still lists it, and saving again sends it too. */
  lemma {:induction false} MovedOrgLosesConnection()
    ensures var initial := Draft("app", "APP", "web", "/src/app", map["discord.log.connection" := "ops"]);
            var draft := initial.(org := "lab", path := "/src/new");
            var server := Server("APP", "lab", "/src/new", map[], {"discord.log.connection"});
            && ChangedSteps(initial, draft) == [Org, Path]
            && ChangedSteps(Resumed(initial, draft, server, 1), draft) == [Path, Integrations]
            && !ReadsTheSame(Applied(initial, PatchOf(initial, draft, [Org, Path]), server), Trimmed(draft))
  {
    var initial := Draft("app", "APP", "web", "/src/app", map["discord.log.connection" := "ops"]);
    var draft := initial.(org := "lab", path := "/src/new");
    var server := Server("APP", "lab", "/src/new", map[], {"discord.log.connection"});
    VisibleIsTrimmed("app");
    VisibleIsTrimmed("APP");
    VisibleIsTrimmed("/src/new");
    MoveAndFolder(initial, draft, server, "discord.log.connection");
    FolderAndSettings(initial, draft, server, "discord.log.connection");
    assert [Org, Path][..1] == [Org];
    PatchGivesTrimmedDraft(initial, draft, server);
    assert LosesSetting(initial, draft, server) by {
      assert "discord.log.connection" in draft.integrations;
    }
  }

  /** The same steps can still carry more: another setting changed with such a move and was refused. Saving again has just
      the settings to send, as before, but among them the connection that the first patch left alone. */
  lemma {:induction false} MovedOrgAddsConnection()
    ensures var initial := Draft("app", "APP", "web", "/src/app", map["discord.log.connection" := "ops", "sentry.onClosed" := "resolved"]);
            var draft := initial.(org := "lab", integrations := initial.integrations["sentry.onClosed" := "resolvedInNextRelease"]);
            var server := Server("APP", "lab", "/src/app", map[], {"discord.log.connection"});
            && ChangedSteps(initial, draft) == [Org, Integrations]
            && ChangedSteps(Resumed(initial, draft, server, 1), draft) == [Integrations]
            && PatchOf(Resumed(initial, draft, server, 1), draft, [Integrations]) != RestOf(PatchOf(initial, draft, [Org, Integrations]), [Org])
  {
    var initial := Draft("app", "APP", "web", "/src/app", map["discord.log.connection" := "ops", "sentry.onClosed" := "resolved"]);
    var draft := initial.(org := "lab", integrations := initial.integrations["sentry.onClosed" := "resolvedInNextRelease"]);
    var server := Server("APP", "lab", "/src/app", map[], {"discord.log.connection"});
    VisibleIsTrimmed("app");
    VisibleIsTrimmed("APP");
    VisibleIsTrimmed("/src/app");
    MoveAndSetting(initial, draft, server, "discord.log.connection", "sentry.onClosed");
    SameStepsMoreSettings(initial, draft, server, "discord.log.connection", "sentry.onClosed");
  }

  /** A draft that moves the project to an org that does not allow a set connection and changes another setting. */
  predicate MovesAndSets(initial: Draft, draft: Draft, server: Server, lost: string, other: string) {
    && draft == initial.(org := draft.org, integrations := draft.integrations) && draft.org != initial.org && server.org == draft.org
    && Trim(draft.name) == draft.name && Trim(draft.key) == draft.key && Trim(draft.path) == draft.path
    && lost in draft.integrations && lost in server.lost && draft.integrations[lost] == SettingAt(initial.integrations, lost) != ""
    && other in draft.integrations && other !in server.lost && SettingChanged(initial, draft, other)
  }

  lemma {:induction false} MoveAndSetting(initial: Draft, draft: Draft, server: Server, lost: string, other: string)
    requires MovesAndSets(initial, draft, server, lost, other)
    ensures ChangedSteps(initial, draft) == [Org, Integrations]
  {
    DiffIsEmpty(initial, draft);
    ChangedOneByOne(initial, draft);
  }

  lemma {:induction false} SameStepsMoreSettings(initial: Draft, draft: Draft, server: Server, lost: string, other: string)
    requires MovesAndSets(initial, draft, server, lost, other) && ChangedSteps(initial, draft) == [Org, Integrations]
    ensures ChangedSteps(Resumed(initial, draft, server, 1), draft) == [Integrations]
    ensures PatchOf(Resumed(initial, draft, server, 1), draft, [Integrations])
         != RestOf(PatchOf(initial, draft, [Org, Integrations]), [Org])
  {
    assert [Org, Integrations][..1] == [Org] && [Org, Integrations][1..] == [Integrations];
    assert draft.integrations[other] != if other in server.lost then "" else SettingAt(initial.integrations, other);
    ResumedSaveSendsTheRest(initial, draft, server, 1);
    ResumedPatchIsTheRest(initial, draft, server, 1);
  }

  lemma {:induction false} VisibleIsTrimmed(text: string)
    requires text != "" && '!' <= text[0] <= '~' && '!' <= text[|text| - 1] <= '~'
    ensures Trim(text) == text
  {
    TrimKeepsTrimmed(text);
  }

  /** A draft that only moves the project to another org, which does not allow a set connection, and to another folder. */
  predicate MovesAndLoses(initial: Draft, draft: Draft, server: Server, key: string) {
    && draft == initial.(org := draft.org, path := draft.path) && draft.org != initial.org && draft.path != initial.path
    && Trim(draft.name) == draft.name && Trim(draft.key) == draft.key && Trim(draft.path) == draft.path
    && server.org == draft.org && key in initial.integrations && initial.integrations[key] != "" && key in server.lost
  }

  lemma {:induction false} MoveAndFolder(initial: Draft, draft: Draft, server: Server, key: string)
    requires MovesAndLoses(initial, draft, server, key)
    ensures ChangedSteps(initial, draft) == [Org, Path]
  {
    DiffIsEmpty(initial, draft);
    ChangedOneByOne(initial, draft);
  }

  lemma {:induction false} FolderAndSettings(initial: Draft, draft: Draft, server: Server, key: string)
    requires MovesAndLoses(initial, draft, server, key)
    ensures ChangedSteps(Applied(initial, PatchOf(initial, draft, [Org]), server), draft) == [Path, Integrations]
  {
    var later := Applied(initial, PatchOf(initial, draft, [Org]), server);
    ChangedOneByOne(later, draft);
    ChangesAfter(initial, draft, server, [Org], Name);
    ChangesAfter(initial, draft, server, [Org], Key);
    ChangesAfter(initial, draft, server, [Org], Org);
    ChangesAfter(initial, draft, server, [Org], Path);
    ChangesAfter(initial, draft, server, [Org], Integrations);
  }

  function IfChanged(initial: Draft, draft: Draft, step: Step): seq<Step> {
    if Changes(initial, draft, step) then [step] else []
  }

  lemma {:induction false} ChangedOneByOne(initial: Draft, draft: Draft)
    ensures ChangedSteps(initial, draft) ==
            IfChanged(initial, draft, Name) + (IfChanged(initial, draft, Key) + (IfChanged(initial, draft, Org)
            + (IfChanged(initial, draft, Path) + IfChanged(initial, draft, Integrations))))
  {
    var last := [Org, Path, Integrations];
    ChangedFirst(initial, draft, Name, [Key] + last);
    ChangedFirst(initial, draft, Key, last);
    LastChanged(initial, draft);
    assert PROJECT_STEPS == [Name] + ([Key] + last);
  }

  lemma {:induction false} LastChanged(initial: Draft, draft: Draft)
    ensures ChangedAmong(initial, draft, [Org, Path, Integrations]) ==
            IfChanged(initial, draft, Org) + (IfChanged(initial, draft, Path) + IfChanged(initial, draft, Integrations))
  {
    ChangedFirst(initial, draft, Org, [Path] + [Integrations]);
    ChangedFirst(initial, draft, Path, [Integrations]);
    ChangedFirst(initial, draft, Integrations, []);
    assert [Org] + ([Path] + [Integrations]) == [Org, Path, Integrations] && [Integrations] + [] == [Integrations];
  }

  lemma {:induction false} ChangedFirst(initial: Draft, draft: Draft, first: Step, rest: seq<Step>)
    ensures ChangedAmong(initial, draft, [first] + rest) == IfChanged(initial, draft, first) + ChangedAmong(initial, draft, rest)
  {
    assert ([first] + rest)[1..] == rest;
  }

  lemma {:induction false} DistinctHalves(steps: seq<Step>, at: nat, step: Step)
    requires at <= |steps| && Distinct(steps) && step in steps[..at]
    ensures step !in steps[at..]
  {
    if steps[0] != step {
      assert steps[..at] == [steps[0]] + steps[1..][..at - 1];
      DistinctHalves(steps[1..], at - 1, step);
      assert steps[at..] == steps[1..][at - 1..];
    } else {
      assert at > 0 && steps[at..] == steps[1..][at - 1..];
    }
  }

  // ---- editing ----

  /** What the drawer does to a draft. */
  datatype Edit = Retype(field: Step, text: string) | Settings(values: map<string, string>)

  function Edited(draft: Draft, edit: Edit): Draft {
    match edit
    case Settings(values) => draft.(integrations := draft.integrations + values)
    case Retype(field, text) =>
      match field
      case Name => draft.(name := text)
      case Key => draft.(key := text)
      case Org => draft.(org := text)
      case Path => draft.(path := text)
      case Integrations => draft
  }

  function EditedAll(draft: Draft, edits: seq<Edit>): Draft
    decreases |edits|
  {
    if edits == [] then draft else EditedAll(Edited(draft, edits[0]), edits[1..])
  }

  lemma {:induction false} EditsKeepKeys(draft: Draft, edits: seq<Edit>)
    ensures draft.integrations.Keys <= EditedAll(draft, edits).integrations.Keys
    decreases |edits|
  {
    if edits != [] {
      EditsKeepKeys(Edited(draft, edits[0]), edits[1..]);
    }
  }

  /** From the draft of a project, after any edits of it, a save that is not refused leaves the trimmed draft exactly when
      the server stores what is sent as it was sent and the org's move unsets no setting left as it was. */
  lemma {:induction false} EditingThenSaving(project: Project, declared: set<string>, edits: seq<Edit>, server: Server)
    ensures var initial := DraftOf(project, declared);
            var draft := EditedAll(initial, edits);
            var steps := ChangedSteps(initial, draft);
            ReadsTheSame(Applied(initial, PatchOf(initial, draft, steps), server), Trimmed(draft)) <==>
            && StoresAsSent(draft, server, steps) && !RewritesSetting(initial, draft, server)
            && !(Org in steps && LosesSetting(initial, draft, server))
  {
    var initial := DraftOf(project, declared);
    EditsKeepKeys(initial, edits);
    PatchGivesTrimmedDraft(initial, EditedAll(initial, edits), server);
  }
}

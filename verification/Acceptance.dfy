/** `scripts/chatgpt-acceptance.ts`: which remote projects and conversations a run creates, and which of
    them it has tried to delete by the time it exits, whatever fails on the way. An object whose id is not
    read back after its creation is the exception: no delete is ever issued for it. */
module AcceptanceRun {
  import opened Wrappers

  datatype Phase = Full | ProjectOnly | ProjectChat | RootBase | RootFollowups | Cleanup

  /** A remote object that the summary names. */
  datatype Resource =
    | RemoteProject(id: string)
    | RemoteConversation(id: string)
    | RemoteProjectConversation(id: string, project: string)

  /** An object with an id. */
  predicate Named(r: Resource) {
    r.id != "" && (r.RemoteProjectConversation? ==> r.project != "")
  }

  /** The awaited steps of the phases of a full run; the last only removes the project. */
  const PROJECT_STEPS: nat := 11
  const CHAT_STEPS: nat := 10
  const BASE_STEPS: nat := 9
  const FOLLOWUP_STEPS: nat := 16
  const REMOVE_STEPS: nat := 3

  class Run {
    const phase: Phase
    /** No id comes from the arguments or from a resumed state. */
    const startedFresh: bool
    /** Whether each awaited step succeeds, in the order in which they are made. */
    const succeeds: nat -> bool
    /** The ids that the provider assigns. */
    const createdProject: string
    const renamedProject: string
    const createdProjectConversation: string
    const createdConversation: string

    var steps: nat
    var ok: bool
    var projectId: Option<string>
    var projectConversationId: Option<string>
    var conversationId: Option<string>
    var workingProjectId: Option<string>
    var workingConversationId: Option<string>
    /** Delete commands issued so far, successful or not. */
    var attempts: seq<Resource>
    /** Every object that the summary has named so far. */
    ghost var recorded: set<Resource>
    /** Every object created so far, with the awaited step that reads its id back. */
    ghost var readAt: map<Resource, nat>

    constructor (phase: Phase, succeeds: nat -> bool, projectId: Option<string>,
                 projectConversationId: Option<string>, conversationId: Option<string>, createdProject: string,
                 renamedProject: string, createdProjectConversation: string, createdConversation: string)
      ensures this.phase == phase && this.succeeds == succeeds && this.steps == 0 && this.projectId == projectId
      ensures this.createdProject == createdProject && this.renamedProject == renamedProject
      ensures this.createdProjectConversation == createdProjectConversation
      ensures this.createdConversation == createdConversation
      ensures this.projectConversationId == projectConversationId && this.conversationId == conversationId
      ensures attempts == [] && recorded == {} && readAt == map[] && !ok
      ensures startedFresh == (projectId.None? && projectConversationId.None? && conversationId.None?)
      ensures workingProjectId == projectId && workingConversationId == conversationId
    {
      this.phase, this.succeeds := phase, succeeds;
      this.startedFresh := projectId.None? && projectConversationId.None? && conversationId.None?;
      this.createdProject, this.renamedProject := createdProject, renamedProject;
      this.createdProjectConversation, this.createdConversation := createdProjectConversation, createdConversation;
      this.steps, this.ok, this.attempts, this.recorded, this.readAt := 0, false, [], {}, map[];
      this.projectId, this.projectConversationId := projectId, projectConversationId;
      this.conversationId := conversationId;
      this.workingProjectId, this.workingConversationId := projectId, conversationId;
    }

    predicate Holds(r: Resource)
      reads this
    {
      match r
      case RemoteProject(p) => projectId == Some(p)
      case RemoteConversation(c) => conversationId == Some(c)
      case RemoteProjectConversation(c, p) => projectConversationId == Some(c) && projectId == Some(p)
    }

    /** The objects with an id that the summary names are recorded. */
    ghost predicate HeldIsRecorded()
      reads this
    {
      && (Truthy(projectId) ==> RemoteProject(projectId.value) in recorded)
      && (Truthy(conversationId) ==> RemoteConversation(conversationId.value) in recorded)
      && (Truthy(projectConversationId) && Truthy(projectId) ==>
            RemoteProjectConversation(projectConversationId.value, projectId.value) in recorded)
    }

    /** In a run that started fresh, of the objects with an id exactly those are in the summary, or were,
        whose id was read back; and only such objects were deleted. */
    ghost predicate Traced()
      reads this
    {
      startedFresh ==>
        && (forall r | r in attempts :: r in recorded)
        && (forall r | r in recorded :: r in readAt)
        && (forall r | r in readAt && Named(r) :: r in recorded <==> succeeds(readAt[r]))
    }

    /** In a run that started fresh whatever the summary names is recorded, and nothing recorded is
        forgotten: it is still in the summary, or a delete was issued; and no project was deleted before
        the conversations recorded in it. */
    ghost predicate Tracked()
      reads this
    {
      Traced() &&
      (startedFresh ==>
        && (forall r | r in recorded :: Named(r) && (r in attempts || Holds(r)))
        && HeldIsRecorded()
        && ConversationsFirst(attempts, recorded)
        && (projectConversationId.Some? ==> Truthy(projectConversationId) && Truthy(projectId)))
    }

    /** The state between two phases. */
    ghost predicate Settled()
      reads this
    {
      && Tracked()
      && workingProjectId == projectId && workingConversationId == conversationId
      && (startedFresh && projectId.Some? ==> RemoteProject(projectId.value) !in attempts)
      && (startedFresh ==> projectConversationId.None?)
    }

    /** A delete keeps the order, as long as every conversation of a project is tried before the project. */
    lemma KeepsOrder(r: Resource)
      requires Tracked()
      requires startedFresh && r.RemoteProject? ==>
        forall c | c in recorded && c.RemoteProjectConversation? && c.project == r.id :: c in attempts
      ensures startedFresh ==> ConversationsFirst(attempts + [r], recorded)
    {
      if startedFresh && r.RemoteProject? {
        ProjectKeepsOrder(attempts, recorded, r.id);
      } else if startedFresh {
        AttemptKeepsOrder(attempts, recorded, r);
      }
    }

    // ----- What a full run creates, step by step -----

    predicate Succeed(from: nat, count: nat) {
      forall i | from <= i < from + count :: succeeds(i)
    }

    /** No awaited step throws. */
    ghost predicate AllSucceed() {
      forall i: nat :: Succeed(i, 1)
    }

    /** The provider gives an id to everything, and keeps the id of a renamed project. */
    predicate GoodIds() {
      && renamedProject == createdProject && createdProject != ""
      && createdProjectConversation != "" && createdConversation != ""
    }

    lemma {:induction false} AllSucceedFrom(from: nat, count: nat)
      ensures AllSucceed() ==> Succeed(from, count)
    {
      if AllSucceed() {
        forall i | from <= i < from + count ensures succeeds(i) {
          assert Succeed(i, 1);
        }
      }
    }

    /** So it ends well when nothing goes wrong. */
    lemma NothingFails(k: nat)
      ensures AllSucceed() && GoodIds() ==> FullDone(k) && succeeds(k + 50)
    {
      AllSucceedFrom(k + 50, 1);
      AllSucceedFrom(k + 1 + PROJECT_STEPS + CHAT_STEPS, BASE_STEPS + FOLLOWUP_STEPS + REMOVE_STEPS);
      AllSucceedFrom(k, 1);
      AllSucceedFrom(k + 1, PROJECT_STEPS);
      AllSucceedFrom(k + 1 + PROJECT_STEPS, CHAT_STEPS);
    }

    /** The project phase of a full run that starts at step `k` goes through. */
    predicate ProjectDone(k: nat) {
      succeeds(k) && Succeed(k + 1, PROJECT_STEPS) && renamedProject == createdProject
    }

    /** So does the phase after it. */
    predicate ChatDone(k: nat) {
      && ProjectDone(k) && createdProject != ""
      && Succeed(k + 1 + PROJECT_STEPS, CHAT_STEPS) && createdProjectConversation != ""
    }

    /** So do all the others. */
    predicate FullDone(k: nat) {
      && ChatDone(k) && createdConversation != ""
      && Succeed(k + 1 + PROJECT_STEPS + CHAT_STEPS, BASE_STEPS + FOLLOWUP_STEPS + REMOVE_STEPS)
    }

    lemma SucceedJoin(from: nat, first: nat, second: nat)
      ensures Succeed(from, first + second) <==> Succeed(from, first) && Succeed(from + first, second)
    {
      forall i | Succeed(from, first) && Succeed(from + first, second) && from <= i < from + first + second
        ensures succeeds(i)
      {
      }
    }

    function Chat(): Resource {
      RemoteProjectConversation(createdProjectConversation, createdProject)
    }

    /** The project and its conversation. */
    function CreatedForProject(k: nat): map<Resource, nat> {
      var chatAt := k + 1 + PROJECT_STEPS;
      (if succeeds(k) && succeeds(k + 1) then map[RemoteProject(createdProject) := k + 2] else map[])
      + (if ProjectDone(k) && createdProject != "" && succeeds(chatAt) then map[Chat() := chatAt + 1] else map[])
    }

    /** What a full run that starts at step `k` creates, and the step that reads each id back. */
    function Created(k: nat): map<Resource, nat> {
      var baseAt := k + 1 + PROJECT_STEPS + CHAT_STEPS;
      CreatedForProject(k)
      + (if ChatDone(k) && succeeds(baseAt) then map[RemoteConversation(createdConversation) := baseAt + 1] else map[])
    }

    /** It has an id, was created, and the id was read back. */
    predicate IsDeleted(r: Resource, k: nat) {
      Named(r) && r in Created(k) && succeeds(Created(k)[r])
    }

    /** It has an id and was created, but nobody knows. */
    predicate IsLost(r: Resource, k: nat) {
      Named(r) && r in Created(k) && !succeeds(Created(k)[r])
    }

    /** Who is deleted, by the outcomes of the steps. */
    lemma DeletedExactlyWhen(k: nat)
      ensures IsDeleted(RemoteProject(createdProject), k)
              <==> createdProject != "" && succeeds(k) && succeeds(k + 1) && succeeds(k + 2)
      ensures IsDeleted(Chat(), k)
              <==> ProjectDone(k) && createdProject != "" && createdProjectConversation != ""
                   && succeeds(k + 12) && succeeds(k + 13)
      ensures IsDeleted(RemoteConversation(createdConversation), k)
              <==> ChatDone(k) && createdConversation != "" && succeeds(k + 22) && succeeds(k + 23)
      ensures forall r | IsDeleted(r, k) ::
        r in {RemoteProject(createdProject), Chat(), RemoteConversation(createdConversation)}
    {
    }

    /** Something is lost if and only if the first step that fails is one that reads an id back. */
    lemma LostExactlyWhen(k: nat)
      ensures (exists r :: IsLost(r, k))
              <==> || (createdProject != "" && succeeds(k) && succeeds(k + 1) && !succeeds(k + 2))
                   || (ProjectDone(k) && createdProject != "" && createdProjectConversation != ""
                       && succeeds(k + 12) && !succeeds(k + 13))
                   || (ChatDone(k) && createdConversation != "" && succeeds(k + 22) && !succeeds(k + 23))
      ensures forall r, q | IsLost(r, k) && IsLost(q, k) :: r == q
    {
      if createdProject != "" && succeeds(k) && succeeds(k + 1) && !succeeds(k + 2) {
        assert IsLost(RemoteProject(createdProject), k);
      }
      if ProjectDone(k) && createdProject != "" && createdProjectConversation != "" && succeeds(k + 12)
         && !succeeds(k + 13)
      {
        assert IsLost(Chat(), k);
      }
      if ChatDone(k) && createdConversation != "" && succeeds(k + 22) && !succeeds(k + 23) {
        assert IsLost(RemoteConversation(createdConversation), k);
      }
    }

    // ----- Steps -----

    method Step() returns (success: bool)
      modifies `steps
      ensures success == succeeds(old(steps)) && steps == old(steps) + 1
    {
      success := succeeds(steps);
      steps := steps + 1;
    }

    /** So many awaited steps; false when one of them throws. */
    method Steps(count: nat) returns (success: bool)
      modifies `steps
      ensures success <==> Succeed(old(steps), count)
      ensures success ==> steps == old(steps) + count
    {
      success := true;
      for i := 0 to count
        invariant success && steps == old(steps) + i && Succeed(old(steps), i)
      {
        success := Step();
        if !success { return; }
      }
    }

    method Delete(r: Resource) returns (success: bool)
      modifies `steps, `attempts
      ensures attempts == old(attempts) + [r]
      ensures success == succeeds(old(steps)) && steps == old(steps) + 1
    {
      attempts := attempts + [r];
      success := Step();
    }

    /** A command that creates `r`, and the lookup that reads its id back for the summary. */
    method Create(r: Resource) returns (success: bool)
      requires Traced() && (startedFresh ==> r !in recorded)
      modifies `steps, `readAt, `recorded
      ensures Traced()
      ensures readAt == if succeeds(old(steps)) then old(readAt)[r := old(steps) + 1] else old(readAt)
      ensures success == (succeeds(old(steps)) && succeeds(old(steps) + 1))
      ensures success ==> steps == old(steps) + 2
      ensures recorded == if success && Named(r) then old(recorded) + {r} else old(recorded)
    {
      success := Step();
      if !success { return; }
      readAt := readAt[r := steps];
      success := Step();
      if success && Named(r) {
        recorded := recorded + {r};
      }
    }

    /** The first part of the project phase: create and rename. */
    method CreateProject() returns (success: bool)
      requires Settled() && recorded == {} && readAt == map[] && attempts == []
      requires startedFresh ==> projectId.None?
      modifies `steps, `readAt, `recorded, `projectId, `workingProjectId
      ensures Tracked()
      ensures readAt == if succeeds(old(steps)) then map[RemoteProject(createdProject) := old(steps) + 1] else map[]
      ensures success <==> Succeed(old(steps), 4) && renamedProject == createdProject
      ensures success ==> steps == old(steps) + 4
      ensures success ==> workingProjectId == projectId == Some(createdProject)
    {
      success := Create(RemoteProject(createdProject));
      if !success { return; }
      projectId := Some(createdProject);
      success := Step();
      if !success { return; }
      success := Step();
      if !success { return; }
      if renamedProject != createdProject {
        return false;
      }
      workingProjectId := Some(renamedProject);
      projectId := Some(renamedProject);
    }

    /** `--phase full|project`: create, rename, upload and read back. False stands for a thrown error. */
    method ProjectPhase() returns (success: bool)
      requires Settled() && recorded == {} && readAt == map[] && attempts == []
      requires startedFresh ==> projectId.None?
      modifies `steps, `readAt, `recorded, `projectId, `workingProjectId
      ensures Tracked()
      ensures readAt == if succeeds(old(steps)) then map[RemoteProject(createdProject) := old(steps) + 1] else map[]
      ensures success <==> Succeed(old(steps), PROJECT_STEPS) && renamedProject == createdProject
      ensures success ==> steps == old(steps) + PROJECT_STEPS
      ensures success ==> workingProjectId == projectId == Some(createdProject)
    {
      SucceedJoin(steps, 4, 7);
      success := CreateProject();
      if !success { return; }
      success := Steps(7);
    }

    /** `--phase full|project-chat`: a conversation inside the project, renamed and deleted again. */
    method ProjectChatPhase() returns (success: bool)
      requires Settled()
      requires startedFresh ==> forall r | r in readAt :: r.RemoteProject?
      modifies this
      ensures readAt ==
        if Truthy(workingProjectId) && succeeds(old(steps)) then
          var chat := RemoteProjectConversation(createdProjectConversation, workingProjectId.value);
          old(readAt)[chat := old(steps) + 1]
        else old(readAt)
      ensures Tracked() && conversationId == old(conversationId) && projectId == old(projectId)
      ensures workingConversationId == old(workingConversationId) && workingProjectId == old(workingProjectId)
      ensures success ==> Settled() && projectConversationId.None? && Truthy(workingProjectId)
      ensures success
              <==> Truthy(workingProjectId) && Succeed(old(steps), CHAT_STEPS) && createdProjectConversation != ""
      ensures success ==> steps == old(steps) + CHAT_STEPS
    {
      if !Truthy(workingProjectId) {
        return false;
      }
      success := Create(RemoteProjectConversation(createdProjectConversation, workingProjectId.value));
      if !success { return; }
      if createdProjectConversation == "" {
        return false;
      }
      projectConversationId := Some(createdProjectConversation);
      success := Steps(5);
      if !success { return; }
      success := DeleteProjectConversation();
    }

    method DeleteProjectConversation() returns (success: bool)
      requires Tracked() && Truthy(projectConversationId) && Truthy(projectId)
      modifies `projectConversationId, `attempts, `steps
      ensures Tracked()
      ensures attempts == old(attempts) + [RemoteProjectConversation(old(projectConversationId).value, projectId.value)]
      ensures success ==> projectConversationId.None?
      ensures success <==> Succeed(old(steps), 3)
      ensures success ==> steps == old(steps) + 3
    {
      var chat := RemoteProjectConversation(projectConversationId.value, projectId.value);
      KeepsOrder(chat);
      success := Delete(chat);
      if !success { return; }
      success := Step();
      if !success { return; }
      projectConversationId := None;
      success := Step();
    }

    /** `--phase full|root-base`: a conversation of its own. */
    method RootBasePhase() returns (success: bool)
      requires Settled()
      requires startedFresh ==> conversationId.None? && forall r | r in readAt :: !r.RemoteConversation?
      modifies this
      ensures readAt ==
        if succeeds(old(steps)) then old(readAt)[RemoteConversation(createdConversation) := old(steps) + 1]
        else old(readAt)
      ensures Tracked() && attempts == old(attempts)
      ensures projectId == old(projectId) && projectConversationId == old(projectConversationId)
      ensures workingProjectId == old(workingProjectId)
      ensures success ==> Settled() && Truthy(conversationId)
      ensures success <==> Succeed(old(steps), BASE_STEPS) && createdConversation != ""
      ensures success ==> steps == old(steps) + BASE_STEPS
    {
      success := Create(RemoteConversation(createdConversation));
      if !success { return; }
      if createdConversation == "" {
        return false;
      }
      workingConversationId := Some(createdConversation);
      conversationId := Some(createdConversation);
      success := Steps(7);
    }

    /** Deletes the working conversation, waits until it is gone, and only then forgets it. */
    method DeleteConversation() returns (success: bool)
      requires Settled() && Truthy(conversationId)
      modifies `conversationId, `workingConversationId, `attempts, `steps
      ensures Tracked()
      ensures attempts == old(attempts) + [RemoteConversation(old(conversationId).value)]
      ensures success ==> Settled() && conversationId.None?
      ensures success <==> Succeed(old(steps), REMOVE_STEPS)
      ensures success ==> steps == old(steps) + REMOVE_STEPS
    {
      KeepsOrder(RemoteConversation(conversationId.value));
      success := Delete(RemoteConversation(conversationId.value));
      if !success { return; }
      success := Step();
      if !success { return; }
      conversationId := None;
      workingConversationId := None;
      success := Step();
    }

    /** `--phase full|root-followups`: three more prompts, then the conversation is deleted. */
    method RootFollowupsPhase() returns (success: bool)
      requires Settled()
      modifies `conversationId, `workingConversationId, `attempts, `steps
      ensures Tracked()
      ensures success ==> Settled() && conversationId.None?
      ensures forall r | r in attempts && r !in old(attempts) :: r.RemoteConversation?
      ensures success ==> Truthy(old(conversationId)) && RemoteConversation(old(conversationId).value) in attempts
      ensures success <==> Truthy(old(conversationId)) && Succeed(old(steps), FOLLOWUP_STEPS)
      ensures success ==> steps == old(steps) + FOLLOWUP_STEPS
    {
      if !Truthy(workingConversationId) {
        return false;
      }
      SucceedJoin(steps, 13, REMOVE_STEPS);
      success := Steps(13);
      if !success { return; }
      success := DeleteConversation();
    }

    /** Removes the working project, waits until it is gone, and only then forgets it. */
    method RemoveProject() returns (success: bool)
      requires Settled() && Truthy(projectId)
      modifies `projectId, `workingProjectId, `attempts, `steps
      ensures Tracked()
      ensures attempts == old(attempts) + [RemoteProject(old(projectId).value)]
      ensures success ==> projectId.None?
      ensures success <==> Succeed(old(steps), REMOVE_STEPS)
      ensures success ==> steps == old(steps) + REMOVE_STEPS
    {
      KeepsOrder(RemoteProject(workingProjectId.value));
      success := Delete(RemoteProject(workingProjectId.value));
      if !success { return; }
      success := Step();
      if !success { return; }
      projectId := None;
      workingProjectId := None;
      success := Step();
    }

    /** `--phase full|cleanup`: whatever is still there. */
    method CleanupPhase() returns (success: bool)
      requires Settled()
      modifies `projectId, `workingProjectId, `conversationId, `workingConversationId, `attempts, `steps
      ensures Tracked()
      ensures success ==> !Truthy(projectId) && !Truthy(conversationId)
      ensures success && old(conversationId.None? || Truthy(conversationId)) ==> conversationId.None?
      ensures success && old(projectId.None? || Truthy(projectId)) ==> projectId.None?
      ensures Truthy(old(conversationId)) ==> RemoteConversation(old(conversationId).value) in attempts
      ensures success && Truthy(old(projectId)) ==> RemoteProject(old(projectId).value) in attempts
      ensures var count := (if Truthy(old(conversationId)) then REMOVE_STEPS else 0)
                           + (if Truthy(old(projectId)) then REMOVE_STEPS else 0);
              (success <==> Succeed(old(steps), count)) && (success ==> steps == old(steps) + count)
    {
      SucceedJoin(steps, REMOVE_STEPS, REMOVE_STEPS);
      success := true;
      if Truthy(workingConversationId) {
        success := DeleteConversation();
        if !success { return; }
      }
      if Truthy(workingProjectId) {
        success := RemoveProject();
      }
    }

    /** The two phases of the project, after the checkpoint. */
    method ProjectPhases() returns (success: bool)
      requires Settled() && recorded == {} && readAt == map[] && attempts == []
      requires startedFresh ==> projectId.None?
      requires steps > 0 && succeeds(steps - 1)
      modifies this
      ensures Tracked() && (success ==> Settled()) && conversationId == old(conversationId)
      ensures workingConversationId == old(workingConversationId)
      ensures phase == Full ==> readAt == CreatedForProject(old(steps) - 1)
      ensures forall r | r in readAt :: !r.RemoteConversation?
      ensures phase == Full ==>
        && (success <==> ChatDone(old(steps) - 1))
        && (success ==>
              && steps == old(steps) + PROJECT_STEPS + CHAT_STEPS
              && Truthy(projectId) && projectConversationId.None?)
      ensures phase == ProjectOnly || phase == RootBase ==> attempts == []
      ensures phase == RootBase || phase == RootFollowups || phase == Cleanup ==> success && unchanged(this)
    {
      success := true;
      if phase == Full || phase == ProjectOnly {
        success := ProjectPhase();
        if !success { return; }
      }
      if phase == Full || phase == ProjectChat {
        success := ProjectChatPhase();
      }
    }

    /** The phases that create something. */
    method CreatingPhases() returns (success: bool)
      requires Settled() && recorded == {} && readAt == map[] && attempts == []
      requires startedFresh ==> projectId.None? && conversationId.None?
      requires steps > 0 && succeeds(steps - 1)
      modifies this
      ensures Tracked() && (success ==> Settled())
      ensures phase == Full ==> readAt == Created(old(steps) - 1)
      ensures success && phase == Full ==>
        Truthy(projectId) && projectConversationId.None? && Truthy(conversationId)
      ensures phase == Full ==>
        (success <==> ChatDone(old(steps) - 1) && createdConversation != ""
                      && Succeed(old(steps) + PROJECT_STEPS + CHAT_STEPS, BASE_STEPS))
      ensures phase == Full && success ==> steps == old(steps) + PROJECT_STEPS + CHAT_STEPS + BASE_STEPS
      ensures phase == ProjectOnly || phase == RootBase ==> attempts == []
      ensures phase == RootFollowups || phase == Cleanup ==> success && unchanged(this)
    {
      success := ProjectPhases();
      if !success { return; }
      if phase == Full || phase == RootBase {
        success := RootBasePhase();
      }
    }

    predicate ResumedDeleted(project: Option<string>, conversation: Option<string>)
      reads this
    {
      && (Truthy(project) ==> RemoteProject(project.value) in attempts)
      && (Truthy(conversation) ==> RemoteConversation(conversation.value) in attempts)
    }

    /** The phases of one run, up to the first error. */
    method Phases() returns (success: bool)
      requires Settled() && recorded == {} && readAt == map[] && attempts == []
      requires startedFresh ==> projectId.None? && conversationId.None?
      modifies this
      ensures Tracked()
      ensures success && phase == Full ==> projectId.None? && projectConversationId.None? && conversationId.None?
      ensures phase == Full ==> readAt == Created(old(steps))
      ensures phase == ProjectOnly || phase == RootBase ==> attempts == []
      ensures success && phase == Cleanup ==> !Truthy(projectId) && !Truthy(conversationId)
      ensures success && phase == Cleanup ==> ResumedDeleted(old(projectId), old(conversationId))
      ensures phase == Full ==>
        (success <==> FullDone(old(steps))) && (success ==> steps == old(steps) + 50)
    {
      success := Step();
      if !success { return; }
      if phase == ProjectChat && !Truthy(workingProjectId) {
        return false;
      }
      if phase == RootFollowups && !Truthy(workingConversationId) {
        return false;
      }
      if phase == Cleanup && !Truthy(workingProjectId) && !Truthy(workingConversationId) {
        return false;
      }
      ghost var baseAt := steps + PROJECT_STEPS + CHAT_STEPS;
      SucceedJoin(baseAt, BASE_STEPS, FOLLOWUP_STEPS + REMOVE_STEPS);
      SucceedJoin(baseAt + BASE_STEPS, FOLLOWUP_STEPS, REMOVE_STEPS);
      success := CreatingPhases();
      if !success { return; }
      if phase == Full || phase == RootFollowups {
        success := RootFollowupsPhase();
        if !success { return; }
      }
      if phase == Full || phase == Cleanup {
        success := CleanupPhase();
        if !success { return; }
      }
      return true;
    }

    /** `bestEffortCleanup`: failures are swallowed. */
    method BestEffortCleanup()
      requires Tracked()
      modifies `steps, `attempts
      ensures startedFresh ==> (forall r | r in recorded :: r in attempts) && ConversationsFirst(attempts, recorded)
      ensures Traced()
      ensures forall r | Named(r) && Holds(r) :: r in attempts
    {
      var success;
      if Truthy(projectConversationId) && Truthy(projectId) {
        KeepsOrder(RemoteProjectConversation(projectConversationId.value, projectId.value));
        success := Delete(RemoteProjectConversation(projectConversationId.value, projectId.value));
      }
      if Truthy(conversationId) {
        KeepsOrder(RemoteConversation(conversationId.value));
        success := Delete(RemoteConversation(conversationId.value));
      }
      if Truthy(projectId) {
        KeepsOrder(RemoteProject(projectId.value));
        success := Delete(RemoteProject(projectId.value));
      }
    }

    /** `runChatgptAcceptanceMain`, from the first checkpoint to the end of the `finally` block. */
    method RunMain() returns (success: bool)
      requires Settled() && recorded == {} && readAt == map[] && attempts == []
      requires startedFresh ==> projectId.None? && conversationId.None?
      modifies this
      ensures success == ok
      ensures phase == Full ==> readAt == Created(old(steps))
      ensures phase == Full && startedFresh ==> forall r :: r in attempts <==> IsDeleted(r, old(steps))
      ensures phase == Full && startedFresh ==>
        (forall r | r in recorded :: r in attempts) && ConversationsFirst(attempts, recorded)
      ensures phase == Full ==> forall r | Named(r) && Holds(r) :: r in attempts
      ensures success && phase == Full ==> projectId.None? && projectConversationId.None? && conversationId.None?
      ensures phase == ProjectOnly || phase == RootBase ==> attempts == []
      // The cleanup phase deletes what the run has resumed.
      ensures success && phase == Cleanup ==> ResumedDeleted(old(projectId), old(conversationId))
      // A full run ends well if and only if each of its 51 steps does.
      ensures phase == Full ==> (success <==> FullDone(old(steps)) && succeeds(old(steps) + 50))
    {
      success := Phases();
      if success {
        ok := true;
        success := Step();
      }
      if !success {
        ok := false;
        var finalized := Step();
      }
      if phase == Full {
        BestEffortCleanup();
      }
    }
  }

  /** A project that was created and that no delete is ever issued for: the lookup after `projects create` fails. */
  method LostProject() returns (run: Run)
    ensures fresh(run) && run.phase == Full && run.startedFresh
    ensures RemoteProject("p") in run.readAt && run.attempts == []
  {
    run := new Run(Full, i => i < 2, None, None, None, "p", "p", "c", "d");
    var success := run.RunMain();
    NoElements(run.attempts);
  }

  /** Wherever a project is deleted, the conversations recorded in it were tried before. */
  ghost predicate ConversationsFirst(attempts: seq<Resource>, recorded: set<Resource>) {
    forall r, j | r in recorded && r.RemoteProjectConversation?
                  && 0 <= j < |attempts| && attempts[j] == RemoteProject(r.project) ::
      r in attempts[..j]
  }

  lemma AttemptKeepsOrder(attempts: seq<Resource>, recorded: set<Resource>, r: Resource)
    requires ConversationsFirst(attempts, recorded) && !r.RemoteProject?
    ensures ConversationsFirst(attempts + [r], recorded)
  {
    forall j | 0 <= j < |attempts|
      ensures (attempts + [r])[..j] == attempts[..j] && (attempts + [r])[j] == attempts[j]
    {
    }
  }

  lemma ProjectKeepsOrder(attempts: seq<Resource>, recorded: set<Resource>, project: string)
    requires ConversationsFirst(attempts, recorded)
    requires forall r | r in recorded && r.RemoteProjectConversation? && r.project == project :: r in attempts
    ensures ConversationsFirst(attempts + [RemoteProject(project)], recorded)
  {
    var more := attempts + [RemoteProject(project)];
    forall j | 0 <= j < |attempts| ensures more[..j] == attempts[..j] && more[j] == attempts[j] {
    }
    assert more[..|attempts|] == attempts;
  }
}

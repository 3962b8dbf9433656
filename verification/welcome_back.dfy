/** The resume prompt shown when an unfinished interview is found on mount
    (src/components/WelcomeBackModal.tsx): its visibility test, the
    once-per-mount guard, and its two actions. */
module WelcomeBack {
  import opened InterviewSlice
  import opened CandidatesSlice
  import opened AppStore
  import opened IntervieweeTab

  /** The modal's local state: whether it is open, and the `hasChecked` ref. */
  datatype Prompt = Prompt(visible: bool, hasChecked: bool)

  const Mounted := Prompt(false, false)

  datatype Outcome = Outcome(store: Store, prompt: Prompt)

  /** The session looks interrupted: active, with a truthy candidate id, not
      in the completed stage, and its candidate is found, not completed, and
      has answered at least one question. */
  predicate Interrupted(st: Store) {
    && st.interview.isInterviewActive
    && HasId(st.interview.currentCandidateId)
    && st.interview.stage != Stage.Completed
    && CurrentCandidate(st).Some?
    && CurrentCandidate(st).value.status != Status.Completed
    && |CurrentCandidate(st).value.questionsAnswers| > 0
  }

  /** The mount effect. Once the session-level test passes the ref is set,
      and the prompt opens if the candidate-level test passes as well; a
      prompt that is already open is never closed by the check. */
  function Check(p: Prompt, st: Store): (r: Prompt)
    ensures p.hasChecked ==> r == p
    ensures !p.hasChecked && Interrupted(st) ==> r.visible && r.hasChecked
    ensures r.visible ==> p.visible || Interrupted(st)
    ensures r.hasChecked <==> p.hasChecked || (st.interview.isInterviewActive && HasId(st.interview.currentCandidateId)
                                               && st.interview.stage != Stage.Completed)
  {
    if !p.hasChecked && st.interview.isInterviewActive && HasId(st.interview.currentCandidateId)
       && st.interview.stage != Stage.Completed
    then
      var c := CurrentCandidate(st);
      var show := c.Some? && c.value.status != Status.Completed && |c.value.questionsAnswers| > 0;
      Prompt(p.visible || show, true)
    else p
  }

  /** On a fresh mount the prompt opens exactly for an interrupted session. */
  lemma MountShowsIffInterrupted(st: Store)
    ensures Check(Mounted, st).visible <==> Interrupted(st)
  {
  }

  /** Once the check has fired, later checks change nothing, whatever the
      store has become; on an unchanged store a second check is a no-op. */
  lemma CheckFiresOnce(p: Prompt, st: Store, st2: Store)
    ensures Check(p, st).hasChecked ==> Check(Check(p, st), st2) == Check(p, st)
    ensures Check(Check(p, st), st) == Check(p, st)
  {
  }

  /** Resume: the session is unpaused and nothing else in the store changes;
      the prompt closes. */
  function Resume(st: Store, p: Prompt): (r: Outcome)
    ensures r.store.candidates == st.candidates
    ensures !r.store.interview.isPaused
    ensures r.store.interview.(isPaused := st.interview.isPaused) == st.interview
    ensures !r.prompt.visible && r.prompt.hasChecked == p.hasChecked
  {
    Outcome(st.(interview := ResumeInterview(st.interview)), p.(visible := false))
  }

  /** Start new: the session goes back to its initial state (the candidate
      records stay); the prompt closes. */
  function StartNew(st: Store, p: Prompt): (r: Outcome)
    ensures r.store.candidates == st.candidates
    ensures r.store.interview == Initial
    ensures !r.prompt.visible && r.prompt.hasChecked == p.hasChecked
  {
    Outcome(st.(interview := ResetInterview(st.interview)), p.(visible := false))
  }

  /** Resuming keeps the interrupted session interrupted, so the chat picks
      up where it stopped; starting anew leaves nothing to resume and sends
      the candidate back to the upload view. */
  lemma ActionsOutcome(st: Store, p: Prompt)
    requires Interrupted(st)
    ensures Interrupted(Resume(st, p).store)
    ensures !Interrupted(StartNew(st, p).store)
    ensures ChooseView(StartNew(st, p).store.interview) == UploadView
  {
    assert Resume(st, p).store.interview.currentCandidateId == st.interview.currentCandidateId;
  }

  // ---------------------------------------------------------------------------
  // what the mount check sees

  /** The store the prompt checks when it mounts after a reload of a saved
      store. The prompt is mounted once, at the application root, so this
      is the only store its check ever runs on. As written the candidate
      list is not persisted and only the session cursor comes back;
      corrected (`persistCandidates`), the candidates come back too. */
  function MountStore(persistCandidates: bool, saved: Store): Store {
    if persistCandidates then saved else Rehydrated(saved.interview)
  }

  /** As written the prompt never opens: the mount check finds no candidate,
      yet it still marks itself done whenever the saved cursor is active, so
      the prompt cannot open later either. */
  lemma RehydratedMountNeverPrompts(saved: Store)
    ensures !Check(Mounted, MountStore(false, saved)).visible
    ensures Check(Mounted, MountStore(false, saved)).hasChecked
            <==> saved.interview.isInterviewActive && HasId(saved.interview.currentCandidateId)
                 && saved.interview.stage != Stage.Completed
  {
    assert CurrentCandidate(Rehydrated(saved.interview)).None?;
  }

  /** An interrupted saved session is never offered for resumption as
      written, and is offered once the candidates are persisted. */
  lemma InterruptedSessionNotOffered(saved: Store)
    requires Interrupted(saved)
    ensures !Check(Mounted, MountStore(false, saved)).visible
    ensures Check(Mounted, MountStore(false, saved)).hasChecked
    ensures Check(Mounted, MountStore(true, saved)).visible
  {
    RehydratedMountNeverPrompts(saved);
    PersistedMountShowsIffInterrupted(saved);
  }

  /** Corrected: with the candidates persisted, the mount check opens the
      prompt exactly for an interrupted saved session. */
  lemma PersistedMountShowsIffInterrupted(saved: Store)
    ensures Check(Mounted, MountStore(true, saved)).visible <==> Interrupted(saved)
  {
    MountShowsIffInterrupted(saved);
  }
}

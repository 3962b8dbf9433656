/** Re-entry logic of the interviewee page (src/components/IntervieweeTab.tsx):
    the effect that restores the stage from the stored candidate's status,
    and the choice between the upload view and the chat view. */
module IntervieweeTab {
  import opened Wrappers
  import opened InterviewSlice
  import opened CandidatesSlice
  import opened AppStore

  datatype View = UploadView | ChatView

  /** JavaScript truthiness of the session's candidate id: null and the
      empty string are both falsy. */
  predicate HasId(id: Option<string>) {
    id.Some? && id.value != ""
  }

  /** The re-entry effect. Only in the upload stage and only when the
      session's candidate is found: a completed candidate moves the stage to
      `completed`, an in-progress one to `interview`; a pending one, or any
      other stage, leaves the store as it is. Only the stage can change. */
  function RestoreStage(st: Store): (r: Store)
    ensures r.candidates == st.candidates
    ensures r.interview == st.interview.(stage := r.interview.stage)
    ensures r.interview.stage != st.interview.stage <==>
              && st.interview.stage == Upload
              && CurrentCandidate(st).Some?
              && CurrentCandidate(st).value.status != Pending
    ensures r.interview.stage != st.interview.stage ==>
              r.interview.stage == (if CurrentCandidate(st).value.status == Status.Completed
                                    then Stage.Completed else Interview)
  {
    var c := CurrentCandidate(st);
    if c.Some? && st.interview.stage == Upload then
      if c.value.status == Status.Completed then st.(interview := SetStage(st.interview, Stage.Completed))
      else if c.value.status == InProgress then st.(interview := SetStage(st.interview, Interview))
      else assert c.value.status == Pending; st
    else st
  }

  /** The effect re-runs whenever the stage changes; the second run never
      changes anything more. */
  lemma RestoreStageIdempotent(st: Store)
    ensures RestoreStage(RestoreStage(st)) == RestoreStage(st)
  {
  }

  /** The upload view is shown exactly when the stage is `upload` or the
      session has no (truthy) candidate id; otherwise the chat view. */
  function ChooseView(s: InterviewState): (v: View)
    ensures v == UploadView <==> s.stage == Upload || !HasId(s.currentCandidateId)
  {
    if s.stage == Upload || !HasId(s.currentCandidateId) then UploadView else ChatView
  }

  /** A returning candidate whose interview started or finished is taken
      back to the chat view, while a pending one stays on the upload view. */
  lemma ReentryView(st: Store)
    requires st.interview.stage == Upload && HasId(st.interview.currentCandidateId)
    requires CurrentCandidate(st).Some?
    ensures ChooseView(RestoreStage(st).interview) == ChatView
            <==> CurrentCandidate(st).value.status != Pending
  {
  }

  /** Right after a reload no candidate is found: the re-entry effect does
      nothing, and a session cursor past the upload stage shows the chat
      view with no current candidate. */
  lemma RehydratedReentry(i: InterviewState)
    ensures RestoreStage(Rehydrated(i)) == Rehydrated(i)
    ensures CurrentCandidate(Rehydrated(i)).None?
    ensures ChooseView(i) == ChatView <==> i.stage != Upload && HasId(i.currentCandidateId)
  {
    assert CurrentCandidate(Rehydrated(i)).None?;
  }
}

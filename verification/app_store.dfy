/** The part of the client store the interview session works on: the
    session cursor and the candidate list, and how the session's current
    candidate is looked up in it (src/components/ChatInterface.tsx:26-29). */
module AppStore {
  import opened Wrappers
  import opened InterviewSlice
  import opened CandidatesSlice

  datatype Store = Store(interview: InterviewState, candidates: seq<Candidate>)

  /** `candidates.find(c => c.id === currentCandidateId)`: nothing when no id is set. */
  function CurrentCandidate(st: Store): (r: Option<Candidate>)
    ensures r.Some? <==> st.interview.currentCandidateId.Some?
                         && exists j :: 0 <= j < |st.candidates| && st.candidates[j].id == st.interview.currentCandidateId.value
    ensures r.Some? ==> r.value in st.candidates && Some(r.value.id) == st.interview.currentCandidateId
  {
    match st.interview.currentCandidateId
    case None => None
    case Some(id) => Find(st.candidates, id)
  }

  /** The store right after a page load: the session cursor comes back from
      storage, but the candidate list is not persisted and starts empty
      (src/store/store.ts:26). */
  function Rehydrated(i: InterviewState): Store {
    Store(i, [])
  }
}

/** The room-joining page (src/components/JoinInterviewRoom.tsx): its
    access gate, how the room-code field is filled, and the join handler.
    The join request is a parameter: what the server answered. */
module JoinRoom {
  import opened Wrappers
  import opened Text
  import opened AuthSlice

  const MaxTyped := 11
  const LoginPath := "/login/interviewee"
  const RootPath := "/"
  const IntervieweePath := "/interviewee"
  const EnterCodeWarning := "Please enter a room code"
  const JoinFailedText := "Failed to join room. Please check the code and try again."

  /** The mount effect: where the user is sent, or the field's value. */
  datatype Entry = SendTo(path: string) | Field(code: string)

  /** The field starts with the URL's code as given; the effect then sends a
      signed-out user to the interviewee login, anyone but an interviewee
      to `/`, and otherwise upper-cases a (non-empty) URL code. */
  function Enter(auth: AuthState, urlCode: Option<string>): (e: Entry)
    ensures !auth.isAuthenticated ==> e == SendTo(LoginPath)
    ensures auth.isAuthenticated && auth.role != Some(Interviewee) ==> e == SendTo(RootPath)
    ensures auth.isAuthenticated && auth.role == Some(Interviewee) ==>
              e.Field? && IsUpperCased(e.code)
              && e.code == (if urlCode.Some? then ToUpper(urlCode.value) else "")
  {
    var initial := if urlCode.Some? then urlCode.value else "";
    if !auth.isAuthenticated then SendTo(LoginPath)
    else if auth.role != Some(Interviewee) then SendTo(RootPath)
    else
      ToUpperIdempotent(initial);
      Field(if urlCode.Some? && urlCode.value != "" then ToUpper(urlCode.value) else initial)
  }

  /** Typing: the input keeps at most 11 characters and the handler stores
      them upper-cased. */
  function Typed(text: string): (code: string)
    ensures |code| <= MaxTyped && |code| == if |text| <= MaxTyped then |text| else MaxTyped
    ensures IsUpperCased(code)
    ensures code == ToUpper(text)[..|code|]
  {
    var kept := if |text| <= MaxTyped then text else text[..MaxTyped];
    ToUpperIdempotent(kept);
    ToUpperPrefix(text, |kept|);
    ToUpper(kept)
  }

  /** Typing an already stored value again changes nothing. */
  lemma TypedIdempotent(text: string)
    ensures Typed(Typed(text)) == Typed(text)
  {
    var c := Typed(text);
    ToUpperIdempotent(c);
    ToUpperFixesUpperCased(c);
  }

  /** What the join handler does. */
  datatype JoinStep =
    | Warn(text: string)                  // blank field: nothing is requested
    | Request(code: string)               // the join request is sent with this code

  /** A blank or white-space-only field is refused with a warning; otherwise
      the join request carries the field upper-cased (surrounding white
      space included). */
  function HandleJoin(field: string): (s: JoinStep)
    ensures s.Warn? <==> IsBlank(field)
    ensures s.Warn? ==> s.text == EnterCodeWarning
    ensures s.Request? ==> s.code == ToUpper(field) && IsUpperCased(s.code)
  {
    TrimEmptyIffBlank(field);
    ToUpperIdempotent(field);
    if Trim(field) == "" then Warn(EnterCodeWarning) else Request(ToUpper(field))
  }

  datatype JoinResult = Joined(title: string) | JoinFailed(message: string)

  datatype Finish = Finish(navigateTo: Option<string>, notice: string)

  /** After the request: on success a greeting naming the room and a move to
      the interview page; on failure the server's message, or a fixed one
      when it carried none, and the user stays. */
  function AfterJoin(result: JoinResult): (f: Finish)
    ensures f.navigateTo.Some? <==> result.Joined?
    ensures f.navigateTo.Some? ==> f.navigateTo.value == IntervieweePath
    ensures result.JoinFailed? ==> f.notice == (if result.message != "" then result.message else JoinFailedText)
  {
    match result
    case Joined(title) => Finish(Some(IntervieweePath), "Joined \"" + title + "\" successfully!")
    case JoinFailed(msg) => Finish(None, if msg != "" then msg else JoinFailedText)
  }

  /** Whatever is typed, a join request only ever carries a non-blank,
      upper-cased code of at most 11 characters. */
  lemma TypedRequestShape(text: string)
    ensures HandleJoin(Typed(text)).Request? ==>
              var c := HandleJoin(Typed(text)).code;
              |c| <= MaxTyped && IsUpperCased(c) && !IsBlank(c)
  {
    var t := Typed(text);
    ToUpperFixesUpperCased(t);
    if HandleJoin(t).Request? {
      assert ToUpper(t) == t;
    }
  }
}

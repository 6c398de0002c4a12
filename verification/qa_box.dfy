/** The question box: idle, loading while the question is out, then answered
    or failed.

    A submit is split at its `await`: `Begin` is the part before the
    callback, `Settle` the part after it. The callback's reply is a
    parameter: `Some(response)` when its promise resolves, `None` when it
    rejects.
 */
module QABox {
  import opened Wrappers
  import Text

  datatype Citation = Citation(text: string, page: int, confidence: real)

  datatype Response = Response(answer: string, citations: seq<Citation>)

  datatype Box = Box(question: string, answer: string, citations: seq<Citation>,
                     isLoading: bool, hasAsked: bool)

  /** The question handed to the callback, if any, and the box while the
      callback runs. */
  datatype Begun = Begun(asked: Option<string>, box: Box)

  const ApologyText: string := "Sorry, there was an error processing your question. Please try again."

  function Initial(): (b: Box)
    ensures b.question == "" && b.answer == "" && b.citations == [] && !b.isLoading && !b.hasAsked
  {
    Box("", "", [], false, false)
  }

  /** Typing into the input. */
  function Type(b: Box, text: string): (r: Box)
    ensures r.question == text
    ensures r.(question := b.question) == b
  {
    b.(question := text)
  }

  /** The submit handler up to the callback: a blank question is dropped;
      any other raises `isLoading` and `hasAsked` and is sent as typed. */
  function Begin(b: Box): (r: Begun)
    ensures Text.AllSpace(b.question) ==> r == Begun(None, b)
    ensures !Text.AllSpace(b.question) ==>
      && r.asked == Some(b.question)
      && r.box == b.(isLoading := true, hasAsked := true)
  {
    if Text.Trim(b.question) == "" then Begun(None, b)
    else Begun(Some(b.question), b.(isLoading := true, hasAsked := true))
  }

  /** The `try` / `catch` / `finally` after the callback. */
  function Settle(pending: Box, reply: Option<Response>): (r: Box)
    ensures !r.isLoading
    ensures r.question == pending.question && r.hasAsked == pending.hasAsked
    ensures reply.Some? ==> r.answer == reply.value.answer && r.citations == reply.value.citations
    ensures reply.None? ==> r.answer == ApologyText && r.citations == []
  {
    match reply
    case Some(resp) => pending.(answer := resp.answer, citations := resp.citations, isLoading := false)
    case None => pending.(answer := ApologyText, citations := [], isLoading := false)
  }

  /** A whole submit: the box afterwards. */
  function Submit(b: Box, reply: Option<Response>): Box {
    var s := Begin(b);
    if s.asked.None? then s.box else Settle(s.box, reply)
  }

  /** The submit button's enabled state. */
  function CanSubmit(b: Box): (ok: bool)
    ensures ok <==> !b.isLoading && !Text.AllSpace(b.question)
  {
    !(b.isLoading || Text.Trim(b.question) == "")
  }

  // ---------------------------------------------------------------------------
  // Properties
  // ---------------------------------------------------------------------------

  /** Whenever the button is enabled, pressing it sends the question; while
      the answer is pending the button is disabled. */
  lemma EnabledButtonAsks(b: Box)
    requires CanSubmit(b)
    ensures Begin(b).asked == Some(b.question)
    ensures !CanSubmit(Begin(b).box)
  {
  }

  /** A blank question changes nothing, whatever the callback would reply. */
  lemma BlankQuestionIgnored(b: Box, reply: Option<Response>)
    requires Text.AllSpace(b.question)
    ensures Submit(b, reply) == b
  {
  }

  /** After a sent question the box is answered or failed, never loading,
      and the same question can be asked again. */
  lemma SubmitEndsSettled(b: Box, reply: Option<Response>)
    requires !Text.AllSpace(b.question)
    ensures !Submit(b, reply).isLoading && Submit(b, reply).hasAsked
    ensures CanSubmit(Submit(b, reply))
    ensures Submit(b, reply).answer == (if reply.Some? then reply.value.answer else ApologyText)
  {
  }

  /** Only the answer and the citations depend on the callback's reply. */
  lemma ReplyOnlyFillsAnswer(b: Box, x: Option<Response>, y: Option<Response>)
    ensures Submit(b, x).(answer := "", citations := []) == Submit(b, y).(answer := "", citations := [])
  {
  }
}

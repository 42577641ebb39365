/** `getErrorMessage`: the text shown for a failed request. */
module ErrorMessage {
  import opened Wrappers
  import opened JsString
  import opened Http

  /** The text used when neither the server nor the client supplied one. */
  const UnexpectedError: string := "An unexpected error occurred"

  /**
   * The server's message when it is truthy, else the client-side message
   * when that is truthy, else the fixed fallback. The result is never empty.
   */
  function GetErrorMessage(e: ApiError): (r: string)
    ensures r != ""
    ensures Truthy(ServerMessage(e)) ==> Some(r) == ServerMessage(e)
    ensures !Truthy(ServerMessage(e)) && Truthy(e.message) ==> Some(r) == e.message
    ensures !Truthy(ServerMessage(e)) && !Truthy(e.message) ==> r == UnexpectedError
  {
    if Truthy(ServerMessage(e)) then ServerMessage(e).value
    else if Truthy(e.message) then e.message.value
    else UnexpectedError
  }

  /** The result is one of the three candidates. */
  lemma MessageIsACandidate(e: ApiError)
    ensures var r := GetErrorMessage(e);
            Some(r) == ServerMessage(e) || Some(r) == e.message || r == UnexpectedError
  {
  }

  /** A truthy server message wins whatever the client-side message is. */
  lemma ServerMessageTakesPrecedence(e: ApiError, m: Option<string>)
    requires Truthy(ServerMessage(e))
    ensures GetErrorMessage(e.(message := m)) == GetErrorMessage(e)
  {
    assert ServerMessage(e.(message := m)) == ServerMessage(e);
  }

  /** The status code never affects the message. */
  lemma StatusDoesNotMatter(e: ApiError, status: int)
    requires e.response.Some?
    ensures GetErrorMessage(e.(response := Some(e.response.value.(status := status))))
         == GetErrorMessage(e)
  {
    assert ServerMessage(e.(response := Some(e.response.value.(status := status)))) == ServerMessage(e);
  }
}

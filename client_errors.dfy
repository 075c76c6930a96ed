/** The client's error-message chain: what an HTTP client error becomes as
    text shown to the user. Absent fields are `None`; an empty message and a
    zero status are falsy. */
module ClientErrors {
  import opened Wrappers
  import opened Strings

  /** `error.response`: the status and the `data.message` the server sent. */
  datatype ErrorResponse = ErrorResponse(status: nat, dataMessage: Option<string>)

  /** The fields of a client error the chain reads. */
  datatype ClientError = ClientError(response: Option<ErrorResponse>, code: Option<string>, message: Option<string>)

  const UnknownError: string := "An unknown error occurred"
  const NetworkErrorText: string := "Network error. Please check your connection."
  const TimeoutText: string := "Request timeout. Please try again."
  const UnexpectedError: string := "An unexpected error occurred"

  /** The fixed texts by status, and the generic text for any other. */
  function StatusText(status: nat): (r: string)
    ensures r != ""
  {
    if status == 400 then "Invalid request. Please check your input."
    else if status == 401 then "Authentication required. Please login again."
    else if status == 403 then "You do not have permission to perform this action."
    else if status == 404 then "The requested resource was not found."
    else if status == 429 then "Too many requests. Please try again later."
    else if status == 500 then "Server error. Please try again later."
    else "Request failed with status " + NatToString(status)
  }

  predicate Truthy(s: Option<string>) {
    s.Some? && s.value != ""
  }

  function GetErrorMessage(error: Option<ClientError>): (r: string)
    ensures r != ""
  {
    if error.None? then UnknownError
    else
      var e := error.value;
      if e.response.Some? && Truthy(e.response.value.dataMessage) then e.response.value.dataMessage.value
      else if e.response.Some? && e.response.value.status != 0 then StatusText(e.response.value.status)
      else if e.code == Some("NETWORK_ERROR") || e.message == Some("Network Error") then NetworkErrorText
      else if e.code == Some("ECONNABORTED") then TimeoutText
      else if Truthy(e.message) then e.message.value
      else UnexpectedError
  }

  /** A server-supplied message always wins over every other field. */
  lemma ServerMessageFirst(status: nat, message: string, code: Option<string>, clientMessage: Option<string>)
    requires message != ""
    ensures GetErrorMessage(Some(ClientError(Some(ErrorResponse(status, Some(message))), code, clientMessage))) == message
  {
  }

  /** Without a server message, a status decides the text whatever the
      error's own code and message say; statuses without a fixed text get
      the generic one. */
  lemma StatusDecides(status: nat, dataMessage: Option<string>, code: Option<string>, message: Option<string>)
    requires status != 0 && !Truthy(dataMessage)
    ensures var r := GetErrorMessage(Some(ClientError(Some(ErrorResponse(status, dataMessage)), code, message)));
            && r == StatusText(status)
            && (status !in {400, 401, 403, 404, 429, 500} ==> r == "Request failed with status " + NatToString(status))
  {
  }

  /** Without a response: the network test, then the timeout code, then the
      error's own message, then the fallback. */
  lemma NoResponseChain(code: Option<string>, message: Option<string>)
    ensures var r := GetErrorMessage(Some(ClientError(None, code, message)));
            && (code == Some("NETWORK_ERROR") || message == Some("Network Error") ==> r == NetworkErrorText)
            && (code == Some("ECONNABORTED") && message != Some("Network Error") ==> r == TimeoutText)
            && (code != Some("NETWORK_ERROR") && code != Some("ECONNABORTED") && message != Some("Network Error") ==>
                  r == if Truthy(message) then message.value else UnexpectedError)
  {
  }

  /** `handleApiError(error, defaultMessage)`: the default is never used.
      Logging the error to the console is not part of this model. */
  function HandleApiError(error: Option<ClientError>, defaultMessage: Option<string>): string {
    GetErrorMessage(error)
  }

  /** The default message never reaches the user, even when it is the only
      text that would make sense. */
  lemma HandleApiErrorIgnoresDefault(error: Option<ClientError>, d1: Option<string>, d2: Option<string>)
    ensures HandleApiError(error, d1) == HandleApiError(error, d2) == GetErrorMessage(error)
    ensures HandleApiError(None, d1) == UnknownError
  {
  }
}

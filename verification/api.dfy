/**
 * The HTTP client (client/src/services/api.js): the response interceptor,
 * which passes answers through and rewrites the message of every failed
 * request before rejecting it again, and the default parameters of
 * `getDeals`.
 */
module Api {
  import opened JsValues
  import opened JsStrings

  /** `error.response`: the status and the body of an answered request. */
  datatype HttpResponse = HttpResponse(status: int, data: JsValue)

  const NetworkErrorMessage: string := "Network error. Please check your connection."
  const UnexpectedErrorMessage: string := "An unexpected error occurred."
  const StatusMessagePrefix: string := "Request failed with status "

  /** `Request failed with status ${status}` */
  function StatusMessage(status: int): (m: string)
    ensures StatusMessagePrefix <= m
    ensures m[|StatusMessagePrefix|..] == IntToString(status)
  {
    StatusMessagePrefix + IntToString(status)
  }

  /** `data?.message`: undefined when the body is null or undefined. */
  function DataMessage(data: JsValue): (r: JsValue)
    ensures Nullish(data) ==> r == Undefined
    ensures !data.Obj? ==> r == Undefined
    ensures data.Obj? && "message" in data.fields ==> r == data.fields["message"]
  {
    if Nullish(data) then Undefined else Get(data, "message")
  }

  /** The message the interceptor gives a failed request: the server's own
      message if the body carries a truthy one, else the status; the network
      message when a request went out but nothing came back; the generic
      message otherwise. */
  function ErrorMessage(response: Option<HttpResponse>, request: bool): (m: JsValue)
    ensures Truthy(m)
    ensures response.Some? && Truthy(DataMessage(response.value.data)) ==>
      m == DataMessage(response.value.data)
    ensures response.Some? && !Truthy(DataMessage(response.value.data)) ==>
      m == Str(StatusMessage(response.value.status))
    ensures response.None? && request ==> m == Str(NetworkErrorMessage)
    ensures response.None? && !request ==> m == Str(UnexpectedErrorMessage)
  {
    if response.Some? then
      Or(DataMessage(response.value.data), Str(StatusMessage(response.value.status)))
    else if request then Str(NetworkErrorMessage)
    else Str(UnexpectedErrorMessage)
  }

  /** The fixed messages never coincide with each other or with a status
      message, and different statuses give different status messages. */
  lemma ErrorMessagesDistinguishable(status: int, other: int)
    ensures StatusMessage(status) != NetworkErrorMessage
    ensures StatusMessage(status) != UnexpectedErrorMessage
    ensures NetworkErrorMessage != UnexpectedErrorMessage
    ensures StatusMessage(status) == StatusMessage(other) <==> status == other
  {
    assert StatusMessage(status)[0] == 'R';
    assert NetworkErrorMessage[0] == 'N';
    assert UnexpectedErrorMessage[0] == 'A';
    if StatusMessage(status) == StatusMessage(other) {
      assert IntToString(status) == StatusMessage(status)[|StatusMessagePrefix|..];
      IntToStringRoundTrip(status);
      IntToStringRoundTrip(other);
    }
  }

  /** A failed request as the interceptor sees it: `error.response`, whether
      `error.request` is set, and `error.message`. */
  class HttpError {
    var response: Option<HttpResponse>
    var request: bool
    var message: JsValue

    constructor(response: Option<HttpResponse>, request: bool, message: JsValue)
      ensures this.response == response && this.request == request && this.message == message
    {
      this.response := response;
      this.request := request;
      this.message := message;
    }

    /** The interceptor's error handler: overwrites `message` and leaves
        everything else as it was. */
    method Classify()
      modifies this
      ensures message == ErrorMessage(response, request)
      ensures response == old(response) && request == old(request)
    {
      if response.Some? {
        message := Or(DataMessage(response.value.data), Str(StatusMessage(response.value.status)));
      } else if request {
        message := Str(NetworkErrorMessage);
      } else {
        message := Str(UnexpectedErrorMessage);
      }
    }
  }

  /** How a request settles once the interceptor has seen it. */
  datatype Outcome = Resolved(response: JsValue) | Rejected(error: HttpError)

  /** The interceptor pair: an answer passes through as it is; a failure is
      classified and rejected with the same error object. */
  method Intercept(result: Outcome) returns (settled: Outcome)
    modifies if result.Rejected? then {result.error} else {}
    ensures result.Resolved? ==> settled == result
    ensures result.Rejected? ==>
      settled == result
      && result.error.message == ErrorMessage(result.error.response, result.error.request)
      && result.error.response == old(result.error.response)
      && result.error.request == old(result.error.request)
  {
    if result.Rejected? {
      result.error.Classify();
    }
    settled := result;
  }

  /** `params = {}`: the query parameters `getDeals` sends. */
  function GetDealsParams(params: Option<map<string, JsValue>>): (sent: map<string, JsValue>)
    ensures params.None? ==> sent == map[]
    ensures params.Some? ==> sent == params.value
  {
    if params.Some? then params.value else map[]
  }
}

/** The HTTP exchanges of `auth status` and `plugin refresh-key`, as records: the request
    a command sends and the response it is given. */
module Http {
  import Text

  /** A response: its status line and its decoded body. */
  datatype Response<B> = Response(status: nat, statusText: string, body: B)

  /** `response.ok`: a status in the 200 range. */
  predicate IsOk<B>(r: Response<B>) {
    200 <= r.status <= 299
  }

  /** A `GET` carrying `Authorization: Bearer <token>` (and the fixed content type and user agent). */
  datatype Request = Get(url: string, accessToken: string)

  const UserAgent: string := "Choiceform (Atomemo Plugin CLI)"
  const InvalidToken: string := "Access token is invalid or expired, please login again"
  const RequestFailed: string := "API request failed: "

  /** The error both commands throw for a response that is not `ok`. */
  function StatusFailure(status: nat, statusText: string): (m: string)
    ensures status == 401 ==> m == InvalidToken
    ensures status != 401 ==> Text.StartsWith(m, RequestFailed) && Text.EndsWith(m, " " + statusText)
    ensures status != 401 ==> |m| == |RequestFailed| + |Text.NatToString(status)| + 1 + |statusText|
    ensures status != 401 ==> m[|RequestFailed|..|m| - |statusText| - 1] == Text.NatToString(status)
  {
    if status == 401 then InvalidToken
    else
      var m := RequestFailed + Text.NatToString(status) + " " + statusText;
      assert m[..|RequestFailed|] == RequestFailed;
      assert m[|m| - |" " + statusText|..] == " " + statusText;
      assert m[|RequestFailed|..|m| - |statusText| - 1] == Text.NatToString(status);
      m
  }
}

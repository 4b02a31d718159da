/**
 * The response envelope `R` (models/schemas.py, and its twin in Response.py):
 * a status code, a message and an optional payload, built by factories with
 * default codes, changed by chained setters and serialised without `None`s.
 */
module Envelopes {
  import opened Wrappers
  import opened Text
  import opened JsonValues

  const SuccessCode: string := "200"
  const FailCode: string := "500"
  const NotFoundCode: string := "404"
  const UnauthorizedCode: string := "401"
  const DefaultMessage: string := "操作成功"

  /** `data` is `JNull` when the payload is `None`. */
  datatype R = R(code: string, message: string, data: Json)

  /** `R()`: code 200, the default message, no payload. */
  function Default(): (r: R)
    ensures r.code == SuccessCode && r.message == DefaultMessage && r.data == JNull
  {
    R(SuccessCode, DefaultMessage, JNull)
  }

  /** A code argument left at `None` falls back to the factory's own code. */
  function CodeOr(code: Option<string>, fallback: string): (c: string)
    ensures code.Some? ==> c == code.value
    ensures code.None? ==> c == fallback
  {
    match code
    case Some(c) => c
    case None => fallback
  }

  /** `R.ok(message, data, code)`. */
  function Ok(message: string, data: Json, code: Option<string>): (r: R)
    ensures r.code == (if code.Some? then code.value else SuccessCode)
    ensures r.message == message && r.data == data
  {
    R(CodeOr(code, SuccessCode), message, data)
  }

  /** `R.fail(message, data, code)`. */
  function Fail(message: string, data: Json, code: Option<string>): (r: R)
    ensures r.code == (if code.Some? then code.value else FailCode)
    ensures r.message == message && r.data == data
  {
    R(CodeOr(code, FailCode), message, data)
  }

  /** `R.error(message, error_detail, code)`: the detail is carried only when it is a non-empty text. */
  function Error(message: string, errorDetail: Option<string>, code: Option<string>): (r: R)
    ensures r.code == (if code.Some? then code.value else FailCode)
    ensures r.message == message
    ensures r.data != JNull <==> errorDetail.Some? && errorDetail.value != ""
    ensures r.data != JNull ==> r.data == JObj([("error_detail", JStr(errorDetail.value))])
  {
    var data := if errorDetail.Some? && errorDetail.value != "" then JObj([("error_detail", JStr(errorDetail.value))]) else JNull;
    R(CodeOr(code, FailCode), message, data)
  }

  function NotFound(message: string, data: Json): (r: R)
    ensures r.code == NotFoundCode && r.message == message && r.data == data
  {
    R(NotFoundCode, message, data)
  }

  function Unauthorized(message: string, data: Json): (r: R)
    ensures r.code == UnauthorizedCode && r.message == message && r.data == data
  {
    R(UnauthorizedCode, message, data)
  }

  /** An explicit code always wins over every factory's default. */
  lemma ExplicitCodeWins(message: string, data: Json, detail: Option<string>, code: string)
    ensures Ok(message, data, Some(code)).code == code
    ensures Fail(message, data, Some(code)).code == code
    ensures Error(message, detail, Some(code)).code == code
  {
  }

  /** `set_message`, `set_data` and `set_code`: the object is returned with one field replaced. */
  function SetMessage(r: R, message: string): (r': R)
    ensures r'.message == message && r'.code == r.code && r'.data == r.data
  {
    r.(message := message)
  }

  function SetData(r: R, data: Json): (r': R)
    ensures r'.data == data && r'.code == r.code && r'.message == r.message
  {
    r.(data := data)
  }

  function SetCode(r: R, code: string): (r': R)
    ensures r'.code == code && r'.message == r.message && r'.data == r.data
  {
    r.(code := code)
  }

  /** The setters touch disjoint fields, so chaining them in any order gives the same envelope. */
  lemma SettersCommute(r: R, code: string, message: string, data: Json)
    ensures SetCode(SetMessage(SetData(r, data), message), code) == SetData(SetMessage(SetCode(r, code), message), data)
    ensures SetCode(SetMessage(SetData(r, data), message), code) == R(code, message, data)
  {
  }

  /** `to_response()`: the fields as a dictionary, leaving out a `None` payload. */
  function ToResponse(r: R): (d: map<string, Json>)
    ensures "code" in d && d["code"] == JStr(r.code)
    ensures "message" in d && d["message"] == JStr(r.message)
    ensures "data" in d <==> r.data != JNull
    ensures "data" in d ==> d["data"] == r.data
    ensures d.Keys <= {"code", "message", "data"}
  {
    var base := map["code" := JStr(r.code), "message" := JStr(r.message)];
    if r.data == JNull then base else base["data" := r.data]
  }

  /** Reading an envelope back from its dictionary: a missing `data` is `None`. */
  function FromResponse(d: map<string, Json>): Option<R>
  {
    if "code" in d && d["code"].JStr? && "message" in d && d["message"].JStr? then
      Some(R(d["code"].s, d["message"].s, GetOr(d, "data", JNull)))
    else None
  }

  /** Dropping a `None` payload loses nothing: the envelope can be read back. */
  lemma ToResponseRoundTrip(r: R)
    ensures FromResponse(ToResponse(r)) == Some(r)
  {
  }
}

/**
 * What a Flask view function hands back: a `jsonify(...)` body with a status
 * code, the 500 body every handler builds in its `except Exception` branch,
 * or an exception that escapes the view (Flask then answers 500 itself).
 */
module Http {
  import opened Common

  datatype Response =
    | Json(status: nat, body: Body)
      /** `{'success': False, 'message': 'Đã xảy ra lỗi', 'error': str(exc)}`, 500 */
    | ServerError(exc: Exc)
      /** an exception raised outside every `try` of the view */
    | Unhandled(exc: Exc)

  const InternalMessage := "Đã xảy ra lỗi"

  /** The HTTP status code the client receives. */
  function Status(r: Response): nat {
    match r
    case Json(status, _) => status
    case ServerError(_) => 500
    case Unhandled(_) => 500
  }

  /** `jsonify({'success': False, 'message': message}), status` */
  function Fail(status: nat, message: string): Response {
    Json(status, map["success" := Bool(false), "message" := Str(message)])
  }

  /** `jsonify({'success': True, 'message': message, 'data': data}), status` */
  function Done(status: nat, message: string, data: Value): Response {
    Json(status, map["success" := Bool(true), "message" := Str(message), "data" := data])
  }

  /** `jsonify({'success': True, 'message': message}), status` */
  function DoneNoData(status: nat, message: string): Response {
    Json(status, map["success" := Bool(true), "message" := Str(message)])
  }

  /** `jsonify({'success': True, 'data': data}), status` */
  function Data(status: nat, data: Value): Response {
    Json(status, map["success" := Bool(true), "data" := data])
  }

  /** The message a JSON response carries, when it carries one. */
  function MessageOf(r: Response): Option<string> {
    if r.Json? && "message" in r.body && r.body["message"].Str? then Some(r.body["message"].s) else None
  }

  /** Whether the response reports success. */
  predicate Succeeded(r: Response) {
    r.Json? && "success" in r.body && r.body["success"] == Bool(true)
  }

  /** What a handler does before its service call: answer at once, or call the service with these arguments. */
  datatype Prepared<X> = Answer(response: Response) | Call(args: X)

  /** The validator's verdict, before anything else: an exception escapes, a refusal is a 400 with its message. */
  function Screen(v: Py<Verdict>): Option<Response> {
    match v
    case Raise(e) => Some(Unhandled(e))
    case Ret(Verdict(ok, m)) => if ok then None else Some(Fail(400, m))
  }

  /** The exception an `except Exception` answers with 500, or the reply. */
  function Caught<X>(r: Py<X>, answer: X -> Response): Response {
    match r
    case Raise(e) => ServerError(e)
    case Ret(x) => answer(x)
  }

  /** `int(request.args.get(key, dflt))`: an argument that does not parse raises ValueError. */
  function IntArg(args: map<string, string>, key: string, dflt: int, parseInt: string -> Option<int>): (r: Py<int>)
    ensures key !in args ==> r == Ret(dflt)
    ensures key in args ==> (r.Ret? <==> parseInt(args[key]).Some?)
    ensures key in args && parseInt(args[key]).Some? ==> r == Ret(parseInt(args[key]).value)
    ensures r.Raise? ==> r.exc == ValueError
  {
    if key !in args then Ret(dflt)
    else match parseInt(args[key])
      case None => Raise(ValueError)
      case Some(n) => Ret(n)
  }

  /** `request.args.get(key, dflt, type=int)`: an argument that does not convert gives the default. */
  function TypedIntArg(args: map<string, string>, key: string, dflt: int, parseInt: string -> Option<int>): (r: int)
    ensures key !in args || parseInt(args[key]).None? ==> r == dflt
    ensures key in args && parseInt(args[key]).Some? ==> r == parseInt(args[key]).value
  {
    if key in args && parseInt(args[key]).Some? then parseInt(args[key]).value else dflt
  }

  /** `jsonify({'success': True, 'data': items, 'count': len(items)}), 200` */
  function Listed(items: seq<Value>): Response {
    Json(200, map["success" := Bool(true), "data" := Arr(items), "count" := Int(|items|)])
  }
}

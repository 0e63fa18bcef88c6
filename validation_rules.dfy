/**
 * The three rule shapes the task and project validators repeat: a required or
 * optional name with a minimum stripped length and a maximum raw length, an
 * optional text with a maximum length, and an optional enumeration field
 * checked against a list of allowed strings.
 */
module ValidationRules {
  import opened Common

  /**
   * `len(v.strip()) < 3` then `len(v) > width`: the message of the first
   * rule that fails. Only a string has `strip`.
   */
  function NameProblem(v: Value, width: nat, shortMsg: string, longMsg: string): (r: Py<Option<string>>)
    ensures r.Raise? <==> !v.Str?
    ensures v.Str? ==> (r == Ret(None) <==> 3 <= |Strip(v.s)| && |v.s| <= width)
    ensures r.Ret? && r.value.Some? ==> r.value.value in {shortMsg, longMsg}
  {
    match StripValue(v)
    case Raise(e) => Raise(e)
    case Ret(stripped) =>
      if |stripped| < 3 then Ret(Some(shortMsg))
      else if |v.s| > width then Ret(Some(longMsg))
      else Ret(None)
  }

  /** `data.get(key) and len(data[key]) > width` */
  function TextProblem(d: Body, key: string, width: nat, msg: string): (r: Py<Option<string>>)
    ensures !Truthy(Get(d, key)) ==> r == Ret(None)
    ensures Truthy(Get(d, key)) ==> (r.Raise? <==> Len(d[key]).Raise?)
    ensures r == Ret(Some(msg)) <==> Truthy(Get(d, key)) && Len(d[key]).Ret? && Len(d[key]).value > width
  {
    if !Truthy(Get(d, key)) then Ret(None)
    else match Len(d[key])
      case Raise(e) => Raise(e)
      case Ret(n) => if n > width then Ret(Some(msg)) else Ret(None)
  }

  /** `data.get(key) and data[key] not in names`: list membership is string equality. */
  function EnumProblem(d: Body, key: string, names: seq<string>, msg: string): (r: Option<string>)
    ensures r.None? <==> !Truthy(Get(d, key)) || (d[key].Str? && d[key].s in names)
    ensures r.Some? ==> r.value == msg
  {
    if Truthy(Get(d, key)) && !(d[key].Str? && d[key].s in names) then Some(msg) else None
  }
}

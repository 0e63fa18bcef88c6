/**
 * Values and Python built-ins shared by the whole model: JSON request
 * values, Python truthiness, `str.strip`, `len`, substring tests, the
 * ASCII character classes, and the exceptions a Python expression can raise.
 */
module Common {

  datatype Option<+T> = None | Some(value: T)

  /** A JSON value as the request parser delivers it (numbers are integers). */
  datatype Value =
    | Null
    | Bool(b: bool)
    | Int(i: int)
    | Str(s: string)
    | Arr(items: seq<Value>)
    | Obj(fields: map<string, Value>)

  /** A JSON object: the shape of a request body and of a `to_dict` result. */
  type Body = map<string, Value>

  /**
   * A `datetime`: the instant (microseconds since the epoch) orders values,
   * `iso` is the text `isoformat()` gives for it.
   */
  datatype DateTime = DateTime(micros: int, iso: string)

  /** `d.isoformat() if d else None` */
  function IsoOrNull(d: Option<DateTime>): (v: Value)
    ensures v == Null <==> d.None?
  {
    if d.Some? then Str(d.value.iso) else Null
  }

  /** The exceptions the modelled code can raise. */
  datatype Exc =
    | AttributeError
    | TypeError
    | KeyError
    | ValueError
    | IndexError
    | ZeroDivisionError
    | DatabaseError

  /** The outcome of a Python expression: a value, or a raised exception. */
  datatype Py<+T> = Ret(value: T) | Raise(exc: Exc)

  /** The `(is_valid, message)` pair the request validators return. */
  datatype Verdict = Verdict(ok: bool, message: string)

  /** Python's `bool(v)` for a JSON value. */
  predicate Truthy(v: Value) {
    match v
    case Null => false
    case Bool(b) => b
    case Int(i) => i != 0
    case Str(s) => s != []
    case Arr(xs) => xs != []
    case Obj(m) => m != map[]
  }

  /** `d.get(k)`: a missing key and JSON null both read as None. */
  function Get(d: Body, k: string): Value {
    if k in d then d[k] else Null
  }

  /** `d.get(k, default)`: the default is used only when the key is missing. */
  function GetOr(d: Body, k: string, default: Value): Value {
    if k in d then d[k] else default
  }

  /** `d[k]`: a missing key raises KeyError. */
  function Index(d: Body, k: string): Py<Value> {
    if k in d then Ret(d[k]) else Raise(KeyError)
  }

  /** `len(v)`: strings, lists and dicts have a length; other values raise TypeError. */
  function Len(v: Value): Py<nat> {
    match v
    case Str(s) => Ret(|s|)
    case Arr(xs) => Ret(|xs|)
    case Obj(m) => Ret(|m|)
    case _ => Raise(TypeError)
  }

  /** `v.strip()`: only strings have the method; anything else raises AttributeError. */
  function StripValue(v: Value): Py<string> {
    if v.Str? then Ret(Strip(v.s)) else Raise(AttributeError)
  }

  /** `data[key].strip()`; `data` None is not subscriptable. */
  function StripField(data: Option<Body>, key: string): Py<string> {
    if data.None? then Raise(TypeError)
    else match Index(data.value, key)
      case Raise(e) => Raise(e)
      case Ret(v) => StripValue(v)
  }

  /** `data[key]` */
  function RawField(data: Option<Body>, key: string): Py<Value> {
    if data.None? then Raise(TypeError) else Index(data.value, key)
  }

  /** The characters for which CPython's `str.isspace()` holds. */
  predicate IsSpace(c: char) {
    ('\t' <= c <= '\r') || ('\U{1C}' <= c <= '\U{1F}') || c == ' '
    || c == '\U{85}' || c == '\U{A0}' || c == '\U{1680}'
    || ('\U{2000}' <= c <= '\U{200A}') || c == '\U{2028}' || c == '\U{2029}'
    || c == '\U{202F}' || c == '\U{205F}' || c == '\U{3000}'
  }

  function LStrip(s: string): string {
    if |s| > 0 && IsSpace(s[0]) then LStrip(s[1..]) else s
  }

  function RStrip(s: string): string {
    if |s| > 0 && IsSpace(s[|s| - 1]) then RStrip(s[..|s| - 1]) else s
  }

  /** `s.strip()` with no argument. */
  function Strip(s: string): string {
    RStrip(LStrip(s))
  }

  /** `s.strip()` is the slice of `s` between its leading and its trailing whitespace. */
  lemma {:induction false} StripIsSlice(s: string)
    ensures exists i, j :: 0 <= i <= j <= |s| && Strip(s) == s[i..j]
              && (forall k :: 0 <= k < i ==> IsSpace(s[k]))
              && (forall k :: j <= k < |s| ==> IsSpace(s[k]))
    ensures Strip(s) != [] ==> !IsSpace(Strip(s)[0]) && !IsSpace(Strip(s)[|Strip(s)| - 1])
  {
    var i := LStripIsSuffix(s);
    var j := RStripIsPrefix(s[i..]);
    assert Strip(s) == s[i..][..j] == s[i..i + j];
    forall k | i + j <= k < |s| ensures IsSpace(s[k]) {
      assert s[k] == s[i..][k - i];
    }
  }

  lemma {:induction false} LStripIsSuffix(s: string) returns (i: nat)
    ensures i <= |s| && LStrip(s) == s[i..]
    ensures forall k :: 0 <= k < i ==> IsSpace(s[k])
    ensures LStrip(s) != [] ==> !IsSpace(LStrip(s)[0])
    decreases |s|
  {
    if |s| > 0 && IsSpace(s[0]) {
      var i' := LStripIsSuffix(s[1..]);
      i := i' + 1;
      assert s[1..][i'..] == s[i..];
      forall k | 0 <= k < i ensures IsSpace(s[k]) {
        if k > 0 { assert s[k] == s[1..][k - 1]; }
      }
    } else {
      i := 0;
    }
  }

  lemma {:induction false} RStripIsPrefix(s: string) returns (j: nat)
    ensures j <= |s| && RStrip(s) == s[..j]
    ensures forall k :: j <= k < |s| ==> IsSpace(s[k])
    ensures RStrip(s) != [] ==> !IsSpace(RStrip(s)[|RStrip(s)| - 1])
    decreases |s|
  {
    if |s| > 0 && IsSpace(s[|s| - 1]) {
      var s' := s[..|s| - 1];
      j := RStripIsPrefix(s');
      assert s'[..j] == s[..j];
      forall k | j <= k < |s| ensures IsSpace(s[k]) {
        if k < |s| - 1 { assert s[k] == s'[k]; }
      }
    } else {
      j := |s|;
    }
  }

  /** Stripping never lengthens a string. */
  lemma StripShortens(s: string)
    ensures |Strip(s)| <= |s|
  {
    StripIsSlice(s);
  }

  /** A string with no surrounding whitespace is its own strip. */
  lemma {:induction false} StripFixesTrimmed(s: string)
    requires s == [] || (!IsSpace(s[0]) && !IsSpace(s[|s| - 1]))
    ensures Strip(s) == s
  {
    assert LStrip(s) == s;
    assert RStrip(s) == s;
  }

  /** Stripping twice is stripping once. */
  lemma StripIdempotent(s: string)
    ensures Strip(Strip(s)) == Strip(s)
  {
    StripIsSlice(s);
    StripFixesTrimmed(Strip(s));
  }

  /** Python's `sub in s` for strings. */
  predicate Contains(s: string, sub: string) {
    exists i :: 0 <= i <= |s| - |sub| && OccursAt(s, sub, i)
  }

  /** `sub` occurs in `s` starting at index `i`. */
  predicate OccursAt(s: string, sub: string, i: int)
    requires 0 <= i <= |s| - |sub|
  {
    s[i..i + |sub|] == sub
  }

  /** A string contains each of its suffixes. */
  lemma ContainsSuffix(pre: string, sub: string)
    ensures Contains(pre + sub, sub)
  {
    assert OccursAt(pre + sub, sub, |pre|);
  }

  /** A string shorter than `sub` does not contain it. */
  lemma ShortLacks(s: string, sub: string)
    requires |s| < |sub|
    ensures !Contains(s, sub)
  {
  }

  /** A string that lacks the first character of `sub` does not contain `sub`. */
  lemma LacksHead(s: string, sub: string)
    requires |sub| > 0 && sub[0] !in s
    ensures !Contains(s, sub)
  {
  }

  /** The position of the first `c` in `s`. */
  function IndexOf(s: string, c: char): (r: Option<nat>)
    ensures r.Some? ==> r.value < |s| && s[r.value] == c && forall k :: 0 <= k < r.value ==> s[k] != c
    ensures r.None? ==> forall k :: 0 <= k < |s| ==> s[k] != c
  {
    if s == [] then None
    else if s[0] == c then Some(0)
    else match IndexOf(s[1..], c)
      case None => None
      case Some(i) => Some(i + 1)
  }

  /** The position of the last `c` in `s`. */
  function LastIndexOf(s: string, c: char): (r: Option<nat>)
    ensures r.Some? ==> r.value < |s| && s[r.value] == c && forall k :: r.value < k < |s| ==> s[k] != c
    ensures r.None? ==> forall k :: 0 <= k < |s| ==> s[k] != c
  {
    if s == [] then None
    else if s[|s| - 1] == c then Some(|s| - 1)
    else LastIndexOf(s[..|s| - 1], c)
  }

  /** The position of the first element satisfying `p` (a `for` loop that returns early, or `.filter(p).first()`). */
  function First<R>(rows: seq<R>, p: R -> bool): (r: Option<nat>)
    ensures r.Some? ==> r.value < |rows| && p(rows[r.value])
    ensures r.Some? ==> forall j :: 0 <= j < r.value ==> !p(rows[j])
    ensures r.None? ==> forall j :: 0 <= j < |rows| ==> !p(rows[j])
  {
    if rows == [] then None
    else if p(rows[0]) then Some(0)
    else match First(rows[1..], p)
      case None => None
      case Some(i) => Some(i + 1)
  }

  predicate IsAsciiUpper(c: char) { 'A' <= c <= 'Z' }
  predicate IsAsciiLower(c: char) { 'a' <= c <= 'z' }
  predicate IsAsciiDigit(c: char) { '0' <= c <= '9' }
  predicate IsAsciiLetter(c: char) { IsAsciiUpper(c) || IsAsciiLower(c) }

  /** Every character of `s` lies in `chars`. */
  predicate AllIn(s: string, chars: set<char>) {
    forall k :: 0 <= k < |s| ==> s[k] in chars
  }

  /** Python's `min` for two integers. */
  function Min(a: int, b: int): int { if a <= b then a else b }

  /** Python's `max` for two integers. */
  function Max(a: int, b: int): int { if a >= b then a else b }
}

/**
 * The two route decorators of apps/middlewares/auth_middleware.py: how the
 * `Authorization` header is read and what the decode outcome turns into.
 */
module AuthMiddleware {
  import opened Common
  import opened Http
  import opened AuthService

  const BadFormat := "Token format không hợp lệ. Sử dụng: Bearer <token>"
  const NotProvided := "Token không được cung cấp"
  const TokenExpired := "Token đã hết hạn"
  const TokenInvalid := "Token không hợp lệ"

  /** `s.split(sep)`: the fields between separators, empty ones included. */
  function Split(s: string, sep: char): (r: seq<string>)
    ensures |r| >= 1
    decreases |s|
  {
    match IndexOf(s, sep)
    case None => [s]
    case Some(i) => [s[..i]] + Split(s[i + 1..], sep)
  }

  /** `header.split(' ')[1]`; None stands for the IndexError. */
  function SecondField(header: string): Option<string> {
    var fields := Split(header, ' ');
    if |fields| >= 2 then Some(fields[1]) else None
  }

  /** Every field of a split is free of the separator, and the fields joined back give the string. */
  lemma {:induction false} SplitFields(s: string, sep: char)
    ensures forall k :: 0 <= k < |Split(s, sep)| ==> sep !in Split(s, sep)[k]
    ensures Join(Split(s, sep), sep) == s
  {
    SplitFree(s, sep);
    SplitJoin(s, sep);
  }

  /** Every field of a split is free of the separator. */
  lemma {:induction false} SplitFree(s: string, sep: char)
    ensures forall k :: 0 <= k < |Split(s, sep)| ==> sep !in Split(s, sep)[k]
    decreases |s|
  {
    match IndexOf(s, sep)
    case None =>
    case Some(i) =>
      SplitFree(s[i + 1..], sep);
      IndexOfFirst(s, sep, i);
      ConsFields(Split(s, sep), s[..i], Split(s[i + 1..], sep), sep);
  }

  /** The fields of a split joined back by the separator give the string. */
  lemma {:induction false} SplitJoin(s: string, sep: char)
    ensures Join(Split(s, sep), sep) == s
    decreases |s|
  {
    match IndexOf(s, sep)
    case None =>
    case Some(i) =>
      SplitJoin(s[i + 1..], sep);
      var rest := Split(s[i + 1..], sep);
      var all := Split(s, sep);
      assert all == [s[..i]] + rest;
      assert all[1..] == rest;
      assert Join(all, sep) == s[..i] + [sep] + Join(rest, sep);
      assert s == s[..i] + [sep] + s[i + 1..];
  }

  /** What `IndexOf` finds is the first occurrence. */
  lemma IndexOfFirst(s: string, c: char, i: nat)
    requires IndexOf(s, c) == Some(i)
    ensures i < |s| && c !in s[..i]
  {
  }

  /** A separator-free word in front of separator-free fields keeps them separator-free. */
  lemma ConsFields(all: seq<string>, word: string, rest: seq<string>, sep: char)
    requires all == [word] + rest && sep !in word
    requires forall k :: 0 <= k < |rest| ==> sep !in rest[k]
    ensures forall k :: 0 <= k < |all| ==> sep !in all[k]
  {
    forall k | 0 <= k < |all| ensures sep !in all[k] {
      if k > 0 { assert all[k] == rest[k - 1]; }
    }
  }

  /** `sep.join(fields)` */
  function Join(fields: seq<string>, sep: char): string
    requires |fields| >= 1
  {
    if |fields| == 1 then fields[0] else fields[0] + [sep] + Join(fields[1..], sep)
  }

  /** Splitting a string that starts with a separator-free word and a separator. */
  lemma SplitAfterWord(word: string, rest: string, sep: char)
    requires sep !in word
    ensures Split(word + [sep] + rest, sep) == [word] + Split(rest, sep)
  {
    var s := word + [sep] + rest;
    assert s[|word|] == sep;
    assert forall k :: 0 <= k < |word| ==> s[k] == word[k];
    assert IndexOf(s, sep) == Some(|word|);
    assert s[..|word|] == word;
    assert s[|word| + 1..] == rest;
  }

  /** A header has a second field exactly when it holds a space. */
  lemma SecondFieldExists(header: string)
    ensures SecondField(header).Some? <==> ' ' in header
  {
    if ' ' in header {
      var i := IndexOf(header, ' ');
      assert i.Some?;
    } else {
      assert IndexOf(header, ' ').None?;
    }
  }

  /** A string without the separator is a single field. */
  lemma SplitWhole(s: string, sep: char)
    requires sep !in s
    ensures Split(s, sep) == [s]
  {
    assert IndexOf(s, sep).None?;
  }

  /** The second field of `word sep rest` is the first field of `rest`. */
  lemma SecondOfWord(word: string, rest: string)
    requires ' ' !in word
    ensures SecondField(word + " " + rest) == Some(Split(rest, ' ')[0])
  {
    assert word + " " + rest == word + [' '] + rest;
    SplitAfterWord(word, rest, ' ');
  }

  /**
   * The token is the second space-separated field, whatever the first word
   * is: `"Basic x"` yields `x` just as `"Bearer x"` does (RFC 6750 section
   * 2.1 allows only the `Bearer` scheme).
   */
  lemma SchemeNotChecked(scheme: string, token: string, more: string)
    requires ' ' !in scheme && ' ' !in token
    ensures SecondField(scheme + " " + token) == Some(token)
    ensures SecondField(scheme + " " + token + " " + more) == Some(token)
  {
    SecondOfWord(scheme, token);
    SplitWhole(token, ' ');
    var rest := token + " " + more;
    assert scheme + " " + token + " " + more == scheme + " " + rest;
    SecondOfWord(scheme, rest);
    assert rest == token + [' '] + more;
    SplitAfterWord(token, more, ' ');
  }

  /** `"Bearer "` and a doubled space both yield an empty token. */
  lemma EmptyTokens(scheme: string, more: string)
    requires ' ' !in scheme
    ensures SecondField(scheme + " ") == Some("")
    ensures SecondField(scheme + "  " + more) == Some("")
  {
    SecondOfWord(scheme, "");
    assert scheme + " " + "" == scheme + " ";
    SplitWhole("", ' ');
    var rest := " " + more;
    assert scheme + "  " + more == scheme + " " + rest;
    SecondOfWord(scheme, rest);
    assert rest == "" + [' '] + more;
    SplitAfterWord("", more, ' ');
  }

  /** What a decorator does with a request: answer it, or call the view with `current_user`. */
  datatype Gate = Reject(response: Response) | Proceed(currentUser: Claims)

  /** `token_required`: `header` is the `Authorization` header, if the request has one. */
  function TokenRequired(header: Option<string>, c: Codec, now: int): (g: Gate)
    ensures g.Reject? ==> Status(g.response) == 401
  {
    var token :=
      if header.None? then Ret(None)
      else match SecondField(header.value)
        case None => Raise(IndexError)
        case Some(t) => Ret(Some(t));
    match token
    case Raise(_) => Reject(Fail(401, BadFormat))
    case Ret(t) =>
      if t.None? || t.value == [] then Reject(Fail(401, NotProvided))
      else match JwtDecode(c, t.value, now)
        case Expired => Reject(Fail(401, TokenExpired))
        case Invalid => Reject(Fail(401, TokenInvalid))
        case Valid(k) => Proceed(k)
  }

  /** `optional_token`: the view is always called, with the payload or None. */
  function OptionalToken(header: Option<string>, c: Codec, now: int): (r: Option<Claims>)
    ensures header.None? ==> r.None?
    ensures r.Some? ==>
      && header.Some? && SecondField(header.value).Some?
      && c.open(SecondField(header.value).value) == Some(r.value) && r.value.exp > now
  {
    if header.None? then None
    else match SecondField(header.value)
      case None => None
      case Some(t) => DecodeToken(c, t, now)
  }

  // ------------------------------------------------------------ properties

  /** Without an `Authorization` header the view is not called and the answer is "not provided". */
  lemma NoHeader(c: Codec, now: int)
    ensures TokenRequired(None, c, now) == Reject(Fail(401, NotProvided))
    ensures OptionalToken(None, c, now).None?
  {
  }

  /** A header without a space is a format error. */
  lemma NoSpace(header: string, c: Codec, now: int)
    requires ' ' !in header
    ensures TokenRequired(Some(header), c, now) == Reject(Fail(401, BadFormat))
  {
    SecondFieldExists(header);
  }

  /** An empty token is treated as no token. */
  lemma EmptyTokenNotProvided(scheme: string, c: Codec, now: int)
    requires ' ' !in scheme
    ensures TokenRequired(Some(scheme + " "), c, now) == Reject(Fail(401, NotProvided))
  {
    EmptyTokens(scheme, "");
  }

  /**
   * For a non-empty token the answer follows the decode outcome: expired
   * tokens are reported as such, any other failure as invalid, and a valid
   * token calls the view with its payload.
   */
  lemma DecodeOutcome(scheme: string, token: string, c: Codec, now: int)
    requires ' ' !in scheme && ' ' !in token && token != []
    ensures JwtDecode(c, token, now) == Expired ==> TokenRequired(Some(scheme + " " + token), c, now) == Reject(Fail(401, TokenExpired))
    ensures JwtDecode(c, token, now) == Invalid ==> TokenRequired(Some(scheme + " " + token), c, now) == Reject(Fail(401, TokenInvalid))
    ensures JwtDecode(c, token, now).Valid? ==> TokenRequired(Some(scheme + " " + token), c, now) == Proceed(JwtDecode(c, token, now).claims)
  {
    SchemeNotChecked(scheme, token, "");
  }

  /** A token fresh from login passes `token_required` for 24 hours, with its own claims as `current_user`. */
  lemma FreshTokenAdmitted(c: Codec, userId: string, username: string, issued: int, now: int)
    requires Sound(c) && now < issued + TokenLifetime
    ensures TokenRequired(Some("Bearer " + CreateToken(c, userId, username, issued)), c, now)
            == Proceed(TokenClaims(userId, username, issued))
  {
    TokenRoundTrip(c, userId, username, issued, now);
    DecodeOutcome("Bearer", CreateToken(c, userId, username, issued), c, now);
    assert "Bearer " + CreateToken(c, userId, username, issued) == "Bearer" + " " + CreateToken(c, userId, username, issued);
  }

  /**
   * `optional_token` passes a payload exactly when `token_required` would
   * call the view with it, given that the empty string never decodes.
   */
  lemma OptionalAgreesWithRequired(header: Option<string>, c: Codec, now: int)
    requires c.open([]).None?
    ensures forall k :: OptionalToken(header, c, now) == Some(k) <==> TokenRequired(header, c, now) == Proceed(k)
  {
  }
}

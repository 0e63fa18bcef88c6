/**
 * Comment request validation (apps/validations/comment_validation.py). A
 * validator answers None when the request may proceed, or the 400 response
 * `{"error": message}` to send back.
 */
module CommentValidation {
  import opened Common
  import opened Http

  const NoData := "No data provided"
  const ContentRequired := "Content is required"
  const ContentEmpty := "Content cannot be empty"
  const ContentTooShort := "Content must have at least 1 character"
  const ContentTooLong := "Content is too long (max 5000 characters)"
  const TaskRequired := "Task ID is required"
  const IdRequired := "Comment ID is required"
  const IdInvalid := "Invalid comment ID format"

  const ContentMax := 5000

  /** `jsonify({"error": message}), 400` */
  function Error(message: string): Response {
    Json(400, map["error" := Str(message)])
  }

  /** `validate_create_comment()`: both fields are stripped before any rule is checked. */
  function ValidateCreateComment(data: Option<Body>): (r: Py<Option<Response>>)
    ensures data.None? || data.value == map[] ==> r == Ret(Some(Error(NoData)))
    ensures r.Ret? && r.value.Some? ==> Status(r.value.value) == 400
  {
    if data.None? || data.value == map[] then Ret(Some(Error(NoData)))
    else
      var d := data.value;
      match StripValue(GetOr(d, "content", Str("")))
      case Raise(e) => Raise(e)
      case Ret(content) =>
        match StripValue(GetOr(d, "task_id", Str("")))
        case Raise(e) => Raise(e)
        case Ret(taskId) =>
          if content == [] then Ret(Some(Error(ContentRequired)))
          else if |content| < 1 then Ret(Some(Error(ContentEmpty)))
          else if |content| > ContentMax then Ret(Some(Error(ContentTooLong)))
          else if taskId == [] then Ret(Some(Error(TaskRequired)))
          else Ret(None)
  }

  /** `validate_update_comment()`: a missing or null content is reported before it is stripped. */
  function ValidateUpdateComment(data: Option<Body>): (r: Py<Option<Response>>)
    ensures data.None? || data.value == map[] ==> r == Ret(Some(Error(NoData)))
    ensures r.Ret? && r.value.Some? ==> Status(r.value.value) == 400
  {
    if data.None? || data.value == map[] then Ret(Some(Error(NoData)))
    else
      var d := data.value;
      if Get(d, "content") == Null then Ret(Some(Error(ContentRequired)))
      else match StripValue(d["content"])
        case Raise(e) => Raise(e)
        case Ret(content) =>
          if content == [] then Ret(Some(Error(ContentEmpty)))
          else if |content| < 1 then Ret(Some(Error(ContentTooShort)))
          else if |content| > ContentMax then Ret(Some(Error(ContentTooLong)))
          else Ret(None)
  }

  /**
   * `validate_comment_id(comment_id)`. `isUuid` stands for whether
   * `uuid.UUID(text)` parses the text.
   */
  function ValidateCommentId(commentId: string, isUuid: string -> bool): (r: Option<Response>)
    ensures r.None? <==> commentId != [] && isUuid(commentId)
    ensures r.Some? ==> Status(r.value) == 400
  {
    if commentId == [] then Some(Error(IdRequired))
    else if !isUuid(commentId) then Some(Error(IdInvalid))
    else None
  }

  // ------------------------------------------------------------ properties

  /**
   * A creation request passes exactly when its content and task id are
   * strings (or absent), the stripped content has 1 to 5000 characters and
   * the stripped task id is not empty.
   */
  lemma CreateAccepted(data: Option<Body>)
    ensures ValidateCreateComment(data) == Ret(None) <==>
      && data.Some?
      && "content" in data.value && data.value["content"].Str?
      && "task_id" in data.value && data.value["task_id"].Str?
      && 1 <= |Strip(data.value["content"].s)| <= ContentMax
      && Strip(data.value["task_id"].s) != []
  {
    if data.Some? && data.value != map[] {
      var d := data.value;
      if "content" !in d || "task_id" !in d {
        assert Strip("") == "";
      }
    }
  }

  /**
   * The stripped content is empty exactly when it is shorter than one
   * character, so the "cannot be empty" (creation) and "at least 1 character"
   * (update) answers are never given.
   */
  lemma ShortContentUnreachable(data: Option<Body>)
    ensures ValidateCreateComment(data) != Ret(Some(Error(ContentEmpty)))
    ensures ValidateUpdateComment(data) != Ret(Some(Error(ContentTooShort)))
  {
    var c := ValidateCreateComment(data);
    if c.Ret? && c.value.Some? {
      assert c.value.value.body["error"] != Str(ContentEmpty);
    }
    var u := ValidateUpdateComment(data);
    if u.Ret? && u.value.Some? {
      assert u.value.value.body["error"] != Str(ContentTooShort);
    }
  }

  /**
   * An update request passes exactly when its content is a string whose
   * stripped form has 1 to 5000 characters.
   */
  lemma UpdateAccepted(data: Option<Body>)
    ensures ValidateUpdateComment(data) == Ret(None) <==>
      && data.Some?
      && "content" in data.value && data.value["content"].Str?
      && 1 <= |Strip(data.value["content"].s)| <= ContentMax
    ensures data.Some? && data.value != map[] && Get(data.value, "content") == Null ==>
      ValidateUpdateComment(data) == Ret(Some(Error(ContentRequired)))
  {
  }
}

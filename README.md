# A verified model of the My-PM-web back end

My-PM-web is a small project-management service: a Flask JSON API over a
relational database (users, projects, tasks and comments on tasks), with
bcrypt password hashes and HS256 JSON Web Tokens (RFC 7519) for sign-in.
This Dafny project models its core: the request validators, the
services that read and write the tables, the controllers that turn a
request into a JSON answer and a status code, the authentication
decorators, and the model classes' `to_dict` serialisation.

The model follows the program's structure, one Dafny module per source
file:

| Dafny file | module | models |
|---|---|---|
| `common.dfy` | `Common` | Python values and truthiness, `str.strip`, `x in s`, exceptions as `Py<T>` |
| `http.dfy` | `Http` | `jsonify(...)`, status codes, the `try`/`except` shape every view shares |
| `store.dfy` | `Store` | the SQLAlchemy session: tables as sequences of rows, `commit()` and `rollback()` |
| `user_model.dfy`, `project_model.dfy`, `task_model.dfy`, `comment_model.dfy` | `UserModel` ... | `apps/models/*.py`: rows, enumerations, `to_dict` |
| `auth_validation.dfy`, `project_validation.dfy`, `task_validation.dfy`, `comment_validation.dfy`, `validation_rules.dfy` | `AuthValidation` ... | `apps/validations/*.py` |
| `auth_service.dfy`, `project_service.dfy`, `task_service.dfy`, `comment_service.dfy` | `AuthService` ... | `apps/services/*.py` |
| `auth_controller.dfy`, `project_controller.dfy`, `task_controller.dfy`, `comment_controller.dfy` | `AuthController` ... | `apps/controllers/*.py` |
| `auth_middleware.dfy` | `AuthMiddleware` | `token_required` and `optional_token` |

How the program's state is modelled:

- The database is the class `Store.Database`. It has one `seq` field per
  table, kept in insertion order. `Commit` keeps the pending rows only when
  they satisfy the schema and no fault is injected. Otherwise it rolls back
  and raises. The schema conditions are unique ids, usernames and emails,
  foreign keys and column widths.
- Each service method is specified by a pure function of the tables. The
  method's postcondition says that its result and the new tables are that
  function of the old tables: `(r, db.Snapshot()) == ...Spec(old(db.Snapshot()), ...)`.
  The properties are lemmas about those functions.
- Each controller view is a method whose answer and new tables are given
  by a pure `...Handled` function. Read-only views are pure functions of
  the tables.
- A `Response` can be a `Json(status, body)` the view returns. It can be
  a `ServerError(exc)`, the 500 that the view's own `except` reports. It
  can also be an `Unhandled(exc)` that escapes the view; Flask then answers
  it with its own 500.
- Python exceptions are values: a `Py<T>` is either `Ret(value)` or
  `Raise(exc)`.
- The Flask session is the class `AuthService.Session`, holding a map
  that the login and logout methods change.
- Whatever the view cannot see is a parameter of the model. This covers:
  - the clock;
  - the id `uuid4()` draws and the salt `gensalt()` draws;
  - the signing key (`AuthService.Codec`);
  - `int()` and `datetime.fromisoformat()` on request text;
  - whether the database flush fails, and the text of that error.

## Model

| member | source | states |
|---|---|---|
| AuthMiddleware.Split | apps/middlewares/auth_middleware.py:32 | `str.split(sep)` always yields at least one field |
| AuthMiddleware.SplitFields | apps/middlewares/auth_middleware.py:32 | no field holds the separator, and joining the fields with it gives back the header |
| AuthMiddleware.SplitFree | apps/middlewares/auth_middleware.py:32 | no field of `split(' ')` holds a space |
| AuthMiddleware.SplitJoin | apps/middlewares/auth_middleware.py:32 | the fields of `split(' ')` joined by spaces give back the header |
| AuthMiddleware.SecondFieldExists | apps/middlewares/auth_middleware.py:30-37 | `split(' ')[1]` exists exactly when the header holds a space; otherwise it raises the IndexError that becomes the format error |
| AuthMiddleware.SchemeNotChecked | apps/middlewares/auth_middleware.py:32 | the token is the second field whatever the first word is, and anything after a further space is dropped; the `Bearer` scheme is never checked |
| AuthMiddleware.EmptyTokens | apps/middlewares/auth_middleware.py:32 | `"Bearer "` and a doubled space both give an empty second field |
| AuthMiddleware.TokenRequired | apps/middlewares/auth_middleware.py:13-63 | every rejection by `token_required` is a 401 |
| AuthMiddleware.NoHeader | apps/middlewares/auth_middleware.py:25-43 | with no `Authorization` header, `token_required` answers 401 "not provided" and `optional_token` passes None |
| AuthMiddleware.NoSpace | apps/middlewares/auth_middleware.py:30-37 | a header without a space is answered 401 with the format message |
| AuthMiddleware.EmptyTokenNotProvided | apps/middlewares/auth_middleware.py:39-43 | an empty token is treated as a missing one |
| AuthMiddleware.DecodeOutcome | apps/middlewares/auth_middleware.py:45-61 | for a non-empty token, an expired signature answers "đã hết hạn", any other invalid token "không hợp lệ", and a valid one calls the view with its payload |
| AuthMiddleware.FreshTokenAdmitted | apps/middlewares/auth_middleware.py:45-61 | a token issued by login is admitted for 24 hours, with the claims it was made from as `current_user` |
| AuthMiddleware.OptionalAgreesWithRequired | apps/middlewares/auth_middleware.py:66-85 | `optional_token` passes a payload exactly when `token_required` would call the view with that payload |
| AuthMiddleware.OptionalToken | apps/middlewares/auth_middleware.py:66-85 | no header gives no user; a user it passes on comes from the header's second field, opens under the key and has not expired (agreement with `token_required`: AuthMiddleware.OptionalAgreesWithRequired) |
| AuthService.HashThenVerify | apps/services/auth_service.py:24-35 | hashing a text never fails, and its hash verifies that password and no other |
| AuthService.HashPassword | apps/services/auth_service.py:24-28 | only a string can be hashed, anything else raises AttributeError; the hash carries the drawn salt and verifies the password it was made from (AuthService.HashThenVerify) |
| AuthService.VerifyPassword | apps/services/auth_service.py:30-35 | only a string can be checked; the check succeeds exactly when the password is the one the hash was made from |
| AuthService.CreateToken | apps/services/auth_service.py:37-45 | under a sound codec the token opens to the 24-hour payload `create_token` builds and is a non-empty, space-free string (AuthService.TokenRoundTrip) |
| AuthService.RefreshUserToken | apps/services/auth_service.py:130-133 | always succeeds with "Token đã được làm mới"; the new token decodes at issue time to the caller's payload (AuthService.RefreshIsFresh) |
| AuthService.UserToDict | apps/services/auth_service.py:135-146 | the service's own dictionary is the model's `to_dict`, so it also leaves out the password hash (UserModel.ToDict) |
| AuthService.DecodeToken | apps/services/auth_service.py:47-52 | `decode_token` gives a payload exactly when PyJWT accepts the token, and that payload has not expired |
| AuthService.TokenRoundTrip | apps/services/auth_service.py:37-45 | under a sound codec, a created token decodes to its user id, username, `iat` and `exp = iat + 24h` until it expires, and is expired from then on |
| AuthService.RefreshIsFresh | apps/services/auth_service.py:130-133 | a refresh always succeeds, and its token decodes to the same user for the next 24 hours |
| AuthService.OpenedWrites | apps/services/auth_service.py:54-59 | opening a session sets `permanent`, `user_id`, `username` and `email` and keeps every other key |
| AuthService.CreateSession | apps/services/auth_service.py:54-59 | the session afterwards is the opened session of the user |
| AuthService.ClearSession | apps/services/auth_service.py:61-63 | the session is empty afterwards |
| AuthService.RegisterUser | apps/services/auth_service.py:65-97 | the reply and the new tables are those of `RegisterReply` and `RegisterTables`; a session is opened exactly on success |
| AuthService.LoginUser | apps/services/auth_service.py:100-116 | the reply is `LoginReply` on the users table; the tables do not change; a session is opened exactly on success |
| AuthService.LogoutUser | apps/services/auth_service.py:118-121 | logout always succeeds with its message and empties the session |
| AuthService.RegisterChecksUsernameFirst | apps/services/auth_service.py:68-74 | a taken username is reported before a taken email; registration proceeds exactly when both are free and the password is text |
| AuthService.LoginEnumerationResistant | apps/services/auth_service.py:101-111 | an unknown username and a wrong password get the same refusal; a disabled account is refused before the password is checked |
| AuthService.RegisterOutcome | apps/services/auth_service.py:65-97 | every refusal or failed insert leaves the tables unchanged; a success adds exactly one active user, hashed with the drawn salt, and returns a token for that user |
| AuthService.RegisterThenLogin | apps/services/auth_service.py:101-116 | an account just registered with a password is admitted by login with that password |
| AuthValidation.EmailShapeIsLanguage | apps/validations/auth_validation.py:33-36 | the direct decision procedure for the e-mail regex agrees with the regex's language: local part, `@`, domain, a dot and a TLD of two or more letters |
| AuthValidation.RegisterNoData | apps/validations/auth_validation.py:15-16 | a missing or empty body is refused with "Không có dữ liệu" by both validators |
| AuthValidation.RegisterFirstMissing | apps/validations/auth_validation.py:18-22 | the first missing or falsy required field, in the order username, email, full_name, password, is the one reported |
| AuthValidation.StrippedPatterns | apps/validations/auth_validation.py:24-36 | on stripped text, the username and e-mail regexes, with the newline allowance of `$`, are exactly their languages |
| AuthValidation.ValidatePasswordAgrees | apps/validations/auth_validation.py:101-126 | `validate_password` accepts exactly the passwords the register rules accept |
| AuthValidation.PerCharacterTests | apps/validations/auth_validation.py:46-61 | each `any(...)` test holds exactly when some character is upper case, lower case, a digit or a special character |
| AuthValidation.SingleCharSpecial | apps/validations/auth_validation.py:59-60 | `c in special_chars` on one character is membership in the special set |
| AuthValidation.ValidateUsernameAgrees | apps/validations/auth_validation.py:94-98 | on a name without surrounding whitespace, `validate_username` is the register rule for usernames |
| AuthValidation.ValidateUsernameTrailingNewline | apps/validations/auth_validation.py:94-98 | `validate_username` accepts `"abc\n"` although it is not a run of word characters |
| AuthValidation.RegisterAccepted | apps/validations/auth_validation.py:8-63 | the register data is accepted exactly when all required fields are present and truthy, the stripped username has 3-50 word characters, the stripped email is in the e-mail language, and the password passes its rules |
| AuthValidation.LoginAccepted | apps/validations/auth_validation.py:66-85 | the login data is accepted exactly when the stripped username and the password are non-empty, and the username is checked first |
| AuthValidation.ValidateRegisterData | apps/validations/auth_validation.py:8-63 | an empty or missing body answers "Không có dữ liệu"; an accepted body has every required field present and truthy (full conditions: AuthValidation.RegisterAccepted) |
| AuthValidation.ValidateLoginData | apps/validations/auth_validation.py:66-85 | an empty or missing body answers "Không có dữ liệu"; it raises exactly when a username is given that is not text; an accepted body has a username and a truthy password (full conditions: AuthValidation.LoginAccepted) |
| AuthValidation.ValidateEmail | apps/validations/auth_validation.py:88-91 | accepts exactly the addresses of the pattern's language, and those followed by one newline, which `$` lets through (AuthValidation.EmailShapeIsLanguage) |
| AuthValidation.ValidateUsername | apps/validations/auth_validation.py:94-98 | accepts only names of 3 to 50 characters, and exactly those the register validator's username rules accept (AuthValidation.ValidateUsernameAgrees) |
| AuthValidation.ValidatePassword | apps/validations/auth_validation.py:101-126 | accepts only passwords of 8 to 128 characters, and exactly those the register validator's password rules accept (AuthValidation.ValidatePasswordAgrees) |
| AuthController.PrepareRegister | apps/controllers/auth_controller.py:19-32 | the view goes on to the service only when validation passed, and then with the stripped username, email and full name and the raw password |
| AuthController.Register | apps/controllers/auth_controller.py:18-63 | the answer and the new tables are `RegisterHandled` and `RegisterHandledTables` of the old tables; a refused request leaves the session alone |
| AuthController.PrepareLogin | apps/controllers/auth_controller.py:66-77 | the view calls the service only after validation, with the stripped username and the raw password |
| AuthController.Login | apps/controllers/auth_controller.py:65-106 | the answer is `LoginHandled` on the users table, and a refused request leaves the session alone |
| AuthController.Logout | apps/controllers/auth_controller.py:134-149 | logout answers 200 with the service's message and empties the session |
| AuthController.ValidationFirst | apps/controllers/auth_controller.py:22-27 | a refused register or login body is answered 400 with the validator's message, before the store is read; the tables are unchanged |
| AuthController.ResetValidationFirst | apps/controllers/auth_controller.py:155-160 | the same holds for both reset endpoints, whatever their services would answer |
| AuthController.RegisterStatuses | apps/controllers/auth_controller.py:40-45 | a taken username or email is 409; a failed insert is 400 whenever the database error text holds no `đ`, so it cannot contain either conflict phrase |
| AuthController.LoginStatuses | apps/controllers/auth_controller.py:83-88 | a disabled account is 403 and bad credentials are 401 |
| AuthController.RegisterAnswers | apps/controllers/auth_controller.py:35-54 | once the fields are read: 409 for a taken username or, with the username free, a taken email; 201 with the new account's dictionary and its token when the insert commits |
| AuthController.FullNameTypeUnchecked | apps/controllers/auth_controller.py:29-31 | a non-text `full_name` that passes validation makes `strip()` raise AttributeError out of the view |
| AuthController.LoginAnswers | apps/controllers/auth_controller.py:79-97 | once the body is read: 403 for a disabled account; 401 for an unknown user or a wrong password; 200 with the user and a fresh token on admission |
| AuthController.RequestResetStatuses | apps/controllers/auth_controller.py:164-193 | a refusal is 403 when it mentions a disabled account and 404 otherwise; an email that was not sent is 500; the answer succeeds exactly when the email was sent |
| AuthController.ResetStatuses | apps/controllers/auth_controller.py:211-237 | a refusal is 403 when it mentions a disabled account and 400 otherwise; a success is 200 with the new token; a raised exception is the view's 500 |
| AuthController.RequestResetPassword | apps/controllers/auth_controller.py:152-195 | a refusing validator answers first; the only success is "reset link sent" with 200, and only after the validator accepted and the mail went out (AuthController.RequestResetStatuses) |
| AuthController.ResetPassword | apps/controllers/auth_controller.py:198-239 | a refusing validator answers first; a success is a 200 after the validator accepted, carrying a `token` object (AuthController.ResetStatuses) |
| UserModel.ToDict | apps/models/user.py:41-50 | the dictionary has exactly the seven public keys and never the password hash |
| UserModel.ToDictHidesHash | apps/models/user.py:41-50 | the dictionary does not depend on the password hash |
| UserModel.ToDictNullTimestamps | apps/models/user.py:48-49 | each timestamp is null exactly when it was never set |
| ProjectModel.ParseStatus | apps/models/project.py:10-15 | `ProjectStatus(v)` succeeds exactly on an enumeration value, and yields the member whose value it is |
| ProjectModel.StatusValues | apps/models/project.py:10-15 | the values that parse are exactly the five lower-case strings |
| ProjectModel.ToDict | apps/models/project.py:37-48 | the dictionary has exactly the nine column keys |
| ProjectModel.ToDictRoundTrip | apps/models/project.py:37-48 | the serialised status parses back to the project's status; the ids are text; a date is null exactly when it is unset |
| TaskModel.ParseStatus | apps/models/task.py:10-14 | `TaskStatus(v)` succeeds exactly on an enumeration value, and yields its member |
| TaskModel.ParsePriority | apps/models/task.py:17-21 | `TaskPriority(v)` succeeds exactly on an enumeration value, and yields its member |
| TaskModel.StatusValues | apps/models/task.py:10-14 | the status values that parse are exactly `todo`, `in_progress`, `in_review` and `done` |
| TaskModel.PriorityValues | apps/models/task.py:17-21 | the priority values that parse are exactly `low`, `medium`, `high` and `urgent` |
| TaskModel.ToDict | apps/models/task.py:55-68 | the dictionary has exactly the eleven column keys |
| TaskModel.ToDictRoundTrip | apps/models/task.py:55-68 | the status and the priority parse back to the task's own; the assignee and the due date are null exactly when unset; the ids are text |
| CommentModel.ToDict | apps/models/comment.py:28-37 | the dictionary has exactly the six column keys and no author |
| Store.Filter | apps/services/task_service.py:49-53 | `.filter(...)` keeps exactly the rows that satisfy the predicate, and no others |
| Store.Window | apps/services/task_service.py:49-53 | `.offset(skip).limit(limit)` raises a database error exactly when either is negative; otherwise it returns the rows from `skip` on, at most `limit` of them, in their order |
| Store.WindowWithin | apps/services/project_service.py:44-48 | every row in a window is a row of the table |
| Store.FilteredWindow | apps/services/task_service.py:47-52 | a filtered window raises exactly when the offset or the limit is negative; it holds at most `limit` stored rows, each satisfying the filter, and from offset 0 with a large enough limit it is the whole filtered table |
| Store.AppendUnique | apps/models/user.py:12-14 | adding a row whose key is new keeps the key unique |
| Store.ReplaceUnique | apps/models/user.py:12-14 | replacing a row by one with the same key keeps the key unique |
| Store.FilterUnique | apps/models/user.py:12-14 | removing rows keeps a key unique |
| Store.IdCell | apps/controllers/task_controller.py:212-213 | a JSON id is kept as absent for null, as a value for text, and as a value the driver refuses otherwise |
| Store.IsoDate | apps/controllers/task_controller.py:38-45 | null is an absent date; a falsy non-null raises; a truthy text parses exactly when `fromisoformat` accepts it, and gives its result |
| Store.Database.constructor | apps/models/user.py:10-19 | a new database has four empty tables (`users` here, and `projects`, `tasks`, `comments` as declared in their model files) |
| Store.Database.Commit | apps/services/project_service.py:25-32 | a commit succeeds exactly when no fault occurs and the pending tables satisfy the schema; it then keeps them, and otherwise the tables are rolled back unchanged |
| ProjectService.Locate | apps/services/project_service.py:34-39 | the index found holds a project with that id, and nothing is found exactly when no project has it |
| ProjectService.CreateProject | apps/services/project_service.py:11-32 | the reply and the new tables are `CreateProjectSpec` of the old tables |
| ProjectService.UpdateProject | apps/services/project_service.py:55-73 | the reply and the new tables are `UpdateProjectSpec` of the old tables, with the argument loop written as a `for` loop over the arguments |
| ProjectService.ChangeProjectStatus | apps/services/project_service.py:90-93 | the status change is the update with a single status argument |
| ProjectService.DeleteProject | apps/services/project_service.py:75-88 | the reply and the new tables are `DeleteProjectSpec` of the old tables |
| ProjectService.ApplyAllIsLastWrite | apps/services/project_service.py:63-65 | the argument loop leaves each column with the last value given for it, and every other column as it was |
| ProjectService.MergedKeeps | apps/services/project_service.py:63-68 | an update never changes the id, the owner, the dates or `created_at`; `updated_at` is kept or set to the time of the update |
| ProjectService.StatusOnly | apps/services/project_service.py:90-93 | a status change sets the status and no other column |
| ProjectService.UpdateOutcome | apps/services/project_service.py:55-73 | an unknown id answers "Dự án không tồn tại"; every failure leaves the tables as they were; a success replaces only that row, with the merged row |
| ProjectService.DeleteKeepsSchema | apps/models/project.py:32 | removing a project with its tasks and their comments keeps every schema condition |
| ProjectService.DeleteOutcome | apps/services/project_service.py:75-88 | a stored project's delete succeeds exactly when the flush works; it removes the project, exactly its tasks and exactly the comments on them, and nothing else |
| ProjectService.CreateOutcome | apps/services/project_service.py:11-32 | a created project has status PLANNING and the given owner, and the table grows by that row alone; a missing owner or a name past the column width is never stored |
| ProjectService.QueriesMatch | apps/services/project_service.py:41-53 | the owner query raises exactly when the offset or the limit is negative, returns only that owner's stored projects, at most `limit`, and from offset 0 with a large enough limit all of them; the unfiltered query is the table's own window |
| ProjectService.LastNameFrom | apps/services/project_service.py:63-65 | the name after the loop is the old name or one of the arguments |
| ProjectService.UpdateSucceeds | apps/services/project_service.py:55-73 | an update of a stored project succeeds whenever the flush works and every name fits the column |
| ProjectService.ByOwner | apps/services/project_service.py:41-48 | raises exactly when the offset or the limit is negative; returns at most `limit` stored projects of that owner (completeness: ProjectService.QueriesMatch) |
| ProjectService.AllProjects | apps/services/project_service.py:50-53 | raises exactly when the offset or the limit is negative; returns at most `limit` projects, the table's rows from the offset on, in order, and the whole table from offset 0 with a large enough limit |
| ProjectService.ProjectToDict | apps/services/project_service.py:95-97 | the dictionary has exactly the model's nine keys and carries the project's id, owner and name (ProjectModel.ToDictRoundTrip) |
| TaskService.Locate | apps/services/task_service.py:39-44 | the index found holds a task with that id, and nothing is found exactly when no task has it |
| TaskService.CreateTask | apps/services/task_service.py:13-37 | the reply and the new tables are `CreateTaskSpec` of the old tables |
| TaskService.UpdateTask | apps/services/task_service.py:73-91 | the reply and the new tables are `UpdateTaskSpec` of the old tables, with the loop over the keyword arguments written as a `while` loop over the field list |
| TaskService.ChangeTaskStatus | apps/services/task_service.py:108-111 | the status change is the update with a single status argument |
| TaskService.AssignTask | apps/services/task_service.py:113-116 | the assignment is the update with a single assignee argument |
| TaskService.DeleteTask | apps/services/task_service.py:93-106 | the reply and the new tables are `DeleteTaskSpec` of the old tables |
| TaskService.ApplyAllIsLastWrite | apps/services/task_service.py:81-83 | the argument loop leaves each column with the last non-None value given for it, and every other column as it was |
| TaskService.MergedKeeps | apps/services/task_service.py:81-86 | an update never changes the id, the project, the creator, the due date or `created_at` |
| TaskService.NullAssigneeSkipped | apps/services/task_service.py:82 | an `assignee_id` of None is skipped, so an update cannot unassign a task |
| TaskService.SingleFieldUpdates | apps/services/task_service.py:108-116 | a lone status or assignee argument sets that column and no other |
| TaskService.UpdateOutcome | apps/services/task_service.py:73-91 | an unknown id answers "Task không tồn tại"; every failure leaves the tables as they were; a success replaces only that row, with the merged row |
| TaskService.DeleteKeepsSchema | apps/models/task.py:50 | removing a task with its comments keeps every schema condition |
| TaskService.DeleteOutcome | apps/services/task_service.py:93-106 | a successful delete removes the task and exactly its comments; every other row stays; an unknown id answers "Task không tồn tại" |
| TaskService.CreateOutcome | apps/services/task_service.py:13-37 | a created task has status TODO and the given fields, and the table grows by that row alone; a task of a missing project is never stored; a failure changes nothing |
| TaskService.QueriesMatch | apps/services/task_service.py:46-71 | for each of the project, assignee and creator queries: it raises exactly when the offset or the limit is negative; it returns only stored tasks matching its filter, at most `limit`; from offset 0 with a large enough limit it returns all of them |
| TaskService.LastOf | apps/services/task_service.py:81-83 | when every argument that sets a column sets it to `x`, the column ends as `x` if any argument sets it, and unchanged otherwise |
| TaskService.LastFrom | apps/services/task_service.py:81-83 | a column's value after the loop is its old value or one of the arguments |
| TaskService.UpdateSucceeds | apps/services/task_service.py:73-91 | an update of a stored task succeeds whenever the flush works, no value is refused, and the arguments fit the schema |
| TaskService.TaskToDict | apps/services/task_service.py:119-121 | the dictionary has exactly the eleven keys of `Task.to_dict`, with the id, project_id and creator_id as text and the title as stored (status, priority, assignee and dates: TaskModel.ToDictRoundTrip) |
| TaskService.ByProject | apps/services/task_service.py:46-52 | raises exactly when the offset or the limit is negative; returns at most `limit` stored tasks of that project (completeness: TaskService.QueriesMatch) |
| TaskService.ByAssignee | apps/services/task_service.py:54-61 | raises exactly when the offset or the limit is negative; returns at most `limit` stored tasks assigned to that user, never an unassigned task (completeness: TaskService.QueriesMatch) |
| TaskService.ByCreator | apps/services/task_service.py:63-70 | raises exactly when the offset or the limit is negative; returns at most `limit` stored tasks created by that user (completeness: TaskService.QueriesMatch) |
| CommentService.Locate | apps/services/comment_service.py:30-36 | the index found holds a comment with that id, and nothing is found exactly when no comment has it |
| CommentService.CountCommentsByTask | apps/services/comment_service.py:96-102 | the count never exceeds the table's size, and a failing query counts 0 |
| CommentService.AuthorOf | apps/services/comment_service.py:114 | the author is found exactly when a user with the comment's `author_id` exists, and it is that user |
| CommentService.CommentToDict | apps/services/comment_service.py:109-121 | the dictionary is the comment's own, plus an `author` entry holding that user's id, username and full name exactly when the author is asked for and exists |
| CommentService.CreateComment | apps/services/comment_service.py:10-28 | the reply and the new tables are `CreateCommentSpec` of the old tables |
| CommentService.UpdateComment | apps/services/comment_service.py:60-78 | the reply and the new tables are `UpdateCommentSpec` of the old tables |
| CommentService.DeleteComment | apps/services/comment_service.py:80-94 | the reply and the new tables are `DeleteCommentSpec` of the old tables |
| CommentService.BeforeTotal | apps/services/comment_service.py:44 | any two comments are ordered one way or the other by `created_at` descending with NULLs first |
| CommentService.BeforeTransitive | apps/services/comment_service.py:44 | that order is transitive |
| CommentService.InsertSorted | apps/services/comment_service.py:44 | inserting into a sorted sequence keeps it sorted and adds exactly one copy of the comment |
| CommentService.InsertCount | apps/services/comment_service.py:44 | inserting adds exactly one copy of the comment and drops none |
| CommentService.SortDescSorted | apps/services/comment_service.py:42-47 | the ordered rows are sorted newest first and are a permutation of the filtered rows |
| CommentService.WindowSorted | apps/services/comment_service.py:45-46 | every window of a sorted sequence is sorted |
| CommentService.ByTaskPage | apps/services/comment_service.py:38-47 | a page by task holds only that task's comments, newest first, at most `limit` and at most the task's count; the first page with a large enough limit holds all of them |
| CommentService.ByAuthorPage | apps/services/comment_service.py:49-58 | a page by author holds only that author's comments, newest first, at most `limit` |
| CommentService.CountIsMatching | apps/services/comment_service.py:96-102 | the count is the number of the task's rows in the table |
| CommentService.FilterAppend | apps/services/comment_service.py:42-43 | filtering a table with one more row adds that row at the end exactly when it matches |
| CommentService.AuthorMatchesDict | apps/services/comment_service.py:104-107 | the authorship test agrees with the `author_id` the client reads |
| CommentService.UpdateOutcome | apps/services/comment_service.py:60-78 | an unknown id answers "Comment không tồn tại"; a success changes only that comment's content and `updated_at`; every failure leaves the tables as they were |
| CommentService.DeleteOutcome | apps/services/comment_service.py:80-94 | deleting a comment keeps the schema, and a success removes exactly that comment |
| CommentService.CreateOutcome | apps/services/comment_service.py:10-28 | a created comment holds the given content, task and author, and the table grows by that row; a comment on a missing task or by a missing user is never stored |
| CommentService.ByTask | apps/services/comment_service.py:38-47 | raises exactly when the offset or the limit is negative; returns at most `limit` comments, newest first (membership and totals: CommentService.ByTaskPage) |
| CommentService.ByAuthor | apps/services/comment_service.py:49-58 | raises exactly when the offset or the limit is negative; returns at most `limit` comments, newest first (membership: CommentService.ByAuthorPage) |
| CommentService.IsCommentAuthor | apps/services/comment_service.py:104-107 | holds exactly when the comment's serialised `author_id` is the user's id (CommentService.AuthorMatchesDict) |
| ValidationRules.NameProblem | apps/validations/task_validation.py:7-11 | a non-text name raises; a text name passes exactly when it has at least 3 characters once stripped and at most `width` raw, and a refusal carries one of the two messages |
| ValidationRules.TextProblem | apps/validations/task_validation.py:16-17 | a falsy field passes; a truthy one is refused with the message exactly when its length exceeds the limit, and raises exactly when it has no length |
| ValidationRules.EnumProblem | apps/validations/task_validation.py:19-23 | a field passes exactly when it is falsy or is one of the listed strings; a refusal carries the message |
| TaskValidation.OptionalFieldsAccepted | apps/validations/task_validation.py:16-23 | the description, status and priority checks pass exactly when each field is falsy or within its rule |
| TaskValidation.CreationAccepted | apps/validations/task_validation.py:3-25 | a creation passes exactly when the title is text of at least 3 characters stripped and at most 200 raw, the project id is truthy, and the optional fields pass; a missing body raises AttributeError |
| TaskValidation.UpdateAccepted | apps/validations/task_validation.py:27-44 | an update passes exactly when a truthy title meets the title rules and the optional fields pass; an empty body passes |
| TaskValidation.NamesAreNotValues | apps/validations/task_validation.py:19-23 | no accepted upper-case name is an enumeration value, and no enumeration value is an accepted name |
| TaskValidation.AcceptedEnumsNeverParse | apps/validations/task_validation.py:19-23 | as written, no status or priority the validators accept is one the enumerations parse |
| TaskValidation.FalsyNotEnum | apps/validations/task_validation.py:19 | a falsy value is neither a status nor a priority |
| TaskValidation.IntendedEnumsParse | apps/validations/task_validation.py:38-42 | with the lower-case values, every truthy status or priority that is accepted parses |
| TaskValidation.IntendedListsAreValues | apps/models/task.py:10-21 | the intended lists hold every enumeration value |
| TaskValidation.ValidateTaskCreation | apps/validations/task_validation.py:3-25 | accepts exactly a body with a text title of at least 3 characters once stripped and at most 200 as sent, a truthy project id and optional fields the rules accept; a missing body raises AttributeError (TaskValidation.CreationAccepted) |
| TaskValidation.ValidateTaskUpdate | apps/validations/task_validation.py:27-44 | accepts exactly a body whose truthy title, if any, passes the title rules and whose optional fields pass; a missing body raises AttributeError (TaskValidation.UpdateAccepted) |
| ProjectValidation.CreationAccepted | apps/validations/project_validation.py:3-19 | a creation passes exactly when the name is text of at least 3 characters stripped and at most 100 raw, and the description and status pass; a missing body raises AttributeError |
| ProjectValidation.UpdateAccepted | apps/validations/project_validation.py:21-35 | an update passes exactly when a truthy name meets the name rules and the optional fields pass; an empty body passes |
| ProjectValidation.AcceptedStatusNeverParses | apps/validations/project_validation.py:32-33 | as written, no status the update validator accepts is one `ProjectStatus` parses |
| ProjectValidation.IntendedStatusParses | apps/validations/project_validation.py:32-33 | with the lower-case values, every truthy status that is accepted parses |
| ProjectValidation.ValidateProjectCreation | apps/validations/project_validation.py:3-19 | accepts exactly a body with a text name of at least 3 characters once stripped and at most 100 as sent and optional fields the rules accept; a missing body raises AttributeError (ProjectValidation.CreationAccepted) |
| ProjectValidation.ValidateProjectUpdate | apps/validations/project_validation.py:21-35 | accepts exactly a body whose truthy name, if any, passes the name rules and whose optional fields pass; a missing body raises AttributeError (ProjectValidation.UpdateAccepted) |
| CommentValidation.ValidateCommentId | apps/validations/comment_validation.py:55-66 | an id passes exactly when it is non-empty and a UUID; every refusal is a 400 |
| CommentValidation.CreateAccepted | apps/validations/comment_validation.py:4-26 | a creation passes exactly when content and task id are text, the stripped content has 1 to 5000 characters and the stripped task id is not empty |
| CommentValidation.ShortContentUnreachable | apps/validations/comment_validation.py:17-18 | the "cannot be empty" answer of creation and the "at least 1 character" answer of update are never given |
| CommentValidation.UpdateAccepted | apps/validations/comment_validation.py:29-52 | an update passes exactly when the content is text whose stripped form has 1 to 5000 characters; a null content is "Content is required" |
| CommentValidation.ValidateCreateComment | apps/validations/comment_validation.py:4-26 | an empty or missing body answers "No data provided"; every answer it gives is a 400 (acceptance conditions: CommentValidation.CreateAccepted) |
| CommentValidation.ValidateUpdateComment | apps/validations/comment_validation.py:29-52 | an empty or missing body answers "No data provided"; every answer it gives is a 400 (acceptance conditions: CommentValidation.UpdateAccepted) |
| Http.IntArg | apps/controllers/task_controller.py:112-113 | `int(request.args.get(key, default))` is the default when the argument is absent, the parsed number when it parses, and a ValueError otherwise |
| Http.TypedIntArg | apps/controllers/comment_controller.py:102-103 | `request.args.get(key, default, type=int)` is the default when the argument is absent or does not convert, and the converted number otherwise |
| TaskController.PrepareCreate | apps/controllers/task_controller.py:13-45 | the view reaches its `try` only after validation, with the stripped title and description, the raw project id, the assignee as bound, the parsed priority (default `medium`) and the parsed due date; a priority that does not parse never reaches it |
| TaskController.CreateTask | apps/controllers/task_controller.py:12-80 | the answer and the new tables are `CreateTaskHandled` of the old tables |
| TaskController.Dicts | apps/controllers/task_controller.py:126 | the listing has one dictionary per task, in order |
| TaskController.UpdateTask | apps/controllers/task_controller.py:165-238 | the answer and the new tables are `UpdateTaskHandled` of the old tables: 404 and 403 before any field is read, then `update_data`, then the service |
| TaskController.BuildUpdates | apps/controllers/task_controller.py:191-217 | `update_data` holds, in key order, the stripped title and description and the parsed status and priority the body names, and a status or priority that does not parse stops the request with 400 |
| TaskController.DeleteTask | apps/controllers/task_controller.py:240-277 | the answer and the new tables are `DeleteTaskHandled` of the old tables |
| TaskController.UpdateChecksInOrder | apps/controllers/task_controller.py:169-189 | a refused body is 400, then an unknown task 404, then someone other than the creator 403, each with the tables unchanged |
| TaskController.OnlyCreatorWrites | apps/controllers/task_controller.py:185-189 | an update or a delete that changes the tables was made by the task's creator and reports success |
| TaskController.UpdateFieldsEffect | apps/controllers/task_controller.py:191-217 | each column named in the body takes the stripped text or the parsed value, the assignee only when it is text, and every other column keeps its value |
| TaskController.ApplyAllAppend | apps/services/task_service.py:81-83 | applying two runs of `update_data` entries is applying the second to the row the first produced |
| TaskController.ApplySnoc | apps/controllers/task_controller.py:191-213 | adding one more argument applies it to the result of the others |
| TaskController.AsWrittenPriorityRejected | apps/controllers/task_controller.py:28-36 | as written, a creation with a `priority` key never succeeds and never changes the tables |
| TaskController.AsWrittenEnumUpdateRejected | apps/controllers/task_controller.py:196-211 | as written, an update with a `status` or a `priority` key never succeeds and never changes the tables |
| TaskController.CreatorAt | apps/controllers/task_controller.py:178-189 | the task the creator names is found at that index |
| TaskController.StatusStored | apps/controllers/task_controller.py:215-229 | a successful status update stores a row with that id and that status |
| TaskController.StatusBody | apps/controllers/task_controller.py:196-203 | a body holding only an enumeration status passes the intended validator and becomes a single status argument |
| TaskController.IntendedStatusUpdate | apps/controllers/task_controller.py:196-229 | with the intended validator, the creator's status update answers 200 and stores the status; as written, the same request fails and changes nothing |
| TaskController.IntendedPriorityCreate | apps/controllers/task_controller.py:23-45 | with the intended validator, a valid creation with an enumeration priority reaches the service with that priority; as written it fails and changes nothing |
| TaskController.CreateAnswers | apps/controllers/task_controller.py:47-71 | an unknown or non-text project id is 404; the tables change exactly when the answer succeeds; then the caller's new task is appended and answered 201 with its row |
| TaskController.ListingsCount | apps/controllers/task_controller.py:108-163 | a listing's count is the number of tasks it carries; a non-numeric `skip` is a 500; with no arguments and at most 100 tasks, the caller's listing holds every task assigned to them; a 200 from the caller's listing, for any paging, holds only dictionaries of stored tasks assigned to the caller |
| TaskController.ListedCount | apps/controllers/task_controller.py:122-128 | a 200 by-project listing's `count` is the number of tasks in its `data` |
| TaskController.MyTasksListing | apps/controllers/task_controller.py:140-163 | the caller's listing: `count` is the length of `data`; a 200 holds only stored tasks assigned to the caller; a non-numeric `skip` is a 500; with no arguments and at most 100 tasks it holds every task assigned to the caller |
| TaskController.MyTasksDefault | apps/controllers/task_controller.py:140-155 | with no paging arguments and at most 100 tasks, the caller's listing is every task assigned to them, in table order |
| TaskController.MyTasksAssigned | apps/controllers/task_controller.py:145-155 | every dictionary in a 200 caller's listing, whatever the paging, is that of a stored task assigned to the caller |
| TaskController.GetTask | apps/controllers/task_controller.py:83-106 | answers 200 exactly when the task exists, with that task's dictionary, and "Task không tồn tại" with 404 otherwise |
| TaskController.TasksByProject | apps/controllers/task_controller.py:109-137 | a 200 answer is a success for an existing project; an unknown project with valid paging answers 404; a `skip` that is not a number is a ValueError answered with 500 (count: TaskController.ListingsCount) |
| TaskController.MyTasks | apps/controllers/task_controller.py:140-163 | succeeds, with 200, exactly when both paging arguments are non-negative numbers (content and count: TaskController.ListingsCount) |
| ProjectController.PrepareCreate | apps/controllers/project_controller.py:15-46 | the view reaches its `try` only after validation, with the stripped name and description and the parsed dates; a start date that does not parse is a 400, and so is a bad end date after a good start |
| ProjectController.CreateProject | apps/controllers/project_controller.py:15-72 | the answer and the new tables are `CreateProjectHandled` of the old tables |
| ProjectController.Dicts | apps/controllers/project_controller.py:115 | the listing has one dictionary per project, in order |
| ProjectController.UpdateProject | apps/controllers/project_controller.py:129-189 | the answer and the new tables are `UpdateProjectHandled` of the old tables, with `update_data` built one key at a time |
| ProjectController.DeleteProject | apps/controllers/project_controller.py:194-228 | the answer and the new tables are `DeleteProjectHandled` of the old tables |
| ProjectController.OwnerAt | apps/controllers/project_controller.py:140-152 | the project the owner names is found at that index |
| ProjectController.OnlyOwnerWrites | apps/controllers/project_controller.py:148-152 | an update or a delete that changes the tables was made by the project's owner and reports success |
| ProjectController.OwnerDeleteCascades | apps/controllers/project_controller.py:196-221 | the owner's delete answers 200 and removes the project, every task of it and every comment on those tasks |
| ProjectController.ApplySnoc | apps/controllers/project_controller.py:155-166 | adding one more argument applies it to the result of the others |
| ProjectController.FieldsEffect | apps/controllers/project_controller.py:155-170 | the arguments set exactly the columns that are given |
| ProjectController.UpdateFieldsEffect | apps/controllers/project_controller.py:155-170 | each column named in the body takes the stripped text or the parsed status, and every other column keeps its value |
| ProjectController.AsWrittenStatusRejected | apps/controllers/project_controller.py:159-166 | as written, an update with a `status` key never succeeds and never changes the tables |
| ProjectController.StatusBody | apps/controllers/project_controller.py:159-166 | a body holding only an enumeration status passes the intended validator and becomes a single status argument |
| ProjectController.StatusStored | apps/controllers/project_controller.py:168-182 | a successful status update stores a row with that id and that status |
| ProjectController.IntendedStatusUpdate | apps/controllers/project_controller.py:159-182 | with the intended validator, the owner's status update answers 200 and stores the status; as written, the same request fails and changes nothing |
| ProjectController.CreateAnswers | apps/controllers/project_controller.py:49-65 | the tables change exactly when the answer succeeds; an unknown caller is a 400; a success appends the caller's project with status PLANNING and answers 201 with its row |
| ProjectController.MyProjectsListing | apps/controllers/project_controller.py:103-124 | the caller's listing carries only the caller's own projects, and its count is their number; a non-numeric `skip` is a 500 |
| ProjectController.GetProject | apps/controllers/project_controller.py:77-100 | answers 200 exactly when the project exists, with that project's dictionary, and "Dự án không tồn tại" with 404 otherwise |
| ProjectController.MyProjects | apps/controllers/project_controller.py:103-126 | succeeds, with 200, exactly when both paging arguments are non-negative numbers (content and count: ProjectController.MyProjectsListing) |
| CommentController.CommentDicts | apps/controllers/comment_controller.py:112 | one dictionary per comment, in order, each with its author |
| CommentController.FloorDiv | apps/controllers/comment_controller.py:117 | Python `//`: a zero divisor raises ZeroDivisionError, and otherwise the quotient is rounded toward negative infinity |
| CommentController.CreateComment | apps/controllers/comment_controller.py:14-57 | the answer and the new tables are `CreateCommentHandled` of the old tables |
| CommentController.UpdateComment | apps/controllers/comment_controller.py:164-217 | the answer and the new tables are `UpdateCommentHandled` of the old tables |
| CommentController.DeleteComment | apps/controllers/comment_controller.py:219-262 | the answer and the new tables are `DeleteCommentHandled` of the old tables |
| CommentController.OnlyAuthorWrites | apps/controllers/comment_controller.py:188-191 | an update or a delete that changes the tables was made by the comment's author and reports success |
| CommentController.BadIdFirst | apps/controllers/comment_controller.py:62-64 | an empty or non-UUID id is answered 400 first by get, update and delete, and the tables are unchanged |
| CommentController.BadBodySecond | apps/controllers/comment_controller.py:171-173 | with a valid id, a refused update body is the validator's 400 and the tables are unchanged |
| CommentController.DeleteRefusals | apps/controllers/comment_controller.py:228-240 | an unknown comment is 404 and another user's comment is 403, with the tables unchanged |
| CommentController.UpdateAnswers | apps/controllers/comment_controller.py:178-208 | an unknown comment is 404 and another user's is 403; the author's update answers 200 and stores the stripped content when the flush works |
| CommentController.LocatedRefusals | apps/controllers/comment_controller.py:179-191 | once the content is stripped, a missing comment answers 404 "Comment không tồn tại" and another user's comment answers 403, and neither changes the tables |
| CommentController.AuthorUpdates | apps/controllers/comment_controller.py:193-207 | when the author updates and the commit goes through, the answer is 200 with success, and the stored row with that id holds the new content |
| CommentController.UniqueAuthor | apps/controllers/comment_controller.py:228-236 | under unique ids, the comment found is the only one with that id |
| CommentController.AuthorDeletes | apps/controllers/comment_controller.py:226-253 | the author's delete answers 200 with the service's message and removes exactly that comment |
| CommentController.CreateAnswers | apps/controllers/comment_controller.py:21-48 | a success means the task exists: the caller's comment with the stripped content and the raw task id is appended and answered 201 with its author; every other answer leaves the tables unchanged |
| CommentController.PagesCeiling | apps/controllers/comment_controller.py:117 | for a positive limit, `pages` is the least number of pages of `limit` that hold `total` comments, and it is 0 exactly when there are none |
| CommentController.ByTaskAnswers | apps/controllers/comment_controller.py:93-127 | the by-task listing is 200 exactly when the task exists, `page >= 1` and `limit >= 1`; an unknown task is 404; a zero limit is a 500 from the division, and a negative limit, or a page below 1 with a positive limit, is a 500 from the database |
| CommentController.ByTaskListing | apps/controllers/comment_controller.py:102-119 | a 200 listing carries the task's own comments, newest first, at most `limit`; `total` is the task's comment count and `pages` its ceiling; a page past the last one is empty |
| CommentController.MyCommentsListing | apps/controllers/comment_controller.py:134-153 | the caller's listing is 200 exactly when the limit is 0, or positive with `page >= 1`, and otherwise a 500 from the database; it carries only the caller's comments, newest first |
| CommentController.GetComment | apps/controllers/comment_controller.py:60-88 | a missing or malformed id answers 400; otherwise 200 exactly when the comment exists, with its dictionary including the author |
| CommentController.CommentsByTask | apps/controllers/comment_controller.py:91-129 | an unknown task answers "Task không tồn tại" with 404; a 200 answer is a success for an existing task (paging: CommentController.ByTaskAnswers, CommentController.ByTaskListing) |
| CommentController.MyComments | apps/controllers/comment_controller.py:132-162 | succeeds with 200 or fails with the database error a negative offset or limit raises (CommentController.MyCommentsListing) |
| Common.IsoOrNull | apps/models/user.py:48-49 | a timestamp serialises as null exactly when it is unset |
| Common.StripIsSlice | apps/validations/auth_validation.py:25 | `str.strip()` returns a contiguous slice of the text that neither starts nor ends with whitespace |
| Common.StripShortens | apps/validations/auth_validation.py:25 | stripping never makes a text longer |
| Common.StripIdempotent | apps/validations/auth_validation.py:25 | stripping twice is stripping once |
| Common.First | apps/services/task_service.py:42 | `.first()` finds the earliest matching row, or nothing exactly when no row matches |

Where the code goes further than a plain reading suggests, the model
follows the code:

- `Project.tasks` and `Task.comments` are declared with
  `cascade="all, delete-orphan"` (apps/models/project.py:32,
  apps/models/task.py:50). So deleting a project also removes its tasks
  and the comments on them, and deleting a task removes its comments.
- `update_project()` and `update_task()` test `value is not None`. Only
  the task's `assignee_id` can reach the service as None, so no other
  column is ever skipped.

## Left out

- Flask routing (apps/routers/*.py), app.py, the logger (apps/utils/logger.py) and the e-mail service (apps/services/email_service.py) are not part of this model. Whether the reset e-mail was sent is the `emailSent` parameter of `AuthController.RequestResetPassword`.
- `AuthService.request_reset_password`, `AuthService.reset_password`, `validate_request_reset_password` and `validate_reset_password_data` have no definition in the source. The reset views take them as function parameters, and no reset-token behaviour is invented.
- `AuthController.get_current_user` and `AuthService.get_user_by_id` are left out: the route at apps/routers/auth_router.py:44 calls the two-argument handler with one argument.
- bcrypt is symbolic: a hash is a pair of salt and secret, and verification compares secrets. The 72-byte truncation of bcrypt and the UTF-8 encoding are not modelled.
- HS256 signing is the abstract `AuthService.Codec`. Its laws (`AuthService.Sound`) are that a signed payload opens to itself and that a signed token is non-empty and has no space, as every compact JWS serialisation (section 7.1 of RFC 7515) is. The HMAC is not computed. Of the claim checks PyJWT makes, only the one on `exp` is modelled; those on `iat` and `nbf` are not.
- The clock, `uuid4()`, `gensalt()`, `int()` on query text, `datetime.fromisoformat()`, `uuid.UUID()`, and whether a database flush fails (with its error text) are parameters of the model, not computed.
- A JSON body is either absent or an object. Bodies that are JSON arrays, numbers or strings are not modelled.
- Database ids are compared as text. PostgreSQL's normalisation of UUID spellings, for example upper-case hexadecimal, is not modelled.
- `str.isupper`, `str.islower` and `str.isdigit` are modelled on ASCII characters only. `strip()` removes the characters Python's `str.isspace` accepts.
- The order of rows that the query does not sort is insertion order. Comments with equal `created_at` keep a fixed order, which PostgreSQL does not promise.
- CommentModel.ToDict: ids are text like the other tables, and the `Integer` ids that apps/models/comment.py declares are not modelled. `validate_comment_id` demands a UUID, so a numeric id could never be looked up anyway.
- The older schema under venv/apps/models/ is not part of this model.
- SQLAlchemy's session objects, identity map, `refresh()` and SQL compilation are not modelled. `db.close()` has no observable effect here.
- Concurrency is not modelled: requests run one at a time.

## Findings

| source | as written | input that shows it | evidently intended | confidence | as-written member | corrected member |
|---|---|---|---|---|---|---|
| apps/validations/task_validation.py:22 | `validate_task_creation` accepts the priority names `LOW`...`URGENT`, and `TaskPriority(...)` accepts only `low`...`urgent`, so every creation that carries a `priority` is answered 400 | `{"title": "Fix login", "project_id": "<id>", "priority": "high"}` fails the validator; with `"HIGH"`, `TaskPriority("HIGH")` fails | validate against the enumeration values, so an explicit priority reaches the service | not executed | TaskController.AsWrittenPriorityRejected | TaskController.IntendedPriorityCreate |
| apps/validations/task_validation.py:38 | `validate_task_update` accepts the status names `TODO`...`DONE`, and `TaskStatus(...)` accepts only the lower-case values, so every task update that carries a `status` (or a `priority`) is answered 400 | `{"status": "done"}` fails the validator; `{"status": "DONE"}` fails `TaskStatus("DONE")` | the task's creator can change its status | not executed | TaskController.AsWrittenEnumUpdateRejected | TaskController.IntendedStatusUpdate |
| apps/validations/project_validation.py:32 | `validate_project_update` accepts the status names `PLANNING`...`CANCELLED`, and `ProjectStatus(...)` accepts only the lower-case values, so every project update that carries a `status` is answered 400 | `{"status": "completed"}` fails the validator; `{"status": "COMPLETED"}` fails `ProjectStatus("COMPLETED")` | the owner can change the project's status | not executed | ProjectController.AsWrittenStatusRejected | ProjectController.IntendedStatusUpdate |

In the Dafny, each validator takes the list of accepted names as a
parameter:

- `TaskValidation.AcceptedEnumsNeverParse` and
  `ProjectValidation.AcceptedStatusNeverParses` prove the as-written halves
  against the upper-case lists.
- `TaskValidation.IntendedEnumsParse` and
  `ProjectValidation.IntendedStatusParses` prove the corrected halves
  against the lower-case values.
- The controllers take an `EnumNames` (tasks) or a status list (projects),
  so that each proves both behaviours.

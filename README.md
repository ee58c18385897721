# Password commands of CK.DB.User.UserPassword: validation, SQL error messages, handler outcomes

This project models the command layer of the user-password package:

- **Incoming validation** (`IncomingValidators`): the independent checks on a
  set-password or create-or-update-password command. A failing check appends
  one error, with a stable key, to the user message collector.
- **SQL error messages** (`GlobalizationSqlServer`): a detailed SQL exception
  becomes one user error. The inner SQL exception's text is split at the first
  `||` into message and key. A missing inner exception reads as
  `"Unknown SQLError"`.
- **Command handlers** (`CommandHandlers`): what the two handlers append to the
  collector. This depends on the requested `UCLMode`, on what the credential
  table call returned (or threw), and on the errors the collector already held.
  The handlers copy the collector into the command result.

Supporting modules:

- `Wrappers` holds `Option`, for C#'s nullable values.
- `UserMessages` holds the messages and the collector, a class whose methods
  append to its `messages` sequence.
- `PasswordCommands` holds the command shapes, `UCLMode`, `UCResult` and
  `string.IsNullOrWhiteSpace`. A create-or-update command built without a
  mode gets `CreateOrUpdate`, as a default value of the constructor.

Each imperative piece of the source is a method over the collector. Each such
method's `ensures` ties the new collector contents to a specification
function: `SetPasswordErrors`, `CreateOrUpdateErrors`, `SqlError`,
`SetPasswordMessages` or `CreateOrUpdateMessages`. The properties the source
promises are proved about those functions.

Modelling choices:

- `UCLMode` is a set of flags. `CreateOnly`, `UpdateOnly` and `CreateOrUpdate`
  are `{Create}`, `{Update}` and `{Create, Update}`, and `WithActualLogin` is
  an extra flag. The enum's definition is not part of this model. Treating
  `CreateOrUpdate` as the union of the two base flags follows its name and the
  `CreateOrUpdate | WithActualLogin` combination in
  `Tests/CK.DB.User.UserPassword.Tests/UserPasswordTests.cs:399`. The
  handlers compare modes with `==`, which is set equality here.
- `UCResult` is `None | Created | Updated`.
- The table call is a function parameter of each handler. It receives the
  actor id (null read as 0), the user id, the password and, for
  create-or-update, the mode. It returns `Returned(value)` or
  `Threw(exception)`. The exception is either a detailed SQL exception, with
  or without an inner SQL exception, or any other exception.
- The first catch clause only takes a detailed SQL exception that has an inner
  SQL exception. One without an inner exception falls to the generic clause.
  So the handlers never produce the `"Unknown SQLError"` stand-in.
  `ThrownError` states this.
- The whitespace table of `IsNullOrWhiteSpace` is a parameter
  `isWhiteSpace: char -> bool`.
- The password is an `Option<string>` so that a null password can be
  represented.

`ValidateCreateOrUpdateCommand` checks only the user id and the password. It
never compares the actor with the user
(CK.IO.User.UserPassword/IncomingValidators.cs:28-39), and
`CreateOrUpdateErrors` proves that it never reports an actor mismatch. The
credential table, which is outside this model, rejects actor 0 on its own.

## Model

| member | source | states |
|---|---|---|
| `UserMessages.CountErrors` | CK.DB.User.UserPassword/Package.CommandHandlers.cs:66 | the error count is at most the number of messages, and it is zero exactly when no message is an error |
| `UserMessages.CountErrorsAppend` | CK.DB.User.UserPassword/Package.CommandHandlers.cs:66 | the error count of a collector is its earlier errors plus the errors appended since |
| `UserMessages.UserMessageCollector.ErrorCount` | CK.DB.User.UserPassword/Package.CommandHandlers.cs:66 | `ErrorCount` is zero exactly when the collector holds no error |
| `UserMessages.UserMessageCollector.Error` | CK.IO.User.UserPassword/IncomingValidators.cs:13 | appends one error with the given text and key; earlier messages are kept |
| `UserMessages.UserMessageCollector.Info` | CK.DB.User.UserPassword/Package.CommandHandlers.cs:23 | appends one info with the given text and key; earlier messages are kept |
| `PasswordCommands.IsNullOrWhiteSpace` | CK.IO.User.UserPassword/IncomingValidators.cs:16 | `string.IsNullOrWhiteSpace`: null and the empty string are blank; a string with any character outside the whitespace table is not |
| `IncomingValidators.UserIdErrors` | CK.IO.User.UserPassword/IncomingValidators.cs:11-14 | the user id check yields `User.InvalidUserId` exactly when `UserId <= 0`, and nothing else |
| `IncomingValidators.PasswordErrors` | CK.IO.User.UserPassword/IncomingValidators.cs:16-19 | the password check yields `User.InvalidPassword` exactly when the password is null, empty or all whitespace |
| `IncomingValidators.SetPasswordErrors` | CK.IO.User.UserPassword/IncomingValidators.cs:9-25 | `User.InvalidUserId` iff `UserId <= 0`; `User.InvalidPassword` iff the password is blank; `User.ActorAndUserMustMatch` iff the actor (null read as 0) differs from the user; no other message; at most 3, in check order; none exactly when all three checks pass |
| `IncomingValidators.CreateOrUpdateErrors` | CK.IO.User.UserPassword/IncomingValidators.cs:28-39 | only the user id and password errors, each iff its check fails, in check order; never `User.ActorAndUserMustMatch`, whatever the actor |
| `IncomingValidators.ValidateSetPasswordCommand` | CK.IO.User.UserPassword/IncomingValidators.cs:9-25 | the collector afterwards is its old messages, unchanged, followed by `SetPasswordErrors` |
| `IncomingValidators.ValidateCreateOrUpdateCommand` | CK.IO.User.UserPassword/IncomingValidators.cs:28-39 | the collector afterwards is its old messages, unchanged, followed by `CreateOrUpdateErrors` |
| `IncomingValidators.SetPasswordExtendsCreateOrUpdate` | CK.IO.User.UserPassword/IncomingValidators.cs:9-39 | the set-password validation is the create-or-update validation of the same user and password, followed by the actor check |
| `IncomingValidators.EmptyPasswordRejected` | CK.IO.User.UserPassword/IncomingValidators.cs:16-38 | both validators report `User.InvalidPassword` for the empty password, whatever the whitespace table |
| `IncomingValidators.ForeignActorRejected` | CK.IO.User.UserPassword/IncomingValidators.cs:21-24 | a null actor with a positive user is rejected, and so is actor 1 setting the password of user 3712 |
| `GlobalizationSqlServer.InnerMessage` | CK.DB.User.UserPassword/CK.SqlServer/GlobalizationSqlServerExtensions.cs:11 | the inner SQL exception's message, or `"Unknown SQLError"` when there is no inner exception |
| `GlobalizationSqlServer.Contains` | CK.DB.User.UserPassword/CK.SqlServer/GlobalizationSqlServerExtensions.cs:13 | `Contains("\|\|")` holds exactly when the search for the first `\|\|` finds one |
| `GlobalizationSqlServer.IndexOfSeparator` | CK.DB.User.UserPassword/CK.SqlServer/GlobalizationSqlServerExtensions.cs:13-15 | finds the first `||` at or after a position, or proves there is none |
| `GlobalizationSqlServer.SplitAtFirst` | CK.DB.User.UserPassword/CK.SqlServer/GlobalizationSqlServerExtensions.cs:15 | `Split("||", 2)` gives two parts exactly when the text holds `||`; they rejoin around `||` to the text; the first part holds no `||`, not even with a `|` appended; otherwise the one part is the whole text |
| `GlobalizationSqlServer.PrefixBeforeFirstSeparator` | CK.DB.User.UserPassword/CK.SqlServer/GlobalizationSqlServerExtensions.cs:15-16 | the text before the first `||` holds no `||`, even with one more `|` after it |
| `GlobalizationSqlServer.ElementAtOrDefault` | CK.DB.User.UserPassword/CK.SqlServer/GlobalizationSqlServerExtensions.cs:16-17 | the `k`-th part when there is one, and null exactly when `k` is past the end |
| `GlobalizationSqlServer.SqlError` | CK.DB.User.UserPassword/CK.SqlServer/GlobalizationSqlServerExtensions.cs:11-21 | always an error; without `||` the message and the key are both the whole inner text; with `||` the message, `||` and the key rejoin to the inner text, and the message holds no `||` |
| `GlobalizationSqlServer.Error` | CK.DB.User.UserPassword/CK.SqlServer/GlobalizationSqlServerExtensions.cs:9-22 | appends exactly one message, the one `SqlError` describes, and returns it |
| `GlobalizationSqlServer.MissingInnerException` | CK.DB.User.UserPassword/CK.SqlServer/GlobalizationSqlServerExtensions.cs:11-21 | without an inner SQL exception the error's message and key are both `"Unknown SQLError"` |
| `GlobalizationSqlServer.SplitFallbacksUnreachable` | CK.DB.User.UserPassword/CK.SqlServer/GlobalizationSqlServerExtensions.cs:15-17 | for a text holding `||`, both parts exist, so `"Unknown SQL error"` and `"SQLError.NotSpecified"` are never used |
| `GlobalizationSqlServer.SplitAtFirstUnique` | CK.DB.User.UserPassword/CK.SqlServer/GlobalizationSqlServerExtensions.cs:15-17 | any cut of the text around a `||` whose first part holds no `||`, even with a `|` appended, is the split at the first `||` |
| `GlobalizationSqlServer.SqlErrorCharacterized` | CK.DB.User.UserPassword/CK.SqlServer/GlobalizationSqlServerExtensions.cs:13-18 | for a text holding `||`, the error is (message, key) if and only if they rejoin around `||` to the text and the message holds no `||`, even with a `|` appended |
| `GlobalizationSqlServer.KeyKeepsLaterSeparators` | CK.DB.User.UserPassword/CK.SqlServer/GlobalizationSqlServerExtensions.cs:15-17 | `"a\|\|b\|\|c"` gives message `"a"` and key `"b\|\|c"`: the key keeps the later separators |
| `CommandHandlers.CarriesSqlError` | CK.DB.User.UserPassword/Package.CommandHandlers.cs:25 | the catch filter holds only for a detailed SQL exception whose inner SQL exception is present, whose message is then the text that is split; any other exception, and a detailed one without an inner exception, fail it |
| `CommandHandlers.ThrownError` | CK.DB.User.UserPassword/Package.CommandHandlers.cs:25-34 | one error; the fallback unless the exception is a detailed SQL exception with an inner one, in which case it is exactly the extension's `SqlError`: the inner exception's own message split at its first `\|\|` |
| `CommandHandlers.SetPasswordMessages` | CK.DB.User.UserPassword/Package.CommandHandlers.cs:19-34 | exactly one message: the `User.PasswordSet` info iff the table call returned, else the split SQL error or `User.PasswordSetFailed` |
| `CommandHandlers.ModeCheckErrors` | CK.DB.User.UserPassword/Package.CommandHandlers.cs:50-64 | at most one error; `User.PasswordCreationFailed` iff mode is exactly `CreateOnly` and the result is not `Created`; `User.PasswordUpdateFailed` iff exactly `UpdateOnly` and not `Updated`; `User.PasswordCreateOrUpdateFailed` iff exactly `CreateOrUpdate` and neither; nothing for any other mode |
| `CommandHandlers.CreateOrUpdateMessages` | CK.DB.User.UserPassword/Package.CommandHandlers.cs:47-80 | a thrown call gives exactly one error and no info; a returned call gives the mode-check errors, then `User.PasswordCreatedOrUpdated` iff the collector, counting its earlier errors, then holds no error |
| `CommandHandlers.HandleSetPasswordCommand` | CK.DB.User.UserPassword/Package.CommandHandlers.cs:14-39 | passes the actor (null read as 0), user and password to the table; the collector gains exactly `SetPasswordMessages` of the outcome; the result holds the collector's messages on every path |
| `CommandHandlers.HandleCreateOrUpdatePassword` | CK.DB.User.UserPassword/Package.CommandHandlers.cs:42-84 | passes actor, user, password and mode to the table; the collector gains exactly `CreateOrUpdateMessages` of its old messages and the outcome; the result holds the collector's messages on every path |
| `CommandHandlers.FlagCombinedModeSkipsChecks` | CK.DB.User.UserPassword/Package.CommandHandlers.cs:50-69 | `CreateOrUpdate` plus `WithActualLogin` fails no mode check, so with no earlier error even a `None` result is reported as created or updated |

## Left out

- The credential table (`UserPasswordTable`), its hashing, login, failed-attempt counting, migration and SQL procedures. It is not part of this model. Each handler takes the table call as an opaque function returning a result or an exception.
- Password hashing. It is cryptographic, and its implementation is not part of this model.
- Async/await, `ctx.Monitor` logging and `OpenInfo` scopes, command dispatch, `[CommandHandler]`/`[IncomingValidator]` wiring and dependency injection. This is framework plumbing with no effect on the messages.
- The `(ActorId: …, UserId: …)` suffix of the handlers' interpolated message texts, and the `CallerFilePath`/`CallerLineNumber` arguments. The handler messages keep the fixed sentence and the key.
- `UCLMode` and `UCResult` numeric values, and any `UCLMode` flag other than `WithActualLogin`. The enum definitions are not part of this model.
- The exact Unicode whitespace table of `string.IsNullOrWhiteSpace`. It is a parameter.
- What `SetUserMessages` derives from the messages beyond copying them, such as the result's success flag. Its source is not part of this model.
- The 32-bit width of `UserId` and `ActorId`. They are only compared, never computed with, so unbounded integers behave the same.

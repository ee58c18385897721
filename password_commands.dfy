/** The shapes of the two password commands and of the values the credential
    table exchanges with their handlers. */
module PasswordCommands {
  import Wrappers

  /** The flags a `UCLMode` combines: the two base modes and the orthogonal
      "record this as a login" option. */
  datatype UCLFlag = Create | Update | WithActualLogin

  /** A mode is the set of its flags; modes are compared as whole sets, as the
      handlers compare the enum values with `==`. */
  type UCLMode = set<UCLFlag>

  const CreateOnly: UCLMode := {Create}
  const UpdateOnly: UCLMode := {Update}
  const CreateOrUpdate: UCLMode := {Create, Update}

  /** What the credential table reports it did. */
  datatype UCResult = None | Created | Updated

  /** `ISetPasswordCommand`; the actor id comes from the authentication part
      of the command and may be null. */
  datatype SetPasswordCommand = SetPasswordCommand(
    actorId: Wrappers.Option<int>, userId: int, password: Wrappers.Option<string>)

  /** `ICreateOrUpdatePasswordCommand`; a command built without a mode gets
      `CreateOrUpdate`. */
  datatype CreateOrUpdatePasswordCommand = CreateOrUpdatePasswordCommand(
    actorId: Wrappers.Option<int>, userId: int, password: Wrappers.Option<string>,
    mode: UCLMode := CreateOrUpdate)

  /** `string.IsNullOrWhiteSpace`, for the whitespace table `isWhiteSpace`:
      null, empty, or made of whitespace characters only. */
  predicate IsNullOrWhiteSpace(s: Wrappers.Option<string>, isWhiteSpace: char -> bool)
    ensures s == Wrappers.None || s == Wrappers.Some("") ==> IsNullOrWhiteSpace(s, isWhiteSpace)
    ensures s.Some? && (exists i :: 0 <= i < |s.value| && !isWhiteSpace(s.value[i])) ==> !IsNullOrWhiteSpace(s, isWhiteSpace)
  {
    match s
    case None => true
    case Some(t) => forall i :: 0 <= i < |t| ==> isWhiteSpace(t[i])
  }
}

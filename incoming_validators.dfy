/** The incoming validators of the two password commands: independent checks
    on the command, each of which appends one error to the collector when it
    fails. */
module IncomingValidators {
  import opened UserMessages
  import opened PasswordCommands

  const InvalidUserId := UserMessage(Error, "Invalid UserId.", "User.InvalidUserId")
  const InvalidPassword := UserMessage(Error, "Invalid password.", "User.InvalidPassword")
  const ActorAndUserMustMatch := UserMessage(Error, "ActorId must match UserId.", "User.ActorAndUserMustMatch")

  /** The position of a validation error in the order the checks run. */
  function CheckRank(m: UserMessage): nat {
    if m == InvalidUserId then 0 else if m == InvalidPassword then 1 else 2
  }

  /** The messages of `r` appear in the order of the checks, each at most once. */
  predicate InCheckOrder(r: seq<UserMessage>) {
    forall i, j :: 0 <= i < j < |r| ==> CheckRank(r[i]) < CheckRank(r[j])
  }

  /** The error of the user id check. */
  function UserIdErrors(userId: int): (r: seq<UserMessage>)
    ensures r == [] || r == [InvalidUserId]
    ensures InvalidUserId in r <==> userId <= 0
  {
    if userId <= 0 then [InvalidUserId] else []
  }

  /** The error of the password check. */
  function PasswordErrors(password: Wrappers.Option<string>, isWhiteSpace: char -> bool): (r: seq<UserMessage>)
    ensures r == [] || r == [InvalidPassword]
    ensures InvalidPassword in r <==> IsNullOrWhiteSpace(password, isWhiteSpace)
  {
    if IsNullOrWhiteSpace(password, isWhiteSpace) then [InvalidPassword] else []
  }

  /** The errors `ValidateSetPasswordCommand` appends: each of the three
      checks contributes its error exactly when it fails, in check order. */
  function SetPasswordErrors(cmd: SetPasswordCommand, isWhiteSpace: char -> bool): (r: seq<UserMessage>)
    ensures InvalidUserId in r <==> cmd.userId <= 0
    ensures InvalidPassword in r <==> IsNullOrWhiteSpace(cmd.password, isWhiteSpace)
    ensures ActorAndUserMustMatch in r <==> cmd.actorId.GetOr(0) != cmd.userId
    ensures forall m :: m in r ==> m == InvalidUserId || m == InvalidPassword || m == ActorAndUserMustMatch
    ensures InCheckOrder(r) && |r| <= 3
    ensures r == [] <==>
      cmd.userId > 0 && !IsNullOrWhiteSpace(cmd.password, isWhiteSpace) && cmd.actorId.GetOr(0) == cmd.userId
  {
    UserIdErrors(cmd.userId) + PasswordErrors(cmd.password, isWhiteSpace)
      + (if cmd.actorId.GetOr(0) != cmd.userId then [ActorAndUserMustMatch] else [])
  }

  /** The errors `ValidateCreateOrUpdateCommand` appends: the user id and the
      password checks only, whatever the actor. */
  function CreateOrUpdateErrors(cmd: CreateOrUpdatePasswordCommand, isWhiteSpace: char -> bool): (r: seq<UserMessage>)
    ensures InvalidUserId in r <==> cmd.userId <= 0
    ensures InvalidPassword in r <==> IsNullOrWhiteSpace(cmd.password, isWhiteSpace)
    ensures ActorAndUserMustMatch !in r
    ensures forall m :: m in r ==> m == InvalidUserId || m == InvalidPassword
    ensures InCheckOrder(r) && |r| <= 2
    ensures r == [] <==> cmd.userId > 0 && !IsNullOrWhiteSpace(cmd.password, isWhiteSpace)
  {
    UserIdErrors(cmd.userId) + PasswordErrors(cmd.password, isWhiteSpace)
  }

  method ValidateSetPasswordCommand(collector: UserMessageCollector, cmd: SetPasswordCommand, isWhiteSpace: char -> bool)
    modifies collector
    ensures collector.messages == old(collector.messages) + SetPasswordErrors(cmd, isWhiteSpace)
  {
    if cmd.userId <= 0 {
      collector.Error(InvalidUserId.text, InvalidUserId.key);
    }
    if IsNullOrWhiteSpace(cmd.password, isWhiteSpace) {
      collector.Error(InvalidPassword.text, InvalidPassword.key);
    }
    if cmd.actorId.GetOr(0) != cmd.userId {
      collector.Error(ActorAndUserMustMatch.text, ActorAndUserMustMatch.key);
    }
  }

  method ValidateCreateOrUpdateCommand(collector: UserMessageCollector, cmd: CreateOrUpdatePasswordCommand, isWhiteSpace: char -> bool)
    modifies collector
    ensures collector.messages == old(collector.messages) + CreateOrUpdateErrors(cmd, isWhiteSpace)
  {
    if cmd.userId <= 0 {
      collector.Error(InvalidUserId.text, InvalidUserId.key);
    }
    if IsNullOrWhiteSpace(cmd.password, isWhiteSpace) {
      collector.Error(InvalidPassword.text, InvalidPassword.key);
    }
  }

  /** The set-password validation is the create-or-update validation followed
      by the actor check. */
  lemma SetPasswordExtendsCreateOrUpdate(cmd: SetPasswordCommand, mode: UCLMode, isWhiteSpace: char -> bool)
    ensures SetPasswordErrors(cmd, isWhiteSpace)
         == CreateOrUpdateErrors(CreateOrUpdatePasswordCommand(cmd.actorId, cmd.userId, cmd.password, mode), isWhiteSpace)
            + (if cmd.actorId.GetOr(0) != cmd.userId then [ActorAndUserMustMatch] else [])
  {
  }

  /** An empty password is rejected by both validators, whatever the
      whitespace table. */
  lemma EmptyPasswordRejected(actorId: Wrappers.Option<int>, userId: int, mode: UCLMode, isWhiteSpace: char -> bool)
    ensures InvalidPassword in SetPasswordErrors(SetPasswordCommand(actorId, userId, Wrappers.Some("")), isWhiteSpace)
    ensures InvalidPassword in CreateOrUpdateErrors(CreateOrUpdatePasswordCommand(actorId, userId, Wrappers.Some(""), mode), isWhiteSpace)
  {
  }

  /** A null actor is read as 0, so it never matches a valid user; actor 1
      may not set the password of user 3712. */
  lemma ForeignActorRejected(userId: int, password: Wrappers.Option<string>, isWhiteSpace: char -> bool)
    requires userId > 0
    ensures ActorAndUserMustMatch in SetPasswordErrors(SetPasswordCommand(Wrappers.None, userId, password), isWhiteSpace)
    ensures ActorAndUserMustMatch in SetPasswordErrors(SetPasswordCommand(Wrappers.Some(1), 3712, password), isWhiteSpace)
  {
  }
}

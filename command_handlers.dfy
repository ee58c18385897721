/** The handlers of the two password commands: they call the credential
    table, turn what it reports (or what it throws) into user messages, and
    copy the collector's messages into the command result. The table call is
    a parameter: whatever it does to the stored credential is not part of
    this model, only the outcome it hands back. */
module CommandHandlers {
  import opened UserMessages
  import opened PasswordCommands
  import GlobalizationSqlServer
  import Wrappers

  /** What a failed table call throws: a detailed SQL exception, or anything else. */
  datatype Exception =
    | SqlDetailed(sqlEx: GlobalizationSqlServer.SqlDetailedException)
    | OtherException

  /** The outcome of a table call: a returned value, or a thrown exception. */
  datatype TableCall<T> = Returned(value: T) | Threw(exception: Exception)

  /** `ICrisBasicCommandResult`, as far as the handlers fill it. */
  datatype CommandResult = CommandResult(userMessages: seq<UserMessage>)

  const PasswordSet := UserMessage(Info, "User's password has successfully been set.", "User.PasswordSet")
  const PasswordSetFailed := UserMessage(UserMessageLevel.Error, "An error occurred while setting user's password.", "User.PasswordSetFailed")
  const PasswordCreationFailed := UserMessage(UserMessageLevel.Error, "User's password has not been created.", "User.PasswordCreationFailed")
  const PasswordUpdateFailed := UserMessage(UserMessageLevel.Error, "User's password has not been updated.", "User.PasswordUpdateFailed")
  const PasswordNotCreatedNorUpdated := UserMessage(UserMessageLevel.Error, "User's password has not been created nor updated.", "User.PasswordCreateOrUpdateFailed")
  const PasswordCreateOrUpdateFailed := UserMessage(UserMessageLevel.Error, "An error occurred while creating or updating user's password.", "User.PasswordCreateOrUpdateFailed")
  const PasswordCreatedOrUpdated := UserMessage(Info, "User's password has successfully been created or updated.", "User.PasswordCreatedOrUpdated")

  /** The filter of the first catch clause: a detailed SQL exception that
      carries an inner SQL exception. */
  predicate CarriesSqlError(e: Exception)
    ensures CarriesSqlError(e) ==>
      e.SqlDetailed? && e.sqlEx.innerSqlException.Some?
      && GlobalizationSqlServer.InnerMessage(e.sqlEx) == e.sqlEx.innerSqlException.value.message
    ensures e.OtherException? || (e.SqlDetailed? && e.sqlEx.innerSqlException.None?) ==> !CarriesSqlError(e)
  {
    e.SqlDetailed? && e.sqlEx.innerSqlException.Some?
  }

  /** The one error a thrown exception leaves: the split SQL error when the
      first catch clause takes it, `fallback` otherwise. The SQL error is
      always cut from the inner exception's own message, never from the
      "Unknown SQLError" stand-in for a missing one. */
  function ThrownError(e: Exception, fallback: UserMessage): (m: UserMessage)
    requires fallback.level == UserMessageLevel.Error
    ensures m.level == UserMessageLevel.Error
    ensures !CarriesSqlError(e) ==> m == fallback
    ensures CarriesSqlError(e) ==> m == GlobalizationSqlServer.SqlError(e.sqlEx)
    ensures CarriesSqlError(e) ==>
      var inner := e.sqlEx.innerSqlException.value.message;
      if GlobalizationSqlServer.Contains(inner)
      then m.text + GlobalizationSqlServer.Separator + m.key == inner && !GlobalizationSqlServer.Contains(m.text + "|")
      else m.text == inner && m.key == inner
  {
    if CarriesSqlError(e) then GlobalizationSqlServer.SqlError(e.sqlEx) else fallback
  }

  /** The messages `HandleSetPasswordCommand` appends for the outcome of the
      table call: exactly one, the success info when the call returned and an
      error when it threw. */
  function SetPasswordMessages(call: TableCall<()>): (r: seq<UserMessage>)
    ensures |r| == 1
    ensures r[0].level == Info <==> call.Returned?
    ensures call.Returned? ==> r[0] == PasswordSet
    ensures call.Threw? ==> r[0] == ThrownError(call.exception, PasswordSetFailed)
  {
    match call
    case Returned(_) => [PasswordSet]
    case Threw(e) => [ThrownError(e, PasswordSetFailed)]
  }

  /** The errors of the three mode checks once the table call returned
      `result`. The mode is compared by equality, so at most one check can
      fail, and a mode other than the three base modes fails none. */
  function ModeCheckErrors(mode: UCLMode, result: UCResult): (r: seq<UserMessage>)
    ensures |r| <= 1
    ensures forall m :: m in r ==> m.level == UserMessageLevel.Error
    ensures PasswordCreationFailed in r <==> mode == CreateOnly && result != Created
    ensures PasswordUpdateFailed in r <==> mode == UpdateOnly && result != Updated
    ensures PasswordNotCreatedNorUpdated in r <==> mode == CreateOrUpdate && result != Updated && result != Created
    ensures mode != CreateOnly && mode != UpdateOnly && mode != CreateOrUpdate ==> r == []
    ensures r == [] <==>
      (mode == CreateOnly ==> result == Created)
      && (mode == UpdateOnly ==> result == Updated)
      && (mode == CreateOrUpdate ==> result != UCResult.None)
  {
    assert Update !in CreateOnly && Create !in UpdateOnly && Update in CreateOrUpdate && Create in CreateOrUpdate;
    (if mode == CreateOnly && result != Created then [PasswordCreationFailed] else [])
      + (if mode == UpdateOnly && result != Updated then [PasswordUpdateFailed] else [])
      + (if mode == CreateOrUpdate && result != Updated && result != Created then [PasswordNotCreatedNorUpdated] else [])
  }

  /** The messages `HandleCreateOrUpdatePassword` appends to a collector that
      already holds `prior`. When the table call returned, the failed mode
      checks come first, and the success info follows exactly when the
      collector then holds no error at all, its earlier messages included.
      When the call threw, one error and nothing else. */
  function CreateOrUpdateMessages(prior: seq<UserMessage>, mode: UCLMode, call: TableCall<UCResult>): (r: seq<UserMessage>)
    ensures call.Threw? ==> r == [ThrownError(call.exception, PasswordCreateOrUpdateFailed)]
    ensures call.Returned? ==>
      r == ModeCheckErrors(mode, call.value)
           + (if CountErrors(prior) == 0 && ModeCheckErrors(mode, call.value) == []
              then [PasswordCreatedOrUpdated] else [])
    ensures PasswordCreatedOrUpdated in r <==>
      call.Returned? && CountErrors(prior) == 0 && ModeCheckErrors(mode, call.value) == []
    ensures call.Returned? ==> (PasswordCreatedOrUpdated in r <==> CountErrors(prior + r) == 0)
    ensures CountErrors(r) <= 1
  {
    match call
    case Returned(result) =>
      var errors := ModeCheckErrors(mode, result);
      CountErrorsAppend(prior, errors);
      assert CountErrors([PasswordCreatedOrUpdated]) == 0;
      CountErrorsAppend(prior + errors, [PasswordCreatedOrUpdated]);
      assert prior + (errors + [PasswordCreatedOrUpdated]) == prior + errors + [PasswordCreatedOrUpdated];
      assert errors + [] == errors;
      errors + (if CountErrors(prior + errors) == 0 then [PasswordCreatedOrUpdated] else [])
    case Threw(e) =>
      [ThrownError(e, PasswordCreateOrUpdateFailed)]
  }

  method HandleSetPasswordCommand(
    collector: UserMessageCollector, cmd: SetPasswordCommand,
    setPassword: (int, int, Wrappers.Option<string>) -> TableCall<()>)
    returns (res: CommandResult)
    modifies collector
    ensures collector.messages
         == old(collector.messages) + SetPasswordMessages(setPassword(cmd.actorId.GetOr(0), cmd.userId, cmd.password))
    ensures res.userMessages == collector.messages
  {
    var call := setPassword(cmd.actorId.GetOr(0), cmd.userId, cmd.password);
    match call {
    case Returned(_) =>
      collector.Info(PasswordSet.text, PasswordSet.key);
    case Threw(e) =>
      if CarriesSqlError(e) {
        var _ := GlobalizationSqlServer.Error(collector, e.sqlEx);
      } else {
        collector.Error(PasswordSetFailed.text, PasswordSetFailed.key);
      }
    }
    res := CommandResult(collector.messages);
  }

  method HandleCreateOrUpdatePassword(
    collector: UserMessageCollector, cmd: CreateOrUpdatePasswordCommand,
    createOrUpdate: (int, int, Wrappers.Option<string>, UCLMode) -> TableCall<UCResult>)
    returns (res: CommandResult)
    modifies collector
    ensures collector.messages
         == old(collector.messages)
            + CreateOrUpdateMessages(old(collector.messages), cmd.mode,
                                     createOrUpdate(cmd.actorId.GetOr(0), cmd.userId, cmd.password, cmd.mode))
    ensures res.userMessages == collector.messages
  {
    var call := createOrUpdate(cmd.actorId.GetOr(0), cmd.userId, cmd.password, cmd.mode);
    match call {
    case Returned(result) =>
      if cmd.mode == CreateOnly && result != Created {
        collector.Error(PasswordCreationFailed.text, PasswordCreationFailed.key);
      }
      if cmd.mode == UpdateOnly && result != Updated {
        collector.Error(PasswordUpdateFailed.text, PasswordUpdateFailed.key);
      }
      if cmd.mode == CreateOrUpdate && result != Updated && result != Created {
        collector.Error(PasswordNotCreatedNorUpdated.text, PasswordNotCreatedNorUpdated.key);
      }
      assert collector.messages == old(collector.messages) + ModeCheckErrors(cmd.mode, result);
      if collector.ErrorCount() == 0 {
        collector.Info(PasswordCreatedOrUpdated.text, PasswordCreatedOrUpdated.key);
      }
    case Threw(e) =>
      if CarriesSqlError(e) {
        var _ := GlobalizationSqlServer.Error(collector, e.sqlEx);
      } else {
        collector.Error(PasswordCreateOrUpdateFailed.text, PasswordCreateOrUpdateFailed.key);
      }
    }
    res := CommandResult(collector.messages);
  }

  /** A mode that adds the login flag to a base mode is none of the three
      base modes: no check runs, so even a table call that did nothing
      (`None`) is reported as a success when the collector held no error. */
  lemma FlagCombinedModeSkipsChecks(prior: seq<UserMessage>, result: UCResult)
    ensures ModeCheckErrors(CreateOrUpdate + {WithActualLogin}, result) == []
    ensures CountErrors(prior) == 0 ==>
      CreateOrUpdateMessages(prior, CreateOrUpdate + {WithActualLogin}, Returned(result)) == [PasswordCreatedOrUpdated]
  {
  }
}

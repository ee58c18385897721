/** User messages and the collector that the password command validators and
    handlers append them to. The collector itself (`UserMessageCollector`)
    belongs to the command framework; only what the password commands use of
    it is modelled: appending an error or an info, and counting errors. */
module UserMessages {

  datatype UserMessageLevel = Error | Info

  /** A message as the user sees it: its level, its text and its stable key. */
  datatype UserMessage = UserMessage(level: UserMessageLevel, text: string, key: string)

  /** The number of error-level messages in `s`. */
  function CountErrors(s: seq<UserMessage>): (n: nat)
    ensures n <= |s|
    ensures n == 0 <==> forall i :: 0 <= i < |s| ==> s[i].level != Error
  {
    if s == [] then 0
    else (if s[0].level == Error then 1 else 0) + CountErrors(s[1..])
  }

  lemma {:induction false} CountErrorsAppend(a: seq<UserMessage>, b: seq<UserMessage>)
    ensures CountErrors(a + b) == CountErrors(a) + CountErrors(b)
  {
    if a == [] {
      assert a + b == b;
    } else {
      assert (a + b)[1..] == a[1..] + b;
      CountErrorsAppend(a[1..], b);
    }
  }

  /** The messages collected while a command is validated or handled, in the
      order they were added. */
  class UserMessageCollector {
    var messages: seq<UserMessage>

    /** `collector.ErrorCount`: how many of the collected messages are errors. */
    function ErrorCount(): (n: nat)
      reads this
      ensures n == 0 <==> forall i :: 0 <= i < |messages| ==> messages[i].level != UserMessageLevel.Error
    {
      CountErrors(messages)
    }

    /** `collector.Error(text, key)`: appends one error. */
    method Error(text: string, key: string)
      modifies this
      ensures messages == old(messages) + [UserMessage(UserMessageLevel.Error, text, key)]
    {
      messages := messages + [UserMessage(UserMessageLevel.Error, text, key)];
    }

    /** `collector.Info(text, key)`: appends one info. */
    method Info(text: string, key: string)
      modifies this
      ensures messages == old(messages) + [UserMessage(UserMessageLevel.Info, text, key)]
    {
      messages := messages + [UserMessage(UserMessageLevel.Info, text, key)];
    }
  }
}

/** Turning a detailed SQL exception into a user error: the text of the inner
    SQL exception carries the message and the key, separated by the first
    `||`. */
module GlobalizationSqlServer {
  import opened UserMessages
  import Wrappers

  /** The SQL Server exception wrapped by a `SqlDetailedException`. */
  datatype SqlException = SqlException(message: string)

  datatype SqlDetailedException = SqlDetailedException(innerSqlException: Wrappers.Option<SqlException>)

  const Separator: string := "||"

  /** The text used when there is no inner SQL exception. */
  const UnknownSqlError: string := "Unknown SQLError"

  /** A separator starts at index `i` of `s`. */
  predicate SeparatorAt(s: string, i: int) {
    0 <= i && i + 1 < |s| && s[i] == '|' && s[i + 1] == '|'
  }

  /** `s.Contains("||")`. */
  predicate Contains(s: string)
    ensures Contains(s) <==> IndexOfSeparator(s, 0).Some?
  {
    exists i :: 0 <= i < |s| && SeparatorAt(s, i)
  }

  /** The first index at or after `from` where a separator starts. */
  function IndexOfSeparator(s: string, from: nat): (r: Wrappers.Option<nat>)
    decreases |s| - from
    ensures r.Some? ==> from <= r.value && SeparatorAt(s, r.value)
    ensures r.Some? ==> forall j :: from <= j < r.value ==> !SeparatorAt(s, j)
    ensures r.None? ==> forall j :: from <= j ==> !SeparatorAt(s, j)
  {
    if from + 1 >= |s| then Wrappers.None
    else if SeparatorAt(s, from) then Wrappers.Some(from)
    else IndexOfSeparator(s, from + 1)
  }

  /** `s.Split("||", 2)`: the text before the first separator and everything
      after it, or the whole text when it holds no separator. */
  function SplitAtFirst(s: string): (parts: seq<string>)
    ensures |parts| == if Contains(s) then 2 else 1
    ensures |parts| == 1 ==> parts[0] == s
    ensures |parts| == 2 ==> parts[0] + Separator + parts[1] == s
    ensures !Contains(parts[0])
    ensures |parts| == 2 ==> !Contains(parts[0] + "|")
  {
    match IndexOfSeparator(s, 0)
    case None => [s]
    case Some(i) =>
      assert s == s[..i] + Separator + s[i + 2..] by {
        assert s[i..i + 2] == Separator;
        assert s == s[..i] + s[i..i + 2] + s[i + 2..];
      }
      PrefixBeforeFirstSeparator(s, i);
      [s[..i], s[i + 2..]]
  }

  /** The text before the first separator, even with one more `|` after it,
      holds no separator. */
  lemma PrefixBeforeFirstSeparator(s: string, i: nat)
    requires SeparatorAt(s, i)
    requires forall j :: 0 <= j < i ==> !SeparatorAt(s, j)
    ensures !Contains(s[..i]) && !Contains(s[..i] + "|")
  {
    var prefix, extended := s[..i], s[..i + 1];
    assert prefix + "|" == extended;
    assert forall j :: SeparatorAt(extended, j) ==> SeparatorAt(s, j);
    assert forall j :: SeparatorAt(prefix, j) ==> SeparatorAt(s, j);
  }

  /** `parts.ElementAtOrDefault(k)`: the `k`-th part, or null past the end. */
  function ElementAtOrDefault(parts: seq<string>, k: nat): (r: Wrappers.Option<string>)
    ensures r.Some? <==> k < |parts|
    ensures r.Some? ==> r.value == parts[k]
  {
    if k < |parts| then Wrappers.Some(parts[k]) else Wrappers.None
  }

  /** `sqlEx.InnerSqlException?.Message ?? "Unknown SQLError"`. */
  function InnerMessage(sqlEx: SqlDetailedException): (m: string)
    ensures sqlEx.innerSqlException.Some? ==> m == sqlEx.innerSqlException.value.message
    ensures sqlEx.innerSqlException.None? ==> m == UnknownSqlError
  {
    match sqlEx.innerSqlException
    case Some(e) => e.message
    case None => UnknownSqlError
  }

  /** The error the collector receives for `sqlEx`. When the inner text holds
      a separator, its message and key put back together around the first
      separator give the text again, and the message holds no separator and
      does not end with `|`; otherwise message and key are the whole text. */
  function SqlError(sqlEx: SqlDetailedException): (m: UserMessage)
    ensures m.level == UserMessageLevel.Error
    ensures !Contains(InnerMessage(sqlEx)) ==> m.text == InnerMessage(sqlEx) && m.key == InnerMessage(sqlEx)
    ensures Contains(InnerMessage(sqlEx)) ==>
      m.text + Separator + m.key == InnerMessage(sqlEx) && !Contains(m.text + "|")
  {
    var innerMessage := InnerMessage(sqlEx);
    if Contains(innerMessage) then
      var parts := SplitAtFirst(innerMessage);
      var message := ElementAtOrDefault(parts, 0).GetOr("Unknown SQL error");
      var key := ElementAtOrDefault(parts, 1).GetOr("SQLError.NotSpecified");
      UserMessage(UserMessageLevel.Error, message, key)
    else
      UserMessage(UserMessageLevel.Error, innerMessage, innerMessage)
  }

  /** `collector.Error(sqlEx)`: appends exactly one error, the one `SqlError`
      describes, and returns it. */
  method Error(collector: UserMessageCollector, sqlEx: SqlDetailedException) returns (m: UserMessage)
    modifies collector
    ensures m == SqlError(sqlEx)
    ensures collector.messages == old(collector.messages) + [m]
  {
    m := SqlError(sqlEx);
    collector.Error(m.text, m.key);
  }

  /** Without an inner SQL exception the error is "Unknown SQLError", as
      message and as key: that text holds no separator. */
  lemma MissingInnerException(sqlEx: SqlDetailedException)
    requires sqlEx.innerSqlException.None?
    ensures SqlError(sqlEx) == UserMessage(UserMessageLevel.Error, UnknownSqlError, UnknownSqlError)
  {
  }

  /** The two fallbacks of the split, "Unknown SQL error" and
      "SQLError.NotSpecified", are never used: a text holding a separator
      always splits into two parts. */
  lemma SplitFallbacksUnreachable(s: string)
    requires Contains(s)
    ensures ElementAtOrDefault(SplitAtFirst(s), 0).Some?
    ensures ElementAtOrDefault(SplitAtFirst(s), 1).Some?
  {
  }

  /** Splitting at the first separator is the only way to cut `s` around a
      separator so that the part before it, followed by `|`, holds none. */
  lemma {:induction false} SplitAtFirstUnique(s: string, before: string, after: string)
    requires before + Separator + after == s
    requires !Contains(before + "|")
    ensures SplitAtFirst(s) == [before, after]
  {
    var i := |before|;
    assert SeparatorAt(s, i);
    assert s[..i + 1] == before + "|";
    match IndexOfSeparator(s, 0)
    case None =>
      assert false;
    case Some(k) =>
      if k < i {
        assert SeparatorAt(before + "|", k);
        assert false;
      }
      assert s[..i] == before;
      assert s[i + 2..] == after;
  }

  /** When the inner text holds a separator, the error is exactly the pair
      (message, key) that puts the text back together around a separator
      with a message that, followed by `|`, holds none; in particular the key
      keeps every later separator. */
  lemma SqlErrorCharacterized(sqlEx: SqlDetailedException, message: string, key: string)
    requires Contains(InnerMessage(sqlEx))
    ensures SqlError(sqlEx) == UserMessage(UserMessageLevel.Error, message, key)
        <==> message + Separator + key == InnerMessage(sqlEx) && !Contains(message + "|")
  {
    if message + Separator + key == InnerMessage(sqlEx) && !Contains(message + "|") {
      SplitAtFirstUnique(InnerMessage(sqlEx), message, key);
    }
  }

  /** "a||b||c" gives message "a" and key "b||c". */
  lemma KeyKeepsLaterSeparators()
    ensures SqlError(SqlDetailedException(Wrappers.Some(SqlException("a||b||c"))))
         == UserMessage(UserMessageLevel.Error, "a", "b||c")
  {
  }
}

/**
 * The two ways FloatingPetService decides to start a timer: the text
 * command of `handleTimerCommand` and the intent of `onStartCommand`. Both
 * are reduced here to "which number of minutes, if any, to start".
 */
module Commands {
  import opened Wrappers
  import opened Numeric
  import Decimal
  import Text

  /** The index of the first token that consists of digits only
      (`find { it.matches(Regex("\\d+")) }`), searching from `from`. */
  function FirstNumberToken(tokens: seq<string>, from: nat): (r: Option<nat>)
    requires from <= |tokens|
    ensures r.Some? ==> from <= r.value < |tokens| && Decimal.IsDigitRun(tokens[r.value])
    ensures r.Some? ==> forall k :: from <= k < r.value ==> !Decimal.IsDigitRun(tokens[k])
    ensures r.None? ==> forall k :: from <= k < |tokens| ==> !Decimal.IsDigitRun(tokens[k])
    decreases |tokens| - from
  {
    if from == |tokens| then None
    else if Decimal.IsDigitRun(tokens[from]) then Some(from)
    else FirstNumberToken(tokens, from + 1)
  }

  /** `handleTimerCommand`: a command that mentions both "timer" and
      "minute" starts a timer for its first all-digit space-separated word,
      provided that word fits an `Int`. Zero is not rejected. */
  function TimerCommandMinutes(command: string): (r: Option<Int32>)
    ensures r.Some? ==> Text.Contains(command, "timer") && Text.Contains(command, "minute")
    ensures r.Some? ==> r.value >= 0
  {
    if Text.Contains(command, "timer") && Text.Contains(command, "minute") then
      var words := Text.Split(command, ' ');
      match FirstNumberToken(words, 0)
      case None => None
      case Some(k) => Decimal.ToIntOrNull(words[k])
    else None
  }

  /** For a command built from words, the minutes are read from the first
      all-digit word by `toIntOrNull`, leading zeros and all; a later number
      never counts. */
  lemma {:induction false} CommandReadsFirstNumber(words: seq<string>, digits: string, more: seq<string>)
    requires forall k :: 0 <= k < |words| ==> ' ' !in words[k] && !Decimal.IsDigitRun(words[k])
    requires Decimal.IsDigitRun(digits) && ' ' !in digits
    requires forall k :: 0 <= k < |more| ==> ' ' !in more[k]
    requires var c := Text.Join(words + [digits] + more, ' ');
      Text.Contains(c, "timer") && Text.Contains(c, "minute")
    ensures TimerCommandMinutes(Text.Join(words + [digits] + more, ' ')) == Decimal.ToIntOrNull(digits)
  {
    var parts := words + [digits] + more;
    PartsHaveNoSpace(words, digits, more);
    Text.SplitJoin(parts, ' ');
    FirstNumberIsAt(words, digits, more);
    assert parts[|words|] == digits;
  }

  /** The same for a number written without leading zeros: the command asks
      for that number of minutes when it fits an `Int`, otherwise nothing. */
  lemma {:induction false} CommandReadsRenderedNumber(words: seq<string>, n: nat, more: seq<string>)
    requires forall k :: 0 <= k < |words| ==> ' ' !in words[k] && !Decimal.IsDigitRun(words[k])
    requires forall k :: 0 <= k < |more| ==> ' ' !in more[k]
    requires var c := Text.Join(words + [Decimal.Render(n)] + more, ' ');
      Text.Contains(c, "timer") && Text.Contains(c, "minute")
    ensures TimerCommandMinutes(Text.Join(words + [Decimal.Render(n)] + more, ' '))
         == if n <= IntMax then Some(n) else None
  {
    CommandReadsFirstNumber(words, Decimal.Render(n), more);
    Decimal.ValueOfRender(n);
  }

  /** A command none of whose words is all digits starts nothing, even with
      both keywords present. */
  lemma CommandWithoutNumber(command: string)
    requires forall k :: 0 <= k < |Text.Split(command, ' ')| ==> !Decimal.IsDigitRun(Text.Split(command, ' ')[k])
    ensures TimerCommandMinutes(command) == None
  {
  }

  /** The words of such a command contain no space. */
  lemma {:induction false} PartsHaveNoSpace(words: seq<string>, number: string, more: seq<string>)
    requires forall k :: 0 <= k < |words| ==> ' ' !in words[k]
    requires ' ' !in number
    requires forall k :: 0 <= k < |more| ==> ' ' !in more[k]
    ensures forall k :: 0 <= k < |words + [number] + more| ==> ' ' !in (words + [number] + more)[k]
  {
    var parts := words + [number] + more;
    forall k | 0 <= k < |parts|
      ensures ' ' !in parts[k]
    {
      if k < |words| { assert parts[k] == words[k]; }
      else if k > |words| { assert parts[k] == more[k - |words| - 1]; }
    }
  }

  /** The first all-digit word is the number after the words that are not. */
  lemma {:induction false} FirstNumberIsAt(words: seq<string>, number: string, more: seq<string>)
    requires forall k :: 0 <= k < |words| ==> !Decimal.IsDigitRun(words[k])
    requires Decimal.IsDigitRun(number)
    ensures FirstNumberToken(words + [number] + more, 0) == Some(|words|)
  {
    var parts := words + [number] + more;
    assert parts[|words|] == number;
    assert forall k :: 0 <= k < |words| ==> parts[k] == words[k];
  }

  /** "timer 0 minutes" is accepted and asks for zero minutes. */
  lemma ZeroIsNotRejected()
    ensures TimerCommandMinutes("timer 0 minutes") == Some(0)
  {
    var c := "timer 0 minutes";
    var parts := ["timer"] + ["0"] + ["minutes"];
    assert Decimal.Render(0) == "0";
    assert Text.Join(parts, ' ') == c by {
      assert parts[1..] == ["0", "minutes"];
      assert parts[1..][1..] == ["minutes"];
      assert Text.Join(["0", "minutes"], ' ') == "0 minutes";
    }
    assert Text.OccursAt(c, "timer", 0) && Text.OccursAt(c, "minute", 8);
    assert !Decimal.IsDigit("timer"[0]);
    CommandReadsRenderedNumber(["timer"], 0, ["minutes"]);
  }

  /** "timer 05 minutes" asks for five minutes: the leading zero is read
      past, as `toIntOrNull` does. */
  lemma LeadingZeroCommand()
    ensures TimerCommandMinutes("timer 05 minutes") == Some(5)
  {
    var c := "timer 05 minutes";
    var parts := ["timer"] + ["05"] + ["minutes"];
    assert Text.Join(parts, ' ') == c by {
      assert parts[1..] == ["05", "minutes"];
      assert parts[1..][1..] == ["minutes"];
      assert Text.Join(["05", "minutes"], ' ') == "05 minutes";
    }
    assert Text.OccursAt(c, "timer", 0) && Text.OccursAt(c, "minute", 9);
    assert !Decimal.IsDigit("timer"[0]);
    assert Decimal.IsDigitRun("05");
    assert Decimal.Value("05") == 5 by {
      assert "05"[..1] == "0";
      assert "0"[..0] == "";
    }
    CommandReadsFirstNumber(["timer"], "05", ["minutes"]);
  }

  /** A command that lacks either keyword starts nothing. */
  lemma CommandNeedsKeywords(command: string)
    requires !Text.Contains(command, "timer") || !Text.Contains(command, "minute")
    ensures TimerCommandMinutes(command) == None
  {
  }

  /** The intent `onStartCommand` receives: its action and its
      `TIMER_MINUTES` extra (absent when not set or not an `Int`). */
  datatype ServiceIntent = ServiceIntent(action: Option<string>, timerMinutes: Option<Int32>)

  const StartTimerAction := "START_TIMER"

  /** `onStartCommand`: only a START_TIMER intent with a positive
      `TIMER_MINUTES` extra (default 0) starts a timer. */
  function StartCommandMinutes(intent: Option<ServiceIntent>): (r: Option<Int32>)
    ensures r.Some? <==> intent.Some? && intent.value.action == Some(StartTimerAction)
                         && intent.value.timerMinutes.GetOr(0) > 0
    ensures r.Some? ==> r == intent.value.timerMinutes && r.value > 0
  {
    match intent
    case None => None
    case Some(i) =>
      if i.action == Some(StartTimerAction) then
        var minutes := i.timerMinutes.GetOr(0);
        if minutes > 0 then Some(minutes) else None
      else None
  }
}

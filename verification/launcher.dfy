/**
 * MainActivity's intent handling: a deep link whose path contains
 * `/timer/<seconds>` (ACTION_VIEW) or a system SET_TIMER intent with an
 * `android.intent.extra.alarm.LENGTH` extra in seconds both become a
 * START_TIMER request to the service carrying whole minutes.
 */
module Launcher {
  import opened Wrappers
  import opened Numeric
  import Decimal
  import Commands

  const TimerPrefix := "/timer/"
  const ActionView := "android.intent.action.VIEW"
  const ActionSetTimer := "android.intent.action.SET_TIMER"

  /** The boxed value of the LENGTH extra, by its runtime class. */
  datatype Number = IntNumber(i: Int32) | LongNumber(l: Int64) | OtherNumber

  /** A URI, of which only the (possibly absent) path is read. */
  datatype Uri = Uri(path: Option<string>)

  /** The intent fields `handleIntent` reads; `length` is None when the
      extra is absent or not a `Number`. */
  datatype Intent = Intent(action: Option<string>, data: Option<Uri>, length: Option<Number>)

  /** The pattern `/timer/(\d+)` matches at index `i`: the prefix followed by
      at least one ASCII digit. */
  predicate MatchAt(path: string, i: int) {
    0 <= i && i + |TimerPrefix| < |path|
    && path[i..i + |TimerPrefix|] == TimerPrefix
    && Decimal.IsDigit(path[i + |TimerPrefix|])
  }

  /** `Matcher.find()` from `from`: the leftmost index where the pattern matches. */
  function FindMatch(path: string, from: nat): (r: Option<nat>)
    requires from <= |path|
    ensures r.Some? ==> from <= r.value && MatchAt(path, r.value)
    ensures r.Some? ==> forall j :: from <= j < r.value ==> !MatchAt(path, j)
    ensures r.None? ==> forall j :: from <= j ==> !MatchAt(path, j)
    decreases |path| - from
  {
    if from == |path| then None
    else if MatchAt(path, from) then Some(from)
    else FindMatch(path, from + 1)
  }

  /** The end of the run of digits starting at `j` (greedy `\d+`). */
  function DigitsEnd(path: string, j: nat): (e: nat)
    requires j <= |path|
    ensures j <= e <= |path|
    ensures Decimal.AllDigits(path[j..e])
    ensures e < |path| ==> !Decimal.IsDigit(path[e])
    decreases |path| - j
  {
    if j < |path| && Decimal.IsDigit(path[j]) then
      var e := DigitsEnd(path, j + 1);
      assert path[j..e] == [path[j]] + path[j + 1..e];
      e
    else j
  }

  /** `extractDurationFromUri`: the first `/timer/<digits>` group of the
      path, as an `Int` (null when the path is absent, nothing matches, or
      the digits overflow). */
  function ExtractDuration(uri: Uri): (r: Option<Int32>)
    ensures r.Some? ==> r.value >= 0
    ensures r.Some? ==> uri.path.Some? && exists i :: MatchAt(uri.path.value, i)
  {
    match uri.path
    case None => None
    case Some(path) =>
      match FindMatch(path, 0)
      case None => None
      case Some(i) =>
        var start := i + |TimerPrefix|;
        Decimal.ToIntOrNull(path[start..DigitsEnd(path, start)])
  }

  /** A path `<head>/timer/<n><tail>` in which no match starts inside the
      head and whose tail does not continue the number yields `n` when it
      fits an `Int`, and null when it does not. */
  lemma {:induction false} ExtractReadsNumber(head: string, n: nat, tail: string)
    requires forall j :: 0 <= j < |head| ==> !MatchAt(head + TimerPrefix + Decimal.Render(n) + tail, j)
    requires |tail| > 0 ==> !Decimal.IsDigit(tail[0])
    ensures ExtractDuration(Uri(Some(head + TimerPrefix + Decimal.Render(n) + tail)))
         == if n <= IntMax then Some(n) else None
  {
    ExtractDigits(head, Decimal.Render(n), tail);
    Decimal.ValueOfRender(n);
  }

  /** The same for any run of digits: it is read as an `Int`. */
  lemma ExtractDigits(head: string, digits: string, tail: string)
    requires forall j :: 0 <= j < |head| ==> !MatchAt(head + TimerPrefix + digits + tail, j)
    requires Decimal.IsDigitRun(digits)
    requires |tail| > 0 ==> !Decimal.IsDigit(tail[0])
    ensures ExtractDuration(Uri(Some(head + TimerPrefix + digits + tail))) == Decimal.ToIntOrNull(digits)
  {
    var path := head + TimerPrefix + digits + tail;
    var start := |head| + |TimerPrefix|;
    assert FindMatch(path, 0) == Some(|head|) by {
      assert path[|head|..start] == TimerPrefix;
      assert path[start] == digits[0];
      FirstMatchAt(path, |head|);
    }
    assert DigitsEnd(path, start) == start + |digits| by {
      assert path[start..] == digits + tail;
      DigitsEndOf(path, start, digits, tail);
    }
    assert path[start..start + |digits|] == digits by {
      assert path == (head + TimerPrefix) + digits + tail;
    }
    ExtractReads(path, |head|, digits);
  }

  /** Once the match and the end of its digits are known, the duration is
      those digits read as an `Int`. */
  lemma ExtractReads(path: string, i: nat, digits: string)
    requires FindMatch(path, 0) == Some(i)
    requires i + |TimerPrefix| + |digits| <= |path|
    requires DigitsEnd(path, i + |TimerPrefix|) == i + |TimerPrefix| + |digits|
    requires path[i + |TimerPrefix|..i + |TimerPrefix| + |digits|] == digits
    ensures Decimal.IsDigitRun(digits)
    ensures ExtractDuration(Uri(Some(path))) == Decimal.ToIntOrNull(digits)
  {
  }

  /** A match with none before it is the one `find()` reports. */
  lemma FirstMatchAt(path: string, i: nat)
    requires MatchAt(path, i)
    requires forall j :: 0 <= j < i ==> !MatchAt(path, j)
    ensures FindMatch(path, 0) == Some(i)
  {
  }

  /** A head without '/' cannot start a match, whatever follows it. */
  lemma {:induction false} SlashFreeHead(head: string, rest: string)
    requires '/' !in head
    ensures forall j :: 0 <= j < |head| ==> !MatchAt(head + rest, j)
  {
    forall j | 0 <= j < |head|
      ensures !MatchAt(head + rest, j)
    {
      assert (head + rest)[j] == head[j];
      assert TimerPrefix[0] == '/';
    }
  }

  /** The digit run starting where `digits` starts ends where it ends. */
  lemma {:induction false} DigitsEndOf(path: string, j: nat, digits: string, tail: string)
    requires j + |digits| + |tail| == |path|
    requires path[j..] == digits + tail
    requires Decimal.AllDigits(digits)
    requires |tail| > 0 ==> !Decimal.IsDigit(tail[0])
    ensures DigitsEnd(path, j) == j + |digits|
    decreases |digits|
  {
    if |digits| > 0 {
      assert path[j] == digits[0];
      assert path[j + 1..] == digits[1..] + tail;
      DigitsEndOf(path, j + 1, digits[1..], tail);
    } else if |tail| > 0 {
      assert path[j] == tail[0];
    }
  }

  /** Without a match, or without a path, there is no duration. */
  lemma ExtractNeedsMatch(uri: Uri)
    requires uri.path.None? || forall i :: !MatchAt(uri.path.value, i)
    ensures ExtractDuration(uri) == None
  {
  }

  /** `handleIntent`: the minutes MainActivity asks the service to start,
      if any. ACTION_VIEW divides the URI's seconds by 60; SET_TIMER accepts
      an `Int` or `Long` length in seconds, divides by 60 (truncating toward
      zero) and narrows to `Int`; every other intent starts nothing. */
  function IntentMinutes(intent: Intent): (r: Option<Int32>)
    ensures intent.action != Some(ActionView) && intent.action != Some(ActionSetTimer) ==> r == None
    ensures intent.action == Some(ActionView) ==>
              (r.Some? <==> intent.data.Some? && ExtractDuration(intent.data.value).Some?)
    ensures intent.action == Some(ActionView) && r.Some? ==>
              r.value == ExtractDuration(intent.data.value).value / 60 && r.value >= 0
    ensures intent.action == Some(ActionSetTimer) ==>
              (r.Some? <==> intent.length.Some? && !intent.length.value.OtherNumber?)
    ensures intent.action == Some(ActionSetTimer) && intent.length.Some? && intent.length.value.IntNumber? ==>
              r == Some(TruncDiv(intent.length.value.i, 60))
    ensures intent.action == Some(ActionSetTimer) && intent.length.Some? && intent.length.value.LongNumber? ==>
              var q := TruncDiv(intent.length.value.l, 60);
              && r.Some? && (r.value - q) % 0x1_0000_0000 == 0
              && (IsInt32(q) ==> r.value == q)
  {
    if intent.action == Some(ActionView) then
      match intent.data
      case None => None
      case Some(uri) =>
        match ExtractDuration(uri)
        case None => None
        case Some(seconds) => Some(TruncDiv(seconds, 60))
    else if intent.action == Some(ActionSetTimer) then
      match intent.length
      case None => None
      case Some(IntNumber(i)) => Some(Wrap32(TruncDiv(i, 60)))
      case Some(LongNumber(l)) => Some(Wrap32(TruncDiv(l, 60)))
      case Some(OtherNumber) => None
    else None
  }

  /** The START_TIMER intent MainActivity's `startTimer` sends. */
  function ServiceRequest(minutes: Int32): (i: Commands.ServiceIntent)
    ensures Commands.StartCommandMinutes(Some(i)) == if minutes > 0 then Some(minutes) else None
  {
    Commands.ServiceIntent(Some(Commands.StartTimerAction), Some(minutes))
  }

  /** The minutes a timer is started for when MainActivity handles `intent`:
      the service ignores requests for no minutes or fewer. */
  function LaunchedMinutes(intent: Intent): (r: Option<Int32>)
    ensures r.Some? <==> IntentMinutes(intent).Some? && IntentMinutes(intent).value > 0
    ensures r.Some? ==> r == IntentMinutes(intent)
  {
    match IntentMinutes(intent)
    case None => None
    case Some(m) => Commands.StartCommandMinutes(Some(ServiceRequest(m)))
  }

  /** A deep link `/timer/<n>` asks for `n / 60` minutes when `n` fits an
      `Int`, and so starts a timer exactly when it names a minute or more. */
  lemma {:induction false} ViewMinutes(n: nat)
    requires n <= IntMax
    ensures IntentMinutes(Intent(Some(ActionView), Some(Uri(Some(TimerPrefix + Decimal.Render(n)))), None))
         == Some(n / 60)
    ensures LaunchedMinutes(Intent(Some(ActionView), Some(Uri(Some(TimerPrefix + Decimal.Render(n)))), None))
         == if n >= 60 then Some(n / 60) else None
  {
    assert "" + TimerPrefix + Decimal.Render(n) == TimerPrefix + Decimal.Render(n);
    ViewMinutesAfter("", n);
  }

  /** The same behind any head in which no match starts. */
  lemma {:induction false} ViewMinutesAfter(head: string, n: nat)
    requires n <= IntMax
    requires forall j :: 0 <= j < |head| ==> !MatchAt(head + TimerPrefix + Decimal.Render(n), j)
    ensures IntentMinutes(Intent(Some(ActionView), Some(Uri(Some(head + TimerPrefix + Decimal.Render(n)))), None))
         == Some(n / 60)
    ensures LaunchedMinutes(Intent(Some(ActionView), Some(Uri(Some(head + TimerPrefix + Decimal.Render(n)))), None))
         == if n >= 60 then Some(n / 60) else None
  {
    assert head + TimerPrefix + Decimal.Render(n) + "" == head + TimerPrefix + Decimal.Render(n);
    ExtractReadsNumber(head, n, "");
  }

  /** Seconds become minutes by truncation: 90 s starts a 1-minute timer. */
  lemma DeepLinkNinetySeconds()
    ensures LaunchedMinutes(Intent(Some(ActionView), Some(Uri(Some("/timer/90"))), None)) == Some(1)
  {
    assert TimerPrefix + Decimal.Render(90) == "/timer/90" by {
      assert Decimal.Render(90) == "90" by { assert Decimal.Render(9) == "9"; }
    }
    ViewMinutes(90);
  }

  /** 59 s asks for 0 minutes, which the service ignores. */
  lemma DeepLinkUnderAMinute()
    ensures IntentMinutes(Intent(Some(ActionView), Some(Uri(Some("/timer/59"))), None)) == Some(0)
    ensures LaunchedMinutes(Intent(Some(ActionView), Some(Uri(Some("/timer/59"))), None)) == None
  {
    assert TimerPrefix + Decimal.Render(59) == "/timer/59" by {
      assert Decimal.Render(59) == "59" by { assert Decimal.Render(5) == "5"; }
    }
    ViewMinutes(59);
  }

  /** SET_TIMER: the length in seconds, truncated to whole minutes; a
      negative length rounds toward zero; other number types start nothing. */
  lemma SetTimerLengths()
    ensures IntentMinutes(Intent(Some(ActionSetTimer), None, Some(IntNumber(150)))) == Some(2)
    ensures IntentMinutes(Intent(Some(ActionSetTimer), None, Some(LongNumber(600)))) == Some(10)
    ensures IntentMinutes(Intent(Some(ActionSetTimer), None, Some(IntNumber(-90)))) == Some(-1)
    ensures LaunchedMinutes(Intent(Some(ActionSetTimer), None, Some(IntNumber(-90)))) == None
    ensures IntentMinutes(Intent(Some(ActionSetTimer), None, Some(OtherNumber))) == None
  {
  }
}

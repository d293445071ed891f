/** `MessageProcessor::formatMessage`: five find-and-replace steps, one after the other, against
    one simultaneous substitution. */
module Formatter {
  import opened CText

  /** The placeholder names, in the order in which the steps replace them. */
  const NAMES: seq<string> := ["Severity", "Time", "ProcessId", "ThreadId", "Text"]

  datatype Severity = TRACE | DEBUG | INFO | WARNING | ERROR | FATAL

  /** A log message; `time` is the time as rendered by `convertTimeToString`. */
  datatype LogMessage = LogMessage(severity: Severity, time: string, processId: nat, threadId: nat, text: string)

  function SeverityToString(severity: Severity): string {
    match severity
    case TRACE => "TRACE"
    case DEBUG => "DEBUG"
    case INFO => "INFO"
    case WARNING => "WARNING"
    case ERROR => "ERROR"
    case FATAL => "FATAL"
  }

  function Values(m: LogMessage): (r: seq<string>)
    ensures |r| == 5
  {
    [SeverityToString(m.severity), m.time, Print(m.processId), Print(m.threadId), m.text]
  }

  function Placeholder(name: string): string {
    "%" + name + "%"
  }

  /** `s.replace(s.find(pattern), pattern.length(), value)`, which throws when nothing is found. */
  function Replace(s: string, pattern: string, value: string): Option<string> {
    match Find(s, pattern)
    case None => None
    case Some(i) => Some(s[..i] + value + s[i + |pattern|..])
  }

  /** The steps from the k-th on. */
  function Steps(s: string, values: seq<string>, k: nat): Option<string>
    requires |values| == 5 && k <= 5
    decreases 5 - k
  {
    if k == 5 then Some(s)
    else
      match Replace(s, Placeholder(NAMES[k]), values[k])
      case None => None
      case Some(t) => Steps(t, values, k + 1)
  }

  function Format(format: string, m: LogMessage): Option<string> {
    match Steps(format, Values(m), 0)
    case None => None
    case Some(s) => Some(s + "\n")
  }

  /** The method changes its copy of the format in place; `None` when a step throws. */
  method FormatMessage(format: string, m: LogMessage) returns (r: Option<string>)
    ensures r == Format(format, m)
  {
    var textMessage := format;
    ghost var values := Values(m);

    var severity := SeverityToString(m.severity);
    textMessage :- Replace(textMessage, Placeholder("Severity"), severity);
    assert Steps(format, values, 0) == Steps(textMessage, values, 1);

    textMessage :- Replace(textMessage, Placeholder("Time"), m.time);
    assert Steps(format, values, 0) == Steps(textMessage, values, 2);

    var processId := Print(m.processId);
    textMessage :- Replace(textMessage, Placeholder("ProcessId"), processId);
    assert Steps(format, values, 0) == Steps(textMessage, values, 3);

    var threadId := Print(m.threadId);
    textMessage :- Replace(textMessage, Placeholder("ThreadId"), threadId);
    assert Steps(format, values, 0) == Steps(textMessage, values, 4);

    textMessage :- Replace(textMessage, Placeholder("Text"), m.text);
    r := Some(textMessage + "\n");
  }

  // ----- a text as the segments between its '%' -----

  predicate Plain(s: string) {
    '%' !in s
  }

  predicate AllPlain(segments: seq<string>) {
    forall s <- segments :: Plain(s)
  }

  function Join(segments: seq<string>): string
    requires segments != []
  {
    if |segments| == 1 then segments[0] else segments[0] + "%" + Join(segments[1..])
  }

  lemma {:induction false} JoinAppend(a: seq<string>, b: seq<string>)
    requires a != [] && b != []
    ensures Join(a + b) == Join(a) + "%" + Join(b)
  {
    if |a| == 1 {
      assert (a + b)[1..] == b;
    } else {
      assert (a + b)[1..] == a[1..] + b;
      JoinAppend(a[1..], b);
      assert a[0] + "%" + (Join(a[1..]) + "%" + Join(b)) == Join(a) + "%" + Join(b);
    }
  }

  /** The first segment between two '%' that is exactly `name`. */
  function Hit(segments: seq<string>, name: string): (r: Option<nat>)
    ensures r.Some? ==> 1 <= r.value <= |segments| - 2 && segments[r.value] == name
    ensures r.Some? ==> forall i :: 1 <= i < r.value ==> segments[i] != name
    ensures r.None? ==> forall i :: 1 <= i <= |segments| - 2 ==> segments[i] != name
  {
    if |segments| < 3 then None
    else if segments[1] == name then Some(1)
    else
      match Hit(segments[1..], name)
      case None =>
        assert forall i :: 2 <= i <= |segments| - 2 ==> segments[i] == segments[1..][i - 1];
        None
      case Some(i) =>
        assert forall j :: 2 <= j <= i + 1 ==> segments[j] == segments[1..][j - 1];
        Some(i + 1)
  }

  /** A pattern that starts at the first '%' of the text. */
  lemma HeadMatch(rest: seq<string>, name: string)
    requires rest != [] && AllPlain(rest) && Plain(name)
    ensures name + "%" <= Join(rest) <==> |rest| >= 2 && rest[0] == name
  {
    var s := Join(rest);
    assert Plain(rest[0]);
    if |rest| >= 2 {
      assert s == rest[0] + "%" + Join(rest[1..]);
    }
    if name + "%" <= s {
      assert s[|name|] == (name + "%")[|name|] == '%';
      assert forall i :: 0 <= i < |name| ==> s[i] == (name + "%")[i] == name[i];
      assert |rest[0]| <= |name|;
      assert |rest| >= 2;
      assert s[|rest[0]|] == '%';
      assert |name| <= |rest[0]|;
      assert name == s[..|name|] == rest[0];
    }
  }

  lemma OccurrenceInTail(first: string, tail: string, pattern: string, q: nat)
    requires Plain(first) && |pattern| > 0 && pattern[0] == '%'
    ensures OccursAt(first + "%" + tail, pattern, q)
       <==> (q == |first| && pattern[1..] <= tail) || (q > |first| && OccursAt(tail, pattern, q - |first| - 1))
  {
    var s := first + "%" + tail;
    OccursStart(s, pattern, q);
    if q == |first| && q + |pattern| <= |s| {
      assert s[q..q + |pattern|] == "%" + tail[..|pattern| - 1];
      assert pattern == "%" + pattern[1..];
      assert ("%" + tail[..|pattern| - 1])[1..] == tail[..|pattern| - 1];
    }
    if q > |first| && q + |pattern| <= |s| {
      assert s[q..q + |pattern|] == tail[q - |first| - 1..q - |first| - 1 + |pattern|];
    }
  }

  /** Where `find` finds a placeholder. */
  function HitOffset(segments: seq<string>, name: string): Option<nat>
    requires segments != []
  {
    match Hit(segments, name)
    case None => None
    case Some(i) => Some(|Join(segments[..i])|)
  }

  lemma OnePlainSegment(s: string, name: string)
    requires Plain(s)
    ensures Find(s, Placeholder(name)) == None
  {
    forall q: nat {
      OccursStart(s, Placeholder(name), q);
    }
  }

  lemma {:induction false} FindHit(segments: seq<string>, name: string)
    requires segments != [] && AllPlain(segments) && Plain(name)
    ensures Find(Join(segments), Placeholder(name)) == HitOffset(segments, name)
  {
    hide FindFrom;
    assert Plain(segments[0]);
    if |segments| == 1 {
      OnePlainSegment(segments[0], name);
    } else {
      var rest := segments[1..];
      assert forall t <- rest :: t in segments;
      FindHit(rest, name);
      HeadMatch(rest, name);
      FindInTail(segments[0], Join(rest), name);
      if |rest| >= 2 && rest[0] == name {
        assert segments[..1] == [segments[0]];
      } else if Hit(rest, name).Some? {
        var i := Hit(rest, name).value;
        assert segments[..i + 1] == [segments[0]] + rest[..i];
        JoinAppend([segments[0]], rest[..i]);
      }
    }
  }

  lemma FindInTail(first: string, tail: string, name: string)
    requires Plain(first)
    ensures Find(first + "%" + tail, Placeholder(name))
         == if name + "%" <= tail then Some(|first|)
            else match Find(tail, Placeholder(name)) case None => None case Some(i) => Some(|first| + 1 + i)
  {
    var pattern := Placeholder(name);
    var s := first + "%" + tail;
    assert pattern[1..] == name + "%";
    forall q: nat {
      OccurrenceInTail(first, tail, pattern, q);
    }
    if name + "%" <= tail {
      FindIs(s, pattern, |first|);
    } else if Find(tail, pattern).Some? {
      var i := Find(tail, pattern).value;
      assert forall q: nat :: q < |first| + 1 + i ==> !OccursAt(s, pattern, q);
      FindIs(s, pattern, |first| + 1 + i);
    }
  }
}

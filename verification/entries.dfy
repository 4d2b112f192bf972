/**
  The `Log` record handed to every sink, its constructor, and the line the
  console sink prints for it.
 */
module LogEntries {
  import opened Wrappers
  import opened LogLevels
  import opened Decimal

  /** One log entry: the message, its decoded level, and the capture time already
      rendered as a string. */
  datatype Log = Log(message: string, level: LogLevel, timestamp: string)

  /** The entry constructor: message and level stored unchanged, the time value
      rendered in decimal. */
  function MakeLog(message: string, level: LogLevel, time: int): (e: Log)
    ensures e.message == message && e.level == level
    ensures ParseInt(e.timestamp) == Some(time)
    ensures ':' !in e.timestamp && ']' !in e.timestamp
  {
    IntRoundTrip(time);
    ParseIntInverse(IntToString(time), time);
    Log(message, level, IntToString(time))
  }

  /** The line the console sink writes (without the line terminator):
      "[" token "] " timestamp ": " message. */
  function ConsoleLine(e: Log): (line: string)
    ensures var n := |ToToken(e.level)| + 3;
            && |line| == n + |e.timestamp| + 2 + |e.message|
            && line[..n] == "[" + ToToken(e.level) + "] "
            && line[n..n + |e.timestamp|] == e.timestamp
            && line[n + |e.timestamp|..n + |e.timestamp| + 2] == ": "
            && line[n + |e.timestamp| + 2..] == e.message
  {
    var head := "[" + ToToken(e.level) + "] ";
    var line := head + e.timestamp + ": " + e.message;
    assert line == head + (e.timestamp + (": " + e.message));
    line
  }

  /** The three fields a console line is made of. */
  datatype ConsoleFields = ConsoleFields(token: string, timestamp: string, message: string)

  /** Index of the first `c` in `s`, or `|s|` when there is none. */
  function IndexOf(s: string, c: char): (r: nat)
    ensures r <= |s|
    ensures r < |s| ==> s[r] == c
    ensures forall j :: 0 <= j < r ==> s[j] != c
    decreases |s|
  {
    if |s| == 0 then 0
    else if s[0] == c then 0
    else 1 + IndexOf(s[1..], c)
  }

  /** Splits a console line back into its fields: the token runs to the first ']',
      the timestamp to the first ':' after it, and the message is the rest. */
  function ParseConsoleLine(line: string): Option<ConsoleFields> {
    if |line| == 0 || line[0] != '[' then None
    else
      var k := IndexOf(line, ']');
      if k + 1 >= |line| || line[k + 1] != ' ' then None
      else
        var rest := line[k + 2..];
        var m := IndexOf(rest, ':');
        if m + 1 >= |rest| || rest[m + 1] != ' ' then None
        else Some(ConsoleFields(line[1..k], rest[..m], rest[m + 2..]))
  }

  lemma IndexOfFirst(a: string, c: char, b: string)
    requires c !in a
    ensures IndexOf(a + [c] + b, c) == |a|
  {
    assert (a + [c] + b)[|a|] == c;
  }

  /** Every canonical token is free of the closing bracket. */
  lemma TokenHasNoBracket(l: LogLevel)
    ensures ']' !in ToToken(l)
  {
  }

  /** The line format splits back into its three parts when the first part has no
      ']' and the second no ':'. */
  lemma {:induction false} ParseFormatted(tok: string, ts: string, msg: string)
    requires ']' !in tok && ':' !in ts
    ensures ParseConsoleLine("[" + tok + "] " + ts + ": " + msg) == Some(ConsoleFields(tok, ts, msg))
  {
    var line := "[" + tok + "] " + ts + ": " + msg;
    var tail := " " + ts + ": " + msg;
    assert line == "[" + tok + [']'] + tail;
    IndexOfFirst("[" + tok, ']', tail);
    var k := |tok| + 1;
    assert line[k + 1] == ' ';
    var rest := line[k + 2..];
    assert rest == ts + [':'] + (" " + msg);
    IndexOfFirst(ts, ':', " " + msg);
    assert line[1..k] == tok;
    assert rest[..|ts|] == ts;
    assert rest[|ts| + 2..] == msg;
  }

  /** The console line of an entry whose timestamp holds no ':' (every entry the
      constructor builds) can be split back into the level token, the timestamp
      and the message. */
  lemma ConsoleLineRoundTrip(e: Log)
    requires ':' !in e.timestamp
    ensures ParseConsoleLine(ConsoleLine(e)) == Some(ConsoleFields(ToToken(e.level), e.timestamp, e.message))
  {
    TokenHasNoBracket(e.level);
    ParseFormatted(ToToken(e.level), e.timestamp, e.message);
  }

  /** Two entries whose timestamps hold no ':' print the same console line only if
      they are the same entry: the line loses nothing. */
  lemma ConsoleLineInjective(a: Log, b: Log)
    requires ':' !in a.timestamp && ':' !in b.timestamp
    ensures ConsoleLine(a) == ConsoleLine(b) <==> a == b
  {
    if ConsoleLine(a) == ConsoleLine(b) {
      ConsoleLineRoundTrip(a);
      ConsoleLineRoundTrip(b);
      ToTokenInjective(a.level, b.level);
    }
  }
}

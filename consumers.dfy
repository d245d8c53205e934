/**
 * The row decoders of the powertop CSV parser: the field helpers that turn
 * powertop's text ("2.5 ms/s", "[PID 1234] /usr/bin/foo", "5 mW") into
 * numbers and names, and the loops that turn the rows of the
 * "Overview of Software Power Consumers" and "Device Power Report"
 * sections into consumer records. Go's float64 arithmetic is modelled
 * exactly over the reals.
 */
module Consumers {
  import opened Wrappers
  import opened GoStrings
  import opened GoStrconv
  import opened GoPath

  /** One row of the software power consumers section. */
  datatype ProcessConsumer = ProcessConsumer(
    Pid: int,
    Usage: real,
    DiskioPerSecond: real,
    Category: string,
    Description: string,
    PwEstimate: real)

  /** One row of the device power report, kept as text. */
  datatype DeviceConsumer = DeviceConsumer(Usage: string, DeviceName: string)

  /** Go's zero value of `ProcessConsumer`. */
  const NoProcess := ProcessConsumer(0, 0.0, 0.0, "", "", 0.0)

  // ---------------------------------------------------------------------
  // The first bracketed part of a field, as `\[(.*?)\]` finds it.
  // ---------------------------------------------------------------------

  /** `q` is the first ']' at or after `k`, with no line break before it. */
  predicate Closes(s: string, k: int, q: int) {
    && 0 <= k <= q < |s| && s[q] == ']'
    && forall m :: k <= m < q ==> s[m] != ']' && s[m] != '\n'
  }

  /** Where the bracket opened just before `k` closes, if it does. */
  function CloseFrom(s: string, k: nat): (r: Option<nat>)
    ensures r.Some? ==> k <= r.value < |s|
    decreases |s| - k
  {
    if k >= |s| then None
    else if s[k] == ']' then Some(k)
    else if s[k] == '\n' then None
    else CloseFrom(s, k + 1)
  }

  /** `CloseFrom` finds exactly the closing position `Closes` describes. */
  lemma {:induction false} CloseFromSpec(s: string, k: nat)
    ensures forall q :: Closes(s, k, q) <==> CloseFrom(s, k) == Some(q)
    decreases |s| - k
  {
    if k < |s| && s[k] != ']' && s[k] != '\n' {
      CloseFromSpec(s, k + 1);
      assert forall q :: Closes(s, k, q) <==> Closes(s, k + 1, q);
    }
  }

  /** The pattern `\[(.*?)\]` matches `s[p..q + 1]`: '.' does not match a line break. */
  predicate MatchAt(s: string, p: int, q: int) {
    0 <= p < |s| && s[p] == '[' && Closes(s, p + 1, q)
  }

  /** The leftmost match starting at or after `p`, with the shortest body. */
  function MatchFrom(s: string, p: nat): (r: Option<(nat, nat)>)
    ensures r.Some? ==> p <= r.value.0 < r.value.1 < |s|
    decreases |s| - p
  {
    if p >= |s| then None
    else if s[p] == '[' && CloseFrom(s, p + 1).Some? then Some((p, CloseFrom(s, p + 1).value))
    else MatchFrom(s, p + 1)
  }

  /** `MatchFrom` finds the leftmost match, and none exists when it finds none. */
  lemma {:induction false} MatchFromSpec(s: string, p: nat)
    ensures MatchFrom(s, p).Some? ==> MatchAt(s, MatchFrom(s, p).value.0, MatchFrom(s, p).value.1)
    ensures MatchFrom(s, p).Some? ==> forall p', q' :: p <= p' < MatchFrom(s, p).value.0 ==> !MatchAt(s, p', q')
    ensures MatchFrom(s, p).None? ==> forall p', q' :: p <= p' ==> !MatchAt(s, p', q')
    decreases |s| - p
  {
    if p < |s| {
      CloseFromSpec(s, p + 1);
      if !(s[p] == '[' && CloseFrom(s, p + 1).Some?) {
        MatchFromSpec(s, p + 1);
      }
    }
  }

  /** The submatch of `\[(.*?)\]`, the text inside the first bracket pair. */
  function FirstBracket(s: string): Option<string> {
    match MatchFrom(s, 0)
    case None => None
    case Some((p, q)) => Some(s[p + 1..q])
  }

  /** There is a bracketed part exactly when the pattern matches somewhere, and it is the leftmost match. */
  lemma {:induction false} FirstBracketSpec(s: string)
    ensures FirstBracket(s).None? <==> forall p, q :: !MatchAt(s, p, q)
    ensures FirstBracket(s).Some? ==> exists p, q :: MatchAt(s, p, q) && FirstBracket(s).value == s[p + 1..q] &&
                                                 forall p', q' :: 0 <= p' < p ==> !MatchAt(s, p', q')
  {
    MatchFromSpec(s, 0);
    if MatchFrom(s, 0).Some? {
      var p := MatchFrom(s, 0).value.0;
      var q := MatchFrom(s, 0).value.1;
      assert MatchAt(s, p, q) && FirstBracket(s).value == s[p + 1..q];
    }
  }

  // ---------------------------------------------------------------------
  // Field helpers.
  // ---------------------------------------------------------------------

  /**
   * `extractPidFromString`: the last space-separated token inside the first
   * bracket pair, read by `Atoi`; 0 without a bracket pair.
   */
  function ExtractPidFromString(field: string): (pid: int)
    ensures MinInt <= pid <= MaxInt
  {
    match FirstBracket(field)
    case None => 0
    case Some(inner) =>
      var str := Split(inner, ' ');
      Atoi(str[|str| - 1])
  }

  /** Without a bracket pair the pid is 0. */
  lemma {:induction false} PidWithoutBracket(field: string)
    requires forall p, q :: !MatchAt(field, p, q)
    ensures ExtractPidFromString(field) == 0
  {
    FirstBracketSpec(field);
  }

  /**
   * `extractCmdName`: a field of one word is that word, a field of three or
   * more words gives the base name of the third, and a field of exactly two
   * words is returned as it came, untrimmed.
   */
  function ExtractCmdName(field: string): string {
    var str := Split(TrimSpace(field), ' ');
    if |str| == 1 then str[0]
    else if |str| > 2 then Base(str[2])
    else field
  }

  /** A field with a space splits into at least a number and a unit. */
  lemma {:induction false} SpacedSplit(field: string)
    requires ' ' in field
    ensures |Split(field, ' ')| >= 2
  {
    SplitCount(field, ' ');
  }

  /** The scale `convertUsageToMsPerSecond` applies for a unit. */
  function UsageScale(unit: string): real {
    if unit == "s/s" then 1000.0 else if unit == "us/s" then 0.001 else 1.0
  }

  /** The scale `extractPwInWatts` applies for a unit. */
  function PowerScale(unit: string): real {
    if unit == "mW" then 0.001 else if unit == "uW" then 0.000001 else 1.0
  }

  /**
   * `convertUsageToMsPerSecond`: a number and a unit separated by a space,
   * in milliseconds per second. Go indexes the second piece, so the field
   * must contain a space.
   */
  function ConvertUsageToMsPerSecond(field: string): (usage: real)
    requires ' ' in field
  {
    var str := Split(field, ' ');
    SpacedSplit(field);
    var usage := ParseFloat(str[0]);
    var usageUnits := str[1];
    if usageUnits == "s/s" then usage * 1000.0
    else if usageUnits == "us/s" then usage / 1000.0
    else usage
  }

  /** `extractPwInWatts`: a number and a unit separated by a space, in watts. */
  function ExtractPwInWatts(field: string): (watts: real)
    requires ' ' in field
  {
    var str := Split(field, ' ');
    SpacedSplit(field);
    var powerEstimate := ParseFloat(str[0]);
    var powerUnits := str[1];
    if powerUnits == "mW" then powerEstimate / 1000.0
    else if powerUnits == "uW" then powerEstimate / 1000000.0
    else powerEstimate
  }

  /** A `<number> <unit>` field, possibly followed by more space-separated text. */
  lemma {:induction false} NumberUnitSplit(number: string, unit: string, rest: string)
    requires ' ' !in number && ' ' !in unit
    requires rest == [] || rest[0] == ' '
    ensures ' ' in number + " " + unit + rest
    ensures Split(number + " " + unit + rest, ' ')[0] == number
    ensures |Split(number + " " + unit + rest, ' ')| >= 2
    ensures Split(number + " " + unit + rest, ' ')[1] == unit
  {
    var field := number + " " + unit + rest;
    assert field[|number|] == ' ';
    assert field == number + (" " + unit + rest);
    SplitHead(number, ' ', " " + unit + rest);
    assert (" " + unit + rest)[1..] == unit + rest;
    SplitHead(unit, ' ', rest);
  }

  /** Usage is the number scaled by its unit's factor to milliseconds per second. */
  lemma {:induction false} UsageOfNumberUnit(number: string, unit: string, rest: string)
    requires ' ' !in number && ' ' !in unit
    requires rest == [] || rest[0] == ' '
    ensures ' ' in number + " " + unit + rest
    ensures ConvertUsageToMsPerSecond(number + " " + unit + rest) == ParseFloat(number) * UsageScale(unit)
  {
    NumberUnitSplit(number, unit, rest);
  }

  /** Power is the number scaled by its unit's factor to watts. */
  lemma {:induction false} PowerOfNumberUnit(number: string, unit: string, rest: string)
    requires ' ' !in number && ' ' !in unit
    requires rest == [] || rest[0] == ' '
    ensures ' ' in number + " " + unit + rest
    ensures ExtractPwInWatts(number + " " + unit + rest) == ParseFloat(number) * PowerScale(unit)
  {
    NumberUnitSplit(number, unit, rest);
  }

  lemma UsageSecondsExample()
    ensures ConvertUsageToMsPerSecond("2 s/s") == 2000.0
  {
    assert "2" + " " + "s/s" + "" == "2 s/s";
    UsageOfNumberUnit("2", "s/s", "");
    ParseFloatInteger("2");
  }

  lemma UsageMicrosecondsExample()
    ensures ConvertUsageToMsPerSecond("500 us/s") == 0.5
  {
    assert "500" + " " + "us/s" + "" == "500 us/s";
    UsageOfNumberUnit("500", "us/s", "");
    FiveHundredExample();
  }

  lemma FiveHundredExample()
    ensures ParseFloat("500") == 500.0
  {
    ParseFloatInteger("500");
    assert DigitsValue("50") == 50;
    assert DigitsValue("500") == 500;
  }

  lemma UsageMillisecondsExample()
    ensures ConvertUsageToMsPerSecond("10 ms/s") == 10.0
  {
    assert "10" + " " + "ms/s" + "" == "10 ms/s";
    UsageOfNumberUnit("10", "ms/s", "");
    TenExample();
  }

  lemma TenExample()
    ensures ParseFloat("10") == 10.0
  {
    ParseFloatInteger("10");
    assert DigitsValue("10") == 10;
  }

  /** Two spaces put an empty unit in second place: the value is not scaled. */
  lemma UsageDoubleSpaceExample()
    ensures ConvertUsageToMsPerSecond("7  s/s") == 7.0
  {
    assert "7" + " " + "" + " s/s" == "7  s/s";
    UsageOfNumberUnit("7", "", " s/s");
    ParseFloatInteger("7");
  }

  /** powertop writes fractional usage such as `2.5 ms/s`. */
  lemma UsageFractionExample()
    ensures ConvertUsageToMsPerSecond("2.5 ms/s") == 2.5
  {
    assert "2.5" + " " + "ms/s" + "" == "2.5 ms/s";
    UsageOfNumberUnit("2.5", "ms/s", "");
    FractionExample();
  }

  lemma FractionExample()
    ensures ParseFloat("2.5") == 2.5
  {
    ParseFloatFraction("2", "5");
    assert "2" + "." + "5" == "2.5";
    assert DigitsValue("2") == 2;
  }

  lemma PowerMilliwattsExample()
    ensures ExtractPwInWatts("5 mW") == 0.005
  {
    assert "5" + " " + "mW" + "" == "5 mW";
    PowerOfNumberUnit("5", "mW", "");
    ParseFloatInteger("5");
  }

  lemma PowerMicrowattsExample()
    ensures ExtractPwInWatts("3 uW") == 0.000003
  {
    assert "3" + " " + "uW" + "" == "3 uW";
    PowerOfNumberUnit("3", "uW", "");
    ParseFloatInteger("3");
  }

  lemma PowerWattsExample()
    ensures ExtractPwInWatts("2 W") == 2.0
  {
    assert "2" + " " + "W" + "" == "2 W";
    PowerOfNumberUnit("2", "W", "");
    ParseFloatInteger("2");
  }

  /** The first bracket pair is the first '[' of the field and the next ']'. */
  lemma {:induction false} FirstBracketOf(pre: string, inner: string, post: string)
    requires '[' !in pre
    requires ']' !in inner && '\n' !in inner
    ensures FirstBracket(pre + "[" + inner + "]" + post) == Some(inner)
  {
    var s := pre + "[" + inner + "]" + post;
    var p := |pre|;
    var q := |pre| + 1 + |inner|;
    assert s[p] == '[';
    assert s[q] == ']';
    forall m | p + 1 <= m < q
      ensures s[m] != ']' && s[m] != '\n'
    {
      assert s[m] == inner[m - p - 1];
    }
    assert Closes(s, p + 1, q);
    assert MatchAt(s, p, q);
    forall p', q' | 0 <= p' < p
      ensures !MatchAt(s, p', q')
    {
      assert s[p'] == pre[p'];
    }
    MatchFromSpec(s, 0);
    CloseFromSpec(s, p + 1);
    var r := MatchFrom(s, 0);
    assert r == Some((p, q));
    assert s[p + 1..q] == inner;
  }

  /**
   * The pid is `Atoi` of the last space-separated token inside the first
   * bracket pair: `pre[words num]post` reads as `Atoi(num)` when `pre`
   * opens no bracket, whatever text `num` is.
   */
  lemma {:induction false} PidInBracket(pre: string, words: string, num: string, post: string)
    requires '[' !in pre
    requires ']' !in words && '\n' !in words
    requires words == [] || words[|words| - 1] == ' '
    requires ' ' !in num && ']' !in num && '\n' !in num
    ensures ExtractPidFromString(pre + "[" + words + num + "]" + post) == Atoi(num)
  {
    var inner := words + num;
    assert pre + "[" + words + num + "]" + post == pre + "[" + inner + "]" + post;
    FirstBracketOf(pre, inner, post);
    if words == [] {
      assert inner == num;
      SplitNone(num, ' ');
    } else {
      var w := words[..|words| - 1];
      assert inner == w + [' '] + num;
      SplitLast(w, ' ', num);
    }
  }

  /**
   * A last token that is not an integer gives pid 0, unless it starts with
   * a run of digits too large for 64 bits.
   */
  lemma {:induction false} PidUnparsableToken(pre: string, words: string, num: string, post: string)
    requires '[' !in pre
    requires ']' !in words && '\n' !in words
    requires words == [] || words[|words| - 1] == ' '
    requires ' ' !in num && ']' !in num && '\n' !in num
    requires !IsIntegerText(num) && LeadingValue(Magnitude(num)) <= MaxUint64
    ensures ExtractPidFromString(pre + "[" + words + num + "]" + post) == 0
  {
    PidInBracket(pre, words, num, post);
    AtoiMalformed(num);
  }

  /** Every 64-bit pid written in the bracket is read back. */
  lemma {:induction false} PidOfInteger(pre: string, words: string, n: int, post: string)
    requires '[' !in pre
    requires ']' !in words && '\n' !in words
    requires words == [] || words[|words| - 1] == ' '
    requires MinInt <= n <= MaxInt
    ensures ExtractPidFromString(pre + "[" + words + Itoa(n) + "]" + post) == n
  {
    var num := Itoa(n);
    ItoaValue(n);
    AtoiItoa(n);
    IntegerTextChars(num);
    PidInBracket(pre, words, num, post);
  }

  lemma PidExample()
    ensures ExtractPidFromString("foo [bar 1234]") == 1234
  {
    PidTokenExample();
    AtoiExample();
  }

  lemma PidTokenExample()
    ensures ExtractPidFromString("foo [bar 1234]") == Atoi("1234")
  {
    assert "foo " + "[" + "bar " + "1234" + "]" + "" == "foo [bar 1234]";
    PidInBracket("foo ", "bar ", "1234", "");
  }

  lemma AtoiExample()
    ensures Atoi("1234") == 1234
  {
    assert DigitsValue("12") == 12;
    DigitsValueSnoc("12", '3');
    assert "12" + ['3'] == "123";
    DigitsValueSnoc("123", '4');
    assert "123" + ['4'] == "1234";
    AtoiInteger("1234");
  }

  /** A signed token is read with its sign. */
  lemma PidNegativeExample()
    ensures ExtractPidFromString("[x -5]") == -5
  {
    assert "" + "[" + "x " + "-5" + "]" + "" == "[x -5]";
    PidInBracket("", "x ", "-5", "");
    assert "-5"[1..] == "5";
    AtoiInteger("-5");
  }

  /** A last token that is a word, not a number, gives pid 0. */
  lemma PidWordTokenExample()
    ensures ExtractPidFromString("[kworker u8]") == 0
  {
    assert "" + "[" + "kworker " + "u8" + "]" + "" == "[kworker u8]";
    assert LeadingDigits("u8") == 0;
    assert "u8"[..0] == "";
    PidUnparsableToken("", "kworker ", "u8", "");
  }

  lemma PidEmptyBracketExample()
    ensures ExtractPidFromString("[]") == 0
  {
    assert "" + "[" + "" + "]" + "" == "[]";
    FirstBracketOf("", "", "");
  }

  lemma PidNoBracketExample()
    ensures ExtractPidFromString("foo") == 0
  {
    forall p, q
      ensures !MatchAt("foo", p, q)
    {
    }
    PidWithoutBracket("foo");
  }

  /** What `extractCmdName` returns, by the number of words of the trimmed field. */
  lemma {:induction false} CmdNameShape(field: string)
    ensures ' ' !in TrimSpace(field) ==> ExtractCmdName(field) == TrimSpace(field)
    ensures |Split(TrimSpace(field), ' ')| == 2 ==> ExtractCmdName(field) == field
    ensures |Split(TrimSpace(field), ' ')| > 2 ==>
      var r := ExtractCmdName(field); r != [] && (r == "/" || '/' !in r)
  {
    if ' ' !in TrimSpace(field) {
      SplitNone(TrimSpace(field), ' ');
    }
  }

  /** The first two words of a space-separated text. */
  lemma {:induction false} SplitTwoWords(a: string, b: string, t: string)
    requires ' ' !in a && ' ' !in b
    ensures Split(a + " " + b + " " + t, ' ') == [a, b] + Split(t, ' ')
  {
    var x := a + " " + b + " " + t;
    assert x == a + [' '] + (b + [' '] + t);
    SplitWord(a, ' ', b + [' '] + t);
    SplitWord(b, ' ', t);
  }

  /** A field of exactly two words is returned untrimmed. */
  lemma {:induction false} CmdNameTwoWords(field: string, a: string, b: string)
    requires ' ' !in a && ' ' !in b
    requires TrimSpace(field) == a + " " + b
    ensures ExtractCmdName(field) == field
  {
    assert a + " " + b == a + [' '] + b;
    SplitWord(a, ' ', b);
    SplitNone(b, ' ');
  }

  /**
   * With three or more words, the command name is the base name of the
   * third: `a b dir/name rest` gives `name`.
   */
  lemma {:induction false} CmdNameOfPath(a: string, b: string, t: string, dir: string, name: string, rest: string)
    requires ' ' !in a && ' ' !in b && ' ' !in dir
    requires name != [] && '/' !in name && ' ' !in name
    requires rest == [] || rest[0] == ' '
    requires t == dir + "/" + name + rest
    requires NoSpaceAtEnds(a + " " + b + " " + t)
    ensures ExtractCmdName(a + " " + b + " " + t) == name
  {
    TrimSpaceFixed(a + " " + b + " " + t);
    SplitTwoWords(a, b, t);
    FirstWordOfPath(t, dir, name, rest);
    CmdNameOfParts(a + " " + b + " " + t, a, b, t, dir + "/" + name);
    BaseOfPath(dir, name);
  }

  lemma {:induction false} FirstWordOfPath(t: string, dir: string, name: string, rest: string)
    requires ' ' !in dir && ' ' !in name
    requires rest == [] || rest[0] == ' '
    requires t == dir + "/" + name + rest
    ensures Split(t, ' ')[0] == dir + "/" + name
  {
    var path := dir + "/" + name;
    assert t == path + rest;
    SplitHead(path, ' ', rest);
  }

  /** The third word of the trimmed field decides the command name when there are three or more words. */
  lemma {:induction false} CmdNameOfParts(field: string, a: string, b: string, t: string, path: string)
    requires Split(TrimSpace(field), ' ') == [a, b] + Split(t, ' ')
    requires Split(t, ' ')[0] == path
    ensures ExtractCmdName(field) == Base(path)
  {
  }

  lemma CmdNameExample()
    ensures ExtractCmdName("a b /usr/bin/foo") == "foo"
  {
    assert "a" + " " + "b" + " " + "/usr/bin/foo" == "a b /usr/bin/foo";
    CmdNameOfPath("a", "b", "/usr/bin/foo", "/usr/bin", "foo", "");
  }

  /** The pid of a `[PID n] ...` description. */
  lemma {:induction false} ProcessDescriptionPid(n: int, t: string)
    requires MinInt <= n <= MaxInt
    ensures ExtractPidFromString("[PID " + Itoa(n) + "] " + t) == n
  {
    var num := Itoa(n);
    assert "[PID " + num + "] " + t == "" + "[" + "PID " + num + "]" + (" " + t);
    PidOfInteger("", "PID ", n, " " + t);
  }

  /** The command name of a `[PID n] dir/name args` description. */
  lemma {:induction false} ProcessDescriptionCmd(n: int, path: string, dir: string, name: string, rest: string)
    requires ' ' !in dir && name != [] && '/' !in name && ' ' !in name && NoSpaceAtEnds(name)
    requires path == dir + "/" + name
    requires rest == [] || (rest[0] == ' ' && !IsSpace(rest[|rest| - 1]))
    ensures ExtractCmdName("[PID " + Itoa(n) + "] " + path + rest) == name
  {
    var num := Itoa(n);
    var t := path + rest;
    var b := num + "]";
    var field := "[PID " + num + "] " + path + rest;
    assert ' ' !in b;
    assert field == "[PID" + " " + b + " " + t;
    assert t == dir + "/" + name + rest;
    assert NoSpaceAtEnds(field) by {
      assert field[0] == '[';
      if rest == [] {
        assert field[|field| - 1] == path[|path| - 1] == name[|name| - 1];
      } else {
        assert field[|field| - 1] == rest[|rest| - 1];
      }
    }
    CmdNameOfPath("[PID", b, t, dir, name, rest);
  }

  /**
   * powertop describes a process as `[PID n] path args`: the pid is `n`
   * and the command name is the base name of `path`.
   */
  lemma {:induction false} ProcessDescription(n: nat, dir: string, name: string, rest: string)
    requires n <= MaxInt
    requires ' ' !in dir && name != [] && '/' !in name && ' ' !in name && NoSpaceAtEnds(name)
    requires rest == [] || (rest[0] == ' ' && !IsSpace(rest[|rest| - 1]))
    ensures ExtractPidFromString("[PID " + Itoa(n) + "] " + (dir + "/" + name) + rest) == n
    ensures ExtractCmdName("[PID " + Itoa(n) + "] " + (dir + "/" + name) + rest) == name
  {
    ProcessDescriptionPid(n, (dir + "/" + name) + rest);
    assert "[PID " + Itoa(n) + "] " + (dir + "/" + name) + rest == "[PID " + Itoa(n) + "] " + ((dir + "/" + name) + rest);
    ProcessDescriptionCmd(n, dir + "/" + name, dir, name, rest);
  }

  // ---------------------------------------------------------------------
  // Row decoders.
  // ---------------------------------------------------------------------

  /** Go indexes the second piece of the usage (field 0) and power (field 7) texts. */
  predicate Decodable(line: seq<string>) {
    && (|line| > 0 ==> ' ' in line[0])
    && (|line| > 7 ==> ' ' in line[7])
  }

  /**
   * The consumer a row describes, by position: usage from field 0, disk
   * I/O from field 4, category from field 5, pid and description from
   * field 6, power from field 7; absent fields leave Go's zero values.
   */
  function ProcessConsumerOf(line: seq<string>): ProcessConsumer
    requires Decodable(line)
  {
    ProcessConsumer(
      Pid := if |line| > 6 then ExtractPidFromString(line[6]) else 0,
      Usage := if |line| > 0 then ConvertUsageToMsPerSecond(line[0]) else 0.0,
      DiskioPerSecond := if |line| > 4 then ParseFloat(line[4]) else 0.0,
      Category := if |line| > 5 then line[5] else "",
      Description :=
        if |line| <= 6 then ""
        else if line[5] == "Process" then ExtractCmdName(line[6])
        else line[6],
      PwEstimate := if |line| > 7 then ExtractPwInWatts(line[7]) else 0.0)
  }

  /**
   * Fields 1 to 3 and those after field 7 take no part in the record: two
   * rows that have the same length, or both have all eight fields, and
   * that agree on fields 0 and 4 to 7 decode alike.
   */
  lemma {:induction false} IgnoredFields(line: seq<string>, other: seq<string>)
    requires Decodable(line) && (|line| == |other| || (|line| > 7 && |other| > 7))
    requires forall j :: 0 <= j < |line| && (j == 0 || 4 <= j <= 7) ==> line[j] == other[j]
    ensures Decodable(other)
    ensures ProcessConsumerOf(other) == ProcessConsumerOf(line)
  {
  }

  /** Only a process has its description reduced to a command name. */
  lemma {:induction false} DescriptionOfRow(line: seq<string>)
    requires Decodable(line) && |line| > 6
    ensures ProcessConsumerOf(line).Category == line[5]
    ensures ProcessConsumerOf(line).Pid == ExtractPidFromString(line[6])
    ensures ProcessConsumerOf(line).Category != "Process" ==> ProcessConsumerOf(line).Description == line[6]
    ensures ProcessConsumerOf(line).Category == "Process" ==> ProcessConsumerOf(line).Description == ExtractCmdName(line[6])
  {
  }

  /** A prefix of a decodable row is decodable. */
  lemma {:induction false} DecodablePrefix(line: seq<string>, j: int)
    requires Decodable(line) && 0 <= j <= |line|
    ensures Decodable(line[..j])
  {
  }

  /** The inner loop of `addProcessConsumers`: one field at a time, by index. */
  method DecodeProcessRow(line: seq<string>) returns (pc: ProcessConsumer)
    requires Decodable(line)
    ensures pc == ProcessConsumerOf(line)
  {
    pc := NoProcess;
    for j := 0 to |line|
      invariant Decodable(line[..j])
      invariant pc == ProcessConsumerOf(line[..j])
    {
      var field := line[j];
      DecodablePrefix(line, j + 1);
      if j == 0 {
        pc := pc.(Usage := ConvertUsageToMsPerSecond(field));
      } else if j == 4 {
        pc := pc.(DiskioPerSecond := ParseFloat(field));
      } else if j == 5 {
        pc := pc.(Category := field);
      } else if j == 6 {
        pc := pc.(Pid := ExtractPidFromString(field));
        if pc.Category == "Process" {
          pc := pc.(Description := ExtractCmdName(field));
        } else {
          pc := pc.(Description := field);
        }
      } else if j == 7 {
        pc := pc.(PwEstimate := ExtractPwInWatts(field));
      }
    }
    assert line[..|line|] == line;
  }

  /** The consumers a run of rows describes, one per row, in order. */
  function ProcessConsumersOf(rows: seq<seq<string>>): (r: seq<ProcessConsumer>)
    requires forall k :: 0 <= k < |rows| ==> Decodable(rows[k])
    ensures |r| == |rows|
  {
    seq(|rows|, i requires 0 <= i < |rows| => ProcessConsumerOf(rows[i]))
  }

  /** One more row adds its record at the end. */
  lemma {:induction false} ProcessConsumersOfSnoc(rows: seq<seq<string>>, line: seq<string>)
    requires forall k :: 0 <= k < |rows| ==> Decodable(rows[k])
    requires Decodable(line)
    ensures ProcessConsumersOf(rows + [line]) == ProcessConsumersOf(rows) + [ProcessConsumerOf(line)]
  {
    var l := ProcessConsumersOf(rows + [line]);
    var r := ProcessConsumersOf(rows) + [ProcessConsumerOf(line)];
    forall i | 0 <= i < |l|
      ensures l[i] == r[i]
    {
      if i < |rows| {
        assert (rows + [line])[i] == rows[i];
      }
    }
  }

  /** Entry `i` of the decoded rows after the first is the record of row `i + 1`. */
  lemma {:induction false} ProcessConsumersOfRows(data: seq<seq<string>>)
    requires |data| >= 1
    requires forall k :: 1 <= k < |data| ==> Decodable(data[k])
    ensures forall i :: 0 <= i < |data| - 1 ==> ProcessConsumersOf(data[1..])[i] == ProcessConsumerOf(data[i + 1])
  {
    forall i | 0 <= i < |data| - 1
      ensures ProcessConsumersOf(data[1..])[i] == ProcessConsumerOf(data[i + 1])
    {
      assert data[1..][i] == data[i + 1];
    }
  }

  /**
   * One pass of `addProcessConsumers`' loop: row `k` decoded and appended
   * to the consumers of the rows before it.
   */
  method AppendProcessRow(data: seq<seq<string>>, k: int, consumers: seq<ProcessConsumer>)
    returns (r: seq<ProcessConsumer>)
    requires 1 <= k < |data|
    requires forall m :: 1 <= m < |data| ==> Decodable(data[m])
    requires consumers == ProcessConsumersOf(data[1..k])
    ensures r == ProcessConsumersOf(data[1..k + 1])
  {
    var pc := DecodeProcessRow(data[k]);
    assert data[1..k + 1] == data[1..k] + [data[k]];
    ProcessConsumersOfSnoc(data[1..k], data[k]);
    r := consumers + [pc];
  }

  /**
   * `addProcessConsumers`: every row after the column headings, decoded in
   * order. Go slices `data[1:]`, so there must be a heading row.
   */
  method AddProcessConsumers(data: seq<seq<string>>) returns (consumers: seq<ProcessConsumer>)
    requires |data| >= 1
    requires forall k :: 1 <= k < |data| ==> Decodable(data[k])
    ensures |consumers| == |data| - 1
    ensures forall i :: 0 <= i < |consumers| ==> consumers[i] == ProcessConsumerOf(data[i + 1])
  {
    consumers := [];
    for k := 1 to |data|
      invariant consumers == ProcessConsumersOf(data[1..k])
    {
      consumers := AppendProcessRow(data, k, consumers);
    }
    assert data[1..|data|] == data[1..];
    ProcessConsumersOfRows(data);
  }

  /**
   * `addDeviceConsumers`: every row after the column headings, usage and
   * device name copied verbatim. Go indexes fields 0 and 1.
   */
  method AddDeviceConsumers(data: seq<seq<string>>) returns (consumers: seq<DeviceConsumer>)
    requires |data| >= 1
    requires forall k :: 1 <= k < |data| ==> |data[k]| >= 2
    ensures |consumers| == |data| - 1
    ensures forall i :: 0 <= i < |consumers| ==>
      consumers[i].Usage == data[i + 1][0] && consumers[i].DeviceName == data[i + 1][1]
  {
    consumers := [];
    for k := 1 to |data|
      invariant |consumers| == k - 1
      invariant forall i :: 0 <= i < k - 1 ==>
        consumers[i].Usage == data[i + 1][0] && consumers[i].DeviceName == data[i + 1][1]
    {
      var line := data[k];
      var dc := DeviceConsumer(line[0], line[1]);
      consumers := consumers + [dc];
    }
  }
}

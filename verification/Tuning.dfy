/** The list of discovery commands as text (tuning_config.cpp, tuning_registry.cpp): printing, and the
    setter that parses a comma-separated list. */
module Tuning {
  import opened Bytes
  import opened Commands
  import NodeId

  datatype DiscoveryCommand = Discover | DiscoverSpe | DiscoverAlt

  // ---- One command

  function CommandToString(c: DiscoveryCommand): string {
    match c
    case Discover => "0x28"
    case DiscoverSpe => "0x2A"
    case DiscoverAlt => "0x2E"
  }

  /** The byte of the command. */
  function Code(c: DiscoveryCommand): byte {
    match c
    case Discover => CMD_DISCOVER_REQ
    case DiscoverSpe => CMD_DISCOVER_SPE_REQ
    case DiscoverAlt => CMD_DISCOVER_ALT_REQ
  }

  /** What is printed is that byte. */
  lemma PrintsCode(c: DiscoveryCommand)
    ensures CommandToString(c) == "0x" + NodeId.ToHex([Code(c)])
  {
    var b := Code(c);
    assert NodeId.ToHex([b])[0] == NodeId.Digit(NodeId.High(b)) && NodeId.ToHex([b])[1] == NodeId.Digit(NodeId.Low(b));
  }

  function LowerChar(c: char): char {
    if 'A' <= c <= 'Z' then (c as int + 32) as char else c
  }

  function Lower(s: string): (t: string)
    ensures |t| == |s|
  {
    seq(|s|, i requires 0 <= i < |s| => LowerChar(s[i]))
  }

  datatype Option<T> = None | Some(value: T)

  function CommandFromString(value: string): Option<DiscoveryCommand> {
    var s := Lower(value);
    if s == "0x28" || s == "discover" then Some(Discover)
    else if s == "0x2a" || s == "discover_spe" then Some(DiscoverSpe)
    else if s == "0x2e" || s == "discover_alt" then Some(DiscoverAlt)
    else None
  }

  /** A printed command is read back. */
  lemma CommandRoundTrip(c: DiscoveryCommand)
    ensures CommandFromString(CommandToString(c)) == Some(c)
  {
    assert Lower("0x28") == "0x28";
    assert Lower("0x2A") == "0x2a";
    assert Lower("0x2E") == "0x2e";
  }

  // ---- Printing a list

  /** The strings with commas between them. */
  function Join(tokens: seq<string>): string {
    if tokens == [] then ""
    else if |tokens| == 1 then tokens[0]
    else Join(tokens[..|tokens| - 1]) + "," + tokens[|tokens| - 1]
  }

  function Printed(commands: seq<DiscoveryCommand>): (tokens: seq<string>)
    ensures |tokens| == |commands|
  {
    seq(|commands|, i requires 0 <= i < |commands| => CommandToString(commands[i]))
  }

  method CommandsToCsv(commands: seq<DiscoveryCommand>) returns (result: string)
    ensures result == Join(Printed(commands))
  {
    hide CommandToString;
    result := "";
    for i := 0 to |commands|
      invariant result == Join(Printed(commands)[..i])
    {
      var tokens := Printed(commands);
      assert tokens[..i + 1][..i] == tokens[..i];
      if i > 0 {
        result := result + ",";
      }
      result := result + CommandToString(commands[i]);
    }
    assert Printed(commands)[..|commands|] == Printed(commands);
  }

  // ---- Parsing a list

  predicate IsBlank(c: char) {
    c == ' ' || c == '\t'
  }

  function StripLeft(s: string): string {
    if s != "" && IsBlank(s[0]) then StripLeft(s[1..]) else s
  }

  function StripRight(s: string): string {
    if s != "" && IsBlank(s[|s| - 1]) then StripRight(s[..|s| - 1]) else s
  }

  function Strip(s: string): string {
    StripRight(StripLeft(s))
  }

  /** What one token between commas contributes; anything unknown is skipped. */
  function Meaning(token: string): seq<DiscoveryCommand> {
    match CommandFromString(Strip(token))
    case None => []
    case Some(c) => [c]
  }

  /** Index of the first comma, or the length. */
  function Comma(s: string): (i: nat)
    ensures i <= |s|
    ensures i < |s| ==> s[i] == ','
    ensures forall k :: 0 <= k < i ==> s[k] != ','
  {
    if s == "" || s[0] == ',' then 0
    else
      var i := Comma(s[1..]);
      assert forall k :: 1 <= k < i + 1 ==> s[k] == s[1..][k - 1];
      i + 1
  }

  function Parse(v: string): seq<DiscoveryCommand>
    decreases |v|
  {
    if v == "" then []
    else
      var i := Comma(v);
      Meaning(v[..i]) + (if i == |v| then [] else Parse(v[i + 1..]))
  }

  method FindComma(v: string, start: nat) returns (comma: nat)
    requires start <= |v|
    ensures comma == start + Comma(v[start..])
  {
    comma := start;
    while comma < |v| && v[comma] != ','
      invariant start <= comma <= |v|
      invariant start + Comma(v[start..]) == comma + Comma(v[comma..])
    {
      assert v[comma..][1..] == v[comma + 1..];
      comma := comma + 1;
    }
  }

  /** Erases up to the first character that is not a blank, then after the last one. */
  method StripToken(token: string) returns (stripped: string)
    ensures stripped == Strip(token)
  {
    var first := 0;
    while first < |token| && IsBlank(token[first])
      invariant 0 <= first <= |token| && StripLeft(token) == StripLeft(token[first..])
    {
      assert token[first..][1..] == token[first + 1..];
      first := first + 1;
    }
    var s := token[first..];
    var last := |s|;
    assert s[..last] == s;
    while last > 0 && IsBlank(s[last - 1])
      invariant 0 <= last <= |s| && StripRight(s) == StripRight(s[..last])
    {
      assert s[..last][..last - 1] == s[..last - 1];
      last := last - 1;
    }
    stripped := s[..last];
  }

  class TuningConfig {
    var commands: seq<DiscoveryCommand>

    constructor ()
      ensures commands == [Discover]
    {
      commands := [Discover];
    }

    /** The setter of `pairing_discovery_commands`; it accepts every string. */
    method SetDiscoveryCommands(v: string) returns (ok: bool)
      modifies this
      ensures ok && commands == Parse(v)
    {
      hide CommandFromString, Strip, Parse;
      commands := [];
      var start := 0;
      assert v[0..] == v;
      while start < |v|
        invariant start <= |v|
        invariant commands + Parse(v[start..]) == Parse(v)
      {
        ParseStep(v, start, commands);
        ghost var before := commands;
        var comma := FindComma(v, start);
        var token := StripToken(v[start..comma]);
        var cmd := CommandFromString(token);
        if cmd.Some? {
          commands := commands + [cmd.value];
        }
        assert commands == before + Meaning(v[start..comma]);
        if comma == |v| {
          start := |v|;
          break;
        }
        start := comma + 1;
      }
      ParseNothing();
      assert v[|v|..] == "";
      ok := true;
    }
  }

  lemma ParseNothing()
    ensures Parse("") == []
  {
  }

  lemma ParseUnfold(rest: string)
    requires rest != ""
    ensures var i := Comma(rest);
            Parse(rest) == Meaning(rest[..i]) + (if i == |rest| then [] else Parse(rest[i + 1..]))
  {
  }

  lemma ConcatAssociates(a: seq<DiscoveryCommand>, b: seq<DiscoveryCommand>, c: seq<DiscoveryCommand>)
    ensures a + (b + c) == a + b + c
  {
  }

  /** One token further. */
  lemma ParseStep(v: string, start: nat, done: seq<DiscoveryCommand>)
    requires start < |v|
    ensures var comma := start + Comma(v[start..]);
            done + Parse(v[start..]) ==
            done + Meaning(v[start..comma]) + Parse(if comma == |v| then v[|v|..] else v[comma + 1..])
  {
    hide Meaning, Parse, Comma;
    var rest := v[start..];
    var i := Comma(rest);
    ParseUnfold(rest);
    assert rest[..i] == v[start..start + i];
    if i == |rest| {
      ParseNothing();
      assert v[|v|..] == "";
      ConcatAssociates(done, Meaning(rest[..i]), []);
    } else {
      assert rest[i + 1..] == v[start + i + 1..];
      ConcatAssociates(done, Meaning(rest[..i]), Parse(rest[i + 1..]));
    }
  }

  // ---- What a list of tokens means

  predicate NoComma(s: string) {
    ',' !in s
  }

  /** The commands of the tokens, in order. */
  function Meanings(tokens: seq<string>): seq<DiscoveryCommand> {
    if tokens == [] then [] else Meanings(tokens[..|tokens| - 1]) + Meaning(tokens[|tokens| - 1])
  }

  lemma {:induction false} CommaAfter(a: string, b: string)
    requires NoComma(a)
    ensures Comma(a + "," + b) == |a| && Comma(a) == |a|
  {
    if a == "" {
      assert ("," + b)[0] == ',';
      assert a + "," + b == "," + b;
    } else {
      assert NoComma(a[1..]);
      CommaAfter(a[1..], b);
      assert (a + "," + b)[1..] == a[1..] + "," + b;
    }
  }

  lemma ParseFirst(a: string, b: string)
    requires NoComma(a)
    ensures Parse(a + "," + b) == Meaning(a) + Parse(b)
  {
    hide Meaning;
    var v := a + "," + b;
    CommaAfter(a, b);
    assert v[..|a|] == a && v[|a| + 1..] == b;
  }

  lemma ParseOne(a: string)
    requires NoComma(a)
    ensures Parse(a) == Meaning(a)
  {
    CommaAfter(a, "");
    assert a[..|a|] == a;
    if a == "" {
      assert Strip("") == "" && Lower("") == "";
    } else {
      assert Meaning(a) + [] == Meaning(a);
    }
  }

  /** The setter sees a joined list first token first. */
  lemma {:induction false} JoinFirst(tokens: seq<string>)
    requires |tokens| >= 2
    ensures Join(tokens) == tokens[0] + "," + Join(tokens[1..])
    decreases |tokens|
  {
    var n := |tokens| - 1;
    if n == 1 {
      assert tokens[..1] == [tokens[0]] && tokens[1..] == [tokens[1]];
    } else {
      JoinFirst(tokens[..n]);
      assert tokens[..n][1..] == tokens[1..][..n - 1];
      assert tokens[1..][n - 1] == tokens[n];
      var a, b, c, d, e := tokens[0], ",", Join(tokens[1..][..n - 1]), ",", tokens[n];
      assert (a + b + c) + d + e == a + b + (c + d + e);
    }
  }

  lemma {:induction false} MeaningsFirst(tokens: seq<string>)
    requires tokens != []
    ensures Meanings(tokens) == Meaning(tokens[0]) + Meanings(tokens[1..])
    decreases |tokens|
  {
    hide Meaning;
    var n := |tokens| - 1;
    if n == 0 {
      assert Meanings(tokens[..0]) == [] && Meanings(tokens[1..]) == [];
    } else {
      MeaningsFirst(tokens[..n]);
      assert tokens[..n][1..] == tokens[1..][..n - 1];
      assert tokens[1..][n - 1] == tokens[n];
      var a, b, c := Meaning(tokens[0]), Meanings(tokens[1..][..n - 1]), Meaning(tokens[n]);
      assert (a + b) + c == a + (b + c);
    }
  }

  /** Parsing a joined list gives the commands of its tokens, whatever the tokens are. */
  lemma {:induction false} ParseJoin(tokens: seq<string>)
    requires forall i :: 0 <= i < |tokens| ==> NoComma(tokens[i])
    ensures Parse(Join(tokens)) == Meanings(tokens)
    decreases |tokens|
  {
    hide Meaning, Parse;
    if tokens == [] {
      ParseNothing();
    } else if |tokens| == 1 {
      ParseOne(tokens[0]);
      assert Meanings(tokens[..0]) == [];
      assert [] + Meaning(tokens[0]) == Meaning(tokens[0]);
    } else {
      JoinFirst(tokens);
      ParseFirst(tokens[0], Join(tokens[1..]));
      ParseJoin(tokens[1..]);
      MeaningsFirst(tokens);
    }
  }

  // ---- Printing and parsing back

  lemma PrintedMeaning(c: DiscoveryCommand)
    ensures NoComma(CommandToString(c)) && Meaning(CommandToString(c)) == [c]
  {
    CommandRoundTrip(c);
    assert Strip(CommandToString(c)) == CommandToString(c);
  }

  lemma {:induction false} PrintedMeanings(commands: seq<DiscoveryCommand>)
    ensures Meanings(Printed(commands)) == commands
    decreases |commands|
  {
    hide Meaning, CommandToString;
    if commands != [] {
      var n := |commands| - 1;
      PrintedMeanings(commands[..n]);
      assert Printed(commands)[..n] == Printed(commands[..n]);
      PrintedMeaning(commands[n]);
    }
  }

  /** A list of any length, the empty one included, is parsed back as it was printed. */
  lemma RoundTrip(commands: seq<DiscoveryCommand>)
    ensures Parse(Join(Printed(commands))) == commands
  {
    hide CommandToString, Meaning, Parse;
    forall i | 0 <= i < |commands|
      ensures NoComma(Printed(commands)[i])
    {
      PrintedMeaning(commands[i]);
    }
    ParseJoin(Printed(commands));
    PrintedMeanings(commands);
  }

  // ---- Blanks around tokens

  predicate Blank(s: string) {
    forall i :: 0 <= i < |s| ==> IsBlank(s[i])
  }

  lemma {:induction false} StripLeftBlank(before: string, s: string)
    requires Blank(before)
    ensures StripLeft(before + s) == StripLeft(s)
  {
    if before == "" {
      assert before + s == s;
    } else {
      StripLeftBlank(before[1..], s);
      assert (before + s)[1..] == before[1..] + s;
    }
  }

  lemma {:induction false} StripRightBlank(s: string, after: string)
    requires Blank(after)
    ensures StripRight(s + after) == StripRight(s)
    decreases |after|
  {
    if after == "" {
      assert s + after == s;
    } else {
      StripRightBlank(s, after[..|after| - 1]);
      assert (s + after)[..|s + after| - 1] == s + after[..|after| - 1];
    }
  }

  /** Blanks after a text come off on the right, unless the text is blank itself. */
  lemma {:induction false} StripLeftKeeps(s: string, after: string)
    requires Blank(after)
    ensures StripLeft(s + after) == StripLeft(s) + after || (StripLeft(s) == "" && Blank(StripLeft(s + after)))
  {
    if s == "" {
      assert s + after == after + "";
      StripLeftBlank(after, "");
    } else {
      StripLeftKeeps(s[1..], after);
      assert (s + after)[1..] == s[1..] + after;
    }
  }

  lemma StripBlank(before: string, s: string, after: string)
    requires Blank(before) && Blank(after)
    ensures Strip(before + s + after) == Strip(s)
  {
    assert before + s + after == before + (s + after);
    StripLeftBlank(before, s + after);
    StripLeftKeeps(s, after);
    StripRightBlank(StripLeft(s), after);
    if StripLeft(s) == "" {
      var t := StripLeft(s + after);
      if Blank(t) {
        StripRightBlank("", t);
        assert "" + t == t;
      }
    }
  }

  ghost predicate PaddedToken(token: string, padded: string) {
    exists before, after :: Blank(before) && Blank(after) && padded == before + token + after
  }

  /** The second list has the tokens of the first with blanks put around them. */
  ghost predicate Padded(tokens: seq<string>, padded: seq<string>) {
    |padded| == |tokens| && forall i :: 0 <= i < |tokens| ==> PaddedToken(tokens[i], padded[i])
  }

  lemma {:induction false} PaddedMeanings(tokens: seq<string>, padded: seq<string>)
    requires Padded(tokens, padded)
    ensures Meanings(padded) == Meanings(tokens)
    decreases |tokens|
  {
    hide Strip, Blank;
    if tokens != [] {
      var n := |tokens| - 1;
      PaddedMeanings(tokens[..n], padded[..n]);
      assert PaddedToken(tokens[n], padded[n]);
      var before, after :| Blank(before) && Blank(after) && padded[n] == before + tokens[n] + after;
      StripBlank(before, tokens[n], after);
    }
  }

  /** Blanks around the tokens change nothing, whatever the tokens are. */
  lemma BlanksIgnored(tokens: seq<string>, padded: seq<string>)
    requires Padded(tokens, padded) && forall i :: 0 <= i < |tokens| ==> NoComma(tokens[i])
    ensures Parse(Join(padded)) == Parse(Join(tokens))
  {
    hide Parse;
    forall i | 0 <= i < |padded|
      ensures NoComma(padded[i])
    {
      assert PaddedToken(tokens[i], padded[i]);
      var before, after :| Blank(before) && Blank(after) && padded[i] == before + tokens[i] + after;
      assert NoComma(tokens[i]);
    }
    ParseJoin(tokens);
    ParseJoin(padded);
    PaddedMeanings(tokens, padded);
  }
}

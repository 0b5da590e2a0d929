/** `~/.choir/config` (crates/choir-cli/src/main.rs): one function writes its own keys among everybody
    else's lines, another looks a key up. */
module Config {
  import opened Basics
  import opened Sequences
  import opened Text

  type Written = seq<(string, string)>

  predicate Writes(written: Written, key: string) {
    exists i :: 0 <= i < |written| && written[i].0 == key
  }

  function LineKey(line: string): string {
    if HasKey(line) then KeyOf(line) else ""
  }

  function Kept(written: Written, lines: seq<string>): seq<string> {
    if lines == [] then []
    else if Writes(written, LineKey(lines[0])) then Kept(written, lines[1..])
    else [lines[0]] + Kept(written, lines[1..])
  }

  function Entries(written: Written): (e: seq<string>)
    ensures |e| == |written| && forall i :: 0 <= i < |written| ==> e[i] == Entry(written[i].0, written[i].1)
  {
    if written == [] then [] else [Entry(written[0].0, written[0].1)] + Entries(written[1..])
  }

  /** The new file: every line of another key, then the written entries. */
  function WriteSpec(text: string, written: Written): string {
    Join(Kept(written, Lines(text)) + Entries(written))
  }

  method WriteHomeConfig(existing: string, written: Written) returns (out: string)
    ensures out == WriteSpec(existing, written)
  {
    out := "";
    var lines, i := Lines(existing), 0;
    ghost var kept := Join(Kept(written, lines));
    while i < |lines|
      invariant i <= |lines| && out + Join(Kept(written, lines[i..])) == kept
    {
      var key := if HasKey(lines[i]) then KeyOf(lines[i]) else "";
      KeptFirst(written, lines[i..]);
      assert lines[i..][1..] == lines[i + 1..];
      if !Writes(written, key) {
        Assoc(out, lines[i] + "\n", Join(Kept(written, lines[i + 1..])));
        Assoc(out, lines[i], "\n");
        out := out + lines[i];
        out := out + "\n";
      }
      i := i + 1;
    }
    assert out + "" == out;
    JoinAppend(Kept(written, lines), Entries(written));
    i := 0;
    while i < |written|
      invariant i <= |written| && out + Join(Entries(written)[i..]) == WriteSpec(existing, written)
    {
      var line := written[i].0 + " = " + written[i].1 + "\n";
      assert Entries(written)[i..][0] == Entry(written[i].0, written[i].1);
      assert Entries(written)[i..][1..] == Entries(written)[i + 1..];
      Assoc(out, line, Join(Entries(written)[i + 1..]));
      out := out + line;
      i := i + 1;
    }
    assert out + "" == out;
  }

  lemma {:induction false} KeptFirst(written: Written, lines: seq<string>)
    requires lines != []
    ensures Writes(written, LineKey(lines[0])) ==> Join(Kept(written, lines)) == Join(Kept(written, lines[1..]))
    ensures !Writes(written, LineKey(lines[0])) ==>
              Join(Kept(written, lines)) == (lines[0] + "\n") + Join(Kept(written, lines[1..]))
  {
    var rest := Kept(written, lines[1..]);
    assert [] + rest == rest;
    assert ([lines[0]] + rest)[1..] == rest;
  }

  /** What a line answers when `want` is looked up. */
  function Answer(line: string, want: string): Option<string> {
    var l := Trim(line);
    if l != "" && l[0] == '#' then None
    else if HasKey(l) && KeyOf(l) == want && ValueOf(l) != "" then Some(ValueOf(l))
    else None
  }

  function FirstAnswer(lines: seq<string>, want: string): Option<string> {
    if lines == [] then None
    else if Answer(lines[0], want).Some? then Answer(lines[0], want)
    else FirstAnswer(lines[1..], want)
  }

  function Lookup(text: string, want: string): Option<string> {
    FirstAnswer(Lines(text), want)
  }

  method ConfiguredIn(text: string, want: string) returns (found: Option<string>)
    ensures found == Lookup(text, want)
  {
    var lines, i := Lines(text), 0;
    while i < |lines|
      invariant i <= |lines| && FirstAnswer(lines[i..], want) == FirstAnswer(lines, want)
    {
      var line := Trim(lines[i]);
      assert lines[i..][1..] == lines[i + 1..];
      if line == "" || line[0] != '#' {
        if HasKey(line) {
          if KeyOf(line) == want {
            if ValueOf(line) != "" {
              return Some(ValueOf(line));
            }
          }
        }
      }
      i := i + 1;
    }
    return None;
  }

  // ---- the two together -----------------------------------------------------------------------------

  /** Proper names, each once. */
  ghost predicate ProperNames(written: Written) {
    && (forall i :: 0 <= i < |written| ==> Name(written[i].0))
    && (forall i, j :: 0 <= i < j < |written| ==> written[i].0 != written[j].0)
  }

  /** The value ends on the line it begins on, but for white space. */
  predicate EndsOnItsLine(value: string) {
    '\n' !in TrimEnd(value)
  }

  ghost predicate Readable(written: Written) {
    ProperNames(written) && forall i :: 0 <= i < |written| ==> EndsOnItsLine(written[i].1)
  }

  lemma {:induction false} EntryAnswers(name: string, value: string, want: string)
    requires Name(name)
    ensures Answer(Entry(name, value), want) == if name == want && Trim(value) != "" then Some(Trim(value)) else None
  {
    var line := Entry(name, value);
    EntryReads(name, value);
    TrimKeepsEntry(line);
    EntryStarts(name, value);
  }

  lemma {:induction false} AnswerStripped(line: string, want: string)
    ensures Answer(StripReturn(line), want) == Answer(line, want) && LineKey(StripReturn(line)) == LineKey(line)
  {
    if line != "" && line[|line| - 1] == '\r' {
      var l := line[..|line| - 1];
      assert line == l + "\r" && line == "" + l + "\r";
      TrimAppend(l, "\r");
      Padding("", l, "\r");
    }
  }

  lemma {:induction false} AnswersAppend(a: seq<string>, b: seq<string>, want: string)
    ensures FirstAnswer(a + b, want) == if FirstAnswer(a, want).Some? then FirstAnswer(a, want) else FirstAnswer(b, want)
  {
    if a == [] {
      assert a + b == b;
    } else {
      AnswersAppend(a[1..], b, want);
      assert (a + b)[1..] == a[1..] + b;
    }
  }

  lemma {:induction false} StripAnswers(ls: seq<string>, want: string)
    ensures FirstAnswer(Strip(ls), want) == FirstAnswer(ls, want)
  {
    if ls != [] {
      StripAnswers(ls[1..], want);
      AnswerStripped(ls[0], want);
      assert Strip(ls)[1..] == Strip(ls[1..]);
    }
  }

  /** A line answers only for its own key. */
  lemma {:induction false} AnswerIsForKey(line: string, want: string)
    requires Answer(line, want).Some?
    ensures LineKey(line) == want
  {
    TrimKeepsEntry(line);
  }

  lemma {:induction false} KeptAnswers(written: Written, lines: seq<string>, want: string)
    ensures FirstAnswer(Kept(written, lines), want) == if Writes(written, want) then None else FirstAnswer(lines, want)
  {
    if lines != [] {
      var rest := Kept(written, lines[1..]);
      KeptAnswers(written, lines[1..], want);
      assert [] + rest == rest && ([lines[0]] + rest)[1..] == rest;
      if Answer(lines[0], want).Some? {
        AnswerIsForKey(lines[0], want);
      }
    }
  }

  // ---- the lines an entry takes up ------------------------------------------------------------------

  lemma {:induction false} BrokenAt(t: string, k: nat)
    requires k < |t| && t[k] == '\n'
    ensures t[..k] + "\n" + (t[k + 1..] + "\n") == t + "\n"
  {
  }

  lemma {:induction false} SplitJoins(t: string)
    ensures Join(SplitOn(t, '\n')) == t + "\n" && Unbroken(SplitOn(t, '\n'))
  {
    var k := Find(t, '\n');
    if k < |t| {
      var rest := SplitOn(t[k + 1..], '\n');
      SplitJoins(t[k + 1..]);
      assert ([t[..k]] + rest)[1..] == rest;
      BrokenAt(t, k);
    } else {
      assert [t][1..] == [] && t + "\n" + "" == t + "\n";
    }
  }

  /** The lines the entries take up. */
  function Spread(written: Written): seq<string> {
    if written == [] then [] else SplitOn(Entry(written[0].0, written[0].1), '\n') + Spread(written[1..])
  }

  lemma {:induction false} SpreadJoins(written: Written)
    ensures Join(Spread(written)) == Join(Entries(written)) && Unbroken(Spread(written))
  {
    if written != [] {
      var first, rest := Entry(written[0].0, written[0].1), written[1..];
      SplitJoins(first);
      SpreadJoins(rest);
      JoinAppend(SplitOn(first, '\n'), Spread(rest));
      assert Entries(written)[1..] == Entries(rest);
      UnbrokenAppend(SplitOn(first, '\n'), Spread(rest));
    }
  }

  /** The lines of a written file, whatever was written. */
  lemma {:induction false} SpreadLines(text: string, written: Written)
    ensures Lines(WriteSpec(text, written)) == Strip(Kept(written, Lines(text))) + Strip(Spread(written))
  {
    var kept := Kept(written, Lines(text));
    LinesUnbroken(text);
    KeptUnbroken(written, Lines(text));
    SpreadJoins(written);
    JoinAppend(kept, Entries(written));
    JoinAppend(kept, Spread(written));
    UnbrokenAppend(kept, Spread(written));
    LinesOfJoin(kept + Spread(written));
    StripAppend(kept, Spread(written));
  }

  lemma {:induction false} FirstOfLines(line: string, rest: seq<string>, want: string)
    ensures FirstAnswer([line] + rest, want) == if Answer(line, want).Some? then Answer(line, want) else FirstAnswer(rest, want)
  {
    assert ([line] + rest)[1..] == rest;
  }

  lemma {:induction false} BlankAnswers(w: string, want: string)
    requires AllWhite(w)
    ensures FirstAnswer(SplitOn(w, '\n'), want).None?
  {
    var k := Find(w, '\n');
    TrimEmpty(w[..k]);
    if k < |w| {
      BlankAnswers(w[k + 1..], want);
      FirstOfLines(w[..k], SplitOn(w[k + 1..], '\n'), want);
    } else {
      assert w[..k] == w && [w][1..] == [];
    }
  }

  /** The lines below the first. */
  function Below(value: string): seq<string> {
    var k := Find(value, '\n');
    if k == |value| then [] else SplitOn(value[k + 1..], '\n')
  }

  lemma {:induction false} SplitFirst(line: string, a: string, b: string)
    requires '\n' !in a && line == a + "\n" + b
    ensures SplitOn(line, '\n') == [a] + SplitOn(b, '\n')
  {
    assert line[|a|] == '\n' && line[..|a|] == a && line[|a| + 1..] == b;
    FindIs(line, '\n', |a|);
  }

  lemma {:induction false} SplitLast(line: string)
    requires '\n' !in line
    ensures SplitOn(line, '\n') == [line]
  {
    FindIs(line, '\n', |line|);
  }

  lemma {:induction false} BreakBehind(head: string, value: string, k: nat)
    requires k < |value| && value[k] == '\n'
    ensures head + value == head + value[..k] + "\n" + value[k + 1..]
  {
  }

  lemma {:induction false} FirstSplit(head: string, value: string)
    requires '\n' !in head
    ensures SplitOn(head + value, '\n') == [head + value[..Find(value, '\n')]] + Below(value)
  {
    var k := Find(value, '\n');
    if k < |value| {
      BreakBehind(head, value, k);
      SplitFirst(head + value, head + value[..k], value[k + 1..]);
    } else {
      assert value[..k] == value;
      SplitLast(head + value);
      assert [head + value] + [] == [head + value];
    }
  }

  /** The first line of an entry, and what lies below it. */
  lemma {:induction false} EntrySplits(name: string, value: string, want: string)
    requires Name(name)
    ensures var first := Trim(value[..Find(value, '\n')]);
      FirstAnswer(SplitOn(Entry(name, value), '\n'), want) ==
      if name == want && first != "" then Some(first) else FirstAnswer(Below(value), want)
  {
    var k := Find(value, '\n');
    FirstSplit(name + " = ", value);
    EntryAnswers(name, value[..k], want);
    FirstOfLines(Entry(name, value[..k]), Below(value), want);
  }

  lemma {:induction false} FirstLineOfValue(value: string)
    requires EndsOnItsLine(value)
    ensures Trim(value[..Find(value, '\n')]) == Trim(value) && AllWhite(value[Find(value, '\n')..])
  {
    var k, n := Find(value, '\n'), |TrimEnd(value)|;
    TrimEndSplits(value);
    assert k >= n;
    assert value[k..] == value[n..][k - n..];
    assert value[..k] + value[k..] == value;
    TrimAppend(value[..k], value[k..]);
  }

  /** An entry whose value ends on its line answers for its name with that value, and for nothing else. */
  lemma {:induction false} PiecesAnswer(name: string, value: string, want: string)
    requires Name(name) && EndsOnItsLine(value)
    ensures FirstAnswer(SplitOn(Entry(name, value), '\n'), want) == if name == want && Trim(value) != "" then Some(Trim(value)) else None
  {
    var k := Find(value, '\n');
    EntrySplits(name, value, want);
    FirstLineOfValue(value);
    if k < |value| {
      assert value[k + 1..] == value[k..][1..];
      BlankAnswers(value[k + 1..], want);
    }
  }

  lemma {:induction false} NoSpreadAnswers(written: Written, want: string)
    requires Readable(written) && !Writes(written, want)
    ensures FirstAnswer(Spread(written), want).None?
  {
    if written != [] {
      PiecesAnswer(written[0].0, written[0].1, want);
      AnswersAppend(SplitOn(Entry(written[0].0, written[0].1), '\n'), Spread(written[1..]), want);
      assert Writes(written[1..], want) ==> Writes(written, want);
      NoSpreadAnswers(written[1..], want);
    }
  }

  lemma {:induction false} SpreadAppend(a: Written, b: Written)
    ensures Spread(a + b) == Spread(a) + Spread(b)
  {
    if a == [] {
      assert a + b == b;
    } else {
      SpreadAppend(a[1..], b);
      assert (a + b)[1..] == a[1..] + b;
      assert (a + b)[0] == a[0];
      Assoc(SplitOn(Entry(a[0].0, a[0].1), '\n'), Spread(a[1..]), Spread(b));
    }
  }

  lemma {:induction false} MiddleAnswers(a: seq<string>, b: seq<string>, c: seq<string>, want: string)
    requires FirstAnswer(a, want).None? && FirstAnswer(c, want).None?
    ensures FirstAnswer(a + (b + c), want) == FirstAnswer(b, want)
  {
    AnswersAppend(a, b + c, want);
    AnswersAppend(b, c, want);
  }

  lemma {:induction false} SpreadAround(written: Written, i: nat)
    requires i < |written|
    ensures Spread(written) == Spread(written[..i]) + (SplitOn(Entry(written[i].0, written[i].1), '\n') + Spread(written[i + 1..]))
  {
    var from := written[i..];
    assert written == written[..i] + from && from[1..] == written[i + 1..];
    SpreadAppend(written[..i], from);
  }

  lemma {:induction false} OthersReadable(written: Written, i: nat)
    requires ProperNames(written) && i < |written|
    requires forall j :: 0 <= j < |written| && j != i ==> EndsOnItsLine(written[j].1)
    ensures Readable(written[..i]) && !Writes(written[..i], written[i].0)
    ensures Readable(written[i + 1..]) && !Writes(written[i + 1..], written[i].0)
  {
  }

  /** Only its own entry answers for a written name. */
  lemma {:induction false} OwnEntryAnswers(written: Written, i: nat)
    requires ProperNames(written) && i < |written|
    requires forall j :: 0 <= j < |written| && j != i ==> EndsOnItsLine(written[j].1)
    ensures FirstAnswer(Spread(written), written[i].0) == FirstAnswer(SplitOn(Entry(written[i].0, written[i].1), '\n'), written[i].0)
  {
    var want := written[i].0;
    OthersReadable(written, i);
    NoSpreadAnswers(written[..i], want);
    NoSpreadAnswers(written[i + 1..], want);
    SpreadAround(written, i);
    MiddleAnswers(Spread(written[..i]), SplitOn(Entry(want, written[i].1), '\n'), Spread(written[i + 1..]), want);
  }

  lemma {:induction false} StripAppend(a: seq<string>, b: seq<string>)
    ensures Strip(a + b) == Strip(a) + Strip(b)
  {
  }

  lemma {:induction false} UnbrokenAppend(a: seq<string>, b: seq<string>)
    requires Unbroken(a) && Unbroken(b)
    ensures Unbroken(a + b)
  {
  }

  lemma {:induction false} KeptUnbroken(written: Written, lines: seq<string>)
    requires Unbroken(lines)
    ensures Unbroken(Kept(written, lines))
  {
    if lines != [] {
      assert Unbroken(lines[1..]) by {
        forall i | 0 <= i < |lines[1..]|
          ensures '\n' !in lines[1..][i]
        {
          assert lines[1..][i] == lines[i + 1];
        }
      }
      KeptUnbroken(written, lines[1..]);
      assert '\n' !in lines[0];
    }
  }

  lemma {:induction false} LookupWritten(text: string, written: Written, want: string)
    ensures Lookup(WriteSpec(text, written), want) ==
            if !Writes(written, want) && Lookup(text, want).Some? then Lookup(text, want) else FirstAnswer(Spread(written), want)
  {
    var kept := Kept(written, Lines(text));
    SpreadLines(text, written);
    AnswersAppend(Strip(kept), Strip(Spread(written)), want);
    StripAnswers(kept, want);
    StripAnswers(Spread(written), want);
    KeptAnswers(written, Lines(text), want);
  }

  /** What was written is what a lookup finds, without the white space around it; an empty value is no
      value, and nothing older shows through. */
  lemma {:induction false} PutGet(text: string, written: Written, i: nat)
    requires Readable(written) && i < |written|
    ensures Lookup(WriteSpec(text, written), written[i].0) ==
            if Trim(written[i].1) != "" then Some(Trim(written[i].1)) else None
  {
    assert Writes(written, written[i].0);
    LookupWritten(text, written, written[i].0);
    OwnEntryAnswers(written, i);
    PiecesAnswer(written[i].0, written[i].1, written[i].0);
  }

  /** Every other key answers as before, whatever the file looks like. */
  lemma {:induction false} OtherKeysKept(text: string, written: Written, want: string)
    requires Readable(written) && !Writes(written, want)
    ensures Lookup(WriteSpec(text, written), want) == Lookup(text, want)
  {
    LookupWritten(text, written, want);
    NoSpreadAnswers(written, want);
  }

  /** Writing the same keys again is as good as having written only the second time. */
  lemma {:induction false} PutPut(text: string, first: Written, second: Written, want: string)
    requires Readable(first) && Readable(second) && forall k :: Writes(first, k) <==> Writes(second, k)
    ensures Lookup(WriteSpec(WriteSpec(text, first), second), want) == Lookup(WriteSpec(text, second), want)
  {
    LookupWritten(WriteSpec(text, first), second, want);
    LookupWritten(text, second, want);
    if !Writes(second, want) {
      OtherKeysKept(text, first, want);
    }
  }

  /** The five entries `choir join` records. */
  function HomeEntries(api: string, channel: string, keyFile: string, invite: string, repos: string): Written {
    [("node", TrimSlashes(api)), ("channel", channel), ("key", keyFile), ("invite", invite), ("repos", repos)]
  }

  lemma {:induction false} OneLineEnds(value: string)
    requires '\n' !in value
    ensures EndsOnItsLine(value)
  {
    assert TrimEnd(value) <= value;
  }

  lemma {:induction false} HomeNamesAreProper(api: string, channel: string, keyFile: string, invite: string, repos: string)
    ensures ProperNames(HomeEntries(api, channel, keyFile, invite, repos))
  {
    HomeNames();
  }

  lemma {:induction false} HomeEntriesWritable(api: string, channel: string, keyFile: string, invite: string, repos: string)
    requires '\n' !in api && '\n' !in channel && '\n' !in keyFile && '\n' !in invite && '\n' !in repos
    ensures Readable(HomeEntries(api, channel, keyFile, invite, repos))
  {
    HomeNamesAreProper(api, channel, keyFile, invite, repos);
    assert TrimSlashes(api) <= api;
    OneLineEnds(TrimSlashes(api));
    OneLineEnds(channel);
    OneLineEnds(keyFile);
    OneLineEnds(invite);
    OneLineEnds(repos);
  }

  lemma {:induction false} HomeNames()
    ensures Name("node") && Name("channel") && Name("key") && Name("invite") && Name("repos")
  {
    PlainIsName("node");
    PlainIsName("channel");
    PlainIsName("key");
    PlainIsName("invite");
    PlainIsName("repos");
  }

  lemma {:induction false} HomeKeys(api: string, channel: string, keyFile: string, invite: string, repos: string, want: string)
    requires want !in ["node", "channel", "key", "invite", "repos"]
    ensures !Writes(HomeEntries(api, channel, keyFile, invite, repos), want)
  {
    var keys := ["node", "channel", "key", "invite", "repos"];
    assert keys[0] != want && keys[1] != want && keys[2] != want && keys[3] != want && keys[4] != want;
  }

  /** What a value reads back as. */
  function Value(value: string): Option<string> {
    if Trim(value) != "" then Some(Trim(value)) else None
  }

  /** After `choir join`, the five keys it writes answer with what it was given, and a key it does not write,
      such as one `choir init` wrote, answers as it did. */
  lemma {:induction false} JoinedHome(text: string, api: string, channel: string, keyFile: string, invite: string, repos: string, want: string)
    requires '\n' !in api && '\n' !in channel && '\n' !in keyFile && '\n' !in invite && '\n' !in repos
    requires want !in ["node", "channel", "key", "invite", "repos"]
    ensures var after := WriteSpec(text, HomeEntries(api, channel, keyFile, invite, repos));
      && Lookup(after, "node") == Value(TrimSlashes(api)) && Lookup(after, "channel") == Value(channel)
      && Lookup(after, "key") == Value(keyFile) && Lookup(after, "invite") == Value(invite) && Lookup(after, "repos") == Value(repos)
      && Lookup(after, want) == Lookup(text, want)
  {
    var written := HomeEntries(api, channel, keyFile, invite, repos);
    HomeEntriesWritable(api, channel, keyFile, invite, repos);
    PutGet(text, written, 0);
    PutGet(text, written, 1);
    PutGet(text, written, 2);
    PutGet(text, written, 3);
    PutGet(text, written, 4);
    HomeKeys(api, channel, keyFile, invite, repos, want);
    OtherKeysKept(text, written, want);
  }

  lemma {:induction false} TrimIsOneLine(s: string)
    requires '\n' !in s
    ensures '\n' !in Trim(s)
  {
    var w, v := TrimSplits(s);
    forall i | 0 <= i < |Trim(s)|
      ensures Trim(s)[i] != '\n'
    {
      assert s[|w| + i] == Trim(s)[i];
    }
  }

  lemma {:induction false} AnswerIsOneLine(line: string, want: string)
    requires '\n' !in line
    ensures Answer(line, want).Some? ==> '\n' !in Answer(line, want).value
  {
    var l := Trim(line);
    TrimIsOneLine(line);
    KeyFound(l);
    if HasKey(l) {
      TrimIsOneLine(l[Find(l, '=') + 1..]);
    }
  }

  lemma {:induction false} AnswersAreOneLine(ls: seq<string>, want: string)
    requires Unbroken(ls)
    ensures FirstAnswer(ls, want).Some? ==> '\n' !in FirstAnswer(ls, want).value
  {
    if ls != [] {
      AnswerIsOneLine(ls[0], want);
      assert forall i :: 0 <= i < |ls[1..]| ==> ls[1..][i] == ls[i + 1];
      AnswersAreOneLine(ls[1..], want);
    }
  }

  /** A value with a line break inside is never what a lookup finds. */
  lemma {:induction false} LineBreaksAreLost(text: string, written: Written, i: nat)
    requires i < |written| && '\n' in Trim(written[i].1)
    ensures Lookup(WriteSpec(text, written), written[i].0) != Some(Trim(written[i].1))
  {
    LinesUnbroken(WriteSpec(text, written));
    AnswersAreOneLine(Lines(WriteSpec(text, written)), written[i].0);
  }

  /** A stretch of text that does not begin or end in white space survives trimming. */
  lemma {:induction false} Survives(s: string, p: nat, q: nat)
    requires p <= q < |s| && !White(s[p]) && !White(s[q])
    ensures q - p < |Trim(s)|
  {
    var w, v := TrimSplits(s);
    var n := |w| + |Trim(s)|;
    assert forall i :: 0 <= i < |w| ==> s[i] == w[i];
    assert forall i :: n <= i < |s| ==> s[i] == v[i - n];
    assert |w| <= p && q < n;
  }

  lemma {:induction false} TrimmedEnds(s: string)
    requires Trim(s) != ""
    ensures !White(Trim(s)[0]) && !White(Trim(s)[|Trim(s)| - 1])
  {
    assert Trim(s) <= TrimStart(s);
  }

  /** No part of a text is longer than the text once both are trimmed. */
  lemma {:induction false} PartIsShorter(s: string, p: nat, q: nat)
    requires p <= q <= |s|
    ensures |Trim(s[p..q])| <= |Trim(s)|
  {
    var part := s[p..q];
    if Trim(part) != "" {
      var w, v := TrimSplits(part);
      TrimmedEnds(part);
      var last := |w| + |Trim(part)| - 1;
      assert part[|w|] == Trim(part)[0] && part[last] == Trim(part)[|Trim(part)| - 1];
      assert s[p + |w|] == part[|w|] && s[p + last] == part[last];
      Survives(s, p + |w|, p + last);
    }
  }

  /** What a line answers is shorter than the line. */
  lemma {:induction false} AnswerIsShorter(line: string, want: string)
    requires Answer(line, want).Some?
    ensures |Answer(line, want).value| < |Trim(line)|
  {
    var l := Trim(line);
    KeyFound(l);
    var w, v := TrimSplits(l[Find(l, '=') + 1..]);
  }

  lemma {:induction false} FrontPiece(t: string, k: nat, want: string)
    requires k <= |t| && Answer(t[..k], want).Some?
    ensures |Answer(t[..k], want).value| < |Trim(t)|
  {
    AnswerIsShorter(t[..k], want);
    PartIsShorter(t, 0, k);
    assert t[0..k] == t[..k];
  }

  lemma {:induction false} BackPiece(t: string, k: nat)
    requires k < |t|
    ensures |Trim(t[k + 1..])| <= |Trim(t)|
  {
    PartIsShorter(t, k + 1, |t|);
    assert t[k + 1..|t|] == t[k + 1..];
  }

  /** What the line answers if it does, and the rest otherwise, is shorter than so much. */
  ghost predicate Shorter(found: Option<string>, n: nat) {
    found.Some? ==> |found.value| < n
  }

  lemma {:induction false} OneMorePiece(t: string, k: nat, want: string)
    requires k == Find(t, '\n') < |t| && Shorter(FirstAnswer(SplitOn(t[k + 1..], '\n'), want), |Trim(t[k + 1..])|)
    ensures Shorter(FirstAnswer(SplitOn(t, '\n'), want), |Trim(t)|)
  {
    BackPiece(t, k);
    FirstOfLines(t[..k], SplitOn(t[k + 1..], '\n'), want);
    if Answer(t[..k], want).Some? {
      FrontPiece(t, k, want);
    }
  }

  lemma {:induction false} LastPiece(t: string, want: string)
    requires '\n' !in t
    ensures Shorter(FirstAnswer(SplitOn(t, '\n'), want), |Trim(t)|)
  {
    FirstOfLines(t, [], want);
    assert [t] + [] == [t];
    if Answer(t, want).Some? {
      AnswerIsShorter(t, want);
    }
  }

  lemma {:induction false} PieceIsShorter(t: string, want: string)
    ensures Shorter(FirstAnswer(SplitOn(t, '\n'), want), |Trim(t)|)
  {
    var k := Find(t, '\n');
    if k < |t| {
      PieceIsShorter(t[k + 1..], want);
      OneMorePiece(t, k, want);
    } else {
      LastPiece(t, want);
    }
  }

  /** Among values that can be read back, a value that is not empty reads back exactly when it ends on the
      line it begins on, white space apart. */
  lemma {:induction false} ReadsBackExactly(text: string, written: Written, i: nat)
    requires ProperNames(written) && i < |written| && Trim(written[i].1) != ""
    requires forall j :: 0 <= j < |written| && j != i ==> EndsOnItsLine(written[j].1)
    ensures Lookup(WriteSpec(text, written), written[i].0) == Some(Trim(written[i].1)) <==> EndsOnItsLine(written[i].1)
  {
    var (name, value) := written[i];
    if EndsOnItsLine(value) {
      PutGet(text, written, i);
    } else if '\n' in Trim(value) {
      LineBreaksAreLost(text, written, i);
    } else {
      assert Writes(written, name);
      LookupWritten(text, written, name);
      OwnEntryAnswers(written, i);
      LeadingBreakIsLost(name, value);
    }
  }

  lemma {:induction false} LeadingBreakIsLost(name: string, value: string)
    requires Name(name) && Trim(value) != "" && '\n' !in Trim(value) && !EndsOnItsLine(value)
    ensures FirstAnswer(SplitOn(Entry(name, value), '\n'), name) != Some(Trim(value))
  {
    var k := Find(value, '\n');
    var w, v := TrimSplits(value);
    TrimmedEnds(value);
    BreakInFront(w, Trim(value), v, value, k);
    EntrySplits(name, value, name);
    TrimEmpty(value[..k]);
    BelowIsShorter(value, k, name);
  }

  lemma {:induction false} BelowIsShorter(value: string, k: nat, want: string)
    requires k == Find(value, '\n') < |value| && AllWhite(value[..k])
    ensures FirstAnswer(Below(value), want).Some? ==> |FirstAnswer(Below(value), want).value| < |Trim(value)|
  {
    RestOfValue(value, k);
    PieceIsShorter(value[k + 1..], want);
  }

  lemma {:induction false} RestOfValue(value: string, k: nat)
    requires k < |value| && value[k] == '\n' && AllWhite(value[..k])
    ensures Trim(value[k + 1..]) == Trim(value)
  {
    var front := value[..k] + "\n";
    assert value == front + value[k + 1..];
    TrimPrepend(front, value[k + 1..]);
  }

  lemma {:induction false} BreakInFront(w: string, m: string, v: string, value: string, k: nat)
    requires value == w + m + v && AllWhite(w) && AllWhite(v) && m != "" && !White(m[|m| - 1]) && '\n' !in m
    requires k == Find(value, '\n') && !EndsOnItsLine(value)
    ensures k < |w| && AllWhite(value[..k])
  {
    TrimEndAppend(w + m, v);
    assert (w + m)[|w + m| - 1] == m[|m| - 1];
    assert TrimEnd(w + m) == w + m;
    assert '\n' in w;
    var i :| 0 <= i < |w| && w[i] == '\n';
    assert value[i] == '\n';
    forall j | 0 <= j < k
      ensures White(value[..k][j])
    {
      assert value[j] == w[j];
    }
  }

  predicate Comment(line: string) {
    Trim(line) != "" && Trim(line)[0] == '#'
  }

  ghost function Uncommented(lines: seq<string>): seq<string> {
    if lines == [] then []
    else (if Comment(lines[0]) then [] else [lines[0]]) + Uncommented(lines[1..])
  }

  /** What a comment says is no answer to anything. */
  lemma {:induction false} CommentsAnswerNothing(lines: seq<string>, want: string)
    ensures FirstAnswer(lines, want) == FirstAnswer(Uncommented(lines), want)
  {
    if lines != [] {
      var rest := Uncommented(lines[1..]);
      CommentsAnswerNothing(lines[1..], want);
      assert [] + rest == rest && ([lines[0]] + rest)[1..] == rest;
    }
  }

  /** A line of one of the written keys. */
  ghost predicate Replaced(written: Written, line: string) {
    HasKey(line) && exists i :: 0 <= i < |written| && written[i].0 == KeyOf(line)
  }

  /** The lines of other keys, and those of none, are kept as they were, in order. */
  lemma {:induction false} OtherLinesKept(written: Written, lines: seq<string>)
    requires ProperNames(written)
    ensures Kept(written, lines) == Unreplaced(written, lines)
  {
    if lines != [] {
      OtherLinesKept(written, lines[1..]);
    }
  }

  ghost function Unreplaced(written: Written, lines: seq<string>): seq<string> {
    if lines == [] then []
    else (if Replaced(written, lines[0]) then [] else [lines[0]]) + Unreplaced(written, lines[1..])
  }

  // ---- the text itself ------------------------------------------------------------------------------------

  lemma {:induction false} KeptHead(written: Written, l: string, rest: seq<string>)
    ensures Kept(written, [l] + rest) == if Writes(written, LineKey(l)) then Kept(written, rest) else [l] + Kept(written, rest)
  {
    assert ([l] + rest)[1..] == rest;
  }

  lemma {:induction false} KeptAppend(written: Written, a: seq<string>, b: seq<string>)
    ensures Kept(written, a + b) == Kept(written, a) + Kept(written, b)
  {
    if a == [] {
      assert a + b == b;
    } else {
      var l, rest := a[0], a[1..];
      assert a == [l] + rest && a + b == [l] + (rest + b);
      KeptAppend(written, rest, b);
      KeptHead(written, l, rest);
      KeptHead(written, l, rest + b);
      Assoc([l], Kept(written, rest), Kept(written, b));
    }
  }

  lemma {:induction false} KeptOfKept(first: Written, second: Written, lines: seq<string>)
    requires forall k :: Writes(first, k) <==> Writes(second, k)
    ensures Kept(second, Strip(Kept(first, lines))) == Strip(Kept(second, lines)) == Strip(Kept(first, lines))
  {
    if lines != [] {
      KeptOfKept(first, second, lines[1..]);
      var l, rest := lines[0], Kept(first, lines[1..]);
      AnswerStripped(l, "");
      if Writes(first, LineKey(l)) {
        assert [] + rest == rest && [] + Kept(second, lines[1..]) == Kept(second, lines[1..]);
      } else {
        assert ([l] + rest)[1..] == rest && ([l] + Kept(second, lines[1..]))[1..] == Kept(second, lines[1..]);
        assert ([StripReturn(l)] + Strip(rest))[1..] == Strip(rest);
      }
    }
  }

  /** All of these lines are of keys that `written` has. */
  ghost predicate AllWritten(written: Written, lines: seq<string>) {
    forall l :: l in lines ==> Writes(written, LineKey(l))
  }

  lemma {:induction false} KeptNothing(written: Written, lines: seq<string>)
    ensures Kept(written, Strip(lines)) == [] <==> AllWritten(written, lines)
  {
    if lines != [] {
      var rest := lines[1..];
      KeptNothing(written, rest);
      AnswerStripped(lines[0], "");
      KeptHead(written, StripReturn(lines[0]), Strip(rest));
      assert lines == [lines[0]] + rest && Strip(lines) == [StripReturn(lines[0])] + Strip(rest);
    }
  }

  /** The values have nothing below their first lines but lines of keys that are written too. */
  ghost predicate LeavesNothing(written: Written, entries: Written) {
    forall x :: x in entries ==> AllWritten(written, Below(x.1))
  }

  lemma {:induction false} EntryWritten(written: Written, name: string, value: string)
    requires Name(name) && Writes(written, name)
    ensures AllWritten(written, SplitOn(Entry(name, value), '\n')) <==> AllWritten(written, Below(value))
  {
    var k := Find(value, '\n');
    var line := name + " = " + value[..k];
    FirstSplit(name + " = ", value);
    EntryReads(name, value[..k]);
    assert LineKey(line) == name;
    assert forall l :: l in [line] + Below(value) <==> l == line || l in Below(value);
  }

  lemma {:induction false} LeavesOneMore(written: Written, entries: Written)
    requires entries != []
    ensures LeavesNothing(written, entries) <==> AllWritten(written, Below(entries[0].1)) && LeavesNothing(written, entries[1..])
  {
    assert entries == [entries[0]] + entries[1..];
    assert forall x :: x in entries <==> x == entries[0] || x in entries[1..];
  }

  lemma {:induction false} SpreadWritten(written: Written, entries: Written)
    requires forall i :: 0 <= i < |entries| ==> Name(entries[i].0) && Writes(written, entries[i].0)
    ensures AllWritten(written, Spread(entries)) <==> LeavesNothing(written, entries)
  {
    if entries != [] {
      var first, rest := SplitOn(Entry(entries[0].0, entries[0].1), '\n'), entries[1..];
      SpreadWritten(written, rest);
      EntryWritten(written, entries[0].0, entries[0].1);
      assert forall l :: l in first + Spread(rest) <==> l in first || l in Spread(rest);
      LeavesOneMore(written, entries);
    }
  }

  lemma {:induction false} StripUnbroken(ls: seq<string>)
    requires Unbroken(ls)
    ensures Unbroken(Strip(ls))
  {
    forall i | 0 <= i < |ls|
      ensures '\n' !in Strip(ls)[i]
    {
      assert StripReturn(ls[i]) <= ls[i];
    }
  }

  /** The two texts are the same when the lines they are made of are. */
  lemma {:induction false} SameLines(kept: seq<string>, extra: seq<string>, entries: string)
    requires Unbroken(kept) && Unbroken(extra)
    ensures Join(Strip(kept) + extra) + entries == Join(kept) + entries <==> Strip(kept) == kept && extra == []
  {
    StripUnbroken(kept);
    UnbrokenAppend(Strip(kept), extra);
    SameTail(Join(Strip(kept) + extra), Join(kept), entries);
    if Join(Strip(kept) + extra) == Join(kept) {
      JoinTells(Strip(kept) + extra, kept);
      assert |extra| == 0;
      assert Strip(kept) + [] == Strip(kept);
    } else {
      assert Strip(kept) + [] == Strip(kept);
    }
  }

  /** The lines of other keys in a file that was written before. */
  lemma {:induction false} KeptTwice(text: string, first: Written, second: Written)
    requires forall k :: Writes(first, k) <==> Writes(second, k)
    ensures Kept(second, Lines(WriteSpec(text, first))) == Strip(Kept(second, Lines(text))) + Kept(second, Strip(Spread(first)))
  {
    SpreadLines(text, first);
    KeptAppend(second, Strip(Kept(first, Lines(text))), Strip(Spread(first)));
    KeptOfKept(first, second, Lines(text));
  }

  /** Writing again leaves the very file that writing once would have, exactly when no kept line still
      ends in a carriage return after losing its line ending, and no value of the first writing had a line
      of another key below its first. */
  lemma {:induction false} RewriteIsStable(text: string, first: Written, second: Written)
    requires ProperNames(first) && forall k :: Writes(first, k) <==> Writes(second, k)
    ensures WriteSpec(WriteSpec(text, first), second) == WriteSpec(text, second)
            <==> Strip(Kept(second, Lines(text))) == Kept(second, Lines(text)) && LeavesNothing(second, first)
  {
    var kept, extra := Kept(second, Lines(text)), Kept(second, Strip(Spread(first)));
    forall i | 0 <= i < |first|
      ensures Writes(second, first[i].0)
    {
      assert Writes(first, first[i].0);
    }
    KeptTwice(text, first, second);
    KeptNothing(second, Spread(first));
    SpreadWritten(second, first);
    LinesUnbroken(text);
    KeptUnbroken(second, Lines(text));
    SpreadJoins(first);
    StripUnbroken(Spread(first));
    KeptUnbroken(second, Strip(Spread(first)));
    JoinAppend(Strip(kept) + extra, Entries(second));
    JoinAppend(kept, Entries(second));
    SameLines(kept, extra, Join(Entries(second)));
  }
}

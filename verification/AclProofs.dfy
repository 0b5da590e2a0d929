/** What `choir acl render` keeps, and exactly when running it again changes nothing. */
module AclProofs {
  import opened Sequences
  import opened Text
  import opened Acl

  // ---- one line ----------------------------------------------------------------------------

  function Bare(line: string): (g: string)
    ensures '#' !in g
  {
    TrimEnd(GrantPart(line))
  }

  lemma {:induction false} TrimEndWhite(s: string)
    ensures TrimEnd(s) == "" <==> AllWhite(s)
  {
    if s != "" && White(s[|s| - 1]) {
      TrimEndWhite(s[..|s| - 1]);
    }
  }

  lemma {:induction false} GrantsIsBare(line: string)
    ensures Grants(line) <==> Bare(line) != ""
  {
    TrimEmpty(GrantPart(line));
    TrimEndWhite(GrantPart(line));
  }

  /** White space at the end of a line is not part of its grant. */
  lemma {:induction false} BareAppend(line: string, w: string)
    requires AllWhite(w)
    ensures Bare(line + w) == Bare(line)
  {
    var k := Find(line, '#');
    if k < |line| {
      FindIs(line + w, '#', k);
      assert (line + w)[..k] == line[..k];
    } else {
      assert '#' !in w;
      FindIs(line + w, '#', |line + w|);
      assert (line + w)[..|line + w|] == line + w && line[..k] == line;
      TrimEndAppend(line, w);
    }
  }

  lemma {:induction false} BareComment(grant: string, roster: Roster)
    requires '#' !in grant && TrimEnd(grant) == grant
    ensures Bare(grant + Comment(grant, roster)) == grant
  {
    var c := Comment(grant, roster);
    if c == "" {
      assert grant + c == grant;
      FindIs(grant, '#', |grant|);
    } else {
      var line := grant + c;
      assert c[..4] == "  # ";
      assert c[0] == ' ' && c[1] == ' ' && c[2] == '#';
      FindIs(line, '#', |grant| + 2);
      assert line[..|grant| + 2] == grant + "  ";
      TrimEndAppend(grant, "  ");
    }
  }

  lemma {:induction false} TrimEndTwice(s: string)
    ensures TrimEnd(TrimEnd(s)) == TrimEnd(s)
  {
    var r := TrimEnd(s);
    assert r == "" || !White(r[|r| - 1]);
  }

  lemma {:induction false} RenderedKeepsGrant(line: string, roster: Roster)
    ensures Bare(Rendered(line, roster)) == Bare(line)
  {
    if Grants(line) {
      TrimEndTwice(GrantPart(line));
      BareComment(Bare(line), roster);
    }
  }

  lemma {:induction false} StripKeepsGrant(line: string)
    ensures Bare(StripReturn(line)) == Bare(line)
  {
    if line != "" && line[|line| - 1] == '\r' {
      BareAppend(line[..|line| - 1], "\r");
      assert line[..|line| - 1] + "\r" == line;
    }
  }

  /** A rendered grant ends in text or in a name, never in a carriage return. */
  lemma {:induction false} GrantHasNoReturn(line: string, roster: Roster)
    requires Grants(line)
    ensures StripReturn(Rendered(line, roster)) == Rendered(line, roster)
  {
    GrantsIsBare(line);
    var grant, c := Bare(line), Comment(Bare(line), roster);
    if c != "" {
      assert (grant + c)[|grant + c| - 1] == c[|c| - 1];
    } else {
      assert grant + c == grant;
      assert !White(grant[|grant| - 1]);
    }
  }

  /** Rendering a rendered line forgets the first roster. */
  lemma {:induction false} RenderedAgain(line: string, first: Roster, second: Roster)
    ensures Rendered(Rendered(line, first), second) == Rendered(line, second)
  {
    RenderedKeepsGrant(line, first);
    GrantsIsBare(line);
    GrantsIsBare(Rendered(line, first));
  }

  lemma {:induction false} RenderedStripped(line: string, roster: Roster)
    ensures Rendered(StripReturn(line), roster) == StripReturn(Rendered(line, roster))
  {
    StripKeepsGrant(line);
    GrantsIsBare(line);
    GrantsIsBare(StripReturn(line));
    if Grants(line) {
      GrantHasNoReturn(line, roster);
    }
  }

  // ---- the header ---------------------------------------------------------------------------

  lemma {:induction false} TrimFirst(s: string)
    requires !AllWhite(s)
    ensures Trim(s) != "" && TrimStart(s) != "" && Trim(s)[0] == TrimStart(s)[0]
  {
    TrimStartWhite(s);
    TrimEndKeeps(TrimStart(s));
  }

  lemma {:induction false} StartOfPrefix(p: string, s: string)
    requires p <= s && !AllWhite(p)
    ensures TrimStart(p) != "" && TrimStart(s) != "" && TrimStart(p)[0] == TrimStart(s)[0]
  {
    TrimStartWhite(p);
    if White(p[0]) {
      TailWhite(p);
      StartOfPrefix(p[1..], s[1..]);
    }
  }

  lemma {:induction false} StartIsIn(p: string)
    requires TrimStart(p) != ""
    ensures TrimStart(p)[0] in p
  {
    if White(p[0]) {
      StartIsIn(p[1..]);
    }
  }

  /** A line that grants anything is not taken for the header. */
  lemma {:induction false} GrantIsNotHeader(header: string, line: string)
    requires Mark(header) && Grants(line)
    ensures Trim(line) != header
  {
    var p := GrantPart(line);
    TrimEmpty(p);
    StartOfPrefix(p, line);
    StartIsIn(p);
    assert AllWhite(line) ==> AllWhite(p);
    TrimFirst(line);
  }

  lemma {:induction false} RenderedIsNotHeader(header: string, line: string, roster: Roster)
    requires Mark(header) && Trim(line) != header
    ensures Trim(Rendered(line, roster)) != header && Trim(StripReturn(Rendered(line, roster))) != header
  {
    StripKeepsTrim(Rendered(line, roster));
    RenderedKeepsGrant(line, roster);
    GrantsIsBare(line);
    GrantsIsBare(Rendered(line, roster));
    if Grants(line) {
      GrantIsNotHeader(header, Rendered(line, roster));
    }
  }

  // ---- the whole file --------------------------------------------------------------------------

  lemma {:induction false} LinesHaveNoBreaks(header: string, lines: seq<string>, roster: Roster)
    requires Unbroken(lines)
    ensures Unbroken(Others(header, lines, roster))
  {
    if lines != [] {
      assert Unbroken(lines[1..]) by {
        forall i | 0 <= i < |lines[1..]|
          ensures '\n' !in lines[1..][i]
        {
          assert lines[1..][i] == lines[i + 1];
        }
      }
      LinesHaveNoBreaks(header, lines[1..], roster);
      assert '\n' !in lines[0];
    }
  }

  /** A rendered file, cut into the lines that end in a line feed and what follows the last one. */
  function Whole(ls: seq<string>, closed: bool): (p: (seq<string>, string))
    requires ls != []
  {
    if closed then (ls, "") else (ls[..|ls| - 1], ls[|ls| - 1])
  }

  lemma {:induction false} ShutIs(ls: seq<string>, closed: bool)
    requires ls != []
    ensures Shut(Join(ls), closed) == Join(Whole(ls, closed).0) + Whole(ls, closed).1
  {
    var n := |ls| - 1;
    assert ls[..n] + [ls[n]] == ls;
    JoinLast(ls[..n], ls[n]);
  }

  lemma {:induction false} LinesOfWhole(front: seq<string>, last: string)
    requires Unbroken(front) && '\n' !in last
    ensures Lines(Join(front) + last) == Strip(front) + Tail(last)
  {
    if last == "" {
      assert Join(front) + last == Join(front);
      LinesOfJoin(front);
      assert Strip(front) + [] == Strip(front);
    } else {
      LinesOfOpen(front, last);
    }
  }

  lemma {:induction false} ClosedWhole(front: seq<string>, last: string)
    requires '\n' !in last && (front != [] || last != "")
    ensures Closed(Join(front) + last) <==> last == ""
  {
    if last == "" {
      var n := |front| - 1;
      assert front[..n] + [front[n]] == front;
      JoinLast(front[..n], front[n]);
      assert Join(front) + last == Join(front);
    } else {
      assert (Join(front) + last)[|Join(front) + last| - 1] == last[|last| - 1];
    }
  }

  ghost predicate NoHeaders(header: string, ls: seq<string>) {
    forall i :: 0 <= i < |ls| ==> Trim(ls[i]) != header
  }

  function Relabel(ls: seq<string>, roster: Roster): (r: seq<string>)
    ensures |r| == |ls| && forall i :: 0 <= i < |ls| ==> r[i] == Rendered(ls[i], roster)
  {
    if ls == [] then [] else [Rendered(ls[0], roster)] + Relabel(ls[1..], roster)
  }

  lemma {:induction false} OthersAreNotHeaders(header: string, lines: seq<string>, roster: Roster)
    requires Mark(header)
    ensures NoHeaders(header, Others(header, lines, roster))
  {
    if lines != [] {
      OthersAreNotHeaders(header, lines[1..], roster);
      if Trim(lines[0]) != header {
        RenderedIsNotHeader(header, lines[0], roster);
      }
    }
  }

  lemma {:induction false} OthersOfClean(header: string, ls: seq<string>, roster: Roster)
    requires NoHeaders(header, ls)
    ensures Others(header, ls, roster) == Relabel(ls, roster)
  {
    if ls != [] {
      assert NoHeaders(header, ls[1..]);
      OthersOfClean(header, ls[1..], roster);
    }
  }

  /** The lines of a file rendered under one roster, rendered under another. */
  lemma {:induction false} OthersAgain(header: string, lines: seq<string>, first: Roster, second: Roster)
    ensures Relabel(Others(header, lines, first), second) == Others(header, lines, second)
  {
    if lines != [] {
      OthersAgain(header, lines[1..], first, second);
      RenderedAgain(lines[0], first, second);
      var one, rest := Rendered(lines[0], first), Others(header, lines[1..], first);
      assert ([one] + rest)[1..] == rest;
    }
  }

  lemma {:induction false} HeaderIsPlain(header: string, roster: Roster)
    requires Mark(header)
    ensures Rendered(header, roster) == header && StripReturn(header) == header
  {
    FindIs(header, '#', 0);
    TrimEmpty(GrantPart(header));
  }

  /** Everything a rendering writes, header first. */
  function Sheet(header: string, text: string, roster: Roster): (ls: seq<string>)
    ensures ls != [] && ls[0] == header
  {
    [header] + Others(header, Lines(text), roster)
  }

  lemma {:induction false} SheetAgain(header: string, text: string, first: Roster, second: Roster)
    requires Mark(header)
    ensures Relabel(Sheet(header, text, first), second) == Sheet(header, text, second)
    ensures Unbroken(Sheet(header, text, first)) && NoHeaders(header, Sheet(header, text, first)[1..])
  {
    LinesUnbroken(text);
    LinesHaveNoBreaks(header, Lines(text), first);
    OthersAreNotHeaders(header, Lines(text), first);
    OthersAgain(header, Lines(text), first, second);
    HeaderIsPlain(header, second);
    assert Sheet(header, text, first)[1..] == Others(header, Lines(text), first);
  }

  lemma {:induction false} RelabelAppend(a: seq<string>, b: seq<string>, roster: Roster)
    ensures Relabel(a + b, roster) == Relabel(a, roster) + Relabel(b, roster)
  {
  }

  lemma {:induction false} RelabelStripped(ls: seq<string>, roster: Roster)
    ensures Relabel(Strip(ls), roster) == Strip(Relabel(ls, roster))
  {
    forall i | 0 <= i < |ls|
      ensures Relabel(Strip(ls), roster)[i] == Strip(Relabel(ls, roster))[i]
    {
      RenderedStripped(ls[i], roster);
    }
  }

  lemma {:induction false} StrippedAreNotHeaders(header: string, ls: seq<string>)
    requires NoHeaders(header, ls)
    ensures NoHeaders(header, Strip(ls))
  {
    forall i | 0 <= i < |ls|
      ensures Trim(Strip(ls)[i]) != header
    {
      StripKeepsTrim(ls[i]);
    }
  }

  /** Some of the lines, and perhaps a last one more, have no header if the lines have none. */
  lemma {:induction false} FewerHeaders(header: string, ls: seq<string>, all: seq<string>)
    requires NoHeaders(header, all) && |ls| <= |all|
    requires forall i :: 0 <= i < |ls| ==> ls[i] == all[i] || ls[i] == StripReturn(all[i])
    ensures NoHeaders(header, ls)
  {
    forall i | 0 <= i < |ls|
      ensures Trim(ls[i]) != header
    {
      StripKeepsTrim(all[i]);
    }
  }

  lemma {:induction false} HeaderLeads(header: string, sheet: seq<string>, closed: bool)
    requires Mark(header) && sheet != [] && sheet[0] == header && NoHeaders(header, sheet[1..])
    ensures var (front, last) := Whole(sheet, closed);
      var ls := Strip(front) + Tail(last);
      ls != [] && ls[0] == header && NoHeaders(header, ls[1..])
  {
    var (front, last) := Whole(sheet, closed);
    var ls := Strip(front) + Tail(last);
    HeaderIsPlain(header, map[]);
    FewerHeaders(header, ls[1..], sheet[1..]);
  }

  /** The lines a second rendering reads, header first. */
  lemma {:induction false} ReadBack(header: string, text: string, roster: Roster)
    requires Mark(header)
    ensures var (front, last) := Whole(Sheet(header, text, roster), Closed(text));
      var ls := Strip(front) + Tail(last);
      && Lines(RenderSpec(header, text, roster)) == ls
      && ls != [] && ls[0] == header && NoHeaders(header, ls[1..])
      && (Closed(RenderSpec(header, text, roster)) <==> last == "")
  {
    var sheet := Sheet(header, text, roster);
    var (front, last) := Whole(sheet, Closed(text));
    SheetAgain(header, text, roster, roster);
    ShutIs(sheet, Closed(text));
    LinesOfWhole(front, last);
    ClosedWhole(front, last);
    HeaderLeads(header, sheet, Closed(text));
  }

  lemma {:induction false} SheetOfRendered(header: string, text: string, first: Roster, second: Roster)
    requires Mark(header)
    ensures var (front, last) := Whole(Sheet(header, text, second), Closed(text));
      Sheet(header, RenderSpec(header, text, first), second) == Strip(front) + Tail(last)
  {
    var (f1, z1) := Whole(Sheet(header, text, first), Closed(text));
    var (f2, z2) := Whole(Sheet(header, text, second), Closed(text));
    var ls := Strip(f1) + Tail(z1);
    ReadBack(header, text, first);
    OthersOfClean(header, ls[1..], second);
    HeaderIsPlain(header, second);
    assert ls == [header] + ls[1..];
    HeaderSkipped(header, ls[1..], second);
    RelabelAppend([header], ls[1..], second);
    RelabelAppend(Strip(f1), Tail(z1), second);
    RelabelStripped(f1, second);
    SheetAgain(header, text, first, second);
    RelabelWhole(Sheet(header, text, first), Closed(text), second);
    assert Relabel([header], second) == [header];
    TailRelabelled(z1, second);
  }

  lemma {:induction false} HeaderSkipped(header: string, rest: seq<string>, roster: Roster)
    requires Mark(header)
    ensures Others(header, [header] + rest, roster) == Others(header, rest, roster)
  {
    assert ([header] + rest)[1..] == rest;
  }

  lemma {:induction false} TailRelabelled(last: string, roster: Roster)
    ensures Relabel(Tail(last), roster) == Tail(Rendered(last, roster))
  {
    GrantsIsBare(last);
    RenderedKeepsGrant(last, roster);
    if last == "" {
      assert GrantPart(last) == "";
    } else if Grants(last) {
      assert Bare(Rendered(last, roster)) != "" && Bare("") == "";
    }
    assert Tail(last) == [] || Tail(last) == [last];
  }

  lemma {:induction false} RelabelWhole(ls: seq<string>, closed: bool, roster: Roster)
    requires ls != []
    ensures Whole(Relabel(ls, roster), closed).0 == Relabel(Whole(ls, closed).0, roster)
    ensures !closed ==> Whole(Relabel(ls, roster), closed).1 == Rendered(Whole(ls, closed).1, roster)
    ensures closed ==> Whole(Relabel(ls, roster), closed).1 == "" && Rendered("", roster) == ""
  {
    GrantsIsBare("");
  }

  /** Rendering a rendered file is rendering the original under the second roster, but for the
      carriage returns its closed lines still end in. */
  lemma {:induction false} RenderedTwice(header: string, text: string, first: Roster, second: Roster)
    requires Mark(header)
    ensures var (front, last) := Whole(Sheet(header, text, second), Closed(text));
      && RenderSpec(header, text, second) == Join(front) + last
      && RenderSpec(header, RenderSpec(header, text, first), second) == Join(Strip(front)) + last
  {
    var (front, last) := Whole(Sheet(header, text, second), Closed(text));
    var (f1, z1) := Whole(Sheet(header, text, first), Closed(text));
    ShutIs(Sheet(header, text, second), Closed(text));
    SheetOfRendered(header, text, first, second);
    ReadBack(header, text, first);
    SheetAgain(header, text, first, second);
    RelabelWhole(Sheet(header, text, first), Closed(text), second);
    TailRelabelled(z1, second);
    assert z1 == "" <==> last == "";
    ShutIs(Strip(front) + Tail(last), last == "");
    if last == "" {
      assert Strip(front) + Tail(last) == Strip(front);
    } else {
      assert (Strip(front) + [last])[..|Strip(front)|] == Strip(front);
    }
  }

  /** A line that the rendering copies and that still ends in a carriage return once its line ending is
      gone. */
  predicate Stray(header: string, line: string) {
    line != "" && line[|line| - 1] == '\r' && Trim(line) != header && !Grants(line)
  }

  predicate SomeOther(header: string, lines: seq<string>) {
    exists i :: 0 <= i < |lines| && Trim(lines[i]) != header
  }

  /** Some line of the file is stray and will be ended by a line feed: always if the file ends in one, and
      otherwise when a line other than the header comes after it. */
  predicate StrayReturn(header: string, text: string) {
    StrayIn(header, Lines(text), Closed(text))
  }

  predicate StrayIn(header: string, lines: seq<string>, closed: bool) {
    exists i :: 0 <= i < |lines| && Stray(header, lines[i]) && (closed || SomeOther(header, lines[i + 1..]))
  }

  lemma {:induction false} OtherRest(header: string, lines: seq<string>)
    requires lines != []
    ensures SomeOther(header, lines) <==> Trim(lines[0]) != header || SomeOther(header, lines[1..])
  {
    var rest := lines[1..];
    if i :| 0 <= i < |rest| && Trim(rest[i]) != header {
      assert lines[i + 1] == rest[i];
    }
    if i :| 0 <= i < |lines| && Trim(lines[i]) != header {
      assert i > 0 ==> rest[i - 1] == lines[i];
    }
  }

  lemma {:induction false} StrayRest(header: string, lines: seq<string>, closed: bool)
    requires lines != []
    ensures StrayIn(header, lines, closed) <==>
            StrayIn(header, lines[1..], closed) || (Stray(header, lines[0]) && (closed || SomeOther(header, lines[1..])))
  {
    var rest := lines[1..];
    assert forall i :: 0 <= i < |rest| ==> rest[i] == lines[i + 1] && rest[i + 1..] == lines[(i + 1) + 1..];
    if StrayIn(header, lines, closed) {
      var i :| 0 <= i < |lines| && Stray(header, lines[i]) && (closed || SomeOther(header, lines[i + 1..]));
      if i > 0 {
        assert rest[i - 1] == lines[i] && rest[(i - 1) + 1..] == lines[i + 1..];
      }
    }
  }

  /** Some of the lines, all of them or all but the last, would lose a carriage return. */
  ghost predicate Erodes(ls: seq<string>, closed: bool) {
    exists i :: 0 <= i < |ls| && (closed || i < |ls| - 1) && StripReturn(ls[i]) != ls[i]
  }

  lemma {:induction false} ErodesRest(l: string, ls: seq<string>, closed: bool)
    ensures Erodes([l] + ls, closed) <==> Erodes(ls, closed) || (StripReturn(l) != l && (closed || ls != []))
  {
    var all := [l] + ls;
    if i :| 0 <= i < |ls| && (closed || i < |ls| - 1) && StripReturn(ls[i]) != ls[i] {
      assert all[i + 1] == ls[i];
    }
    if i :| 0 <= i < |all| && (closed || i < |all| - 1) && StripReturn(all[i]) != all[i] {
      assert i > 0 ==> ls[i - 1] == all[i];
    }
    if StripReturn(l) != l && (closed || ls != []) {
      assert all[0] == l;
    }
  }

  lemma {:induction false} RenderedStray(header: string, line: string, roster: Roster)
    requires Trim(line) != header
    ensures StripReturn(Rendered(line, roster)) != Rendered(line, roster) <==> Stray(header, line)
  {
    if Grants(line) {
      GrantHasNoReturn(line, roster);
    }
  }

  /** What a rendering copies erodes exactly when a line of the file is stray. */
  lemma {:induction false} OthersErode(header: string, lines: seq<string>, roster: Roster, closed: bool)
    ensures Erodes(Others(header, lines, roster), closed) <==> StrayIn(header, lines, closed)
    ensures Others(header, lines, roster) != [] <==> SomeOther(header, lines)
  {
    if lines != [] {
      var rest := Others(header, lines[1..], roster);
      OthersErode(header, lines[1..], roster, closed);
      StrayRest(header, lines, closed);
      OtherRest(header, lines);
      if Trim(lines[0]) == header {
        assert [] + rest == rest;
      } else {
        RenderedStray(header, lines[0], roster);
        ErodesRest(Rendered(lines[0], roster), rest, closed);
      }
    }
  }

  lemma {:induction false} SheetErodes(header: string, text: string, roster: Roster)
    requires Mark(header)
    ensures var front := Whole(Sheet(header, text, roster), Closed(text)).0; Strip(front) == front <==> !StrayReturn(header, text)
  {
    var sheet, closed := Sheet(header, text, roster), Closed(text);
    var front := Whole(sheet, closed).0;
    OthersErode(header, Lines(text), roster, closed);
    HeaderIsPlain(header, roster);
    ErodesRest(header, Others(header, Lines(text), roster), closed);
    FrontErodes(sheet, closed);
  }

  lemma {:induction false} FrontErodes(sheet: seq<string>, closed: bool)
    requires sheet != []
    ensures Strip(Whole(sheet, closed).0) == Whole(sheet, closed).0 <==> !Erodes(sheet, closed)
  {
    var front := Whole(sheet, closed).0;
    assert forall i :: 0 <= i < |front| ==> Strip(front)[i] == StripReturn(sheet[i]) && front[i] == sheet[i];
  }

  /** A second rendering leaves exactly what rendering once under its roster would have, so nothing of
      the first roster survives, precisely when the file has no stray carriage return. */
  lemma {:induction false} LastRenderingWins(header: string, text: string, first: Roster, second: Roster)
    requires Mark(header)
    ensures RenderSpec(header, RenderSpec(header, text, first), second) == RenderSpec(header, text, second)
            <==> !StrayReturn(header, text)
  {
    var (front, last) := Whole(Sheet(header, text, second), Closed(text));
    RenderedTwice(header, text, first, second);
    JoinStripped(front);
    if Join(Strip(front)) + last == Join(front) + last {
      assert (Join(Strip(front)) + last)[..|Join(Strip(front)) + last| - |last|] == Join(Strip(front));
      assert (Join(front) + last)[..|Join(front) + last| - |last|] == Join(front);
    }
    SheetErodes(header, text, second);
  }

  lemma {:induction false} NoReturnsInLines(text: string)
    requires '\r' !in text
    ensures forall i :: 0 <= i < |Lines(text)| ==> '\r' !in Lines(text)[i]
  {
    if text != "" {
      var k := Find(text, '\n');
      if k < |text| {
        NoReturnsInLines(text[k + 1..]);
      }
    }
  }

  /** On text without a carriage return, rendering twice is rendering once, whoever left or joined in
      between. */
  lemma {:induction false} RenderingSettles(header: string, text: string, first: Roster, second: Roster)
    requires Mark(header) && '\r' !in text
    ensures RenderSpec(header, RenderSpec(header, text, first), second) == RenderSpec(header, text, second)
  {
    NoReturnsInLines(text);
    LastRenderingWins(header, text, first, second);
    forall i | 0 <= i < |Lines(text)|
      ensures !Stray(header, Lines(text)[i])
    {
      assert '\r' !in Lines(text)[i];
    }
  }

  lemma {:induction false} StrayComment(header: string)
    requires header != "# c"
    ensures Stray(header, "# c\r")
  {
    var line := "# c\r";
    TrimAppend("# c", "\r");
    assert line == "# c" + "\r";
    assert TrimStart("# c") == "# c" && TrimEnd("# c") == "# c";
    assert GrantPart(line) == "";
  }

  /** One comment line that ends in two carriage returns: each rendering takes one away. */
  lemma {:induction false} ReturnsErode(header: string, roster: Roster)
    requires Mark(header) && header != "# c"
    ensures RenderSpec(header, RenderSpec(header, "# c\r\r\n", roster), roster) != RenderSpec(header, "# c\r\r\n", roster)
  {
    var line, text := "# c\r", "# c\r\r\n";
    assert text == "# c\r\r" + "\n" + "";
    FirstLine("# c\r\r", "");
    assert StripReturn("# c\r\r") == line && Lines(text) == [line];
    StrayComment(header);
    assert Stray(header, Lines(text)[0]);
    LastRenderingWins(header, text, roster, roster);
  }

  // ---- what the file authorizes -------------------------------------------------------------------

  lemma {:induction false} GrantsAppend(a: seq<string>, b: seq<string>)
    ensures GrantsOf(a + b) == GrantsOf(a) + GrantsOf(b)
  {
    if a == [] {
      assert a + b == b;
    } else {
      GrantsAppend(a[1..], b);
      assert (a + b)[1..] == a[1..] + b;
      Assoc(if Grants(a[0]) then [TrimEnd(GrantPart(a[0]))] else [], GrantsOf(a[1..]), GrantsOf(b));
    }
  }

  lemma {:induction false} SameGrants(a: seq<string>, b: seq<string>)
    requires |a| == |b| && forall i :: 0 <= i < |a| ==> Bare(a[i]) == Bare(b[i])
    ensures GrantsOf(a) == GrantsOf(b)
  {
    if a != [] {
      GrantsIsBare(a[0]);
      GrantsIsBare(b[0]);
      forall i | 0 <= i < |a[1..]|
        ensures Bare(a[1..][i]) == Bare(b[1..][i])
      {
        assert Bare(a[i + 1]) == Bare(b[i + 1]);
      }
      SameGrants(a[1..], b[1..]);
    }
  }

  lemma {:induction false} GrantsOfOthers(header: string, lines: seq<string>, roster: Roster)
    requires Mark(header)
    ensures GrantsOf(Others(header, lines, roster)) == GrantsOf(lines)
  {
    if lines != [] {
      GrantsOfOthers(header, lines[1..], roster);
      var rest := Others(header, lines[1..], roster);
      assert [] + rest == rest && [] + GrantsOf(lines[1..]) == GrantsOf(lines[1..]);
      if Trim(lines[0]) == header {
        if Grants(lines[0]) {
          GrantIsNotHeader(header, lines[0]);
        }
      } else {
        var one := Rendered(lines[0], roster);
        assert ([one] + rest)[1..] == rest;
        RenderedKeepsGrant(lines[0], roster);
        GrantsIsBare(lines[0]);
        GrantsIsBare(one);
      }
    }
  }

  /** Whatever the names contain and however lines end, a rendered file grants exactly what the
      original does, line for line in order; so the two counts of the summary agree as well. */
  lemma {:induction false} GrantsSurvive(header: string, text: string, roster: Roster)
    requires Mark(header)
    ensures GrantsOf(Lines(RenderSpec(header, text, roster))) == GrantsOf(Lines(text))
  {
    ReadBack(header, text, roster);
    GrantsOfSheet(header, text, roster);
    GrantsOfWhole(Sheet(header, text, roster), Closed(text));
  }

  lemma {:induction false} StripKeepsGrants(ls: seq<string>)
    ensures GrantsOf(Strip(ls)) == GrantsOf(ls)
  {
    forall i | 0 <= i < |ls|
      ensures Bare(Strip(ls)[i]) == Bare(ls[i])
    {
      StripKeepsGrant(ls[i]);
    }
    SameGrants(Strip(ls), ls);
  }

  lemma {:induction false} GrantsOfTail(last: string)
    ensures GrantsOf(Tail(last)) == GrantsOf([last])
  {
    GrantsIsBare("");
    if last == "" {
      assert GrantsOf([last]) == [] + GrantsOf([last][1..]);
    }
  }

  lemma {:induction false} GrantsOfWhole(sheet: seq<string>, closed: bool)
    requires sheet != []
    ensures var (front, last) := Whole(sheet, closed); GrantsOf(Strip(front) + Tail(last)) == GrantsOf(sheet)
  {
    var (front, last) := Whole(sheet, closed);
    StripKeepsGrants(front);
    GrantsAppend(Strip(front), Tail(last));
    if closed {
      assert GrantsOf(Tail(last)) == [];
    } else {
      assert front + [last] == sheet;
      GrantsAppend(front, [last]);
      GrantsOfTail(last);
    }
  }

  lemma {:induction false} GrantsOfSheet(header: string, text: string, roster: Roster)
    requires Mark(header)
    ensures GrantsOf(Sheet(header, text, roster)) == GrantsOf(Lines(text))
  {
    HeaderIsPlain(header, roster);
    FindIs(header, '#', 0);
    GrantsIsBare(header);
    GrantsOfOthers(header, Lines(text), roster);
    GrantsAppend([header], Others(header, Lines(text), roster));
    assert GrantsOf([header]) == [];
  }

  function HeadersIn(header: string, lines: seq<string>): nat {
    if lines == [] then 0 else (if Trim(lines[0]) == header then 1 else 0) + HeadersIn(header, lines[1..])
  }

  lemma {:induction false} CleanHasNoHeaders(header: string, ls: seq<string>)
    requires NoHeaders(header, ls)
    ensures HeadersIn(header, ls) == 0
  {
    if ls != [] {
      assert NoHeaders(header, ls[1..]);
      CleanHasNoHeaders(header, ls[1..]);
    }
  }

  // ---- what the lines read -----------------------------------------------------------------------------

  /** A name as a comment shows it: every character in its place, line breaks as spaces. */
  ghost predicate Reads(shown: string, name: string) {
    |shown| == |name| && forall i :: 0 <= i < |name| ==> shown[i] == if name[i] == '\n' || name[i] == '\r' then ' ' else name[i]
  }

  lemma {:induction false} FlattenReads(name: string)
    ensures Reads(Flatten(name), name)
  {
    if name != "" {
      FlattenReads(name[1..]);
    }
  }

  /** What `line` has become: the operator's own line as it was; or the same grant, with the name of its
      subject behind it in place of whatever comment there was, if there is a name. */
  ghost predicate Shows(line: string, out: string, roster: Roster) {
    if !Grants(line) then out == line
    else
      var subject, k := FirstWord(GrantPart(line)), Find(out, '#');
      && out[..k] == Bare(line) + (if subject in roster then "  " else "")
      && (k < |out| <==> subject in roster)
      && (subject in roster ==> k + 2 <= |out| && out[k + 1] == ' ' && Reads(out[k + 2..], roster[subject]))
  }

  lemma {:induction false} CommentAt(grant: string, name: string)
    requires '#' !in grant
    ensures var out := grant + ("  # " + name);
      Find(out, '#') == |grant| + 2 && out[..|grant| + 2] == grant + "  " && out[|grant| + 3] == ' ' && out[|grant| + 4..] == name
  {
    var out := grant + ("  # " + name);
    assert out[|grant|] == ' ' && out[|grant| + 1] == ' ' && out[|grant| + 2] == '#';
    FindIs(out, '#', |grant| + 2);
  }

  lemma {:induction false} RenderedShows(line: string, roster: Roster)
    ensures Shows(line, Rendered(line, roster), roster)
  {
    if Grants(line) {
      var grant := TrimEnd(GrantPart(line));
      FirstWordTrimmed(GrantPart(line));
      assert FirstWord(grant) == FirstWord(GrantPart(line));
      if FirstWord(grant) in roster {
        CommentAt(grant, Flatten(roster[FirstWord(grant)]));
        FlattenReads(roster[FirstWord(grant)]);
      } else {
        FindIs(grant, '#', |grant|);
        assert grant + "" == grant;
      }
    }
  }

  function NotHeaders(header: string, lines: seq<string>): seq<string> {
    if lines == [] then [] else (if Trim(lines[0]) == header then [] else [lines[0]]) + NotHeaders(header, lines[1..])
  }

  /** Behind the header come the lines of the original that are not one, each showing what it should. */
  lemma {:induction false} EveryLineShown(header: string, text: string, roster: Roster)
    ensures var kept, others := NotHeaders(header, Lines(text)), Others(header, Lines(text), roster);
      && RenderSpec(header, text, roster) == Shut(Join([header] + others), Closed(text))
      && |others| == |kept| && forall i :: 0 <= i < |kept| ==> Shows(kept[i], others[i], roster)
  {
    OthersShow(header, Lines(text), roster);
  }

  lemma {:induction false} OthersShow(header: string, lines: seq<string>, roster: Roster)
    ensures var kept, others := NotHeaders(header, lines), Others(header, lines, roster);
      |others| == |kept| && forall i :: 0 <= i < |kept| ==> Shows(kept[i], others[i], roster)
  {
    if lines != [] {
      OthersShow(header, lines[1..], roster);
      RenderedShows(lines[0], roster);
    }
  }

  /** However many headers the text has, the rendering has one, as its first line. */
  lemma {:induction false} HeaderOnce(header: string, text: string, roster: Roster)
    requires Mark(header)
    ensures var ls := Lines(RenderSpec(header, text, roster));
      ls != [] && ls[0] == header && HeadersIn(header, ls) == 1
  {
    ReadBack(header, text, roster);
    CleanHasNoHeaders(header, Lines(RenderSpec(header, text, roster))[1..]);
  }

  lemma {:induction false} MarkOfParts(a: string, b: string)
    requires a != "" && a[0] == '#' && b != "" && !White(b[|b| - 1])
    requires '\n' !in a && '\r' !in a && '\n' !in b && '\r' !in b
    ensures Mark(a + b)
  {
    assert (a + b)[|a + b| - 1] == b[|b| - 1];
    assert TrimStart(a + b) == a + b;
  }

  /** The header the command writes is one. */
  lemma {:induction false} HeaderIsMark()
    ensures Mark(HEADER)
  {
    var a, b, c, d := "# regenerated by ", "`choir acl render` ", "-- do not ", "hand-edit comments";
    MarkOfParts(a + b + c, d);
  }

  /** How many grant lines are rendered with a name behind them. */
  function Commented(lines: seq<string>, roster: Roster): nat {
    if lines == [] then 0
    else (if Grants(lines[0]) && '#' in Rendered(lines[0], roster) then 1 else 0) + Commented(lines[1..], roster)
  }

  /** The second number of the summary is the number of lines that got a name. */
  lemma {:induction false} NamedAreCommented(lines: seq<string>, roster: Roster)
    ensures Named(GrantsOf(lines), roster) == Commented(lines, roster)
  {
    if lines != [] {
      var line, rest := lines[0], GrantsOf(lines[1..]);
      NamedAreCommented(lines[1..], roster);
      assert [] + rest == rest;
      if Grants(line) {
        var grant := TrimEnd(GrantPart(line));
        assert ([grant] + rest)[1..] == rest;
        RenderedShows(line, roster);
        FirstWordTrimmed(GrantPart(line));
        var out := Rendered(line, roster);
        assert Find(out, '#') < |out| <==> '#' in out;
      }
    }
  }
}

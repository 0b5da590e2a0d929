/** `choir acl render` (crates/choir-cli/src/acl.rs): the comments of an authorization file are
    regenerated, and nothing else about it changes. */
module Acl {
  import opened Sequences
  import opened Text

  type Roster = map<string, string>

  // Spelled in pieces: the verifier looks into a literal one character at a time, and a short one is quick.
  const HEADER := "# regenerated by " + "`choir acl render` " + "-- do not " + "hand-edit comments"

  /** What stands before the first `#`. */
  function GrantPart(line: string): (g: string)
    ensures g <= line && '#' !in g
  {
    line[..Find(line, '#')]
  }

  /** What makes a line a header: a comment, on one line, with no white space around it. */
  predicate Mark(header: string) {
    header != "" && header[0] == '#' && '\n' !in header && '\r' !in header && Trim(header) == header
  }

  predicate Grants(line: string) {
    Trim(GrantPart(line)) != ""
  }

  /** Line breaks in a name become spaces. */
  function Flatten(name: string): (r: string)
    ensures |r| == |name| && '\n' !in r && '\r' !in r
  {
    if name == "" then ""
    else [if name[0] == '\n' || name[0] == '\r' then ' ' else name[0]] + Flatten(name[1..])
  }

  function Comment(grant: string, roster: Roster): (r: string)
    ensures r == "" || (|r| >= 4 && r[..4] == "  # " && '\n' !in r && '\r' !in r)
  {
    var subject := FirstWord(grant);
    if subject in roster then "  # " + Flatten(roster[subject]) else ""
  }

  /** What a line that is not the header becomes. */
  function Rendered(line: string, roster: Roster): string {
    if !Grants(line) then line
    else
      var grant := TrimEnd(GrantPart(line));
      grant + Comment(grant, roster)
  }

  function Others(header: string, lines: seq<string>, roster: Roster): seq<string> {
    if lines == [] then []
    else (if Trim(lines[0]) == header then [] else [Rendered(lines[0], roster)]) + Others(header, lines[1..], roster)
  }

  predicate Closed(text: string) {
    text == "" || text[|text| - 1] == '\n'
  }

  function Shut(whole: string, closed: bool): string {
    if closed || whole == "" then whole else whole[..|whole| - 1]
  }

  /** The rendered file: the header, then every other line rendered, ended the way the input was. */
  function RenderSpec(header: string, text: string, roster: Roster): string {
    Shut(Join([header] + Others(header, Lines(text), roster)), Closed(text))
  }

  method RenderLine(line: string, roster: Roster) returns (out: string)
    ensures out == Rendered(line, roster) + "\n"
  {
    var grant := GrantPart(line);
    if Trim(grant) == "" {
      return line + "\n";
    }
    grant := TrimEnd(grant);
    out := grant;
    var subject := FirstWord(grant);
    if subject in roster {
      out := out + "  # " + Flatten(roster[subject]);
      assert out == grant + Comment(grant, roster);
    }
    assert out == Rendered(line, roster);
    out := out + "\n";
  }

  lemma {:induction false} OthersFirst(header: string, lines: seq<string>, roster: Roster)
    requires lines != []
    ensures Trim(lines[0]) == header ==> Join(Others(header, lines, roster)) == Join(Others(header, lines[1..], roster))
    ensures Trim(lines[0]) != header ==>
              Join(Others(header, lines, roster)) == (Rendered(lines[0], roster) + "\n") + Join(Others(header, lines[1..], roster))
  {
    JoinAppend(if Trim(lines[0]) == header then [] else [Rendered(lines[0], roster)], Others(header, lines[1..], roster));
    assert Join([Rendered(lines[0], roster)]) == Rendered(lines[0], roster) + "\n" + Join([]);
  }

  /** What is still to be written from line `i` on. */
  ghost function Rest(header: string, lines: seq<string>, i: nat, roster: Roster): string
    requires i <= |lines|
  {
    Join(Others(header, lines[i..], roster))
  }

  lemma {:induction false} HeaderFirst(header: string, text: string, roster: Roster)
    ensures RenderSpec(header, text, roster) == Shut(header + "\n" + Rest(header, Lines(text), 0, roster), Closed(text))
  {
    var others := Others(header, Lines(text), roster);
    assert ([header] + others)[1..] == others;
    assert Lines(text)[0..] == Lines(text);
  }

  lemma {:induction false} RestFrom(header: string, lines: seq<string>, i: nat, roster: Roster)
    requires i < |lines|
    ensures Rest(header, lines, i, roster) ==
            if Trim(lines[i]) == header then Rest(header, lines, i + 1, roster)
            else (Rendered(lines[i], roster) + "\n") + Rest(header, lines, i + 1, roster)
  {
    OthersFirst(header, lines[i..], roster);
    assert lines[i..][1..] == lines[i + 1..];
  }

  /** What has been written and what is still to come make up the whole. */
  ghost predicate OnTheWay(wroteHeader: bool, out: string, head: string, rest: string, all: string) {
    if wroteHeader then out + rest == all else out == "" && head + rest == all
  }

  lemma {:induction false} OneMoreLine(wroteHeader: bool, out: string, head: string, line: string, rest: string, all: string)
    requires OnTheWay(wroteHeader, out, head, line + rest, all)
    ensures OnTheWay(true, (if wroteHeader then out else head) + line, head, rest, all)
  {
    Assoc(if wroteHeader then out else head, line, rest);
  }

  lemma {:induction false} NothingLeft(wroteHeader: bool, out: string, head: string, header: string, lines: seq<string>, roster: Roster, all: string)
    requires OnTheWay(wroteHeader, out, head, Rest(header, lines, |lines|, roster), all)
    ensures all == if wroteHeader then out else head
  {
    assert lines[|lines|..] == [];
    assert out + "" == out && head + "" == head;
  }

  /** The header, once, in front of the first line that is not one, or by itself. */
  method RenderLines(header: string, lines: seq<string>, roster: Roster) returns (out: string)
    ensures out == header + "\n" + Rest(header, lines, 0, roster)
  {
    out := "";
    var wroteHeader, i := false, 0;
    ghost var head := header + "\n";
    ghost var all := head + Rest(header, lines, 0, roster);
    while i < |lines|
      invariant i <= |lines| && OnTheWay(wroteHeader, out, head, Rest(header, lines, i, roster), all)
    {
      var line := lines[i];
      RestFrom(header, lines, i, roster);
      if Trim(line) != header {
        OneMoreLine(wroteHeader, out, head, Rendered(line, roster) + "\n", Rest(header, lines, i + 1, roster), all);
        if !wroteHeader {
          out := header + "\n";
          wroteHeader := true;
        }
        var rendered := RenderLine(line, roster);
        out := out + rendered;
      }
      i := i + 1;
    }
    NothingLeft(wroteHeader, out, head, header, lines, roster, all);
    if !wroteHeader {
      out := header + "\n";
    }
  }

  /** The rendering under a header; the command calls it with `HEADER`. */
  method RenderUnder(header: string, text: string, roster: Roster) returns (out: string)
    ensures out == RenderSpec(header, text, roster)
  {
    HeaderFirst(header, text, roster);
    out := RenderLines(header, Lines(text), roster);
    if !(text == "" || text[|text| - 1] == '\n') {
      out := out[..|out| - 1];
    }
  }

  method Render(text: string, roster: Roster) returns (out: string)
    ensures out == RenderSpec(HEADER, text, roster)
  {
    out := RenderUnder(HEADER, text, roster);
  }

  /** The grants of a file, in order: each line's text before its comment, without trailing space. */
  function GrantsOf(lines: seq<string>): seq<string> {
    if lines == [] then []
    else (if Grants(lines[0]) then [TrimEnd(GrantPart(lines[0]))] else []) + GrantsOf(lines[1..])
  }

  function Named(grants: seq<string>, roster: Roster): nat {
    if grants == [] then 0 else (if FirstWord(grants[0]) in roster then 1 else 0) + Named(grants[1..], roster)
  }

  lemma {:induction false} GrantsFirst(lines: seq<string>, roster: Roster)
    requires lines != []
    ensures Grants(lines[0]) ==>
              && |GrantsOf(lines)| == 1 + |GrantsOf(lines[1..])|
              && Named(GrantsOf(lines), roster) ==
                 (if FirstWord(GrantPart(lines[0])) in roster then 1 else 0) + Named(GrantsOf(lines[1..]), roster)
    ensures !Grants(lines[0]) ==> GrantsOf(lines) == GrantsOf(lines[1..])
  {
    var rest := GrantsOf(lines[1..]);
    if Grants(lines[0]) {
      var grant := TrimEnd(GrantPart(lines[0]));
      assert ([grant] + rest)[1..] == rest;
      FirstWordTrimmed(GrantPart(lines[0]));
    } else {
      assert [] + rest == rest;
    }
  }

  method Counts(text: string, roster: Roster) returns (grants: nat, named: nat)
    ensures grants == |GrantsOf(Lines(text))| && named == Named(GrantsOf(Lines(text)), roster)
  {
    grants, named := 0, 0;
    var lines, i := Lines(text), 0;
    while i < |lines|
      invariant i <= |lines|
      invariant grants + |GrantsOf(lines[i..])| == |GrantsOf(lines)|
      invariant named + Named(GrantsOf(lines[i..]), roster) == Named(GrantsOf(lines), roster)
    {
      var grant := GrantPart(lines[i]);
      GrantsFirst(lines[i..], roster);
      assert lines[i..][1..] == lines[i + 1..];
      if Trim(grant) != "" {
        grants := grants + 1;
        if FirstWord(grant) in roster {
          named := named + 1;
        }
      }
      i := i + 1;
    }
  }

  lemma {:induction false} FirstWordTrimmed(s: string)
    ensures FirstWord(TrimEnd(s)) == FirstWord(s)
  {
    if s != "" && White(s[|s| - 1]) {
      FirstWordTrimmed(s[..|s| - 1]);
      FirstWordAppend(s[..|s| - 1], s[|s| - 1..]);
      assert s[..|s| - 1] + s[|s| - 1..] == s;
    }
  }

  lemma {:induction false} FirstWordAppend(s: string, w: string)
    requires AllWhite(w)
    ensures FirstWord(s + w) == FirstWord(s)
  {
    TrimStartAppend(s, w);
    if AllWhite(s) {
      TrimStartWhite(s);
    } else {
      WordAppend(TrimStart(s), w);
    }
  }

  lemma {:induction false} WordAppend(s: string, w: string)
    requires AllWhite(w)
    ensures Word(s + w) == Word(s)
  {
    if s == "" {
      assert s + w == w;
    } else if !White(s[0]) {
      assert (s + w)[1..] == s[1..] + w;
      WordAppend(s[1..], w);
    }
  }
}
